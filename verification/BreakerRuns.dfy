/** Whole runs of one breaker: any sequence of locked calls, in any order.

    Completions may be stale: a record may arrive in any state, whoever it belongs to. The only
    assumption the theorems ever make about a run is that the clock does not go backwards. */
module BreakerRuns {
  import opened CircuitBreaker
  import opened Arithmetic
  import opened Sequences

  datatype Event =
    | Allow(now: nat)
    | Succeed(now: nat)
    | Fail(now: nat)
    | Poll(now: nat)

  function Step(o: Options, s: Status, e: Event): Status {
    match e
    case Allow(now) => AfterAllow(o, s, now)
    case Succeed(now) => AfterSuccess(s, now)
    case Fail(now) => AfterFailure(o, s, now)
    case Poll(now) => Resolved(o, s, now)
  }

  function Run(o: Options, s: Status, es: seq<Event>): Status {
    if es == [] then s else Step(o, Run(o, s, Front(es)), Last(es))
  }

  /** The state in which event `i` finds the breaker. */
  function StateAt(o: Options, s: Status, es: seq<Event>, i: nat): Status
    requires i <= |es|
  {
    Run(o, s, es[..i])
  }

  lemma RunNext(o: Options, s: Status, es: seq<Event>, i: nat)
    requires i < |es|
    ensures StateAt(o, s, es, i + 1) == Step(o, StateAt(o, s, es, i), es[i])
  {
    assert Front(es[..i + 1]) == es[..i];
  }

  lemma RunExtended(o: Options, s: Status, es: seq<Event>, e: Event)
    ensures Run(o, s, es + [e]) == Step(o, Run(o, s, es), e)
  {
    assert Front(es + [e]) == es;
  }

  /** The clock never goes backwards, and the run begins no earlier than `start`. */
  ghost predicate Timed(start: nat, es: seq<Event>) {
    && (forall i :: 0 <= i < |es| ==> start <= es[i].now)
    && (forall i, j :: 0 <= i <= j < |es| ==> es[i].now <= es[j].now)
  }

  // ----- Invariant and meaning of the failure count -----

  /** Failures recorded while not OPEN since the last success recorded while not OPEN. */
  function Streak(o: Options, s: Status, es: seq<Event>): nat {
    if es == [] then 0 else
      var before := Streak(o, s, Front(es));
      if Run(o, s, Front(es)).state == Open then before
      else match Last(es)
        case Succeed(_) => 0
        case Fail(_) => before + 1
        case _ => before
  }

  /** In every reachable state the failure count is the streak of the history, and the breaker is
      CLOSED exactly while that streak is below the threshold. */
  lemma {:induction false} StreakGovernsState(o: Options, start: nat, es: seq<Event>)
    requires Usable(o)
    ensures Consistent(o, Run(o, Fresh(start), es))
    ensures Run(o, Fresh(start), es).consecutiveFails == Streak(o, Fresh(start), es)
    ensures Run(o, Fresh(start), es).state == Closed
            <==> Streak(o, Fresh(start), es) < o.failureThreshold
  {
    if es != [] {
      StreakGovernsState(o, start, Front(es));
    }
  }

  /** Time of the latest state transition, or of the start if there was none. */
  function LastChange(o: Options, start: nat, es: seq<Event>): int {
    if es == [] then start
    else if Run(o, Fresh(start), es).state != Run(o, Fresh(start), Front(es)).state then Last(es).now
    else LastChange(o, start, Front(es))
  }

  /** The time stamps tell the truth: `lastStateChange` is the latest transition, and while OPEN so
      is `openedAt`, from which the recovery timeout counts. */
  lemma {:induction false} StampsAreHonest(o: Options, start: nat, es: seq<Event>)
    requires Usable(o)
    ensures var b := Run(o, Fresh(start), es);
            && b.lastStateChange == LastChange(o, start, es)
            && (b.state == Open ==> b.openedAt == LastChange(o, start, es))
  {
    StreakGovernsState(o, start, es);
    if es != [] {
      StampsAreHonest(o, start, Front(es));
    }
  }

  // ----- Where every failure went -----

  /** CLOSED to OPEN transitions. */
  function Trips(o: Options, s: Status, es: seq<Event>): nat {
    if es == [] then 0 else
      Trips(o, s, Front(es))
      + if Run(o, s, Front(es)).state == Closed && Run(o, s, es).state == Open then 1 else 0
  }

  /** HALF-OPEN to OPEN transitions. */
  function Reopens(o: Options, s: Status, es: seq<Event>): nat {
    if es == [] then 0 else
      Reopens(o, s, Front(es))
      + if Run(o, s, Front(es)).state == HalfOpen && Run(o, s, es).state == Open then 1 else 0
  }

  /** Failures recorded while the breaker was not OPEN. */
  function CountedFails(o: Options, s: Status, es: seq<Event>): nat {
    if es == [] then 0 else
      CountedFails(o, s, Front(es))
      + if Last(es).Fail? && Run(o, s, Front(es)).state != Open then 1 else 0
  }

  /** Failures that a success recorded while CLOSED wiped out. */
  function Forgiven(o: Options, s: Status, es: seq<Event>): nat {
    if es == [] then 0 else
      Forgiven(o, s, Front(es))
      + if Last(es).Succeed? && Run(o, s, Front(es)).state == Closed
        then Streak(o, s, Front(es)) else 0
  }

  function FailsRecorded(es: seq<Event>): nat {
    if es == [] then 0 else FailsRecorded(Front(es)) + if Last(es).Fail? then 1 else 0
  }

  lemma LedgerStep(o: Options, b: Status, e: Event)
    requires Usable(o) && Consistent(o, b)
    ensures var after := Step(o, b, e);
            (if e.Fail? && b.state != Open then 1 else 0)
            == (if b.state == Closed && after.state == Open then o.failureThreshold else 0)
               + (if b.state == HalfOpen && after.state == Open then 1 else 0)
               + (if e.Succeed? && b.state == Closed then b.consecutiveFails else 0)
               + (if after.state == Closed then after.consecutiveFails else 0)
               - (if b.state == Closed then b.consecutiveFails else 0)
  {
  }

  /** Every counted failure is one of: a full threshold's worth behind a trip, the one failure
      behind a re-open, forgiven, or still in the current streak. */
  lemma {:induction false} FailureLedger(o: Options, start: nat, es: seq<Event>)
    requires Usable(o)
    ensures var s := Fresh(start);
            CountedFails(o, s, es)
            == Trips(o, s, es) * o.failureThreshold + Reopens(o, s, es) + Forgiven(o, s, es)
               + if Run(o, s, es).state == Closed then Streak(o, s, es) else 0
    ensures CountedFails(o, Fresh(start), es) <= FailsRecorded(es)
  {
    if es != [] {
      FailureLedger(o, start, Front(es));
      StreakGovernsState(o, start, Front(es));
      StreakGovernsState(o, start, es);
      LedgerStep(o, Run(o, Fresh(start), Front(es)), Last(es));
      OneMoreTime(Trips(o, Fresh(start), Front(es)), o.failureThreshold);
    }
  }

  /** What tripping costs, over any run. */
  lemma TripCost(o: Options, start: nat, es: seq<Event>)
    requires Usable(o)
    ensures Trips(o, Fresh(start), es) * o.failureThreshold + Reopens(o, Fresh(start), es)
            <= FailsRecorded(es)
  {
    FailureLedger(o, start, es);
  }

  // ----- Half-open episodes and probes -----

  /** OPEN to HALF-OPEN transitions, whoever caused them (`Allow` also takes the slot at once). */
  function Episodes(o: Options, s: Status, es: seq<Event>): nat {
    if es == [] then 0 else
      Episodes(o, s, Front(es)) + Entered(Run(o, s, Front(es)), Run(o, s, es))
  }

  function Entered(before: Status, after: Status): nat {
    if before.state == Open && after.state == HalfOpen then 1 else 0
  }

  /** Event `i` is an `Allow` that answers true. */
  predicate IsAdmission(o: Options, s: Status, es: seq<Event>, i: nat)
    requires i < |es|
  {
    es[i].Allow? && Allowed(o, StateAt(o, s, es, i), es[i].now)
  }

  /** Event `i` is an admission that took the probe slot. */
  predicate IsProbe(o: Options, s: Status, es: seq<Event>, i: nat)
    requires i < |es|
  {
    IsAdmission(o, s, es, i) && StateAt(o, s, es, i).state != Closed
  }

  lemma EpisodesNext(o: Options, s: Status, es: seq<Event>, i: nat)
    requires i < |es|
    ensures Episodes(o, s, es[..i + 1])
            == Episodes(o, s, es[..i]) + Entered(StateAt(o, s, es, i), StateAt(o, s, es, i + 1))
  {
    assert Front(es[..i + 1]) == es[..i];
  }

  /** What a breaker still shows, at time `now` and in episode `here`, of a probe it admitted at
      time `t` in episode `mine`. */
  ghost predicate Remembers(o: Options, b: Status, now: int, here: nat, t: int, mine: nat) {
    && mine <= here
    && (b.state == Open ==> t <= b.openedAt)
    && (b.state == HalfOpen && !b.probeInFlight ==>
          mine < here && t + o.recoveryTimeout <= b.lastStateChange)
    && (b.state == HalfOpen ==> b.lastStateChange <= now)
  }

  lemma StillRemembers(o: Options, b: Status, e: Event, now: int, here: nat, t: int, mine: nat)
    requires Usable(o) && Consistent(o, b) && t <= now <= e.now
    requires Remembers(o, b, now, here, t, mine)
    ensures Remembers(o, Step(o, b, e), e.now, here + Entered(b, Step(o, b, e)), t, mine)
  {
  }

  lemma ProbeIsRemembered(o: Options, b: Status, t: int, here: nat)
    requires Allowed(o, b, t) && b.state != Closed && b.lastStateChange <= t
    ensures var after := AfterAllow(o, b, t);
            Remembers(o, after, t, here + Entered(b, after), t, here + Entered(b, after))
  {
  }

  /** What the breaker shows after n events of the probe that was event i. */
  ghost predicate RemembersProbe(o: Options, s: Status, es: seq<Event>, i: nat, n: nat)
    requires i < n <= |es|
  {
    Remembers(o, StateAt(o, s, es, n), es[n - 1].now, Episodes(o, s, es[..n]),
              es[i].now, Episodes(o, s, es[..i + 1]))
  }

  lemma StillRemembersProbe(o: Options, start: nat, es: seq<Event>, i: nat, n: nat)
    requires Usable(o) && Timed(start, es) && i < n < |es|
    requires RemembersProbe(o, Fresh(start), es, i, n)
    ensures RemembersProbe(o, Fresh(start), es, i, n + 1)
  {
    var s := Fresh(start);
    StreakGovernsState(o, start, es[..n]);
    RunNext(o, s, es, n);
    EpisodesNext(o, s, es, n);
    StillRemembers(o, StateAt(o, s, es, n), es[n], es[n - 1].now, Episodes(o, s, es[..n]),
                   es[i].now, Episodes(o, s, es[..i + 1]));
  }

  lemma JustProbed(o: Options, start: nat, es: seq<Event>, i: nat)
    requires Timed(start, es) && i < |es| && IsProbe(o, Fresh(start), es, i)
    ensures RemembersProbe(o, Fresh(start), es, i, i + 1)
  {
    var s := Fresh(start);
    RunNext(o, s, es, i);
    EpisodesNext(o, s, es, i);
    ChangesAreInThePast(o, start, es, i);
    ProbeIsRemembered(o, StateAt(o, s, es, i), es[i].now, Episodes(o, s, es[..i]));
  }

  lemma {:induction false} ProbeRemembered(o: Options, start: nat, es: seq<Event>, i: nat, n: nat)
    requires Usable(o) && Timed(start, es) && i < n <= |es|
    requires IsProbe(o, Fresh(start), es, i)
    ensures RemembersProbe(o, Fresh(start), es, i, n)
  {
    if i + 1 < n {
      ProbeRemembered(o, start, es, i, n - 1);
      StillRemembersProbe(o, start, es, i, n - 1);
    } else {
      JustProbed(o, start, es, i);
    }
  }

  lemma {:induction false} ChangesAreInThePast(o: Options, start: nat, es: seq<Event>, n: nat)
    requires Timed(start, es) && n < |es|
    ensures StateAt(o, Fresh(start), es, n).lastStateChange <= es[n].now
  {
    if n > 0 {
      RunNext(o, Fresh(start), es, n - 1);
      ChangesAreInThePast(o, start, es, n - 1);
    }
  }

  /** Two probes of one breaker belong to different half-open episodes, so an episode admits at
      most one; and they are at least the recovery timeout apart, whatever else was recorded. */
  lemma ProbesAreApart(o: Options, start: nat, es: seq<Event>, i: nat, j: nat)
    requires Usable(o) && Timed(start, es) && i < j < |es|
    requires IsProbe(o, Fresh(start), es, i) && IsProbe(o, Fresh(start), es, j)
    ensures es[i].now + o.recoveryTimeout <= es[j].now
    ensures Episodes(o, Fresh(start), es[..i + 1]) < Episodes(o, Fresh(start), es[..j + 1])
  {
    ProbeRemembered(o, start, es, i, j);
    RunNext(o, Fresh(start), es, j);
    EpisodesNext(o, Fresh(start), es, j);
  }

  /** Probes among the first `n` events whose time lies in `[a, a + length]`. */
  function ProbesWithin(o: Options, s: Status, es: seq<Event>, n: nat, a: nat, length: nat): nat
    requires n <= |es|
  {
    if n == 0 then 0 else
      ProbesWithin(o, s, es, n - 1, a, length)
      + if IsProbe(o, s, es, n - 1) && a <= es[n - 1].now <= a + length then 1 else 0
  }

  /** Admissions among the first `n` events whose time lies in `[a, a + length]`. */
  function AdmissionsWithin(o: Options, s: Status, es: seq<Event>, n: nat, a: nat, length: nat): nat
    requires n <= |es|
  {
    if n == 0 then 0 else
      AdmissionsWithin(o, s, es, n - 1, a, length)
      + if IsAdmission(o, s, es, n - 1) && a <= es[n - 1].now <= a + length then 1 else 0
  }

  lemma BudgetForOneMore(o: Options, start: nat, es: seq<Event>, i: nat, j: nat, a: nat)
    requires Usable(o) && Timed(start, es) && i < j < |es| && a <= es[i].now
    requires IsProbe(o, Fresh(start), es, i) && IsProbe(o, Fresh(start), es, j)
    ensures Budget(es[i].now - a, o.recoveryTimeout, 1) + 1 <= Budget(es[j].now - a, o.recoveryTimeout, 1)
  {
    ProbesAreApart(o, start, es, i, j);
    BudgetGrows(es[i].now - a, es[j].now - a, o.recoveryTimeout, 1);
  }

  lemma {:induction false} LatestProbe(o: Options, start: nat, es: seq<Event>, n: nat, a: nat, length: nat)
      returns (i: nat)
    requires Usable(o) && Timed(start, es) && n <= |es|
    requires ProbesWithin(o, Fresh(start), es, n, a, length) > 0
    ensures i < n && IsProbe(o, Fresh(start), es, i) && a <= es[i].now <= a + length
    ensures ProbesWithin(o, Fresh(start), es, n, a, length)
            <= Budget(es[i].now - a, o.recoveryTimeout, 1) + 1
  {
    var s := Fresh(start);
    i := n - 1;
    if ProbesWithin(o, s, es, n - 1, a, length) > 0 {
      var before := LatestProbe(o, start, es, n - 1, a, length);
      if IsProbe(o, s, es, n - 1) && a <= es[n - 1].now <= a + length {
        BudgetForOneMore(o, start, es, before, n - 1, a);
      } else {
        i := before;
      }
    }
  }

  /** Any closed interval of the given length sees at most floor(length / recoveryTimeout) + 1
      probes, and that bounds all admissions if no `Allow` in it finds the breaker CLOSED. */
  lemma ProbeRate(o: Options, start: nat, es: seq<Event>, a: nat, length: nat)
    requires Usable(o) && Timed(start, es)
    ensures ProbesWithin(o, Fresh(start), es, |es|, a, length) <= length / o.recoveryTimeout + 1
    ensures NeverClosedWithin(o, Fresh(start), es, a, length)
            ==> AdmissionsWithin(o, Fresh(start), es, |es|, a, length)
                <= length / o.recoveryTimeout + 1
  {
    ProbesAreFew(o, start, es, a, length);
    if NeverClosedWithin(o, Fresh(start), es, a, length) {
      OnlyProbes(o, Fresh(start), es, |es|, a, length);
    }
  }

  lemma ProbesAreFew(o: Options, start: nat, es: seq<Event>, a: nat, length: nat)
    requires Usable(o) && Timed(start, es)
    ensures ProbesWithin(o, Fresh(start), es, |es|, a, length) <= length / o.recoveryTimeout + 1
  {
    BudgetIsProduct(length, o.recoveryTimeout, 1);
    if ProbesWithin(o, Fresh(start), es, |es|, a, length) > 0 {
      var i := LatestProbe(o, start, es, |es|, a, length);
      BudgetGrows(es[i].now - a, length, o.recoveryTimeout, 1);
    }
  }

  /** No call made in `[a, a + length]` finds the breaker CLOSED. */
  ghost predicate NeverClosedWithin(o: Options, s: Status, es: seq<Event>, a: nat, length: nat) {
    forall i :: 0 <= i < |es| && a <= es[i].now <= a + length ==> StateAt(o, s, es, i).state != Closed
  }

  lemma {:induction false} OnlyProbes(o: Options, s: Status, es: seq<Event>, n: nat, a: nat, length: nat)
    requires n <= |es|
    requires NeverClosedWithin(o, s, es, a, length)
    ensures AdmissionsWithin(o, s, es, n, a, length) == ProbesWithin(o, s, es, n, a, length)
  {
    if n > 0 {
      OnlyProbes(o, s, es, n - 1, a, length);
    }
  }
}
