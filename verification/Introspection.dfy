/** The topology page asks every breaker for its `State()`, which may itself move a breaker from
    OPEN to HALF-OPEN. The handler does so too, after every record, to show the state in a gauge.
    When can traffic tell whether anybody looked who need not have? */
module Introspection {
  import opened CircuitBreaker
  import opened BreakerRuns
  import opened Sequences

  predicate IsPoll(e: Event) {
    e.Poll?
  }

  predicate IsRecord(e: Event) {
    e.Succeed? || e.Fail?
  }

  /** No completion is recorded on a breaker that is OPEN with its timeout elapsed. */
  ghost predicate NoRipeRecord(o: Options, s: Status, es: seq<Event>) {
    forall i :: 0 <= i < |es| && IsRecord(es[i]) ==> !Ripe(o, StateAt(o, s, es, i), es[i].now)
  }

  /** Equal in everything but the time stamp shown to operators. */
  predicate Alike(a: Status, b: Status) {
    a.(lastStateChange := 0) == b.(lastStateChange := 0)
  }

  /** The breaker looked at more often is like the other, or like what the other would become. */
  predicate Twins(o: Options, polled: Status, base: Status, now: int) {
    Alike(polled, base) || Alike(polled, Resolved(o, base, now))
  }

  /** The two breakers answer the next `Allow` and the next `State` alike. */
  predicate SameAnswers(o: Options, a: Status, b: Status, now: int) {
    && Allowed(o, a, now) == Allowed(o, b, now)
    && Resolved(o, a, now).state == Resolved(o, b, now).state
  }

  lemma TwinsStep(o: Options, polled: Status, base: Status, before: int, e: Event)
    requires Twins(o, polled, base, before) && before <= e.now
    ensures SameAnswers(o, polled, base, e.now)
    ensures e.Poll? ==> Twins(o, Step(o, polled, e), base, e.now)
    ensures !(IsRecord(e) && Ripe(o, base, e.now)) ==> Twins(o, Step(o, polled, e), Step(o, base, e), e.now)
  {
  }

  ghost predicate EndsBy(es: seq<Event>, now: int) {
    forall i :: 0 <= i < |es| ==> es[i].now <= now
  }

  lemma NoRipeRecordSoFar(o: Options, s: Status, es: seq<Event>, e: Event)
    requires NoRipeRecord(o, s, es + [e])
    ensures NoRipeRecord(o, s, es)
    ensures IsRecord(e) ==> !Ripe(o, Run(o, s, es), e.now)
  {
    var longer := es + [e];
    assert longer[|es|] == e && longer[..|es|] == es;
    forall i | 0 <= i < |es| && IsRecord(es[i]) ensures !Ripe(o, StateAt(o, s, es, i), es[i].now) {
      assert longer[i] == es[i] && longer[..i] == es[..i];
    }
  }

  lemma {:induction false} PollsLeaveTwins(
      o: Options, start: nat, polled: seq<Event>, base: seq<Event>, now: int)
    requires Padded(polled, base, IsPoll)
    requires Timed(start, polled) && EndsBy(polled, now) && start <= now
    requires NoRipeRecord(o, Fresh(start), base)
    ensures Twins(o, Run(o, Fresh(start), polled), Run(o, Fresh(start), base), now)
  {
    var s := Fresh(start);
    if polled != [] {
      var e := Last(polled);
      if IsPoll(e) && Padded(Front(polled), base, IsPoll) {
        PollsLeaveTwins(o, start, Front(polled), base, e.now);
        TwinsStep(o, Run(o, s, Front(polled)), Run(o, s, base), e.now, e);
      } else {
        assert base == Front(base) + [e];
        NoRipeRecordSoFar(o, s, Front(base), e);
        PollsLeaveTwins(o, start, Front(polled), Front(base), e.now);
        TwinsStep(o, Run(o, s, Front(polled)), Run(o, s, Front(base)), e.now, e);
      }
    }
  }

  /** If `polled` is `base` with more looks, well timed, the breaker answers after the one as after
      the other, at any later time `now`. */
  ghost predicate Agree(o: Options, start: nat, base: seq<Event>, polled: seq<Event>, now: int) {
    Timed(start, polled) && EndsBy(polled, now) && start <= now && Padded(polled, base, IsPoll)
    ==> SameAnswers(o, Run(o, Fresh(start), polled), Run(o, Fresh(start), base), now)
  }

  /** No way of adding looks changes any answer, at any point of the run. */
  ghost predicate Transparent(o: Options, start: nat, base: seq<Event>) {
    forall n, polled, now :: 0 <= n <= |base| ==> Agree(o, start, base[..n], polled, now)
  }

  /** In any run, looks of its own included: looking more often is harmless exactly when no
      completion is recorded on a breaker that is OPEN with its timeout elapsed. */
  lemma PollsAreInvisibleIff(o: Options, start: nat, base: seq<Event>)
    requires Usable(o) && Timed(start, base)
    ensures Transparent(o, start, base) <==> NoRipeRecord(o, Fresh(start), base)
  {
    var s := Fresh(start);
    if NoRipeRecord(o, s, base) {
      forall n, polled, now | 0 <= n <= |base| ensures Agree(o, start, base[..n], polled, now) {
        if Timed(start, polled) && EndsBy(polled, now) && start <= now && Padded(polled, base[..n], IsPoll) {
          assert NoRipeRecord(o, s, base[..n]) by {
            forall i | 0 <= i < n ensures base[..n][..i] == base[..i] {}
          }
          PollsLeaveTwins(o, start, polled, base[..n], now);
          TwinsStep(o, Run(o, s, polled), Run(o, s, base[..n]), now, Poll(now));
        }
      }
    } else {
      var i :| 0 <= i < |base| && IsRecord(base[i]) && Ripe(o, StateAt(o, s, base, i), base[i].now);
      LookBeforeRecord(o, start, base, i);
    }
  }

  /** One look just before such a record changes the answer to the next look. */
  lemma LookBeforeRecord(o: Options, start: nat, base: seq<Event>, i: nat)
    requires Usable(o) && Timed(start, base) && i < |base|
    requires IsRecord(base[i]) && Ripe(o, StateAt(o, Fresh(start), base, i), base[i].now)
    ensures !Transparent(o, start, base)
  {
    var s, e := Fresh(start), base[i];
    var looked := base[..i] + [Poll(e.now)];
    var polled := looked + [e];
    RunExtended(o, s, base[..i], Poll(e.now));
    RunExtended(o, s, looked, e);
    RunNext(o, s, base, i);
    PaddedWithNothing(base[..i], IsPoll);
    assert Front(polled) == looked && Front(looked) == base[..i] == Front(base[..i + 1]);
    assert Padded(polled, base[..i + 1], IsPoll);
    assert !Agree(o, start, base[..i + 1], polled, e.now);
  }

  /** Requests admitted and not yet recorded. */
  function InFlight(o: Options, s: Status, es: seq<Event>): int {
    if es == [] then 0 else
      InFlight(o, s, Front(es)) +
      match Last(es)
      case Allow(now) => if Allowed(o, Run(o, s, Front(es)), now) then 1 else 0
      case Poll(_) => 0
      case _ => -1
  }

  /** At most one request is in flight at any time, and only requests in flight are recorded. */
  ghost predicate OneAtATime(o: Options, s: Status, es: seq<Event>) {
    forall i :: 0 <= i <= |es| ==> 0 <= InFlight(o, s, es[..i]) <= 1
  }

  lemma {:induction false} NothingInFlightWhileWaiting(o: Options, start: nat, es: seq<Event>)
    requires Usable(o) && OneAtATime(o, Fresh(start), es)
    ensures var b := Run(o, Fresh(start), es);
            b.state == Open || (b.state == HalfOpen && !b.probeInFlight)
            ==> InFlight(o, Fresh(start), es) == 0
  {
    if es != [] {
      assert es[..|es|] == es && es[..|es| - 1] == Front(es);
      forall i | 0 <= i <= |es| - 1 ensures Front(es)[..i] == es[..i] {}
      NothingInFlightWhileWaiting(o, start, Front(es));
    }
  }

  /** One request at a time per breaker is enough for looking to be harmless. */
  lemma OneAtATimeIsTransparent(o: Options, start: nat, base: seq<Event>)
    requires Usable(o) && Timed(start, base) && OneAtATime(o, Fresh(start), base)
    ensures Transparent(o, start, base)
  {
    forall i | 0 <= i < |base| && IsRecord(base[i])
      ensures !Ripe(o, StateAt(o, Fresh(start), base, i), base[i].now)
    {
      forall k | 0 <= k <= i ensures base[..i][..k] == base[..k] {}
      NothingInFlightWhileWaiting(o, start, base[..i]);
      assert Front(base[..i + 1]) == base[..i];
    }
    PollsAreInvisibleIff(o, start, base);
  }

  /** Two requests in flight are enough to break it: the first failure trips a breaker of
      threshold one, and the second request outlives the recovery timeout. The handler looks after
      each record, as it always does; that does not help. */
  lemma TwoInFlightAreSeen(timeout: nat)
    requires timeout > 0
    ensures var run := [Allow(0), Allow(0), Fail(1), Poll(1), Succeed(1 + timeout), Poll(1 + timeout)];
            && !Transparent(Options(1, timeout), 0, run)
            && forall i :: 0 <= i <= |run| ==> 0 <= InFlight(Options(1, timeout), Fresh(0), run[..i]) <= 2
  {
    var o, s := Options(1, timeout), Fresh(0);
    var run := [Allow(0), Allow(0), Fail(1), Poll(1), Succeed(1 + timeout), Poll(1 + timeout)];
    assert run[..0] == [] && run[..6] == run;
    forall i | 0 <= i < 6 ensures Front(run[..i + 1]) == run[..i] {}
    assert Run(o, s, run[..1]) == s && InFlight(o, s, run[..1]) == 1;
    assert Run(o, s, run[..2]) == s && InFlight(o, s, run[..2]) == 2;
    assert Run(o, s, run[..3]) == AfterFailure(o, s, 1) && InFlight(o, s, run[..3]) == 1;
    assert Run(o, s, run[..4]) == AfterFailure(o, s, 1) && InFlight(o, s, run[..4]) == 1;
    assert InFlight(o, s, run[..5]) == 0 && InFlight(o, s, run) == 0;
    LookBeforeRecord(o, 0, run, 4);
  }

  /** With a third request, whose handler looks once the timeout has elapsed, the same two requests
      give nothing away: the looks a run has of its own matter. */
  lemma OwnLooksCount(timeout: nat)
    requires timeout > 1
    ensures var own := [Allow(0), Allow(0), Allow(0), Fail(1), Poll(1), Succeed(2), Poll(1 + timeout),
                        Succeed(1 + timeout)];
            && Transparent(Options(1, timeout), 0, own)
            && !Transparent(Options(1, timeout), 0, own[..4] + [Succeed(2), Succeed(1 + timeout)])
  {
    var o, s, t := Options(1, timeout), Fresh(0), 1 + timeout;
    var own := [Allow(0), Allow(0), Allow(0), Fail(1), Poll(1), Succeed(2), Poll(t), Succeed(t)];
    var bare := own[..4] + [Succeed(2), Succeed(t)];
    var tripped := AfterFailure(o, s, 1);
    forall i | 0 <= i < 8 ensures StateAt(o, s, own, i + 1) == Step(o, StateAt(o, s, own, i), own[i]) {
      RunNext(o, s, own, i);
    }
    assert StateAt(o, s, own, 0) == s && StateAt(o, s, own, 1) == s && StateAt(o, s, own, 2) == s;
    assert StateAt(o, s, own, 3) == s && StateAt(o, s, own, 4) == tripped;
    assert StateAt(o, s, own, 5) == tripped && StateAt(o, s, own, 6) == tripped;
    assert StateAt(o, s, own, 7) == Resolved(o, tripped, t);
    PollsAreInvisibleIff(o, 0, own);
    RunNext(o, s, bare, 4);
    assert bare[..4] == own[..4] && StateAt(o, s, bare, 5) == tripped;
    LookBeforeRecord(o, 0, bare, 5);
  }
}
