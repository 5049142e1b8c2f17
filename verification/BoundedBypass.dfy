/** A healthy instance with a CLOSED breaker cannot be passed over for long, whatever health
    checkers, dashboards, other instances and other requests do in the meantime; and a scan that
    nobody interrupts does exactly what `Registry.Next` does. */
module BoundedBypass {
  import opened CircuitBreaker
  import opened Arithmetic
  import opened Registry
  import opened Rotation
  import opened Gateway
  import opened GatewaySafety
  import opened Sequences
  import opened Wrappers

  predicate Up(g: System, i: nat) {
    && i < |g.nodes|
    && g.nodes[i].endpoint.healthy
    && g.nodes[i].endpoint.breaker.state == Closed
  }

  /** Instance i is up in every state of the run, the first and the last included. */
  predicate StaysUp(c: Setup, g: System, more: seq<Action>, i: nat) {
    Up(Exec(c, g, more), i) && (more != [] ==> StaysUp(c, g, Front(more), i))
  }

  /** Calls of `Next` that have returned. */
  function Completed(g: System): int {
    g.calls - InScan(g)
  }

  /** The scan in progress has already examined a candidate. */
  function Busy(g: System): nat {
    match g.scan
    case Idle => 0
    case Examining(seen) => if seen > 0 then 1 else 0
    case Permitting(_, _) => 1
  }

  /** Every call completed since `start` has examined a candidate of its own, except that the call
      in progress at the start may have done so before. */
  predicate Paced(start: System, g: System) {
    Completed(g) + Busy(g) <= Completed(start) + Busy(start) + g.examined - start.examined
  }

  /** Candidate number `turn` is instance i; it is still to come, or is just being asked. */
  predicate Waiting(g: System, turn: nat, i: nat) {
    g.examined <= turn || (g.examined == turn + 1 && g.scan.Permitting? && g.scan.index == i)
  }

  lemma {:induction false} AdvanceTwice(cursor: nat, j: nat, k: nat)
    ensures Advance(Advance(cursor, j), k) == Advance(cursor, j + k)
  {
    if k > 0 {
      AdvanceTwice(cursor, j, k - 1);
    }
  }

  /** No action takes a request off an instance's account ... */
  lemma NothingIsUnhandled(c: Setup, g: System, a: Action, i: nat)
    requires SystemInv(c, g) && i < |g.nodes|
    ensures i < |Apply(c, g, a).nodes|
    ensures g.nodes[i].Handled() <= Apply(c, g, a).nodes[i].Handled()
  {
    if a.TryAllow? {
      AskingTakesNothing(c, g, i);
    } else if a.At? {
      ActHandlesAsMany(c.opts, g.nodes[i], a.what, g.now);
    }
  }

  lemma AskingTakesNothing(c: Setup, g: System, i: nat)
    requires SystemInv(c, g) && i < |g.nodes|
    ensures i < |AtBreaker(c, g).nodes|
    ensures g.nodes[i].Handled() <= AtBreaker(c, g).nodes[i].Handled()
  {
    if g.scan.Permitting? && g.scan.index == i {
      assert Numbered(g.nodes[i], g.calls);
      AcquireHandlesOne(c.opts, c.parses[i], g.nodes[i], g.calls, g.now);
    }
  }

  /** ... and asking an instance that is up adds one. */
  lemma AskingAdds(c: Setup, g: System, i: nat)
    requires SystemInv(c, g) && g.scan.Permitting? && g.scan.index == i && Up(g, i)
    ensures i < |AtBreaker(c, g).nodes|
    ensures g.nodes[i].Handled() < AtBreaker(c, g).nodes[i].Handled()
  {
    assert Numbered(g.nodes[i], Limit(g));
    AcquireHandlesOne(c.opts, c.parses[i], g.nodes[i], g.calls, g.now);
  }

  lemma PacedStep(c: Setup, start: System, g: System, a: Action)
    requires ScanInRange(g) && g.nodes != [] && Paced(start, g)
    ensures Paced(start, Apply(c, g, a))
  {
  }

  lemma WaitingStep(c: Setup, g: System, a: Action, turn: nat, i: nat)
    requires g.cursor == Advance(0, g.examined) && Up(g, i) && Waiting(g, turn, i)
    requires Candidate(0, turn, |g.nodes|) == i
    ensures Waiting(Apply(c, g, a), turn, i)
            || (a.TryAllow? && g.scan.Permitting? && g.scan.index == i)
  {
  }

  /** Since `start` every call has been at work, and instance i was served unless its turn is still
      to come. */
  ghost predicate ServedOrWaiting(c: Setup, start: System, g: System, turn: nat, i: nat) {
    && SystemInv(c, g)
    && Paced(start, g)
    && i < |start.nodes| && i < |g.nodes|
    && (Waiting(g, turn, i) || start.nodes[i].Handled() < g.nodes[i].Handled())
    && start.nodes[i].Handled() <= g.nodes[i].Handled()
  }

  lemma OneMoreAction(c: Setup, start: System, g: System, a: Action, turn: nat, i: nat)
    requires Usable(c.opts) && Up(g, i) && ServedOrWaiting(c, start, g, turn, i)
    requires Candidate(0, turn, |g.nodes|) == i
    ensures ServedOrWaiting(c, start, Apply(c, g, a), turn, i)
  {
    ActionKeeps(c, g, a);
    PacedStep(c, start, g, a);
    NothingIsUnhandled(c, g, a, i);
    if Waiting(g, turn, i) {
      WaitingStep(c, g, a, turn, i);
      if a.TryAllow? && g.scan.Permitting? && g.scan.index == i {
        AskingAdds(c, g, i);
      }
    }
  }

  lemma {:induction false} StillWaiting(c: Setup, start: System, more: seq<Action>, turn: nat, i: nat)
    requires Usable(c.opts) && SystemInv(c, start)
    requires StaysUp(c, start, more, i) && i < |c.parses|
    requires Candidate(0, turn, |c.parses|) == i && start.examined <= turn
    ensures ServedOrWaiting(c, start, Exec(c, start, more), turn, i)
  {
    if more != [] {
      assert Up(Exec(c, start, Front(more)), i);
      StillWaiting(c, start, Front(more), turn, i);
      OneMoreAction(c, start, Exec(c, start, Front(more)), Last(more), turn, i);
    }
  }

  /** Candidates examined until every instance has surely had its turn: one lap, and if the cursor
      wraps on it to the detriment of somebody, then the way to the wrap and one lap from there. */
  function Lap(cursor: nat, n: nat): (length: int)
    requires n > 0
    ensures ScanIsSmooth(cursor, n) ==> length == n
    ensures cursor < CURSOR_MODULUS ==> n <= length < 2 * n
  {
    if ScanIsSmooth(cursor, n) then n else CURSOR_MODULUS - cursor + n
  }

  lemma TurnComes(cursor: nat, examined: nat, n: nat, i: nat) returns (turn: nat)
    requires cursor == Advance(0, examined) && cursor < CURSOR_MODULUS
    requires i < n <= CURSOR_MODULUS
    ensures examined <= turn < examined + Lap(cursor, n) && Candidate(0, turn, n) == i
  {
    if ScanIsSmooth(cursor, n) {
      var d := Distance(cursor, n, i);
      DistanceReaches(cursor, n, i);
      SmoothCandidate(cursor, d, n);
      AdvanceTwice(0, examined, d);
      turn := examined + d;
    } else {
      var d := CURSOR_MODULUS - cursor + i;
      AdvanceIsModular(cursor, d);
      Residue(1, CURSOR_MODULUS, i);
      AdvanceTwice(0, examined, d);
      Residue(0, n, i);
      turn := examined + d;
    }
  }

  lemma LapIsOver(start: System, g: System, lap: int, turn: nat, i: nat)
    requires Paced(start, g) && turn < start.examined + lap
    requires Completed(g) >= Completed(start) + lap + Busy(start)
    ensures !Waiting(g, turn, i)
  {
  }

  /** From any reachable state: while instance i stays up, one lap's worth of completed calls of
      `Next` (one more, if a call is already in the middle of its scan) sends it at least one
      request. That is as many calls as there are instances if the cursor does not wrap in the middle
      of that lap, or wrapping does not matter; and fewer than twice as many in any case. */
  lemma UpMeansServed(c: Setup, actions: seq<Action>, more: seq<Action>, i: nat)
    requires Usable(c.opts) && i < |c.parses| <= CURSOR_MODULUS
    requires var g := Exec(c, Init(c), actions);
             && StaysUp(c, g, more, i)
             && Completed(Exec(c, g, more)) >= Completed(g) + Lap(g.cursor, |c.parses|) + Busy(g)
    ensures var g := Exec(c, Init(c), actions);
            var later := Exec(c, g, more);
            && i < |g.nodes| && i < |later.nodes|
            && g.nodes[i].Handled() < later.nodes[i].Handled()
  {
    Always(c, actions);
    var g := Exec(c, Init(c), actions);
    var turn := TurnComes(g.cursor, g.examined, |c.parses|, i);
    StillWaiting(c, g, more, turn, i);
    LapIsOver(g, Exec(c, g, more), Lap(g.cursor, |c.parses|), turn, i);
  }

  // ----- A scan on its own -----

  function EndpointsOf(nodes: seq<Node>): seq<Endpoint> {
    seq(|nodes|, i requires 0 <= i < |nodes| => nodes[i].endpoint)
  }

  function Turns(m: nat): seq<Action> {
    if m == 0 then [] else [ReadHealth, TryAllow] + Turns(m - 1)
  }

  lemma OneTurn(c: Setup, g: System, rest: seq<Action>)
    ensures Exec(c, g, [ReadHealth, TryAllow] + rest) == Exec(c, AtBreaker(c, AtHealth(g)), rest)
  {
    ExecTwice(c, g, [ReadHealth, TryAllow], rest);
    assert [ReadHealth, TryAllow] == [ReadHealth] + [TryAllow];
    ExecTwice(c, g, [ReadHealth], [TryAllow]);
    OneAction(c, g, ReadHealth);
    OneAction(c, AtHealth(g), TryAllow);
  }

  lemma {:induction false} NothingToScan(c: Setup, g: System, m: nat)
    requires g.scan == Idle
    ensures Exec(c, g, Turns(m)) == g
  {
    if m > 0 {
      OneTurn(c, g, Turns(m - 1));
      NothingToScan(c, g, m - 1);
    }
  }

  /** One turn, in terms of the candidate's availability alone. */
  lemma TurnIsExamination(c: Setup, g: System)
    requires ScanInRange(g) && g.scan.Examining? && |g.nodes| == |c.parses|
    ensures var i := g.cursor % |g.nodes|;
            var eps, after := EndpointsOf(g.nodes), AtBreaker(c, AtHealth(g));
            var available := Available(c.opts, eps[i], g.now);
            && after.cursor == Bump(g.cursor) && after.calls == g.calls && after.now == g.now
            && |after.nodes| == |g.nodes|
            && EndpointsOf(after.nodes) == eps[i := AfterAsking(c.opts, eps[i], g.now)]
            && (!available ==> EndpointsOf(after.nodes) == eps)
            && var last := g.scan.seen + 1 == |g.nodes|;
            && after.scan == (if available || last then Idle else Examining(g.scan.seen + 1))
            && after.rejections == g.rejections + if !available && last then 1 else 0
  {
    var i := g.cursor % |g.nodes|;
    RefusalChangesNothing(c.opts, g.nodes[i].endpoint.breaker, g.now);
    var eps := EndpointsOf(g.nodes);
    assert eps[i := eps[i]] == eps;
  }

  /** The gateway after a scan that found its candidate at place k, or nobody if k = |eps|. */
  ghost predicate Scanned(o: Options, eps: seq<Endpoint>, base: nat, k: nat, g: System, after: System) {
    && after.scan == Idle && after.calls == g.calls && after.now == g.now
    && if k >= |eps| then
         && EndpointsOf(after.nodes) == eps
         && after.cursor == Advance(base, |eps|)
         && after.rejections == g.rejections + 1
       else
         var i := Candidate(base, k, |eps|);
         && EndpointsOf(after.nodes) == eps[i := AfterAsking(o, eps[i], g.now)]
         && after.cursor == Advance(base, k + 1)
         && after.rejections == g.rejections
  }

  lemma {:induction false} RestOfScan(c: Setup, g: System, base: nat, m: nat)
    requires ScanInRange(g) && g.scan.Examining? && |g.nodes| == |c.parses|
    requires g.scan.seen + m == |g.nodes| && g.cursor == Advance(base, g.scan.seen)
    ensures var eps := EndpointsOf(g.nodes);
            var k := FirstAvailable(c.opts, eps, base, g.now, g.scan.seen);
            Scanned(c.opts, eps, base, k, g, Exec(c, g, Turns(m)))
    decreases m
  {
    var after, eps, seen := AtBreaker(c, AtHealth(g)), EndpointsOf(g.nodes), g.scan.seen;
    var i := Candidate(base, seen, |eps|);
    assert i == g.cursor % |g.nodes|;
    OneTurn(c, g, Turns(m - 1));
    assert Exec(c, g, Turns(m)) == Exec(c, after, Turns(m - 1));
    TurnIsExamination(c, g);
    var k := FirstAvailable(c.opts, eps, base, g.now, seen);
    if Available(c.opts, eps[i], g.now) {
      NothingToScan(c, after, m - 1);
      assert k == seen;
    } else {
      assert k == FirstAvailable(c.opts, eps, base, g.now, seen + 1);
      if m == 1 {
        NothingToScan(c, after, 0);
      } else {
        assert after.scan == Examining(seen + 1) && after.rejections == g.rejections;
        RestOfScan(c, after, base, m - 1);
        assert Scanned(c.opts, eps, base, k, after, Exec(c, after, Turns(m - 1)));
      }
    }
  }

  /** A scan that nothing interrupts is one call of `Next`: same pick, same breakers, same cursor. */
  lemma LoneScanIsNext(c: Setup, g: System)
    requires SystemInv(c, g) && g.scan == Idle
    ensures var eps, after := EndpointsOf(g.nodes), Exec(c, g, [Call] + Turns(|g.nodes|));
            var p := NextPick(c.opts, eps, g.cursor, g.now);
            && EndpointsOf(after.nodes) == p.endpoints
            && after.cursor == p.cursor
            && after.scan == Idle
            && after.calls == g.calls + 1
            && after.rejections == g.rejections + if p.index == None then 1 else 0
  {
    var n, begun := |g.nodes|, Begin(g);
    ExecTwice(c, g, [Call], Turns(n));
    OneAction(c, g, Call);
    if n == 0 {
      NothingToScan(c, begun, 0);
    } else {
      RestOfScan(c, begun, g.cursor, n);
    }
  }
}
