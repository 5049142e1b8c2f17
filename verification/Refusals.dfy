/** Which calls are turned away with 503 although somebody could have served them. */
module Refusals {
  import opened CircuitBreaker
  import opened Registry
  import opened Rotation
  import opened Gateway
  import opened GatewaySafety
  import opened BoundedBypass
  import opened Fairness
  import opened Sequences
  import opened Wrappers

  // ----- A single call, while some instance stays up -----

  /** From a reachable state between scans with this cursor: within one call, with anything coming in
      between, nobody is turned away while instance i stays up. */
  ghost predicate CallIsHonest(c: Setup, cursor: nat, actions: seq<Action>, more: seq<Action>, i: nat) {
    var g := Exec(c, Init(c), actions);
    var later := Exec(c, g, more);
    g.scan == Idle && g.cursor == cursor && StaysUp(c, g, more, i) && later.calls <= g.calls + 1
    ==> later.rejections == g.rejections
  }

  ghost predicate CallsAreHonest(c: Setup, cursor: nat) {
    forall actions, more, i :: CallIsHonest(c, cursor, actions, more, i)
  }

  /** A call examines each candidate at most once. */
  lemma {:induction false} OneLapPerCall(c: Setup, start: System, more: seq<Action>)
    requires OnTrack(c, start, start) && start.scan == Idle
    ensures var g := Exec(c, start, more);
            && OnTrack(c, start, g) && start.calls <= g.calls
            && (g.calls == start.calls ==> g.scan == Idle && g.examined == start.examined)
            && (g.calls == start.calls + 1 ==>
                  && Done(start, g) <= start.cursor + |g.nodes|
                  && (g.scan != Idle ==> Done(start, g) == start.cursor + Seen(g)))
  {
    if more != [] {
      OneLapPerCall(c, start, Front(more));
      Progress(c, start, Exec(c, start, Front(more)), Last(more));
    }
  }

  lemma SmoothCallIsHonest(c: Setup, cursor: nat, actions: seq<Action>, more: seq<Action>, i: nat)
    requires Usable(c.opts) && 0 < |c.parses| < CURSOR_MODULUS && ScanIsSmooth(cursor, |c.parses|)
    ensures CallIsHonest(c, cursor, actions, more, i)
  {
    var g := Exec(c, Init(c), actions);
    var later := Exec(c, g, more);
    if g.scan == Idle && g.cursor == cursor && StaysUp(c, g, more, i) && later.calls <= g.calls + 1 {
      StartsOnTrack(c, actions);
      OneLapPerCall(c, g, more);
      NobodyIsTurnedAway(c, actions, more, i);
      assert Wraps(Done(g, later), |c.parses|) == 0;
    }
  }

  // ----- A run to each cursor from which a scan misses somebody -----

  /** So many requests, one after the other, each answered to by the first instance asked. */
  function Requests(k: nat): seq<Action> {
    if k == 0 then [] else Requests(k - 1) + REQUEST
  }

  predicate AllUp(c: Setup, g: System) {
    |g.nodes| == |c.parses| && forall i :: 0 <= i < |g.nodes| ==> Up(g, i)
  }

  lemma RequestMovesOn(c: Setup, g: System)
    requires g.scan == Idle && AllUp(c, g) && g.nodes != []
    ensures var after := AtBreaker(c, AtHealth(Begin(g)));
            after.scan == Idle && AllUp(c, after) && after.cursor == Bump(g.cursor)
  {
    var after := AtBreaker(c, AtHealth(Begin(g)));
    assert Up(g, g.cursor % |g.nodes|);
    forall j | 0 <= j < |after.nodes| ensures Up(after, j) {
      assert Up(g, j);
    }
  }

  lemma EverybodyIsNew(c: Setup)
    ensures AllUp(c, Init(c))
  {
  }

  lemma {:induction false} RequestsMoveOn(c: Setup, k: nat)
    requires c.parses != [] && k < CURSOR_MODULUS
    ensures var g := Exec(c, Init(c), Requests(k));
            g.scan == Idle && AllUp(c, g) && g.cursor == k
  {
    if k == 0 {
      EverybodyIsNew(c);
    } else {
      RequestsMoveOn(c, k - 1);
      var g := Exec(c, Init(c), Requests(k - 1));
      ExecTwice(c, Init(c), Requests(k - 1), REQUEST);
      OneRequest(c, g);
      RequestMovesOn(c, g);
    }
  }

  /** The health checker takes every instance but one out. */
  function OnlyUp(n: nat, i: nat): seq<Action> {
    if n == 0 then [] else OnlyUp(n - 1, i) + [At(n - 1, SetHealth(n - 1 == i))]
  }

  lemma {:induction false} OnlyOneIsUp(c: Setup, g: System, n: nat, i: nat)
    requires g.scan == Idle && AllUp(c, g) && n <= |g.nodes|
    ensures var after := Exec(c, g, OnlyUp(n, i));
            && after.scan == Idle && after.cursor == g.cursor && |after.nodes| == |g.nodes|
            && (forall j :: 0 <= j < n ==> after.nodes[j].endpoint.healthy == (j == i))
            && (forall j :: 0 <= j < |g.nodes| ==> after.nodes[j].endpoint.breaker == g.nodes[j].endpoint.breaker)
  {
    if n > 0 {
      OnlyOneIsUp(c, g, n - 1, i);
      ExecTwice(c, g, OnlyUp(n - 1, i), [At(n - 1, SetHealth(n - 1 == i))]);
      OneAction(c, Exec(c, g, OnlyUp(n - 1, i)), At(n - 1, SetHealth(n - 1 == i)));
    }
  }

  predicate OnlyScans(more: seq<Action>) {
    forall k :: 0 <= k < |more| ==> more[k].Call? || more[k].ReadHealth? || more[k].TryAllow?
  }

  /** Being asked does not bring an instance down. */
  lemma {:induction false} ScansLeaveUp(c: Setup, g: System, more: seq<Action>, i: nat)
    requires Up(g, i) && |g.nodes| == |c.parses| && OnlyScans(more)
    ensures StaysUp(c, g, more, i) && |Exec(c, g, more).nodes| == |c.parses|
  {
    if more != [] {
      assert OnlyScans(Front(more));
      ScansLeaveUp(c, g, Front(more), i);
    }
  }

  lemma {:induction false} TurnsOnlyScan(m: nat)
    ensures OnlyScans(Turns(m))
  {
    if m > 0 {
      TurnsOnlyScan(m - 1);
    }
  }

  lemma LonelyStateIsReached(c: Setup, cursor: nat, i: nat)
    requires i < |c.parses| && cursor < CURSOR_MODULUS
    ensures var g := Exec(c, Init(c), Requests(cursor) + OnlyUp(|c.parses|, i));
            && g.scan == Idle && g.cursor == cursor && |g.nodes| == |c.parses| && Up(g, i)
            && forall j :: 0 <= j < |g.nodes| ==> g.nodes[j].endpoint.healthy == (j == i)
  {
    RequestsMoveOn(c, cursor);
    ExecTwice(c, Init(c), Requests(cursor), OnlyUp(|c.parses|, i));
    assert Up(Exec(c, Init(c), Requests(cursor)), i);
    OnlyOneIsUp(c, Exec(c, Init(c), Requests(cursor)), |c.parses|, i);
  }

  lemma MissedIsTurnedAway(c: Setup, cursor: nat)
    requires Usable(c.opts) && 0 < |c.parses| < CURSOR_MODULUS && cursor < CURSOR_MODULUS
    requires !ScanIsSmooth(cursor, |c.parses|)
    ensures !CallsAreHonest(c, cursor)
  {
    var n := |c.parses|;
    var i := Missed(cursor, n);
    var actions, more := Requests(cursor) + OnlyUp(n, i), [Call] + Turns(n);
    var g := Exec(c, Init(c), actions);
    LonelyStateIsReached(c, cursor, i);
    Always(c, actions);
    TurnsOnlyScan(n);
    ScansLeaveUp(c, g, more, i);
    NobodyAnswers(c.opts, EndpointsOf(g.nodes), cursor, g.now, i);
    LoneScanIsNext(c, g);
    assert !CallIsHonest(c, cursor, actions, more, i);
  }

  lemma NobodyAnswers(o: Options, eps: seq<Endpoint>, cursor: nat, now: int, i: nat)
    requires 0 < |eps| < CURSOR_MODULUS && cursor < CURSOR_MODULUS && !ScanIsSmooth(cursor, |eps|)
    requires i == Missed(cursor, |eps|) && forall j :: 0 <= j < |eps| ==> eps[j].healthy == (j == i)
    ensures NextPick(o, eps, cursor, now).index == None
  {
    forall k | 0 <= k < |eps| ensures !Available(o, eps[Candidate(cursor, k, |eps|)], now) {
      MissedIsNotExamined(cursor, |eps|, k);
    }
  }

  /** A call is sure not to be turned away while an instance stays up, under any interleaving, exactly
      if its cursor does not wrap within one lap, or wrapping skips nobody. */
  lemma CallsAreHonestIff(c: Setup, cursor: nat)
    requires Usable(c.opts) && 0 < |c.parses| < CURSOR_MODULUS && cursor < CURSOR_MODULUS
    ensures CallsAreHonest(c, cursor) <==> ScanIsSmooth(cursor, |c.parses|)
  {
    if ScanIsSmooth(cursor, |c.parses|) {
      forall actions, more, i ensures CallIsHonest(c, cursor, actions, more, i) {
        SmoothCallIsHonest(c, cursor, actions, more, i);
      }
    } else {
      MissedIsTurnedAway(c, cursor);
    }
  }

  // ----- It takes one and the same instance -----

  predicate SomebodyAvailable(c: Setup, g: System) {
    exists i :: 0 <= i < |g.nodes| && Available(c.opts, g.nodes[i].endpoint, g.now)
  }

  predicate AlwaysSomebody(c: Setup, actions: seq<Action>) {
    && SomebodyAvailable(c, Exec(c, Init(c), actions))
    && (actions != [] ==> AlwaysSomebody(c, Front(actions)))
  }

  /** After the run so far there are two instances with CLOSED breakers, so much of the scan is done,
      and somebody was available all along. */
  predicate Between(c: Setup, actions: seq<Action>, left: bool, right: bool, scan: Scan, rejections: nat) {
    var g := Exec(c, Init(c), actions);
    && |g.nodes| == |c.parses| == 2
    && g.nodes[0].endpoint.healthy == left && g.nodes[0].endpoint.breaker.state == Closed
    && g.nodes[1].endpoint.healthy == right && g.nodes[1].endpoint.breaker.state == Closed
    && g.scan == scan && g.rejections == rejections
    && g.cursor == (if scan.Examining? then scan.seen else 2 * rejections)
    && AlwaysSomebody(c, actions)
  }

  lemma MoreOf(c: Setup, actions: seq<Action>, a: Action)
    ensures Exec(c, Init(c), actions + [a]) == Apply(c, Exec(c, Init(c), actions), a)
    ensures AlwaysSomebody(c, actions) && SomebodyAvailable(c, Exec(c, Init(c), actions + [a]))
            ==> AlwaysSomebody(c, actions + [a])
  {
    assert Front(actions + [a]) == actions;
  }

  lemma FlippedLeft(c: Setup, actions: seq<Action>, healthy: bool, left: bool, right: bool, scan: Scan)
    requires Between(c, actions, left, right, scan, 0) && (healthy || right)
    ensures Between(c, actions + [At(0, SetHealth(healthy))], healthy, right, scan, 0)
  {
    MoreOf(c, actions, At(0, SetHealth(healthy)));
    var g := Exec(c, Init(c), actions + [At(0, SetHealth(healthy))]);
    assert Available(c.opts, g.nodes[if healthy then 0 else 1].endpoint, g.now);
  }

  lemma FlippedRight(c: Setup, actions: seq<Action>, healthy: bool, left: bool, right: bool, scan: Scan)
    requires Between(c, actions, left, right, scan, 0) && (healthy || left)
    ensures Between(c, actions + [At(1, SetHealth(healthy))], left, healthy, scan, 0)
  {
    MoreOf(c, actions, At(1, SetHealth(healthy)));
    var g := Exec(c, Init(c), actions + [At(1, SetHealth(healthy))]);
    assert Available(c.opts, g.nodes[if healthy then 1 else 0].endpoint, g.now);
  }

  lemma CameBy(c: Setup, actions: seq<Action>, left: bool, right: bool, seen: nat)
    requires Between(c, actions, left, right, Examining(seen), 0) && left != right
    requires seen == if left then 1 else 0
    ensures Between(c, actions + [ReadHealth], left, right, if left then Idle else Examining(1), seen)
  {
    MoreOf(c, actions, ReadHealth);
    var g := Exec(c, Init(c), actions + [ReadHealth]);
    assert Available(c.opts, g.nodes[1 - seen].endpoint, g.now);
  }

  /** That somebody or other is available all the time is not enough: a scan may come by each of two
      instances just while the other has its turn at being healthy. */
  lemma TurnedAwayBetweenTwo(o: Options, start: nat)
    ensures var c := Setup(o, start, [true, true]);
            var run := [At(0, SetHealth(false)), Call, ReadHealth, At(0, SetHealth(true)),
                        At(1, SetHealth(false)), ReadHealth];
            AlwaysSomebody(c, run) && Exec(c, Init(c), run).rejections == 1
  {
    var c := Setup(o, start, [true, true]);
    var r1 := [] + [At(0, SetHealth(false))];
    var r2 := r1 + [Call];
    var r3 := r2 + [ReadHealth];
    var r4 := r3 + [At(0, SetHealth(true))];
    var r5 := r4 + [At(1, SetHealth(false))];
    assert Available(c.opts, Init(c).nodes[1].endpoint, start);
    FlippedLeft(c, [], false, true, true, Idle);
    CallBegins(c, r1);
    CameBy(c, r2, false, true, 0);
    FlippedLeft(c, r3, true, false, true, Examining(1));
    FlippedRight(c, r4, false, true, true, Examining(1));
    CameBy(c, r5, true, false, 1);
    assert r5 + [ReadHealth] == [At(0, SetHealth(false)), Call, ReadHealth, At(0, SetHealth(true)),
                                 At(1, SetHealth(false)), ReadHealth];
  }

  lemma CallBegins(c: Setup, actions: seq<Action>)
    requires Between(c, actions, false, true, Idle, 0)
    ensures Between(c, actions + [Call], false, true, Examining(0), 0)
  {
    MoreOf(c, actions, Call);
    var g := Exec(c, Init(c), actions + [Call]);
    assert Available(c.opts, g.nodes[1].endpoint, g.now);
  }
}
