/** Whom the gateway hands its requests to, in every run: with completions, health flips, looks and
    the clock coming in anywhere, between calls of `Next` and in the middle of their scans. */
module Fairness {
  import opened CircuitBreaker
  import opened Arithmetic
  import opened Registry
  import opened Rotation
  import opened Gateway
  import opened GatewaySafety
  import opened BoundedBypass
  import opened Sequences

  // ----- Who is picked -----

  /** The instance that the action hands a request to, if any. */
  function Picked(c: Setup, g: System, a: Action): seq<nat> {
    if && a.TryAllow? && g.scan.Permitting? && g.scan.index < |g.nodes| == |c.parses|
       && Allowed(c.opts, g.nodes[g.scan.index].endpoint.breaker, g.now)
    then [g.scan.index] else []
  }

  /** All of them over a run, in order. */
  function Picks(c: Setup, g: System, more: seq<Action>): seq<nat> {
    if more == [] then []
    else Picks(c, g, Front(more)) + Picked(c, Exec(c, g, Front(more)), Last(more))
  }

  lemma PickedIsHandled(c: Setup, g: System, a: Action, i: nat)
    requires SystemInv(c, g) && i < |g.nodes|
    ensures i < |Apply(c, g, a).nodes|
    ensures Apply(c, g, a).nodes[i].Handled() == g.nodes[i].Handled() + Count(Picked(c, g, a), i)
  {
    NodeSteps(c, g, a, i);
    if a.TryAllow? && g.scan.Permitting? && g.scan.index == i {
      assert Numbered(g.nodes[i], Limit(g));
      AcquireHandlesOne(c.opts, c.parses[i], g.nodes[i], g.calls, g.now);
    } else if a.At? && a.node == i {
      ActHandlesAsMany(c.opts, g.nodes[i], a.what, g.now);
    }
  }

  /** The picks are what the instances' accounts show. */
  lemma {:induction false} PicksAreTheAccount(c: Setup, g: System, more: seq<Action>, i: nat)
    requires Usable(c.opts) && SystemInv(c, g) && i < |g.nodes|
    ensures i < |Exec(c, g, more).nodes|
    ensures Exec(c, g, more).nodes[i].Handled() == g.nodes[i].Handled() + Count(Picks(c, g, more), i)
  {
    if more != [] {
      var before, a := Exec(c, g, Front(more)), Last(more);
      PicksAreTheAccount(c, g, Front(more), i);
      InvariantFrom(c, g, Front(more));
      PickedIsHandled(c, before, a, i);
      CountMore(Picks(c, g, Front(more)), Picked(c, before, a), i);
    }
  }

  lemma CountMore(picks: seq<nat>, more: seq<nat>, i: nat)
    requires |more| <= 1
    ensures Count(picks + more, i) == Count(picks, i) + Count(more, i)
  {
    if more == [] {
      CountOneMore(picks, 0, i);
    } else {
      assert more == [more[0]];
      CountOneMore(picks, more[0], i);
      CountOneMore([], more[0], i);
      assert [] + [more[0]] == [more[0]];
    }
  }

  // ----- Where the cursor stands -----

  /** The position of the cursor, counted from that of an earlier state on. */
  function Position(start: System, g: System): int {
    start.cursor + g.examined - start.examined
  }

  /** The candidates before this position have been dealt with. */
  function Done(start: System, g: System): int {
    Position(start, g) - if g.scan.Permitting? then 1 else 0
  }

  /** Candidates dealt with by the scan in progress. */
  function Seen(g: System): nat {
    if g.scan == Idle then 0 else g.scan.seen
  }

  /** Cursor and scan are where the position says. */
  predicate OnTrack(c: Setup, start: System, g: System) {
    && 0 < |g.nodes| == |c.parses| == |start.nodes|
    && start.cursor + Seen(g) <= Done(start, g) && Seen(g) < |g.nodes|
    && g.cursor == Position(start, g) % CURSOR_MODULUS
    && (g.scan.Permitting? ==> g.scan.index == Pointed(Done(start, g), |g.nodes|))
  }

  lemma BumpIsNext(x: nat)
    ensures Bump(x % CURSOR_MODULUS) == (x + 1) % CURSOR_MODULUS
  {
    OneUp(x, CURSOR_MODULUS);
  }

  /** What one action does: nothing to the candidates; or it deals with the next one, which is picked
      or was not up, and in the latter case the scan goes on or is rejected. */
  lemma Progress(c: Setup, start: System, g: System, a: Action)
    requires OnTrack(c, start, g)
    ensures var after, picked := Apply(c, g, a), Picked(c, g, a);
            var here, n := Done(start, g), |g.nodes|;
            && OnTrack(c, start, after)
            && if Done(start, after) == here then
                 && picked == [] && Seen(after) == Seen(g) && after.rejections == g.rejections
               else
                 && Done(start, after) == here + 1
                 && if picked != [] then
                      && picked == [Pointed(here, n)] && a.TryAllow?
                      && Seen(after) == 0 && after.rejections == g.rejections
                    else
                      && !Up(g, Pointed(here, n))
                      && (a.TryAllow? || (a.ReadHealth? && !g.nodes[Pointed(here, n)].endpoint.healthy))
                      && if Seen(g) + 1 == n
                         then Seen(after) == 0 && after.rejections == g.rejections + 1
                         else Seen(after) == Seen(g) + 1 && after.rejections == g.rejections
  {
    BumpIsNext(Position(start, g));
  }

  lemma StartsOnTrack(c: Setup, actions: seq<Action>)
    requires Usable(c.opts) && c.parses != [] && Exec(c, Init(c), actions).scan == Idle
    ensures var g := Exec(c, Init(c), actions);
            SystemInv(c, g) && g.cursor < CURSOR_MODULUS && OnTrack(c, g, g)
  {
    Always(c, actions);
    OwnPosition(c, Exec(c, Init(c), actions));
  }

  lemma OwnPosition(c: Setup, g: System)
    requires 0 < |g.nodes| == |c.parses| && g.scan == Idle && g.cursor < CURSOR_MODULUS
    ensures OnTrack(c, g, g)
  {
    Residue(0, CURSOR_MODULUS, g.cursor);
  }

  lemma {:induction false} StaysOnTrack(c: Setup, start: System, more: seq<Action>)
    requires OnTrack(c, start, start)
    ensures OnTrack(c, start, Exec(c, start, more))
  {
    if more != [] {
      StaysOnTrack(c, start, Front(more));
      Progress(c, start, Exec(c, start, Front(more)), Last(more));
    }
  }

  // ----- An instance that is up -----

  lemma PassStep(c: Setup, start: System, g: System, a: Action, i: nat)
    requires OnTrack(c, start, g) && Up(g, i)
    ensures OnTrack(c, start, Apply(c, g, a))
    ensures Passes(Done(start, Apply(c, g, a)), |g.nodes|, i)
            == Passes(Done(start, g), |g.nodes|, i) + Count(Picked(c, g, a), i)
  {
    Progress(c, start, g, a);
    CountOneMore([], Pointed(Done(start, g), |g.nodes|), i);
    assert [] + Picked(c, g, a) == Picked(c, g, a);
  }

  lemma {:induction false} PickedWhenPassed(c: Setup, start: System, more: seq<Action>, i: nat)
    requires OnTrack(c, start, start) && start.scan == Idle && StaysUp(c, start, more, i)
    ensures var g, n := Exec(c, start, more), |start.nodes|;
            && OnTrack(c, start, g)
            && Count(Picks(c, start, more), i) == Passes(Done(start, g), n, i) - Passes(start.cursor, n, i)
  {
    if more != [] {
      var before, a := Exec(c, start, Front(more)), Last(more);
      PickedWhenPassed(c, start, Front(more), i);
      PassStep(c, start, before, a, i);
      CountMore(Picks(c, start, Front(more)), Picked(c, before, a), i);
    }
  }

  /** From any reachable state between scans: while an instance stays up, it is handed exactly one
      request each time the cursor passes it, whatever happens to the others. */
  lemma OncePerPass(c: Setup, actions: seq<Action>, more: seq<Action>, i: nat)
    requires Usable(c.opts) && i < |c.parses|
    requires Exec(c, Init(c), actions).scan == Idle && StaysUp(c, Exec(c, Init(c), actions), more, i)
    ensures var g, n := Exec(c, Init(c), actions), |c.parses|;
            var later := Exec(c, g, more);
            && i < |g.nodes| && i < |later.nodes| && 0 <= Done(g, later)
            && later.nodes[i].Handled() - g.nodes[i].Handled()
               == Passes(Done(g, later), n, i) - Passes(g.cursor, n, i)
  {
    StartsOnTrack(c, actions);
    PickedWhenPassed(c, Exec(c, Init(c), actions), more, i);
    PicksAreTheAccount(c, Exec(c, Init(c), actions), more, i);
  }

  /** So of two instances that stay up, neither gets ahead of the other by more than one, and one
      more for each time the cursor wraps in the meantime. */
  lemma FairWithinOne(c: Setup, actions: seq<Action>, more: seq<Action>, i: nat, j: nat)
    requires Usable(c.opts) && i < |c.parses| && j < |c.parses|
    requires var g := Exec(c, Init(c), actions);
             g.scan == Idle && StaysUp(c, g, more, i) && StaysUp(c, g, more, j)
    ensures var g := Exec(c, Init(c), actions);
            var later := Exec(c, g, more);
            && i < |g.nodes| == |later.nodes| && j < |g.nodes| && 0 <= Done(g, later)
            && later.nodes[i].Handled() - g.nodes[i].Handled()
               <= later.nodes[j].Handled() - g.nodes[j].Handled() + 1 + Wraps(Done(g, later), |c.parses|)
  {
    var g := Exec(c, Init(c), actions);
    OncePerPass(c, actions, more, i);
    OncePerPass(c, actions, more, j);
    StartsOnTrack(c, actions);
    StaysOnTrack(c, g, more);
    PassesSpread(g.cursor, Done(g, Exec(c, g, more)), |c.parses|, i, j);
  }

  /** Since `start` a call was turned away only when the cursor wrapped, and the scan in progress has
      not come by instance i yet. */
  ghost predicate HonestSoFar(start: System, g: System, i: nat)
    requires g.nodes != []
  {
    var here, n := Done(start, g), |g.nodes|;
    && 0 <= here - Seen(g)
    && start.rejections <= g.rejections <= start.rejections + Wraps(here - Seen(g), n)
    && forall p: nat :: here - Seen(g) <= p < here ==> Pointed(p, n) != i
  }

  lemma HonestStep(c: Setup, start: System, g: System, a: Action, i: nat)
    requires OnTrack(c, start, g) && HonestSoFar(start, g, i) && Up(g, i) && |g.nodes| < CURSOR_MODULUS
    ensures Apply(c, g, a).nodes != [] && HonestSoFar(start, Apply(c, g, a), i)
  {
    var here, n, after := Done(start, g), |g.nodes|, Apply(c, g, a);
    Progress(c, start, g, a);
    if Done(start, after) != here {
      WrapsGrow(here - Seen(g), here + 1, n);
      if Picked(c, g, a) == [] && Seen(g) + 1 == n {
        LapPointsAtAll(here - Seen(g), n, i);
      }
    }
  }

  lemma {:induction false} HonestAlong(c: Setup, start: System, more: seq<Action>, i: nat)
    requires OnTrack(c, start, start) && start.scan == Idle && StaysUp(c, start, more, i)
    requires |start.nodes| < CURSOR_MODULUS
    ensures OnTrack(c, start, Exec(c, start, more)) && HonestSoFar(start, Exec(c, start, more), i)
  {
    if more != [] {
      HonestAlong(c, start, Front(more), i);
      HonestStep(c, start, Exec(c, start, Front(more)), Last(more), i);
      StaysOnTrack(c, start, more);
    }
  }

  /** From any reachable state between scans: while some instance stays up, no call is turned away,
      except one each time the cursor wraps to somebody's detriment. */
  lemma NobodyIsTurnedAway(c: Setup, actions: seq<Action>, more: seq<Action>, i: nat)
    requires Usable(c.opts) && i < |c.parses| < CURSOR_MODULUS
    requires Exec(c, Init(c), actions).scan == Idle && StaysUp(c, Exec(c, Init(c), actions), more, i)
    ensures var g := Exec(c, Init(c), actions);
            var later := Exec(c, g, more);
            && 0 <= Done(g, later)
            && g.rejections <= later.rejections <= g.rejections + Wraps(Done(g, later), |c.parses|)
  {
    var g := Exec(c, Init(c), actions);
    var later := Exec(c, g, more);
    StartsOnTrack(c, actions);
    HonestAlong(c, g, more, i);
    WrapsGrow(Done(g, later) - Seen(later), Done(g, later), |c.parses|);
  }

  // ----- A standing set of instances that are up -----

  /** What an instance is in every state of a stretch: up, unhealthy, or with a breaker that refuses. */
  datatype Role = Serving | Unhealthy | Refusing

  predicate Plays(c: Setup, g: System, i: nat, role: Role)
    requires i < |g.nodes|
  {
    match role
    case Serving => Up(g, i)
    case Unhealthy => !g.nodes[i].endpoint.healthy
    case Refusing => !Allowed(c.opts, g.nodes[i].endpoint.breaker, g.now)
  }

  ghost predicate Cast(c: Setup, g: System, roles: seq<Role>) {
    |g.nodes| == |roles| && forall i :: 0 <= i < |roles| ==> Plays(c, g, i, roles[i])
  }

  ghost predicate KeepsCast(c: Setup, g: System, more: seq<Action>, roles: seq<Role>) {
    Cast(c, Exec(c, g, more), roles) && (more != [] ==> KeepsCast(c, g, Front(more), roles))
  }

  function Servers(roles: seq<Role>): (serving: seq<bool>)
    ensures |serving| == |roles|
  {
    seq(|roles|, i requires 0 <= i < |roles| => roles[i].Serving?)
  }

  lemma {:induction false} PicksAreTheRota(c: Setup, start: System, more: seq<Action>, roles: seq<Role>)
    requires OnTrack(c, start, start) && start.scan == Idle && KeepsCast(c, start, more, roles)
    ensures var g := Exec(c, start, more);
            && OnTrack(c, start, g)
            && |roles| == |g.nodes|
            && (g.scan.Permitting? ==> roles[g.scan.index] != Unhealthy)
            && Picks(c, start, more) == Rota(Servers(roles), start.cursor, Done(start, g))
  {
    StaysOnTrack(c, start, more);
    if more != [] {
      var before, a := Exec(c, start, Front(more)), Last(more);
      PicksAreTheRota(c, start, Front(more), roles);
      RotaStep(c, start, before, a, roles);
    }
  }

  lemma RotaStep(c: Setup, start: System, g: System, a: Action, roles: seq<Role>)
    requires OnTrack(c, start, g) && Cast(c, g, roles)
    requires g.scan.Permitting? ==> roles[g.scan.index] != Unhealthy
    ensures var after := Apply(c, g, a);
            && OnTrack(c, start, after)
            && (after.scan.Permitting? ==> roles[after.scan.index] != Unhealthy)
            && Rota(Servers(roles), start.cursor, Done(start, after))
               == Rota(Servers(roles), start.cursor, Done(start, g)) + Picked(c, g, a)
  {
    Progress(c, start, g, a);
    var i := Pointed(Done(start, g), |g.nodes|);
    assert Plays(c, g, i, roles[i]);
  }

  /** From any reachable state between scans: while the set of instances that are up stands still,
      requests go to its members in cyclic order, as the cursor points at them, wrapping or not. */
  lemma CyclicOrder(c: Setup, actions: seq<Action>, more: seq<Action>, roles: seq<Role>)
    requires Usable(c.opts) && c.parses != [] && Exec(c, Init(c), actions).scan == Idle
    requires KeepsCast(c, Exec(c, Init(c), actions), more, roles)
    ensures var g := Exec(c, Init(c), actions);
            && roles != [] && 0 <= Done(g, Exec(c, g, more))
            && Picks(c, g, more) == Rota(Servers(roles), g.cursor, Done(g, Exec(c, g, more)))
  {
    StartsOnTrack(c, actions);
    PicksAreTheRota(c, Exec(c, Init(c), actions), more, roles);
  }

  /** Every completed call made a pick or was turned away. */
  lemma {:induction false} PicksAreTheCalls(c: Setup, start: System, more: seq<Action>)
    requires OnTrack(c, start, start)
    ensures var g := Exec(c, start, more);
            Completed(g) - Completed(start) == |Picks(c, start, more)| + g.rejections - start.rejections
  {
    if more != [] {
      PicksAreTheCalls(c, start, Front(more));
      StaysOnTrack(c, start, Front(more));
      EveryCallCounts(c, start, Exec(c, start, Front(more)), Last(more));
    }
  }

  lemma EveryCallCounts(c: Setup, start: System, g: System, a: Action)
    requires OnTrack(c, start, g)
    ensures var after := Apply(c, g, a);
            Completed(after) - Completed(g) == |Picked(c, g, a)| + after.rejections - g.rejections
  {
  }

  lemma {:induction false} KeptBySomebody(c: Setup, g: System, more: seq<Action>, roles: seq<Role>, i: nat)
    requires KeepsCast(c, g, more, roles) && i < |roles| && roles[i].Serving?
    ensures StaysUp(c, g, more, i)
  {
    assert Plays(c, Exec(c, g, more), i, roles[i]);
    if more != [] {
      KeptBySomebody(c, g, Front(more), roles, i);
    }
  }

  /** Over such a stretch without wraps, all picks go to serving instances, and evenly up to one. */
  lemma EvenlyPicked(c: Setup, start: System, more: seq<Action>, roles: seq<Role>, i: nat, j: nat)
    requires OnTrack(c, start, start) && start.scan == Idle && start.cursor < CURSOR_MODULUS
    requires KeepsCast(c, start, more, roles) && Wraps(Done(start, Exec(c, start, more)), |start.nodes|) == 0
    requires i < |roles| == |start.nodes| && j < |roles| && roles[i].Serving? && roles[j].Serving?
    ensures Count(Picks(c, start, more), i) <= Count(Picks(c, start, more), j) + 1
  {
    KeptBySomebody(c, start, more, roles, i);
    KeptBySomebody(c, start, more, roles, j);
    PickedWhenPassed(c, start, more, i);
    PickedWhenPassed(c, start, more, j);
    PassesSpread(start.cursor, Done(start, Exec(c, start, more)), |start.nodes|, i, j);
  }

  lemma RoundsOnTrack(c: Setup, start: System, more: seq<Action>, roles: seq<Role>, k: nat, i: nat)
    requires OnTrack(c, start, start) && start.scan == Idle && start.cursor < CURSOR_MODULUS
    requires KeepsCast(c, start, more, roles) && Wraps(Done(start, Exec(c, start, more)), |start.nodes|) == 0
    requires i < |roles| == |start.nodes|
    requires |Picks(c, start, more)| == k * Members(Servers(roles))
    ensures Count(Picks(c, start, more), i) == if roles[i].Serving? then k else 0
  {
    var picks, serving := Picks(c, start, more), Servers(roles);
    PicksAreTheRota(c, start, more, roles);
    RotaIsServing(serving, start.cursor, Done(start, Exec(c, start, more)));
    if roles[i].Serving? {
      forall j, l | 0 <= j < |serving| && 0 <= l < |serving| && serving[j] && serving[l]
        ensures Count(picks, j) <= Count(picks, l) + 1
      {
        EvenlyPicked(c, start, more, roles, j, l);
      }
      RoundsAreExact(picks, serving, k, i);
    } else {
      NotServedNotPicked(picks, i);
    }
  }

  /** And then k rounds of as many completed calls as there are such instances hand each of them
      exactly k requests and the others none, unless the cursor wraps to somebody's detriment. */
  lemma WholeRoundsAreExact(
      c: Setup, actions: seq<Action>, more: seq<Action>, roles: seq<Role>, k: nat, i: nat)
    requires Usable(c.opts) && i < |c.parses| < CURSOR_MODULUS && Exec(c, Init(c), actions).scan == Idle
    requires KeepsCast(c, Exec(c, Init(c), actions), more, roles) && Serving in roles
    requires var g := Exec(c, Init(c), actions);
             var later := Exec(c, g, more);
             && Completed(later) - Completed(g) == k * Members(Servers(roles))
             && Wraps(Done(g, later), |c.parses|) == 0
    ensures var g := Exec(c, Init(c), actions);
            var later := Exec(c, g, more);
            && i < |g.nodes| == |later.nodes| == |roles|
            && later.nodes[i].Handled() - g.nodes[i].Handled() == if roles[i].Serving? then k else 0
  {
    var g := Exec(c, Init(c), actions);
    StartsOnTrack(c, actions);
    StaysOnTrack(c, g, more);
    var j :| 0 <= j < |roles| && roles[j] == Serving;
    KeptBySomebody(c, g, more, roles, j);
    NobodyIsTurnedAway(c, actions, more, j);
    PicksAreTheCalls(c, g, more);
    RoundsOnTrack(c, g, more, roles, k, i);
    PicksAreTheAccount(c, g, more, i);
  }
}
