/** What holds in every state of every run of the gateway. */
module GatewaySafety {
  import opened CircuitBreaker
  import opened Registry
  import opened Gateway
  import opened Sequences

  // ----- The invariant of the whole system -----

  function HandledBy(nodes: seq<Node>): nat {
    if nodes == [] then 0 else HandledBy(Front(nodes)) + Last(nodes).Handled()
  }

  lemma {:induction false} HandledAfterPut(nodes: seq<Node>, i: nat, nd: Node)
    requires i < |nodes|
    ensures HandledBy(nodes[i := nd]) == HandledBy(nodes) - nodes[i].Handled() + nd.Handled()
  {
    var after := nodes[i := nd];
    if i == |nodes| - 1 {
      assert Front(after) == Front(nodes);
    } else {
      HandledAfterPut(Front(nodes), i, nd);
      assert Front(after) == Front(nodes)[i := nd];
    }
  }

  /** Every instance is in order, and its request numbers are below `limit`. */
  ghost predicate NodesInv(c: Setup, nodes: seq<Node>, now: nat, limit: nat) {
    && |nodes| == |c.parses|
    && forall i :: 0 <= i < |nodes| ==>
         NodeInv(c, c.parses[i], nodes[i], now) && Numbered(nodes[i], limit)
  }

  ghost predicate Numbered(nd: Node, limit: nat) {
    forall id :: id in nd.pending ==> id < limit
  }

  /** The number after the last one in use: a call gets its number when it enters `Next`, and has
      used it when its scan is over. */
  function Limit(g: System): nat {
    if g.scan == Idle then g.calls + 1 else g.calls
  }

  ghost predicate ScanInRange(g: System) {
    match g.scan
    case Idle => true
    case Examining(seen) => seen < |g.nodes|
    case Permitting(seen, index) => seen < |g.nodes| && index < |g.nodes|
  }

  function InScan(g: System): nat {
    if g.scan == Idle then 0 else 1
  }

  /** Every call was rejected, is still scanning, or was handed to one instance. */
  predicate Conserved(g: System) {
    g.calls == g.rejections + InScan(g) + HandledBy(g.nodes)
  }

  ghost predicate SystemInv(c: Setup, g: System) {
    && c.start <= g.now
    && g.cursor == Advance(0, g.examined) && g.cursor < CURSOR_MODULUS
    && ScanInRange(g)
    && NodesInv(c, g.nodes, g.now, Limit(g))
    && Conserved(g)
  }

  lemma {:induction false} NothingHandled(c: Setup, n: nat)
    ensures HandledBy(seq(n, _ => NewNode(c))) == 0
  {
    if n > 0 {
      NothingHandled(c, n - 1);
      assert Front(seq(n, _ => NewNode(c))) == seq(n - 1, _ => NewNode(c));
    }
  }

  lemma InitHolds(c: Setup)
    ensures SystemInv(c, Init(c))
  {
    NothingHandled(c, |c.parses|);
  }

  lemma PutKeepsNodes(c: Setup, nodes: seq<Node>, now: nat, limit: nat, i: nat, nd: Node)
    requires NodesInv(c, nodes, now, limit) && i < |nodes|
    requires NodeInv(c, c.parses[i], nd, now) && Numbered(nd, limit)
    ensures NodesInv(c, nodes[i := nd], now, limit)
  {
  }

  lemma MoreNumbers(c: Setup, nodes: seq<Node>, now: nat, limit: nat, more: nat)
    requires NodesInv(c, nodes, now, limit) && limit <= more
    ensures NodesInv(c, nodes, now, more)
  {
    assert forall i :: 0 <= i < |nodes| ==> Numbered(nodes[i], limit) ==> Numbered(nodes[i], more);
  }

  lemma LaterNodes(c: Setup, nodes: seq<Node>, now: nat, limit: nat, d: nat)
    requires NodesInv(c, nodes, now, limit)
    ensures NodesInv(c, nodes, now + d, limit)
  {
    forall i | 0 <= i < |nodes| ensures NodeInv(c, c.parses[i], nodes[i], now + d) {
      assert NodeInv(c, c.parses[i], nodes[i], now);
    }
  }

  /** An action that changes one instance and keeps the number of requests it handles. */
  lemma PutKeeps(c: Setup, g: System, i: nat, nd: Node)
    requires SystemInv(c, g) && i < |g.nodes|
    requires NodeInv(c, c.parses[i], nd, g.now)
    requires nd.pending.Keys <= g.nodes[i].pending.Keys
    requires nd.Handled() == g.nodes[i].Handled()
    ensures SystemInv(c, Put(g, i, nd))
  {
    assert Numbered(g.nodes[i], Limit(g));
    assert Numbered(nd, Limit(g)) by {
      assert forall id :: id in nd.pending ==> id in g.nodes[i].pending;
    }
    PutKeepsNodes(c, g.nodes, g.now, Limit(g), i, nd);
    HandledAfterPut(g.nodes, i, nd);
  }

  /** An action that only moves the scan. */
  lemma ScanMoves(c: Setup, g: System, after: System)
    requires SystemInv(c, g)
    requires after.nodes == g.nodes && after.now == g.now && Limit(g) <= Limit(after)
    requires after.cursor == Advance(0, after.examined) && after.cursor < CURSOR_MODULUS
    requires ScanInRange(after) && Conserved(after)
    ensures SystemInv(c, after)
  {
    MoreNumbers(c, g.nodes, g.now, Limit(g), Limit(after));
  }

  lemma SkipKeeps(c: Setup, g: System, seen: nat)
    requires SystemInv(c, g) && g.scan != Idle && seen < |g.nodes|
    ensures SystemInv(c, Skip(g, seen))
  {
    ScanMoves(c, g, Skip(g, seen));
  }

  lemma CallKeeps(c: Setup, g: System)
    requires SystemInv(c, g)
    ensures SystemInv(c, Begin(g))
  {
    ScanMoves(c, g, Begin(g));
  }

  lemma CursorMoves(c: Setup, g: System)
    requires SystemInv(c, g)
    ensures SystemInv(c, g.(cursor := Bump(g.cursor), examined := g.examined + 1))
  {
    ScanMoves(c, g, g.(cursor := Bump(g.cursor), examined := g.examined + 1));
  }

  lemma AsksNext(c: Setup, g: System, seen: nat, index: nat)
    requires SystemInv(c, g) && g.scan == Examining(seen) && index < |g.nodes|
    ensures SystemInv(c, g.(scan := Permitting(seen, index)))
  {
    ScanMoves(c, g, g.(scan := Permitting(seen, index)));
  }

  lemma HealthReadKeeps(c: Setup, g: System)
    requires SystemInv(c, g)
    ensures SystemInv(c, AtHealth(g))
  {
    if g.scan.Examining? && g.nodes != [] {
      var i, moved := g.cursor % |g.nodes|, g.(cursor := Bump(g.cursor), examined := g.examined + 1);
      CursorMoves(c, g);
      if g.nodes[i].endpoint.healthy {
        AsksNext(c, moved, g.scan.seen, i);
      } else {
        SkipKeeps(c, moved, g.scan.seen);
      }
    }
  }

  lemma TickKeeps(c: Setup, g: System, d: nat)
    requires SystemInv(c, g)
    ensures SystemInv(c, g.(now := g.now + d))
  {
    LaterNodes(c, g.nodes, g.now, Limit(g), d);
  }

  lemma AllowKeeps(c: Setup, g: System)
    requires Usable(c.opts) && SystemInv(c, g)
    ensures SystemInv(c, AtBreaker(c, g))
  {
    if g.scan.Permitting? {
      var i := g.scan.index;
      var nd := g.nodes[i];
      var after := Acquire(c.opts, c.parses[i], nd, g.calls, g.now);
      assert NodeInv(c, c.parses[i], nd, g.now) && Numbered(nd, g.calls);
      AcquireKeeps(c, c.parses[i], nd, g.calls, g.now);
      AcquireHandlesOne(c.opts, c.parses[i], nd, g.calls, g.now);
      if Allowed(c.opts, nd.endpoint.breaker, g.now) {
        AdmissionKeeps(c, g, after);
      } else {
        PutKeeps(c, g, i, after);
        SkipKeeps(c, Put(g, i, after), g.scan.seen);
      }
    }
  }

  lemma NumberedNow(before: Node, after: Node, id: nat)
    requires Numbered(before, id) && after.pending.Keys <= before.pending.Keys + {id}
    ensures Numbered(after, id + 1)
  {
    forall k | k in after.pending ensures k < id + 1 {
      assert k in before.pending.Keys + {id};
    }
  }

  lemma AdmissionKeeps(c: Setup, g: System, after: Node)
    requires SystemInv(c, g) && g.scan.Permitting?
    requires NodeInv(c, c.parses[g.scan.index], after, g.now)
    requires after.pending.Keys <= g.nodes[g.scan.index].pending.Keys + {g.calls}
    requires after.Handled() == g.nodes[g.scan.index].Handled() + 1
    ensures SystemInv(c, Put(g, g.scan.index, after).(scan := Idle))
  {
    NumberedNow(g.nodes[g.scan.index], after, g.calls);
    MoreNumbers(c, g.nodes, g.now, g.calls, g.calls + 1);
    PutKeepsNodes(c, g.nodes, g.now, g.calls + 1, g.scan.index, after);
    HandledAfterPut(g.nodes, g.scan.index, after);
  }

  lemma AcquireHandlesOne(o: Options, parses: bool, nd: Node, id: nat, now: nat)
    requires id !in nd.pending
    ensures var after := Acquire(o, parses, nd, id, now);
            if Allowed(o, nd.endpoint.breaker, now)
            then after.Handled() == nd.Handled() + 1 && after.pending.Keys <= nd.pending.Keys + {id}
            else after.Handled() == nd.Handled() && after.pending == nd.pending
  {
    if Allowed(o, nd.endpoint.breaker, now) && parses {
      Added(nd.pending, id, Acquire(o, parses, nd, id, now).pending[id]);
    }
  }

  lemma NodeActionKeeps(c: Setup, g: System, i: nat, what: NodeAction)
    requires Usable(c.opts) && SystemInv(c, g)
    ensures SystemInv(c, Apply(c, g, At(i, what)))
  {
    if i < |g.nodes| {
      assert NodeInv(c, c.parses[i], g.nodes[i], g.now);
      ActKeeps(c, c.parses[i], g.nodes[i], what, g.now);
      ActHandlesAsMany(c.opts, g.nodes[i], what, g.now);
      PutKeeps(c, g, i, Act(c.opts, g.nodes[i], what, g.now));
    }
  }

  lemma ScanActionKeeps(c: Setup, g: System, a: Action)
    requires Usable(c.opts) && SystemInv(c, g)
    requires a.Call? || a.ReadHealth? || a.TryAllow?
    ensures SystemInv(c, Apply(c, g, a))
  {
    match a
    case Call => CallKeeps(c, g);
    case ReadHealth => HealthReadKeeps(c, g);
    case TryAllow => AllowKeeps(c, g);
  }

  lemma ActionKeeps(c: Setup, g: System, a: Action)
    requires Usable(c.opts) && SystemInv(c, g)
    ensures SystemInv(c, Apply(c, g, a))
  {
    match a
    case Tick(d) => TickKeeps(c, g, d);
    case At(i, what) => NodeActionKeeps(c, g, i, what);
    case _ => ScanActionKeeps(c, g, a);
  }

  lemma {:induction false} InvariantFrom(c: Setup, g: System, actions: seq<Action>)
    requires Usable(c.opts) && SystemInv(c, g)
    ensures SystemInv(c, Exec(c, g, actions))
  {
    if actions != [] {
      InvariantFrom(c, g, Front(actions));
      ActionKeeps(c, Exec(c, g, Front(actions)), Last(actions));
    }
  }

  lemma Always(c: Setup, actions: seq<Action>)
    requires Usable(c.opts)
    ensures SystemInv(c, Exec(c, Init(c), actions))
  {
    InitHolds(c);
    InvariantFrom(c, Init(c), actions);
  }

  /** What an action makes of instance i. */
  function NodeStep(c: Setup, g: System, a: Action, i: nat): Node
    requires i < |g.nodes| == |c.parses|
  {
    if a.TryAllow? && g.scan.Permitting? && g.scan.index == i then
      Acquire(c.opts, c.parses[i], g.nodes[i], g.calls, g.now)
    else if a.At? && a.node == i then Act(c.opts, g.nodes[i], a.what, g.now)
    else g.nodes[i]
  }

  lemma NodeSteps(c: Setup, g: System, a: Action, i: nat)
    requires i < |g.nodes| == |c.parses|
    ensures i < |Apply(c, g, a).nodes| && Apply(c, g, a).nodes[i] == NodeStep(c, g, a, i)
    ensures Limit(g) <= Limit(Apply(c, g, a))
  {
  }
}
