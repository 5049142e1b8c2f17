/** The load-balanced gateway as a concurrent system.

    Handlers, health checkers and dashboards act on the same instances in any order. An action is
    one critical section: a scan by `Next` holds the registry's lock but not the instances', so
    the health flag and the breaker of each candidate are looked at in two separate actions,
    between which anything else may happen. An action that is not enabled does nothing, so every
    sequence of actions is a run. */
module Gateway {
  import opened CircuitBreaker
  import opened BreakerRuns
  import opened Registry
  import opened Sequences

  /** What is remembered of a forwarded request: the half-open episode its instance had reached
      when it was admitted, and whether it took the probe slot. */
  datatype Ticket = Ticket(episode: nat, probe: bool)

  datatype Node = Node(
    endpoint: Endpoint,
    pending: map<nat, Ticket>,  // forwarded and not yet recorded, by request number
    successes: nat,             // requests recorded as success
    failures: nat,              // requests recorded as failure
    refused: nat,               // admitted, then answered 502: the address does not parse
    vanished: nat,              // handlers that unwound (panicked) before recording
    // History, which no decision depends on:
    trace: seq<Event>,          // every locked call made on the breaker
    episode: nat)               // half-open episodes entered
  {
    function Handled(): nat {
      successes + failures + refused + vanished + |pending|
    }
  }

  datatype Scan = Idle | Examining(seen: nat) | Permitting(seen: nat, index: nat)

  /** Options (already normalized), start time, and for each instance whether its address parses. */
  datatype Setup = Setup(opts: Options, start: nat, parses: seq<bool>)

  datatype System = System(
    now: nat,
    nodes: seq<Node>,
    cursor: nat,
    scan: Scan,
    calls: nat,       // handler calls that entered `Next`
    rejections: nat,  // ... and were told that no instance is available
    examined: nat)     // candidates examined so far (history)

  /** Actions of handlers, health checkers and dashboards on one instance. */
  datatype NodeAction =
    | Complete(id: nat, failed: bool)
    | Unwind(id: nat)
    | SetHealth(healthy: bool)
    | Look

  datatype Action =
    | Call
    | ReadHealth
    | TryAllow
    | At(node: nat, what: NodeAction)
    | Tick(d: nat)

  // ----- What the actions do to one instance -----

  /** A locked call on the breaker, with its history. */
  function Touch(o: Options, nd: Node, e: Event): Node {
    var b := Step(o, nd.endpoint.breaker, e);
    nd.(endpoint := nd.endpoint.(breaker := b),
        trace := nd.trace + [e],
        episode := nd.episode + Entered(nd.endpoint.breaker, b))
  }

  function Acquire(o: Options, parses: bool, nd: Node, id: nat, now: nat): Node {
    var after := Touch(o, nd, Allow(now));
    var probe := after.endpoint.breaker.state == HalfOpen;
    if !Allowed(o, nd.endpoint.breaker, now) then after
    else if parses then after.(pending := after.pending[id := Ticket(after.episode, probe)])
    else after.(refused := after.refused + 1)
  }

  /** The request that holds the probe slot of the current episode. */
  predicate IsHolder(nd: Node, id: nat) {
    && id in nd.pending
    && nd.endpoint.breaker.probeInFlight
    && nd.pending[id] == Ticket(nd.episode, true)
  }

  function Record(o: Options, nd: Node, id: nat, failed: bool, now: nat): Node {
    if id !in nd.pending then nd else
      var after := Touch(o, nd, if failed then Fail(now) else Succeed(now));
      after.(
        pending := after.pending - {id},
        successes := after.successes + if failed then 0 else 1,
        failures := after.failures + if failed then 1 else 0)
  }

  function Forget(nd: Node, id: nat): Node {
    if id !in nd.pending then nd
    else nd.(pending := nd.pending - {id}, vanished := nd.vanished + 1)
  }

  function Act(o: Options, nd: Node, what: NodeAction, now: nat): Node {
    match what
    case Complete(id, failed) => Record(o, nd, id, failed, now)
    case Unwind(id) => Forget(nd, id)
    case SetHealth(healthy) => nd.(endpoint := nd.endpoint.(healthy := healthy))
    case Look => Touch(o, nd, Poll(now))
  }

  // ----- Actions of the system -----

  function Put(g: System, i: nat, nd: Node): System
    requires i < |g.nodes|
  {
    g.(nodes := g.nodes[i := nd])
  }

  /** The candidate under examination is not available: go on, or give up after a full scan. */
  function Skip(g: System, seen: nat): System {
    if seen + 1 == |g.nodes| then g.(scan := Idle, rejections := g.rejections + 1)
    else g.(scan := Examining(seen + 1))
  }

  function Begin(g: System): System {
    if g.scan != Idle then g
    else if g.nodes == [] then g.(calls := g.calls + 1, rejections := g.rejections + 1)
    else g.(calls := g.calls + 1, scan := Examining(0))
  }

  function AtHealth(g: System): System {
    if !g.scan.Examining? || g.nodes == [] then g else
      var i := g.cursor % |g.nodes|;
      var moved := g.(cursor := Bump(g.cursor), examined := g.examined + 1);
      if g.nodes[i].endpoint.healthy then moved.(scan := Permitting(g.scan.seen, i))
      else Skip(moved, g.scan.seen)
  }

  function AtBreaker(c: Setup, g: System): System {
    if !g.scan.Permitting? || g.scan.index >= |g.nodes| || |g.nodes| != |c.parses| then g else
      var i := g.scan.index;
      var asked := Put(g, i, Acquire(c.opts, c.parses[i], g.nodes[i], g.calls, g.now));
      if Allowed(c.opts, g.nodes[i].endpoint.breaker, g.now) then asked.(scan := Idle)
      else Skip(asked, g.scan.seen)
  }

  function Apply(c: Setup, g: System, a: Action): System {
    match a
    case Call => Begin(g)
    case ReadHealth => AtHealth(g)
    case TryAllow => AtBreaker(c, g)
    case At(i, what) =>
      if i < |g.nodes| then Put(g, i, Act(c.opts, g.nodes[i], what, g.now)) else g
    case Tick(d) => g.(now := g.now + d)
  }

  function NewNode(c: Setup): Node {
    Node(Endpoint(true, Fresh(c.start)), map[], 0, 0, 0, 0, [], 0)
  }

  function Init(c: Setup): System {
    System(c.start, seq(|c.parses|, _ => NewNode(c)), 0, Idle, 0, 0, 0)
  }

  function Exec(c: Setup, g: System, actions: seq<Action>): System {
    if actions == [] then g else Apply(c, Exec(c, g, Front(actions)), Last(actions))
  }

  lemma {:induction false} ExecTwice(c: Setup, g: System, first: seq<Action>, second: seq<Action>)
    ensures Exec(c, g, first + second) == Exec(c, Exec(c, g, first), second)
  {
    if second == [] {
      assert first + second == first;
    } else {
      ExecTwice(c, g, first, Front(second));
      assert Front(first + second) == first + Front(second);
      assert Last(first + second) == Last(second);
    }
  }

  lemma OneAction(c: Setup, g: System, a: Action)
    ensures Exec(c, g, [a]) == Apply(c, g, a)
  {
    assert Front([a]) == [];
    assert Exec(c, g, []) == g;
  }

  /** One call that asks one instance. */
  const REQUEST := [Call, ReadHealth, TryAllow]

  lemma OneRequest(c: Setup, g: System)
    ensures Exec(c, g, REQUEST) == AtBreaker(c, AtHealth(Begin(g)))
  {
    var one, two := [Call], [Call, ReadHealth];
    assert Front(two) == one && Front(REQUEST) == two;
    OneAction(c, g, Call);
    assert Exec(c, g, two) == AtHealth(Begin(g));
  }

  // ----- Invariant of one instance -----

  function SuccessesRecorded(es: seq<Event>): nat {
    if es == [] then 0 else SuccessesRecorded(Front(es)) + if Last(es).Succeed? then 1 else 0
  }

  /** `Allow` calls that answered true. */
  function Admissions(o: Options, s: Status, es: seq<Event>): nat {
    if es == [] then 0 else
      Admissions(o, s, Front(es))
      + if Last(es).Allow? && Allowed(o, Run(o, s, Front(es)), Last(es).now) then 1 else 0
  }

  /** The breaker is what its history makes of a new one, and the counters count that history. */
  ghost predicate Faithful(c: Setup, nd: Node, now: nat) {
    var s := Fresh(c.start);
    && Timed(c.start, nd.trace)
    && (nd.trace != [] ==> Last(nd.trace).now <= now)
    && nd.endpoint.breaker == Run(c.opts, s, nd.trace)
    && nd.episode == Episodes(c.opts, s, nd.trace)
    && nd.successes == SuccessesRecorded(nd.trace)
    && nd.failures == FailsRecorded(nd.trace)
    && nd.Handled() == Admissions(c.opts, s, nd.trace)
  }

  /** The slot is taken, but not by any outstanding request: it is lost. */
  ghost predicate Orphan(nd: Node) {
    nd.endpoint.breaker.probeInFlight && forall id :: !IsHolder(nd, id)
  }

  /** Who may hold the slot. */
  ghost predicate SlotIsOwned(nd: Node) {
    var b := nd.endpoint.breaker;
    // A slot is lost only by a handler that unwound; and nobody ...
    && (Orphan(nd) ==> nd.vanished > 0)
    && forall id :: id in nd.pending ==>
         var t := nd.pending[id];
         && t.episode <= nd.episode
         // ... but the holder of the slot was admitted in the episode that HALF-OPEN belongs to.
         && (b.state == HalfOpen && t.episode == nd.episode ==> t.probe && b.probeInFlight)
  }

  /** Each episode hands out one probe. */
  ghost predicate OneProbePerEpisode(nd: Node) {
    forall id, other :: id in nd.pending && other in nd.pending ==>
      nd.pending[id].probe && nd.pending[id] == nd.pending[other] ==> id == other
  }

  /** An instance that can only be refused never records anything. */
  ghost predicate NeverRecords(c: Setup, nd: Node) {
    && nd.pending == map[]
    && nd.successes == nd.failures == nd.vanished == 0
    && nd.endpoint.breaker == Fresh(c.start)
  }

  ghost predicate NodeInv(c: Setup, parses: bool, nd: Node, now: nat) {
    && Faithful(c, nd, now)
    && SlotIsOwned(nd)
    && OneProbePerEpisode(nd)
    && (!parses ==> NeverRecords(c, nd))
    && (parses ==> nd.refused == 0)
  }

  lemma TimedLonger(start: nat, es: seq<Event>, e: Event)
    requires Timed(start, es) && start <= e.now && (es != [] ==> Last(es).now <= e.now)
    ensures Timed(start, es + [e])
  {
  }

  lemma TouchIsFaithful(c: Setup, nd: Node, e: Event, now: nat)
    requires Faithful(c, nd, now) && e.now == now && c.start <= now
    ensures var after := Touch(c.opts, nd, e);
            && Timed(c.start, after.trace)
            && Last(after.trace).now <= now
            && after.endpoint.breaker == Run(c.opts, Fresh(c.start), after.trace)
            && after.episode == Episodes(c.opts, Fresh(c.start), after.trace)
            && SuccessesRecorded(after.trace) == nd.successes + (if e.Succeed? then 1 else 0)
            && FailsRecorded(after.trace) == nd.failures + (if e.Fail? then 1 else 0)
            && Admissions(c.opts, Fresh(c.start), after.trace)
               == nd.Handled()
                  + if e.Allow? && Allowed(c.opts, nd.endpoint.breaker, now) then 1 else 0
  {
    TimedLonger(c.start, nd.trace, e);
    assert Front(nd.trace + [e]) == nd.trace;
  }

  lemma Removed<T>(m: map<nat, T>, id: nat)
    requires id in m
    ensures |m - {id}| == |m| - 1
  {
    assert (m - {id}).Keys == m.Keys - {id};
  }

  lemma Added<T>(m: map<nat, T>, id: nat, t: T)
    requires id !in m
    ensures |m[id := t]| == |m| + 1
  {
    assert m[id := t].Keys == m.Keys + {id};
  }

  lemma AcquireKeeps(c: Setup, parses: bool, nd: Node, id: nat, now: nat)
    requires Usable(c.opts) && c.start <= now
    requires NodeInv(c, parses, nd, now) && id !in nd.pending
    ensures NodeInv(c, parses, Acquire(c.opts, parses, nd, id, now), now)
  {
    var o, b, after := c.opts, nd.endpoint.breaker, Acquire(c.opts, parses, nd, id, now);
    StreakGovernsState(o, c.start, nd.trace);
    TouchIsFaithful(c, nd, Allow(now), now);
    RefusalChangesNothing(o, b, now);
    if Allowed(o, b, now) && parses {
      var t := Ticket(after.episode, after.endpoint.breaker.state == HalfOpen);
      Added(nd.pending, id, t);
      assert after.pending == nd.pending[id := t];
      assert t.probe ==> IsHolder(after, id);
    } else if !Allowed(o, b, now) {
      assert forall k :: IsHolder(nd, k) ==> IsHolder(after, k);
      assert forall k :: IsHolder(after, k) ==> IsHolder(nd, k);
    }
  }

  lemma RecordKeeps(c: Setup, parses: bool, nd: Node, id: nat, failed: bool, now: nat)
    requires Usable(c.opts) && c.start <= now
    requires NodeInv(c, parses, nd, now)
    ensures NodeInv(c, parses, Record(c.opts, nd, id, failed, now), now)
  {
    if id in nd.pending {
      var after := Record(c.opts, nd, id, failed, now);
      StreakGovernsState(c.opts, c.start, nd.trace);
      TouchIsFaithful(c, nd, if failed then Fail(now) else Succeed(now), now);
      Removed(nd.pending, id);
      assert forall k :: k in after.pending ==> after.pending[k] == nd.pending[k];
    }
  }

  lemma ForgetKeeps(c: Setup, parses: bool, nd: Node, id: nat, now: nat)
    requires NodeInv(c, parses, nd, now)
    ensures NodeInv(c, parses, Forget(nd, id), now)
  {
    if id in nd.pending {
      var after := Forget(nd, id);
      Removed(nd.pending, id);
      assert forall k :: k in after.pending ==> after.pending[k] == nd.pending[k];
      assert forall k :: k != id && IsHolder(nd, k) ==> IsHolder(after, k);
      assert forall k :: IsHolder(after, k) ==> IsHolder(nd, k) && k != id;
    }
  }

  lemma LookKeeps(c: Setup, parses: bool, nd: Node, now: nat)
    requires Usable(c.opts) && c.start <= now
    requires NodeInv(c, parses, nd, now)
    ensures NodeInv(c, parses, Touch(c.opts, nd, Poll(now)), now)
  {
    var after := Touch(c.opts, nd, Poll(now));
    StreakGovernsState(c.opts, c.start, nd.trace);
    TouchIsFaithful(c, nd, Poll(now), now);
    assert forall k :: IsHolder(after, k) ==> IsHolder(nd, k);
    assert after.endpoint.breaker.probeInFlight ==> forall k :: IsHolder(nd, k) ==> IsHolder(after, k);
  }

  lemma HealthKeeps(c: Setup, parses: bool, nd: Node, healthy: bool, now: nat)
    requires NodeInv(c, parses, nd, now)
    ensures NodeInv(c, parses, nd.(endpoint := nd.endpoint.(healthy := healthy)), now)
  {
    var after := nd.(endpoint := nd.endpoint.(healthy := healthy));
    assert forall k :: IsHolder(after, k) <==> IsHolder(nd, k);
  }

  /** No action on an instance disturbs its invariant ... */
  lemma ActKeeps(c: Setup, parses: bool, nd: Node, what: NodeAction, now: nat)
    requires Usable(c.opts) && c.start <= now
    requires NodeInv(c, parses, nd, now)
    ensures NodeInv(c, parses, Act(c.opts, nd, what, now), now)
  {
    if what.Complete? {
      RecordKeeps(c, parses, nd, what.id, what.failed, now);
    } else if what.Unwind? {
      ForgetKeeps(c, parses, nd, what.id, now);
    } else if what.SetHealth? {
      HealthKeeps(c, parses, nd, what.healthy, now);
    } else {
      LookKeeps(c, parses, nd, now);
    }
  }

  /** ... or its account, or brings in new requests. */
  lemma ActHandlesAsMany(o: Options, nd: Node, what: NodeAction, now: nat)
    ensures Act(o, nd, what, now).Handled() == nd.Handled()
    ensures Act(o, nd, what, now).pending.Keys <= nd.pending.Keys
  {
    if (what.Complete? || what.Unwind?) && what.id in nd.pending {
      Removed(nd.pending, what.id);
    }
  }
}
