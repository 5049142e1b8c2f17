/** Who holds a breaker's probe slot, when it is lost, and what half-open episodes and recorded
    failures amount to, over every run of the gateway. */
module ProbeSlot {
  import opened CircuitBreaker
  import opened BreakerRuns
  import opened Registry
  import opened Gateway
  import opened GatewaySafety
  import opened Sequences

  /** The state of instance i at the end of a run from the start. */
  function NodeAfter(c: Setup, actions: seq<Action>, i: nat): Node {
    var g := Exec(c, Init(c), actions);
    if i < |g.nodes| then g.nodes[i] else NewNode(c)
  }

  lemma NodeAlways(c: Setup, actions: seq<Action>, i: nat)
    requires Usable(c.opts) && i < |c.parses|
    ensures var g := Exec(c, Init(c), actions);
            && i < |g.nodes| == |c.parses|
            && NodeInv(c, c.parses[i], NodeAfter(c, actions, i), g.now)
            && Numbered(NodeAfter(c, actions, i), Limit(g))
            && Consistent(c.opts, NodeAfter(c, actions, i).endpoint.breaker)
  {
    Always(c, actions);
    StreakGovernsState(c.opts, c.start, NodeAfter(c, actions, i).trace);
  }

  // ----- No lost slot -----

  /** No handler unwinds before it records. */
  ghost predicate NobodyUnwinds(actions: seq<Action>) {
    forall k :: 0 <= k < |actions| ==> !(actions[k].At? && actions[k].what.Unwind?)
  }

  lemma VanishOnlyByUnwinding(c: Setup, g: System, a: Action, i: nat)
    requires i < |g.nodes|
    requires !(a.At? && a.what.Unwind?)
    ensures i < |Apply(c, g, a).nodes| && Apply(c, g, a).nodes[i].vanished == g.nodes[i].vanished
  {
  }

  lemma {:induction false} NobodyVanished(c: Setup, actions: seq<Action>, i: nat)
    requires Usable(c.opts) && i < |c.parses| && NobodyUnwinds(actions)
    ensures NodeAfter(c, actions, i).vanished == 0
  {
    if actions != [] {
      assert NobodyUnwinds(Front(actions));
      NobodyVanished(c, Front(actions), i);
      NodeAlways(c, Front(actions), i);
      VanishOnlyByUnwinding(c, Exec(c, Init(c), Front(actions)), Last(actions), i);
    }
  }

  /** If no handler unwinds, a taken slot always belongs to an outstanding request that was
      admitted in this very half-open episode; so once nothing is outstanding no slot is taken. */
  lemma NoSlotIsLost(c: Setup, actions: seq<Action>, i: nat)
    requires Usable(c.opts) && i < |c.parses| && NobodyUnwinds(actions)
    ensures var nd := NodeAfter(c, actions, i);
            nd.endpoint.breaker.probeInFlight ==>
              && nd.endpoint.breaker.state == HalfOpen
              && nd.pending != map[]
              && exists id :: id in nd.pending && nd.pending[id] == Ticket(nd.episode, true)
  {
    NodeAlways(c, actions, i);
    NobodyVanished(c, actions, i);
    var nd := NodeAfter(c, actions, i);
    if nd.endpoint.breaker.probeInFlight {
      var id :| IsHolder(nd, id);
      assert id in nd.pending;
    }
  }

  /** One more action leaves the slot lost exactly when the slot was lost and is still taken, or
      the handler holding it unwinds. In particular the early return for an address that does not
      parse never loses a slot. */
  lemma SlotIsLostIff(c: Setup, actions: seq<Action>, a: Action, i: nat)
    requires Usable(c.opts) && i < |c.parses|
    ensures var nd, after := NodeAfter(c, actions, i), NodeAfter(c, actions + [a], i);
            Orphan(after) <==>
              || (Orphan(nd) && after.endpoint.breaker.probeInFlight)
              || (a.At? && a.node == i && a.what.Unwind? && IsHolder(nd, a.what.id))
  {
    assert Front(actions + [a]) == actions;
    NodeAlways(c, actions, i);
    NodeSteps(c, Exec(c, Init(c), actions), a, i);
    OrphanStep(c, Exec(c, Init(c), actions), a, i);
  }

  lemma OrphanAfterAct(o: Options, nd: Node, what: NodeAction, now: nat)
    requires Consistent(o, nd.endpoint.breaker) && OneProbePerEpisode(nd)
    ensures var after := Act(o, nd, what, now);
            Orphan(after) <==>
              || (Orphan(nd) && after.endpoint.breaker.probeInFlight)
              || (what.Unwind? && IsHolder(nd, what.id))
  {
    var after := Act(o, nd, what, now);
    if after.endpoint.breaker.probeInFlight {
      assert forall id :: IsHolder(after, id) <==> IsHolder(nd, id) && id in after.pending;
    }
  }

  lemma OrphanAfterAcquire(o: Options, parses: bool, nd: Node, id: nat, now: nat)
    requires Consistent(o, nd.endpoint.breaker)
    requires id !in nd.pending && (!parses ==> nd.endpoint.breaker.state == Closed)
    ensures Orphan(Acquire(o, parses, nd, id, now)) <==> Orphan(nd)
  {
    var after := Acquire(o, parses, nd, id, now);
    RefusalChangesNothing(o, nd.endpoint.breaker, now);
    if Allowed(o, nd.endpoint.breaker, now) {
      assert after.endpoint.breaker.probeInFlight ==> IsHolder(after, id);
    } else {
      assert forall k :: IsHolder(after, k) <==> IsHolder(nd, k);
    }
  }

  lemma OrphanStep(c: Setup, g: System, a: Action, i: nat)
    requires i < |g.nodes| == |c.parses|
    requires NodeInv(c, c.parses[i], g.nodes[i], g.now) && Numbered(g.nodes[i], Limit(g))
    requires Consistent(c.opts, g.nodes[i].endpoint.breaker)
    ensures Orphan(NodeStep(c, g, a, i)) <==>
              || (Orphan(g.nodes[i]) && NodeStep(c, g, a, i).endpoint.breaker.probeInFlight)
              || (a.At? && a.node == i && a.what.Unwind? && IsHolder(g.nodes[i], a.what.id))
  {
    if a.TryAllow? && g.scan.Permitting? && g.scan.index == i {
      OrphanAfterAcquire(c.opts, c.parses[i], g.nodes[i], g.calls, g.now);
    } else if a.At? && a.node == i {
      OrphanAfterAct(c.opts, g.nodes[i], a.what, g.now);
    }
  }

  // ----- A lost slot wedges the instance -----

  /** The slot is taken and nobody is left who could free it. */
  predicate Wedged(nd: Node) {
    nd.endpoint.breaker.probeInFlight && nd.pending == map[]
  }

  lemma WedgedStep(c: Setup, g: System, a: Action, i: nat)
    requires i < |g.nodes| && Wedged(g.nodes[i]) && g.nodes[i].endpoint.breaker.state == HalfOpen
    ensures var after := Apply(c, g, a);
            && i < |after.nodes|
            && Wedged(after.nodes[i])
            && after.nodes[i].endpoint.breaker == g.nodes[i].endpoint.breaker
            && after.nodes[i].Handled() == g.nodes[i].Handled()
  {
    if a.TryAllow? {
      RefusalChangesNothing(c.opts, g.nodes[i].endpoint.breaker, g.now);
    }
  }

  lemma {:induction false} WedgedForever(c: Setup, g: System, more: seq<Action>, i: nat)
    requires i < |g.nodes| && Wedged(g.nodes[i]) && g.nodes[i].endpoint.breaker.state == HalfOpen
    ensures var after := Exec(c, g, more);
            && i < |after.nodes|
            && Wedged(after.nodes[i])
            && after.nodes[i].endpoint.breaker == g.nodes[i].endpoint.breaker
            && after.nodes[i].Handled() == g.nodes[i].Handled()
  {
    if more != [] {
      WedgedForever(c, g, Front(more), i);
      WedgedStep(c, Exec(c, g, Front(more)), Last(more), i);
    }
  }

  /** Some continuation brings the instance's breaker to admit a request. */
  ghost predicate CanServeAgain(c: Setup, g: System, i: nat) {
    exists more: seq<Action> :: Serves(c, Exec(c, g, more), i)
  }

  predicate Serves(c: Setup, g: System, i: nat) {
    i < |g.nodes| && Allowed(c.opts, g.nodes[i].endpoint.breaker, g.now)
  }

  /** In every reachable state: a breaker can admit again unless its slot is taken with nothing
      outstanding, and then it never will, whatever happens. */
  lemma CanServeAgainIff(c: Setup, actions: seq<Action>, i: nat)
    requires Usable(c.opts) && i < |c.parses|
    ensures CanServeAgain(c, Exec(c, Init(c), actions), i) <==> !Wedged(NodeAfter(c, actions, i))
    ensures Orphan(NodeAfter(c, actions, i)) ==>
              (CanServeAgain(c, Exec(c, Init(c), actions), i)
               <==> NodeAfter(c, actions, i).pending != map[])
  {
    NodeAlways(c, actions, i);
    var g, nd := Exec(c, Init(c), actions), NodeAfter(c, actions, i);
    if Wedged(nd) {
      forall more: seq<Action> ensures !Serves(c, Exec(c, g, more), i) {
        WedgedForever(c, g, more, i);
      }
    } else {
      assert nd.endpoint.breaker.probeInFlight ==> exists id :: id in nd.pending && id !in {};
      var more := WayBack(c, g, i, {});
      assert Serves(c, Exec(c, g, more), i);
    }
  }

  /** How to get a request admitted while those in `keep` stay outstanding: wait out the timeout if
      OPEN; let any other outstanding request succeed if the slot is taken. */
  lemma WayBack(c: Setup, g: System, i: nat, keep: set<nat>) returns (more: seq<Action>)
    requires Usable(c.opts) && i < |g.nodes|
    requires Consistent(c.opts, g.nodes[i].endpoint.breaker)
    requires g.nodes[i].endpoint.breaker.probeInFlight ==>
               exists id :: id in g.nodes[i].pending && id !in keep
    ensures var after := Exec(c, g, more);
            && Serves(c, after, i)
            && forall id :: id in g.nodes[i].pending && id in keep ==>
                 id in after.nodes[i].pending && after.nodes[i].pending[id] == g.nodes[i].pending[id]
  {
    var b := g.nodes[i].endpoint.breaker;
    var wait := b.openedAt + c.opts.recoveryTimeout - g.now;
    if b.state == Open && wait > 0 {
      more := [Tick(wait)];
      assert Front(more) == [];
    } else if b.probeInFlight {
      var id :| id in g.nodes[i].pending && id !in keep;
      more := [At(i, Complete(id, false))];
      assert Front(more) == [];
    } else {
      more := [];
    }
  }

  // ----- Are others refused until the probe completes? -----

  /** In some continuation the breaker admits another request while `id` is still outstanding. */
  ghost predicate AdmitsBeside(c: Setup, g: System, i: nat, id: nat) {
    exists more: seq<Action> :: ServesBeside(c, Exec(c, g, more), i, id)
  }

  predicate ServesBeside(c: Setup, g: System, i: nat, id: nat) {
    Serves(c, g, i) && id in g.nodes[i].pending
  }

  /** The slot is taken and request `id` is the only one outstanding, or `id` is gone for good. */
  ghost predicate AloneOrGone(g: System, i: nat, id: nat) {
    && i < |g.nodes| && id < Limit(g)
    && (id in g.nodes[i].pending ==>
          && g.nodes[i].endpoint.breaker.state == HalfOpen
          && g.nodes[i].endpoint.breaker.probeInFlight
          && g.nodes[i].pending.Keys == {id})
  }

  lemma AloneOrGoneStep(c: Setup, g: System, a: Action, i: nat, id: nat)
    requires AloneOrGone(g, i, id)
    ensures AloneOrGone(Apply(c, g, a), i, id)
  {
    if a.TryAllow? {
      RefusalChangesNothing(c.opts, g.nodes[i].endpoint.breaker, g.now);
    }
  }

  lemma {:induction false} AloneOrGoneForever(c: Setup, g: System, more: seq<Action>, i: nat, id: nat)
    requires AloneOrGone(g, i, id)
    ensures AloneOrGone(Exec(c, g, more), i, id)
  {
    if more != [] {
      AloneOrGoneForever(c, g, Front(more), i, id);
      AloneOrGoneStep(c, Exec(c, g, Front(more)), Last(more), i, id);
    }
  }

  /** In every reachable state: everyone else is refused for as long as request `id` stays
      outstanding, in every continuation, exactly if the slot is taken and nothing else is
      outstanding. For a probe just admitted this says: exactly if no request admitted earlier is
      still under way. */
  lemma OthersAreRefusedIff(c: Setup, actions: seq<Action>, i: nat, id: nat)
    requires Usable(c.opts) && i < |c.parses| && id in NodeAfter(c, actions, i).pending
    ensures !AdmitsBeside(c, Exec(c, Init(c), actions), i, id)
            <==> && NodeAfter(c, actions, i).endpoint.breaker.probeInFlight
                 && NodeAfter(c, actions, i).pending.Keys == {id}
  {
    NodeAlways(c, actions, i);
    var g, nd := Exec(c, Init(c), actions), NodeAfter(c, actions, i);
    if nd.endpoint.breaker.probeInFlight && nd.pending.Keys == {id} {
      forall more: seq<Action> ensures !ServesBeside(c, Exec(c, g, more), i, id) {
        AloneOrGoneForever(c, g, more, i, id);
      }
    } else {
      var more := WayBack(c, g, i, {id});
      assert ServesBeside(c, Exec(c, g, more), i, id);
    }
  }

  // ----- Probes without their slot -----

  /** An outstanding probe that no longer holds the slot. */
  predicate Slotless(nd: Node, id: nat) {
    id in nd.pending && nd.pending[id].probe && !IsHolder(nd, id)
  }

  /** A record by another request while `id` holds the slot. */
  predicate TakesOver(g: System, a: Action, i: nat, id: nat) {
    && a.At? && a.node == i < |g.nodes| && a.what.Complete?
    && a.what.id in g.nodes[i].pending && a.what.id != id
    && IsHolder(g.nodes[i], id)
  }

  /** That happened at some point of the run. */
  predicate TakenOver(c: Setup, actions: seq<Action>, i: nat, id: nat) {
    && actions != []
    && (|| TakenOver(c, Front(actions), i, id)
        || TakesOver(Exec(c, Init(c), Front(actions)), Last(actions), i, id))
  }

  lemma SlotlessAfterAct(o: Options, nd: Node, what: NodeAction, id: nat, now: nat)
    requires Consistent(o, nd.endpoint.breaker) && SlotIsOwned(nd)
    ensures var after := Act(o, nd, what, now);
            Slotless(after, id) <==>
              || (Slotless(nd, id) && id in after.pending)
              || (what.Complete? && what.id in nd.pending && what.id != id && IsHolder(nd, id))
  {
  }

  lemma SlotlessAfterAcquire(o: Options, parses: bool, nd: Node, newcomer: nat, id: nat, now: nat)
    requires Consistent(o, nd.endpoint.breaker) && SlotIsOwned(nd) && newcomer !in nd.pending
    ensures var after := Acquire(o, parses, nd, newcomer, now);
            && (Slotless(after, id) <==> Slotless(nd, id))
            && (id in after.pending ==> id in nd.pending || id == newcomer)
  {
    RefusalChangesNothing(o, nd.endpoint.breaker, now);
  }

  lemma SlotlessStep(c: Setup, g: System, a: Action, i: nat, id: nat)
    requires i < |g.nodes| == |c.parses|
    requires SlotIsOwned(g.nodes[i]) && Numbered(g.nodes[i], Limit(g))
    requires Consistent(c.opts, g.nodes[i].endpoint.breaker)
    ensures var after := NodeStep(c, g, a, i);
            && (Slotless(after, id) <==>
                  (Slotless(g.nodes[i], id) && id in after.pending) || TakesOver(g, a, i, id))
            && (id in after.pending && id < Limit(g) ==> id in g.nodes[i].pending)
  {
    if a.TryAllow? && g.scan.Permitting? && g.scan.index == i {
      SlotlessAfterAcquire(c.opts, c.parses[i], g.nodes[i], g.calls, id, g.now);
    } else if a.At? && a.node == i {
      SlotlessAfterAct(c.opts, g.nodes[i], a.what, id, g.now);
    }
  }

  /** One more action takes the slot from an outstanding probe exactly if it is a record by another
      request. */
  lemma ProbeLosesSlotIff(c: Setup, actions: seq<Action>, a: Action, i: nat, id: nat)
    requires Usable(c.opts) && i < |c.parses|
    ensures var g, after := Exec(c, Init(c), actions), NodeAfter(c, actions + [a], i);
            Slotless(after, id) <==>
              || (Slotless(NodeAfter(c, actions, i), id) && id in after.pending)
              || TakesOver(g, a, i, id)
  {
    assert Front(actions + [a]) == actions;
    NodeAlways(c, actions, i);
    NodeSteps(c, Exec(c, Init(c), actions), a, i);
    SlotlessStep(c, Exec(c, Init(c), actions), a, i, id);
  }

  /** In every reachable state: an outstanding probe is without the slot exactly if at some point
      of the run another request was recorded while it held the slot. */
  lemma {:induction false} SlotlessIff(c: Setup, actions: seq<Action>, i: nat, id: nat)
    requires Usable(c.opts) && i < |c.parses|
    ensures var nd := NodeAfter(c, actions, i);
            && (Slotless(nd, id) <==> id in nd.pending && TakenOver(c, actions, i, id))
            && (TakenOver(c, actions, i, id) ==> id < Limit(Exec(c, Init(c), actions)))
  {
    if actions != [] {
      SlotlessIff(c, Front(actions), i, id);
      NodeAlways(c, Front(actions), i);
      NodeSteps(c, Exec(c, Init(c), Front(actions)), Last(actions), i);
      SlotlessStep(c, Exec(c, Init(c), Front(actions)), Last(actions), i, id);
    }
  }

  /** So of two outstanding probes one was taken over; one that was not holds the slot. */
  lemma OneProbeUnlessTakenOver(c: Setup, actions: seq<Action>, i: nat, id: nat, other: nat)
    requires Usable(c.opts) && i < |c.parses|
    requires var nd := NodeAfter(c, actions, i);
             && id in nd.pending && nd.pending[id].probe
             && other in nd.pending && nd.pending[other].probe
    requires !TakenOver(c, actions, i, id)
    ensures IsHolder(NodeAfter(c, actions, i), id)
    ensures id == other || TakenOver(c, actions, i, other)
  {
    NodeAlways(c, actions, i);
    SlotlessIff(c, actions, i, id);
    SlotlessIff(c, actions, i, other);
  }

  /** Whenever another request is recorded while a probe holds the slot, the breaker admits again
      with the probe still outstanding: at once after a success, one timeout later after a failure. */
  lemma TakeoverAdmitsSecond(c: Setup, actions: seq<Action>, i: nat, id: nat, other: nat, failed: bool)
    requires Usable(c.opts) && i < |c.parses|
    requires TakesOver(Exec(c, Init(c), actions), At(i, Complete(other, failed)), i, id)
    ensures var wait := if failed then c.opts.recoveryTimeout else 0;
            var run := actions + [At(i, Complete(other, failed))] + [Tick(wait)];
            ServesBeside(c, Exec(c, Init(c), run), i, id) && Slotless(NodeAfter(c, run, i), id)
  {
    var record := At(i, Complete(other, failed));
    var wait := Tick(if failed then c.opts.recoveryTimeout else 0);
    assert Front(actions + [record]) == actions;
    assert Front(actions + [record] + [wait]) == actions + [record];
    NodeAlways(c, actions, i);
  }

  // ----- Such states are reached -----

  /** Between scans, with one healthy instance that has the given requests under way. */
  predicate Shows(c: Setup, g: System, now: int, calls: nat, pending: map<nat, Ticket>, b: Status, episode: nat) {
    && g.scan == Idle && g.now == now && g.calls == calls
    && |g.nodes| == 1 && c.parses == [true]
    && g.nodes[0].endpoint == Endpoint(true, b)
    && g.nodes[0].pending == pending && g.nodes[0].episode == episode
  }

  lemma AfterRequest(c: Setup, g: System, calls: nat, pending: map<nat, Ticket>, b: Status, episode: nat)
    requires Shows(c, g, g.now, calls, pending, b, episode) && Allowed(c.opts, b, g.now)
    ensures var admitted := AfterAllow(c.opts, b, g.now);
            var here := episode + Entered(b, admitted);
            Shows(c, Exec(c, g, REQUEST), g.now, calls + 1,
                  pending[calls + 1 := Ticket(here, admitted.state == HalfOpen)], admitted, here)
  {
    OneRequest(c, g);
  }

  /** A request ends, and time passes. */
  lemma AfterEnd(
      c: Setup, g: System, what: NodeAction, d: nat,
      calls: nat, pending: map<nat, Ticket>, b: Status, episode: nat)
    requires Shows(c, g, g.now, calls, pending, b, episode)
    requires ((what.Complete? && what.failed) || what.Unwind?) && what.id in pending
    ensures Shows(c, Exec(c, g, [At(0, what), Tick(d)]), g.now + d, calls, pending - {what.id},
                  if what.Unwind? then b else AfterFailure(c.opts, b, g.now), episode)
  {
    var both := [At(0, what), Tick(d)];
    assert Front(both) == [At(0, what)] && Front([At(0, what)]) == [];
    assert Exec(c, g, []) == g;
    assert Exec(c, g, [At(0, what)]) == Apply(c, g, At(0, what));
  }

  /** Two requests are under way when the first fails and trips the breaker; the second outlives
      the recovery timeout. */
  function FirstHalf(timeout: nat): seq<Action> {
    REQUEST + REQUEST + [At(0, Complete(1, true)), Tick(timeout)] + REQUEST
  }

  lemma TwoUnderWay(c: Setup)
    requires Usable(c.opts) && c.parses == [true]
    ensures Shows(c, Exec(c, Init(c), REQUEST + REQUEST), c.start, 2,
                  map[1 := Ticket(0, false), 2 := Ticket(0, false)], Fresh(c.start), 0)
  {
    var g := Exec(c, Init(c), REQUEST);
    AfterRequest(c, Init(c), 0, map[], Fresh(c.start), 0);
    AfterRequest(c, g, 1, map[1 := Ticket(0, false)], Fresh(c.start), 0);
    ExecTwice(c, Init(c), REQUEST, REQUEST);
  }

  lemma AfterFirstHalf(timeout: nat)
    requires timeout > 0
    ensures var c := Setup(Options(1, timeout), 0, [true]);
            Shows(c, Exec(c, Init(c), FirstHalf(timeout)), timeout, 3,
                  map[2 := Ticket(0, false), 3 := Ticket(1, true)], Status(HalfOpen, 1, 0, true, timeout), 1)
  {
    var c := Setup(Options(1, timeout), 0, [true]);
    var both, fail := REQUEST + REQUEST, [At(0, Complete(1, true)), Tick(timeout)];
    var g := Exec(c, Init(c), both);
    var pending, left := map[1 := Ticket(0, false), 2 := Ticket(0, false)], map[2 := Ticket(0, false)];
    TwoUnderWay(c);
    AfterEnd(c, g, Complete(1, true), timeout, 2, pending, Fresh(0), 0);
    assert pending - {1} == left;
    AfterRequest(c, Exec(c, g, fail), 2, left, Status(Open, 1, 0, false, 0), 0);
    ExecTwice(c, Init(c), both, fail);
    ExecTwice(c, Init(c), both + fail, REQUEST);
  }

  /** If then the second request fails in the half-open episode of the probe, request 3, one
      timeout later the instance is sent a second probe beside it, request 4. */
  lemma TwoProbesAtOnce(timeout: nat)
    requires timeout > 0
    ensures var c := Setup(Options(1, timeout), 0, [true]);
            var run := FirstHalf(timeout) + [At(0, Complete(2, true)), Tick(timeout)] + REQUEST;
            NodeAfter(c, run, 0).pending == map[3 := Ticket(1, true), 4 := Ticket(2, true)]
  {
    var c := Setup(Options(1, timeout), 0, [true]);
    var fail := [At(0, Complete(2, true)), Tick(timeout)];
    var g := Exec(c, Init(c), FirstHalf(timeout));
    var b, pending := Status(HalfOpen, 1, 0, true, timeout), map[2 := Ticket(0, false), 3 := Ticket(1, true)];
    AfterFirstHalf(timeout);
    AfterEnd(c, g, Complete(2, true), timeout, 3, pending, b, 1);
    assert pending - {2} == map[3 := Ticket(1, true)];
    AfterRequest(c, Exec(c, g, fail), 3, pending - {2}, AfterFailure(c.opts, b, timeout), 1);
    ExecTwice(c, Init(c), FirstHalf(timeout), fail);
    ExecTwice(c, Init(c), FirstHalf(timeout) + fail, REQUEST);
  }

  /** If instead the probe's handler unwinds, the slot is lost; and once the second request has gone
      the same way, the instance is wedged. */
  lemma WedgedIsReached(timeout: nat)
    requires timeout > 0
    ensures var c := Setup(Options(1, timeout), 0, [true]);
            var lost := FirstHalf(timeout) + [At(0, Unwind(3)), Tick(0)];
            var wedged := lost + [At(0, Unwind(2)), Tick(0)];
            && Orphan(NodeAfter(c, lost, 0)) && NodeAfter(c, lost, 0).pending.Keys == {2}
            && Wedged(NodeAfter(c, wedged, 0))
  {
    var c := Setup(Options(1, timeout), 0, [true]);
    var g := Exec(c, Init(c), FirstHalf(timeout));
    var b, pending := Status(HalfOpen, 1, 0, true, timeout), map[2 := Ticket(0, false), 3 := Ticket(1, true)];
    var unwind3, unwind2 := [At(0, Unwind(3)), Tick(0)], [At(0, Unwind(2)), Tick(0)];
    AfterFirstHalf(timeout);
    AfterEnd(c, g, Unwind(3), 0, 3, pending, b, 1);
    assert pending - {3} == map[2 := Ticket(0, false)];
    AfterEnd(c, Exec(c, g, unwind3), Unwind(2), 0, 3, pending - {3}, b, 1);
    ExecTwice(c, Init(c), FirstHalf(timeout), unwind3);
    ExecTwice(c, Init(c), FirstHalf(timeout) + unwind3, unwind2);
    assert NodeAfter(c, FirstHalf(timeout) + unwind3, 0).pending == map[2 := Ticket(0, false)];
  }

  /** The requests among `pending` that were admitted before the given episode. */
  ghost predicate NoNewStale(before: Node, after: Node, episode: nat) {
    && episode <= after.episode
    && forall id :: id in after.pending && after.pending[id].episode < episode
         ==> id in before.pending && before.pending[id].episode < episode
  }

  lemma StaleNodeStep(o: Options, parses: bool, nd: Node, what: NodeAction, id: nat, now: nat, episode: nat)
    requires episode <= nd.episode
    ensures NoNewStale(nd, Act(o, nd, what, now), episode)
    ensures NoNewStale(nd, Acquire(o, parses, nd, id, now), episode)
  {
  }

  /** Requests admitted before the current episode can only go away. */
  lemma StaleStep(c: Setup, g: System, a: Action, i: nat, episode: nat)
    requires i < |g.nodes| && episode <= g.nodes[i].episode && |g.nodes| == |c.parses|
    ensures var after := Apply(c, g, a);
            i < |after.nodes| && NoNewStale(g.nodes[i], after.nodes[i], episode)
  {
    StaleNodeStep(c.opts, c.parses[i], g.nodes[i], if a.At? then a.what else Look, g.calls, g.now, episode);
  }

  lemma {:induction false} StaleOnlyShrinks(c: Setup, g: System, more: seq<Action>, i: nat, episode: nat)
    requires Usable(c.opts) && SystemInv(c, g) && i < |g.nodes| && episode <= g.nodes[i].episode
    ensures var after := Exec(c, g, more);
            i < |after.nodes| && NoNewStale(g.nodes[i], after.nodes[i], episode)
  {
    if more != [] {
      StaleOnlyShrinks(c, g, Front(more), i, episode);
      InvariantFrom(c, g, Front(more));
      StaleStep(c, Exec(c, g, Front(more)), Last(more), i, episode);
    }
  }

  /** If nothing admitted earlier is outstanding in some state of a half-open episode, then for the
      rest of that episode the probe is the instance's only outstanding request. */
  lemma ProbeIsAlone(c: Setup, actions: seq<Action>, more: seq<Action>, i: nat)
    requires Usable(c.opts) && i < |c.parses|
    requires var nd := NodeAfter(c, actions, i);
             forall id :: id in nd.pending ==> nd.pending[id].episode == nd.episode
    requires var nd, later := NodeAfter(c, actions, i), NodeAfter(c, actions + more, i);
             later.episode == nd.episode && later.endpoint.breaker.state == HalfOpen
    ensures var later := NodeAfter(c, actions + more, i);
            && |later.pending| <= 1
            && forall id :: id in later.pending ==> IsHolder(later, id)
  {
    NodeAlways(c, actions, i);
    NodeAlways(c, actions + more, i);
    ExecTwice(c, Init(c), actions, more);
    Always(c, actions);
    var nd, later := NodeAfter(c, actions, i), NodeAfter(c, actions + more, i);
    StaleOnlyShrinks(c, Exec(c, Init(c), actions), more, i, nd.episode);
    forall id | id in later.pending ensures IsHolder(later, id) {
      assert later.pending[id].episode <= later.episode;
    }
    AtMostOne(later);
  }

  lemma AtMostOne(nd: Node)
    requires OneProbePerEpisode(nd) && forall id :: id in nd.pending ==> IsHolder(nd, id)
    ensures |nd.pending| <= 1
  {
    if nd.pending != map[] {
      var id :| id in nd.pending;
      forall other | other in nd.pending ensures other == id {
        assert IsHolder(nd, id) && IsHolder(nd, other);
      }
      assert nd.pending.Keys == {id};
    }
  }

  // ----- What the breaker's own run theorems mean here -----

  /** Trips and re-opens are paid for by the instance's failure counter. */
  lemma TripsArePaidFor(c: Setup, actions: seq<Action>, i: nat)
    requires Usable(c.opts) && i < |c.parses|
    ensures var nd, s := NodeAfter(c, actions, i), Fresh(c.start);
            Trips(c.opts, s, nd.trace) * c.opts.failureThreshold + Reopens(c.opts, s, nd.trace)
            <= nd.failures
  {
    NodeAlways(c, actions, i);
    TripCost(c.opts, c.start, NodeAfter(c, actions, i).trace);
  }

  /** In any interval in which the breaker is never found CLOSED, the gateway sends the instance at
      most one request per recovery timeout, and one more. */
  lemma RecoveringInstanceIsSpared(c: Setup, actions: seq<Action>, i: nat, a: nat, length: nat)
    requires Usable(c.opts) && i < |c.parses|
    requires NeverClosedWithin(c.opts, Fresh(c.start), NodeAfter(c, actions, i).trace, a, length)
    ensures var trace := NodeAfter(c, actions, i).trace;
            AdmissionsWithin(c.opts, Fresh(c.start), trace, |trace|, a, length)
            <= length / c.opts.recoveryTimeout + 1
  {
    NodeAlways(c, actions, i);
    ProbeRate(c.opts, c.start, NodeAfter(c, actions, i).trace, a, length);
  }

  /** An instance whose address does not parse answers every request it is given with 502 and
      never leaves CLOSED: its breaker cannot take it out of rotation. */
  lemma UnparseableNeverTrips(c: Setup, actions: seq<Action>, i: nat)
    requires Usable(c.opts) && i < |c.parses| && !c.parses[i]
    ensures var nd := NodeAfter(c, actions, i);
            && nd.endpoint.breaker == Fresh(c.start)
            && nd.pending == map[]
            && nd.refused == Admissions(c.opts, Fresh(c.start), nd.trace)
  {
    NodeAlways(c, actions, i);
  }

  // ----- Conservation -----

  /** Every call was rejected, is still scanning, or is accounted for by exactly one instance, whose
      counters agree with what was recorded on its breaker. */
  lemma CallsAreConserved(c: Setup, actions: seq<Action>)
    requires Usable(c.opts)
    ensures var g := Exec(c, Init(c), actions);
            && |g.nodes| == |c.parses|
            && g.calls == g.rejections + InScan(g) + HandledBy(g.nodes)
            && forall i :: 0 <= i < |g.nodes| ==>
                 && g.nodes[i].failures == FailsRecorded(g.nodes[i].trace)
                 && g.nodes[i].successes == SuccessesRecorded(g.nodes[i].trace)
                 && (c.parses[i] && NobodyUnwinds(actions) ==>
                       g.nodes[i].Handled()
                       == g.nodes[i].successes + g.nodes[i].failures + |g.nodes[i].pending|)
  {
    Always(c, actions);
    var g := Exec(c, Init(c), actions);
    forall i | 0 <= i < |g.nodes| && NobodyUnwinds(actions) ensures g.nodes[i].vanished == 0 {
      NobodyVanished(c, actions, i);
    }
  }
}
