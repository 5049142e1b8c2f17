/** Can traffic tell whether anybody watches the dashboard? The whole gateway is run twice: as it
    is, with the looks that its handlers take at their own breakers, and with the dashboard's looks
    added. */
module Dashboard {
  import opened CircuitBreaker
  import opened BreakerRuns
  import opened Introspection
  import opened Gateway
  import opened Sequences

  predicate IsLook(a: Action) {
    a.At? && a.what.Look?
  }

  /** What traffic makes of an instance: health, requests under way (with the episode they belong
      to and whether they are probes), and what became of the others. */
  datatype NodeView = NodeView(
    healthy: bool, pending: map<nat, Ticket>, successes: nat, failures: nat, refused: nat, vanished: nat)

  function ViewOf(nd: Node): NodeView {
    NodeView(nd.endpoint.healthy, nd.pending, nd.successes, nd.failures, nd.refused, nd.vanished)
  }

  /** The part of the gateway that requests depend on or leave behind. */
  ghost predicate SameTraffic(g: System, h: System) {
    && g.now == h.now && g.cursor == h.cursor && g.scan == h.scan
    && g.calls == h.calls && g.rejections == h.rejections
    && |g.nodes| == |h.nodes|
    && forall i :: 0 <= i < |g.nodes| ==> ViewOf(g.nodes[i]) == ViewOf(h.nodes[i])
  }

  /** The watched instance may already be in the half-open episode that the other is ripe for. */
  predicate NodeTwins(o: Options, watched: Node, plain: Node, now: nat) {
    && ViewOf(watched) == ViewOf(plain)
    && Twins(o, watched.endpoint.breaker, plain.endpoint.breaker, now)
    && watched.episode == plain.episode + Entered(plain.endpoint.breaker, watched.endpoint.breaker)
  }

  ghost predicate SystemTwins(c: Setup, watched: System, plain: System) {
    && SameTraffic(watched, plain)
    && |plain.nodes| == |c.parses|
    && forall i :: 0 <= i < |plain.nodes| ==>
         NodeTwins(c.opts, watched.nodes[i], plain.nodes[i], plain.now)
  }

  /** The action does not record on a breaker that is OPEN with its timeout elapsed. */
  predicate NotRipe(c: Setup, g: System, a: Action) {
    a.At? && a.what.Complete? && a.node < |g.nodes| && a.what.id in g.nodes[a.node].pending
    ==> !Ripe(c.opts, g.nodes[a.node].endpoint.breaker, g.now)
  }

  ghost predicate NeverRipe(c: Setup, actions: seq<Action>) {
    actions != [] ==>
      NeverRipe(c, Front(actions)) && NotRipe(c, Exec(c, Init(c), Front(actions)), Last(actions))
  }

  lemma ActTwins(o: Options, watched: Node, plain: Node, what: NodeAction, now: nat)
    requires NodeTwins(o, watched, plain, now)
    ensures what.Look? ==> NodeTwins(o, Act(o, watched, what, now), plain, now)
    ensures !(what.Complete? && what.id in plain.pending && Ripe(o, plain.endpoint.breaker, now))
            ==> NodeTwins(o, Act(o, watched, what, now), Act(o, plain, what, now), now)
  {
  }

  lemma AcquireTwins(o: Options, parses: bool, watched: Node, plain: Node, id: nat, now: nat)
    requires NodeTwins(o, watched, plain, now)
    ensures Allowed(o, watched.endpoint.breaker, now) == Allowed(o, plain.endpoint.breaker, now)
    ensures NodeTwins(o, Acquire(o, parses, watched, id, now), Acquire(o, parses, plain, id, now), now)
  {
    RefusalChangesNothing(o, watched.endpoint.breaker, now);
    RefusalChangesNothing(o, plain.endpoint.breaker, now);
  }

  lemma LaterTwins(o: Options, watched: Node, plain: Node, now: nat, d: nat)
    requires NodeTwins(o, watched, plain, now)
    ensures NodeTwins(o, watched, plain, now + d)
  {
  }

  lemma PutTwins(c: Setup, watched: System, plain: System, i: nat, a: Node, b: Node)
    requires SystemTwins(c, watched, plain) && i < |plain.nodes|
    requires NodeTwins(c.opts, a, b, plain.now)
    ensures SystemTwins(c, Put(watched, i, a), Put(plain, i, b))
  {
  }

  lemma LookTwins(c: Setup, watched: System, plain: System, a: Action)
    requires SystemTwins(c, watched, plain) && IsLook(a)
    ensures SystemTwins(c, Apply(c, watched, a), plain)
  {
    if a.node < |plain.nodes| {
      ActTwins(c.opts, watched.nodes[a.node], plain.nodes[a.node], Look, plain.now);
    }
  }

  lemma ScanTwins(c: Setup, watched: System, plain: System, a: Action)
    requires SystemTwins(c, watched, plain) && (a.Call? || a.ReadHealth? || a.TryAllow?)
    ensures SystemTwins(c, Apply(c, watched, a), Apply(c, plain, a))
  {
    match a
    case Call =>
    case ReadHealth =>
      if plain.scan.Examining? && plain.nodes != [] {
        var i := plain.cursor % |plain.nodes|;
        assert ViewOf(watched.nodes[i]) == ViewOf(plain.nodes[i]);
      }
    case TryAllow =>
      if plain.scan.Permitting? && plain.scan.index < |plain.nodes| {
        var i := plain.scan.index;
        AcquireTwins(c.opts, c.parses[i], watched.nodes[i], plain.nodes[i], plain.calls, plain.now);
        PutTwins(c, watched, plain, i,
                 Acquire(c.opts, c.parses[i], watched.nodes[i], plain.calls, plain.now),
                 Acquire(c.opts, c.parses[i], plain.nodes[i], plain.calls, plain.now));
      }
  }

  lemma ActionTwins(c: Setup, watched: System, plain: System, a: Action)
    requires SystemTwins(c, watched, plain) && NotRipe(c, plain, a)
    ensures SystemTwins(c, Apply(c, watched, a), Apply(c, plain, a))
  {
    match a
    case At(i, what) =>
      if i < |plain.nodes| {
        ActTwins(c.opts, watched.nodes[i], plain.nodes[i], what, plain.now);
        PutTwins(c, watched, plain, i,
                 Act(c.opts, watched.nodes[i], what, plain.now),
                 Act(c.opts, plain.nodes[i], what, plain.now));
      }
    case Tick(d) =>
      forall i | 0 <= i < |plain.nodes|
        ensures NodeTwins(c.opts, watched.nodes[i], plain.nodes[i], plain.now + d)
      {
        LaterTwins(c.opts, watched.nodes[i], plain.nodes[i], plain.now, d);
      }
    case _ => ScanTwins(c, watched, plain, a);
  }

  lemma {:induction false} RunsAreTwins(c: Setup, watched: seq<Action>, base: seq<Action>)
    requires Padded(watched, base, IsLook) && NeverRipe(c, base)
    ensures SystemTwins(c, Exec(c, Init(c), watched), Exec(c, Init(c), base))
  {
    if watched != [] {
      var a := Last(watched);
      if IsLook(a) && Padded(Front(watched), base, IsLook) {
        RunsAreTwins(c, Front(watched), base);
        LookTwins(c, Exec(c, Init(c), Front(watched)), Exec(c, Init(c), base), a);
      } else {
        RunsAreTwins(c, Front(watched), Front(base));
        ActionTwins(c, Exec(c, Init(c), Front(watched)), Exec(c, Init(c), Front(base)), a);
      }
    }
  }

  /** Traffic so far was the same, and every breaker will answer the same when asked next. */
  ghost predicate Indistinct(c: Setup, g: System, h: System) {
    && SameTraffic(g, h)
    && forall i :: 0 <= i < |g.nodes| ==>
         SameAnswers(c.opts, g.nodes[i].endpoint.breaker, h.nodes[i].endpoint.breaker, g.now)
  }

  /** In every state of the run: however the dashboard was watched before, nobody can tell. */
  ghost predicate Unseen(c: Setup, base: seq<Action>) {
    && UnseenSoFar(c, base)
    && (base != [] ==> Unseen(c, Front(base)))
  }

  ghost predicate UnseenSoFar(c: Setup, base: seq<Action>) {
    forall watched: seq<Action> :: Padded(watched, base, IsLook) ==>
      Indistinct(c, Exec(c, Init(c), watched), Exec(c, Init(c), base))
  }

  lemma TwinsAreIndistinct(c: Setup, watched: System, plain: System)
    requires SystemTwins(c, watched, plain)
    ensures Indistinct(c, watched, plain)
  {
    forall i | 0 <= i < |plain.nodes|
      ensures SameAnswers(
                c.opts, watched.nodes[i].endpoint.breaker, plain.nodes[i].endpoint.breaker, plain.now)
    {
      assert NodeTwins(c.opts, watched.nodes[i], plain.nodes[i], plain.now);
    }
  }

  /** One look just before a record on a breaker that is OPEN with its timeout elapsed shows. */
  lemma LookShows(c: Setup, base: seq<Action>)
    requires Usable(c.opts) && base != []
    requires !NotRipe(c, Exec(c, Init(c), Front(base)), Last(base))
    ensures !UnseenSoFar(c, base)
  {
    var g, a := Exec(c, Init(c), Front(base)), Last(base);
    var look := At(a.node, Look);
    var looked := Front(base) + [look];
    var watched := looked + [a];
    assert Front(watched) == looked && Front(looked) == Front(base);
    PaddedWithNothing(Front(base), IsLook);
    assert Padded(looked, Front(base), IsLook);
    assert Padded(watched, base, IsLook);
    LookThenRecord(c.opts, g.nodes[a.node], a.what.id, a.what.failed, g.now);
    var seen, unseen := Exec(c, Init(c), watched), Exec(c, Init(c), base);
    assert Exec(c, Init(c), looked) == Apply(c, g, look);
    assert seen == Apply(c, Apply(c, g, look), a) && unseen == Apply(c, g, a);
    assert !SameAnswers(c.opts, seen.nodes[a.node].endpoint.breaker,
                        unseen.nodes[a.node].endpoint.breaker, seen.now);
  }

  lemma LookThenRecord(o: Options, nd: Node, id: nat, failed: bool, now: nat)
    requires Usable(o) && id in nd.pending && Ripe(o, nd.endpoint.breaker, now)
    ensures var seen := Record(o, Act(o, nd, Look, now), id, failed, now).endpoint.breaker;
            var unseen := Record(o, nd, id, failed, now).endpoint.breaker;
            !SameAnswers(o, seen, unseen, now)
  {
  }

  /** In any run of the gateway, its own looks included: watching is harmless exactly while no
      completion is recorded on a breaker that is OPEN with its timeout elapsed. */
  lemma {:induction false} UnseenIff(c: Setup, base: seq<Action>)
    requires Usable(c.opts)
    ensures Unseen(c, base) <==> NeverRipe(c, base)
  {
    if base != [] {
      UnseenIff(c, Front(base));
    }
    if NeverRipe(c, base) {
      forall watched: seq<Action> | Padded(watched, base, IsLook)
        ensures Indistinct(c, Exec(c, Init(c), watched), Exec(c, Init(c), base))
      {
        RunsAreTwins(c, watched, base);
        TwinsAreIndistinct(c, Exec(c, Init(c), watched), Exec(c, Init(c), base));
      }
    } else if NeverRipe(c, Front(base)) {
      LookShows(c, base);
    }
  }

  /** Every instance has at most one request under way, in every state of the run. */
  ghost predicate OneEach(c: Setup, actions: seq<Action>) {
    && AtMostOneUnderWay(Exec(c, Init(c), actions))
    && (actions != [] ==> OneEach(c, Front(actions)))
  }

  ghost predicate AtMostOneUnderWay(g: System) {
    forall i :: 0 <= i < |g.nodes| ==> |g.nodes[i].pending| <= 1
  }

  ghost predicate OpenIsQuiet(nd: Node) {
    nd.endpoint.breaker.state == Open ==> nd.pending == map[]
  }

  lemma OpenStaysQuiet(o: Options, parses: bool, nd: Node, what: NodeAction, id: nat, now: nat)
    requires OpenIsQuiet(nd) && |nd.pending| <= 1
    ensures OpenIsQuiet(Act(o, nd, what, now)) && OpenIsQuiet(Acquire(o, parses, nd, id, now))
  {
    if (what.Complete? || what.Unwind?) && what.id in nd.pending {
      Removed(nd.pending, what.id);
      assert (nd.pending - {what.id}) == map[];
    }
  }

  lemma {:induction false} OpenIsAlwaysQuiet(c: Setup, actions: seq<Action>)
    requires OneEach(c, actions)
    ensures var g := Exec(c, Init(c), actions);
            |g.nodes| == |c.parses| && forall i :: 0 <= i < |g.nodes| ==> OpenIsQuiet(g.nodes[i])
  {
    if actions != [] {
      OpenIsAlwaysQuiet(c, Front(actions));
      var g, a := Exec(c, Init(c), Front(actions)), Last(actions);
      var after := Apply(c, g, a);
      forall i | 0 <= i < |after.nodes| ensures OpenIsQuiet(after.nodes[i]) {
        var what := if a.At? then a.what else Look;
        OpenStaysQuiet(c.opts, c.parses[i], g.nodes[i], what, g.calls, g.now);
      }
    }
  }

  lemma {:induction false} OneEachIsNeverRipe(c: Setup, actions: seq<Action>)
    requires OneEach(c, actions)
    ensures NeverRipe(c, actions)
  {
    if actions != [] {
      OneEachIsNeverRipe(c, Front(actions));
      OpenIsAlwaysQuiet(c, Front(actions));
    }
  }

  /** While no instance has more than one request under way, watching changes nothing: not which
      instance serves which request, nor which requests are rejected, nor any outcome counter. */
  lemma WatchingIsHarmless(c: Setup, watched: seq<Action>, base: seq<Action>)
    requires Padded(watched, base, IsLook) && OneEach(c, base)
    ensures SameTraffic(Exec(c, Init(c), watched), Exec(c, Init(c), base))
  {
    OneEachIsNeverRipe(c, base);
    RunsAreTwins(c, watched, base);
  }
}
