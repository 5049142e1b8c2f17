/** The service registry: instances guarded by a health flag and a breaker, handed out round-robin
    by a wrapping 64-bit cursor. */
module Registry {
  import opened CircuitBreaker
  import opened Wrappers

  /** The cursor is a `uint64`. */
  const CURSOR_MODULUS: nat := 0x1_0000_0000_0000_0000

  /** What routing can see of an instance. */
  datatype Endpoint = Endpoint(healthy: bool, breaker: Status)

  predicate Available(o: Options, ep: Endpoint, now: int) {
    ep.healthy && Allowed(o, ep.breaker, now)
  }

  /** Asking an unhealthy instance never reaches its breaker. */
  function AfterAsking(o: Options, ep: Endpoint, now: int): Endpoint {
    if ep.healthy then ep.(breaker := AfterAllow(o, ep.breaker, now)) else ep
  }

  /** `next++` on a `uint64`. */
  function Bump(cursor: nat): (r: nat)
    ensures r == if cursor == 0xFFFF_FFFF_FFFF_FFFF then 0 else cursor + 1
  {
    if cursor + 1 == CURSOR_MODULUS then 0 else cursor + 1
  }

  function Advance(cursor: nat, k: nat): nat {
    if k == 0 then cursor else Bump(Advance(cursor, k - 1))
  }

  /** Index examined `k` places after a scan starts with the given cursor. */
  function Candidate(cursor: nat, k: nat, n: nat): (i: nat)
    requires n > 0
    ensures i < n
  {
    Advance(cursor, k) % n
  }

  /** The first of the places k, k+1, ... whose candidate is available; |eps| if none is. */
  function FirstAvailable(o: Options, eps: seq<Endpoint>, cursor: nat, now: int, k: nat): (r: nat)
    requires k <= |eps|
    ensures k <= r <= |eps|
    ensures r < |eps| ==> Available(o, eps[Candidate(cursor, r, |eps|)], now)
    ensures forall j :: k <= j < r ==> !Available(o, eps[Candidate(cursor, j, |eps|)], now)
    decreases |eps| - k
  {
    if k == |eps| || Available(o, eps[Candidate(cursor, k, |eps|)], now) then k
    else FirstAvailable(o, eps, cursor, now, k + 1)
  }

  datatype Pick = Pick(index: Option<nat>, endpoints: seq<Endpoint>, cursor: nat)

  /** What one call of `Next` does when nothing interrupts its scan. */
  function NextPick(o: Options, eps: seq<Endpoint>, cursor: nat, now: int): Pick {
    var k := FirstAvailable(o, eps, cursor, now, 0);
    if k == |eps| then
      Pick(None, eps, Advance(cursor, k))
    else
      var i := Candidate(cursor, k, |eps|);
      Pick(Some(i), eps[i := AfterAsking(o, eps[i], now)], Advance(cursor, k + 1))
  }

  /** A scan changes no breaker except the returned instance's, takes no probe slot elsewhere,
      changes nothing when it returns nil, and hands a probe slot to at most one caller. */
  lemma NextTouchesOnlyItsPick(o: Options, eps: seq<Endpoint>, cursor: nat, now: int)
    ensures var p := NextPick(o, eps, cursor, now);
            && |p.endpoints| == |eps|
            && (p.index == None ==> p.endpoints == eps)
            && (p.index.Some? ==>
                  && p.index.value < |eps|
                  && Available(o, eps[p.index.value], now)
                  && (eps[p.index.value].breaker.state != Closed ==>
                        && p.endpoints[p.index.value].breaker.probeInFlight
                        && !Available(o, p.endpoints[p.index.value], now)))
            && (forall j :: 0 <= j < |eps| && p.index != Some(j) ==> p.endpoints[j] == eps[j])
  {
    var p := NextPick(o, eps, cursor, now);
    if p.index.Some? {
      RefusalChangesNothing(o, eps[p.index.value].breaker, now);
    }
  }

  class Instance {
    const addr: string
    const breaker: Breaker
    var healthy: bool

    function View(): Endpoint
      reads this, breaker
    {
      Endpoint(healthy, breaker.View())
    }

    constructor (addr: string, opts: Options, now: int)
      ensures this.addr == addr
      ensures fresh(breaker) && breaker.opts == Normalize(opts)
      ensures View() == Endpoint(true, Fresh(now))
    {
      this.addr := addr;
      this.healthy := true;
      this.breaker := new Breaker(opts, now);
    }

    method SetHealthy(healthy: bool)
      modifies this
      ensures View() == old(View()).(healthy := healthy)
    {
      this.healthy := healthy;
    }

    method IsAvailable(now: int) returns (ok: bool)
      requires Usable(breaker.opts)
      modifies breaker
      ensures ok == Available(breaker.opts, old(View()), now)
      ensures View() == AfterAsking(breaker.opts, old(View()), now)
      ensures !ok ==> View() == old(View())
    {
      if !healthy {
        return false;
      }
      ok := breaker.Allow(now);
    }
  }

  class Registry {
    const instances: seq<Instance>
    ghost const opts: Options
    var next: nat

    ghost function Breakers(): set<object> {
      set i | 0 <= i < |instances| :: instances[i].breaker
    }

    /** The instances and their breakers are pairwise distinct objects with the same options. */
    ghost predicate Valid()
      reads this
    {
      && next < CURSOR_MODULUS
      && Usable(opts)
      && (forall i :: 0 <= i < |instances| ==> instances[i].breaker.opts == opts)
      && (forall i, j :: 0 <= i < j < |instances| ==>
            instances[i] != instances[j] && instances[i].breaker != instances[j].breaker)
    }

    ghost function Endpoints(): (eps: seq<Endpoint>)
      reads instances, Breakers()
      ensures |eps| == |instances|
      ensures forall i :: 0 <= i < |eps| ==> eps[i] == instances[i].View()
    {
      seq(|instances|, i requires 0 <= i < |instances| reads instances, Breakers() =>
        instances[i].View())
    }

    constructor (addrs: seq<string>, breakerOpts: Options, now: int)
      ensures Valid() && fresh(instances) && fresh(Breakers())
      ensures opts == Normalize(breakerOpts) && next == 0
      ensures |instances| == |addrs|
      ensures forall i :: 0 <= i < |addrs| ==> instances[i].addr == addrs[i]
      ensures forall i :: 0 <= i < |addrs| ==> Endpoints()[i] == Endpoint(true, Fresh(now))
    {
      var out: seq<Instance> := [];
      for k := 0 to |addrs|
        invariant |out| == k
        invariant fresh(out) && forall i :: 0 <= i < k ==> fresh(out[i].breaker)
        invariant forall i :: 0 <= i < k ==>
                    && out[i].addr == addrs[i]
                    && out[i].breaker.opts == Normalize(breakerOpts)
                    && out[i].View() == Endpoint(true, Fresh(now))
        invariant forall i, j :: 0 <= i < j < k ==>
                    out[i] != out[j] && out[i].breaker != out[j].breaker
      {
        var instance := new Instance(addrs[k], breakerOpts, now);
        out := out + [instance];
      }
      instances := out;
      opts := Normalize(breakerOpts);
      next := 0;
    }

    /** One turn of the scan: advance the cursor, then ask the instance it pointed at. */
    method Examine(now: int) returns (candidate: Instance, ok: bool)
      requires Valid() && instances != []
      modifies `next, Breakers()
      ensures Valid()
      ensures next == Bump(old(next))
      ensures var i := old(next) % |instances|;
              && candidate == instances[i]
              && ok == Available(opts, old(Endpoints())[i], now)
              && Endpoints() == old(Endpoints())[i := AfterAsking(opts, old(Endpoints())[i], now)]
      ensures !ok ==> Endpoints() == old(Endpoints())
    {
      var idx := next % |instances|;
      next := if next + 1 == CURSOR_MODULUS then 0 else next + 1;
      candidate := instances[idx];
      ok := candidate.IsAvailable(now);
      assert forall j :: 0 <= j < |instances| && j != idx ==> Endpoints()[j] == old(Endpoints())[j];
      assert Endpoints()[idx] == AfterAsking(opts, old(Endpoints())[idx], now);
    }

    /** The next available instance in round-robin order, or null. */
    method Next(now: int) returns (chosen: Instance?)
      requires Valid()
      modifies `next, Breakers()
      ensures Valid()
      ensures var p := NextPick(opts, old(Endpoints()), old(next), now);
              && next == p.cursor
              && Endpoints() == p.endpoints
              && chosen == if p.index.Some? then instances[p.index.value] else null
    {
      var total := |instances|;
      if total == 0 {
        return null;
      }
      ghost var eps, start := Endpoints(), next;
      for i := 0 to total
        invariant Valid()
        invariant next == Advance(start, i)
        invariant Endpoints() == eps
        invariant FirstAvailable(opts, eps, start, now, 0) == FirstAvailable(opts, eps, start, now, i)
      {
        var candidate, ok := Examine(now);
        if ok {
          return candidate;
        }
      }
      return null;
    }
  }
}
