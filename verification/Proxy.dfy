/** The load-balanced proxy handler: admit, forward, classify, record.

    Forwarding itself is outside: it is known only by whether the error handler ran and by the
    status written, or by the handler unwinding out of it. */
module Proxy {
  import opened CircuitBreaker
  import opened BreakerRuns
  import opened Registry
  import opened Wrappers

  datatype Admission =
    | Rejected                       // 503: no available instance
    | BadAddress(instance: Instance) // 502: the instance's address does not parse
    | Forward(instance: Instance)

  datatype Outcome =
    | Answered(errored: bool, status: int)
    | Panicked

  datatype Reply = Replied(code: int) | Unwound

  /** The upstream failed if the error handler ran or the status written is a 5xx. */
  predicate Failed(errored: bool, status: int) {
    errored || status >= 500
  }

  function Incremented(counter: map<string, nat>, key: string): map<string, nat> {
    counter[key := if key in counter then counter[key] + 1 else 1]
  }

  /** What a counter shows for a key; nothing counted yet shows as 0. */
  function Total(counter: map<string, nat>, key: string): nat {
    if key in counter then counter[key] else 0
  }

  class LoadBalancedProxy {
    const reg: Registry
    const parses: string -> bool
    var rejections: nat
    var successes: map<string, nat>         // requests by address, outcome "success"
    var failures: map<string, nat>          // requests by address, outcome "failure"
    var upstreamFailures: map<string, nat>  // upstream failures by address
    var gauge: map<string, State>           // breaker state last shown, by address

    /** The two failure counters never disagree. */
    ghost predicate Valid()
      reads this, reg
    {
      reg.Valid() && upstreamFailures == failures
    }

    constructor (reg: Registry, parses: string -> bool)
      requires reg.Valid()
      ensures Valid() && this.reg == reg && this.parses == parses
      ensures rejections == 0 && successes == failures == map[] && gauge == map[]
    {
      this.reg, this.parses := reg, parses;
      rejections, successes, failures, upstreamFailures, gauge := 0, map[], map[], map[], map[];
    }

    /** Up to the point where the request is forwarded. */
    method Admit(now: int) returns (a: Admission)
      requires Valid()
      modifies `rejections, reg`next, reg.Breakers()
      ensures Valid()
      ensures var p := NextPick(reg.opts, old(reg.Endpoints()), old(reg.next), now);
              && reg.next == p.cursor
              && reg.Endpoints() == p.endpoints
              && rejections == old(rejections) + (if p.index == None then 1 else 0)
              && match p.index
                 case None => a == Rejected
                 case Some(i) =>
                   a == if parses(reg.instances[i].addr) then Forward(reg.instances[i])
                        else BadAddress(reg.instances[i])
    {
      var instance := reg.Next(now);
      if instance == null {
        rejections := rejections + 1;
        return Rejected;
      }
      if !parses(instance.addr) {
        return BadAddress(instance);
      }
      a := Forward(instance);
    }

    /** From the moment forwarding returns. The breaker is locked twice, so anything may happen
        between recording (at `now`) and showing its state (at `later`). */
    method Finish(instance: Instance, errored: bool, status: int, now: nat, later: nat)
      requires Valid() && Usable(instance.breaker.opts)
      modifies `successes, `failures, `upstreamFailures, `gauge, instance.breaker
      ensures Valid()
      ensures var o, b := instance.breaker.opts, old(instance.breaker.View());
              var recorded := Step(o, b, if Failed(errored, status) then Fail(now) else Succeed(now));
              instance.breaker.View() == Step(o, recorded, Poll(later))
      ensures Failed(errored, status) ==>
                && successes == old(successes)
                && failures == Incremented(old(failures), instance.addr)
      ensures !Failed(errored, status) ==>
                && successes == Incremented(old(successes), instance.addr)
                && failures == old(failures)
      ensures gauge == old(gauge)[instance.addr := instance.breaker.View().state]
      ensures Total(failures, instance.addr)
              == old(Total(failures, instance.addr)) + if errored || status >= 500 then 1 else 0
      ensures Total(successes, instance.addr)
              == old(Total(successes, instance.addr)) + if errored || status >= 500 then 0 else 1
      ensures forall addr :: addr != instance.addr ==>
                && Total(failures, addr) == old(Total(failures, addr))
                && Total(successes, addr) == old(Total(successes, addr))
      ensures Books(instance.breaker.View(), successes, failures)
              == Booked(instance.breaker.opts, instance.addr,
                        Books(old(instance.breaker.View()), old(successes), old(failures)),
                        Answer(errored, status, now, later))
    {
      var addr := instance.addr;
      var upstreamFailed := errored;
      if upstreamFailed || status >= 500 {
        upstreamFailed := true;
      }
      if upstreamFailed {
        instance.breaker.RecordFailure(now);
        failures := Incremented(failures, addr);
        upstreamFailures := Incremented(upstreamFailures, addr);
      } else {
        instance.breaker.RecordSuccess(now);
        successes := Incremented(successes, addr);
      }
      var shown := instance.breaker.CurrentState(later);
      gauge := gauge[addr := shown];
    }

    /** One request from end to end, with nothing else going on. */
    method Handle(outcome: Outcome, now: nat, recorded: nat, shown: nat) returns (reply: Reply)
      requires Valid()
      modifies this, reg`next, reg.Breakers()
      ensures Valid()
      ensures var p := NextPick(reg.opts, old(reg.Endpoints()), old(reg.next), now);
              && reg.next == p.cursor
              && rejections == old(rejections) + (if p.index == None then 1 else 0)
              && match p.index
                 case None =>
                   && reply == Replied(503) && reg.Endpoints() == p.endpoints
                   && successes == old(successes) && failures == old(failures) && gauge == old(gauge)
                 case Some(i) =>
                   var instance := reg.instances[i];
                   if !parses(instance.addr) || outcome.Panicked? then
                     && reply == (if parses(instance.addr) then Unwound else Replied(502))
                     && reg.Endpoints() == p.endpoints
                     && successes == old(successes) && failures == old(failures) && gauge == old(gauge)
                   else
                     var failed := Failed(outcome.errored, outcome.status);
                     && reply == Replied(outcome.status)
                     && successes == (if failed then old(successes)
                                      else Incremented(old(successes), instance.addr))
                     && failures == (if failed then Incremented(old(failures), instance.addr)
                                     else old(failures))
                     && var settled := Settled(reg.opts, p.endpoints[i].breaker, outcome, recorded, shown);
                     && reg.Endpoints() == p.endpoints[i := p.endpoints[i].(breaker := settled)]
                     && gauge == old(gauge)[instance.addr := settled.state]
    {
      var a := Admit(now);
      match a
      case Rejected =>
        reply := Replied(503);
      case BadAddress(_) =>
        reply := Replied(502);
      case Forward(instance) =>
        match outcome
        case Panicked =>
          reply := Unwound;
        case Answered(errored, status) =>
          ghost var admitted := reg.Endpoints();
          Finish(instance, errored, status, recorded, shown);
          ghost var i := NextPick(reg.opts, old(reg.Endpoints()), old(reg.next), now).index.value;
          assert forall j :: 0 <= j < |reg.instances| && j != i ==>
                   reg.Endpoints()[j] == admitted[j];
          reply := Replied(status);
    }
  }

  /** A breaker after the answer was recorded and its state shown. */
  function Settled(o: Options, b: Status, outcome: Outcome, recorded: nat, shown: nat): Status
    requires outcome.Answered?
  {
    var e := if Failed(outcome.errored, outcome.status) then Fail(recorded) else Succeed(recorded);
    Step(o, Step(o, b, e), Poll(shown))
  }

  /** An answer, when it was recorded, and when the breaker's state was shown after that. */
  datatype Answer = Answer(errored: bool, status: int, recorded: nat, shown: nat)

  /** What an answer is entered in: the instance's breaker, and the counters. */
  datatype Books = Books(breaker: Status, successes: map<string, nat>, failures: map<string, nat>)

  function Booked(o: Options, addr: string, b: Books, a: Answer): Books {
    var breaker := Settled(o, b.breaker, Answered(a.errored, a.status), a.recorded, a.shown);
    if Failed(a.errored, a.status) then Books(breaker, b.successes, Incremented(b.failures, addr))
    else Books(breaker, Incremented(b.successes, addr), b.failures)
  }

  /** Handling requests one after the other, every answered request leaves the slot free, and the
      breaker ends CLOSED exactly if the answer was a success or the streak is still short. */
  lemma AnsweredProbeFreesTheSlot(
      o: Options, b: Status, outcome: Outcome, now: nat, recorded: nat, shown: nat)
    requires Usable(o) && Consistent(o, b) && Allowed(o, b, now) && outcome.Answered?
    ensures var after := Settled(o, AfterAllow(o, b, now), outcome, recorded, shown);
            && !after.probeInFlight
            && (after.state == Closed <==>
                  || !Failed(outcome.errored, outcome.status)
                  || (b.state == Closed && b.consecutiveFails + 1 < o.failureThreshold))
  {
    RefusalChangesNothing(o, b, now);
  }
}
