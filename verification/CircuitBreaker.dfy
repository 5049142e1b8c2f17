/** The per-instance circuit breaker: CLOSED -> OPEN -> HALF-OPEN -> CLOSED, with one probe slot.

    The functions say what each locked method does to the breaker's fields; the class performs
    it in place. Every locked method reads the clock once, as the argument `now`
    (nanoseconds, like all durations here). */
module CircuitBreaker {

  datatype State = Closed | Open | HalfOpen

  datatype Options = Options(failureThreshold: int, recoveryTimeout: int)

  /** 30 seconds. */
  const DEFAULT_RECOVERY_TIMEOUT := 30_000_000_000

  predicate Usable(o: Options) {
    o.failureThreshold >= 1 && o.recoveryTimeout > 0
  }

  /** The corrections the constructor applies to its options. */
  function Normalize(o: Options): (r: Options)
    ensures Usable(r)
    ensures o.failureThreshold >= 1 ==> r.failureThreshold == o.failureThreshold
    ensures o.failureThreshold < 1 ==> r.failureThreshold == 1
    ensures o.recoveryTimeout > 0 ==> r.recoveryTimeout == o.recoveryTimeout
    ensures o.recoveryTimeout <= 0 ==> r.recoveryTimeout == 30_000_000_000
  {
    Options(
      if o.failureThreshold < 1 then 1 else o.failureThreshold,
      if o.recoveryTimeout <= 0 then DEFAULT_RECOVERY_TIMEOUT else o.recoveryTimeout)
  }

  /** The mutable fields of a breaker. */
  datatype Status = Status(
    state: State,
    consecutiveFails: int,
    openedAt: int,
    probeInFlight: bool,
    lastStateChange: int)

  /** A new breaker; `openedAt` holds Go's zero time, which is never read while CLOSED. */
  function Fresh(now: int): Status {
    Status(Closed, 0, 0, false, now)
  }

  /** OPEN with the recovery timeout elapsed: the next locked look turns it HALF-OPEN. */
  predicate Ripe(o: Options, s: Status, now: int) {
    s.state == Open && now - s.openedAt >= o.recoveryTimeout
  }

  function Resolved(o: Options, s: Status, now: int): Status {
    if Ripe(o, s, now)
    then s.(state := HalfOpen, probeInFlight := false, lastStateChange := now)
    else s
  }

  predicate Allowed(o: Options, s: Status, now: int) {
    var r := Resolved(o, s, now);
    r.state == Closed || (r.state == HalfOpen && !r.probeInFlight)
  }

  function AfterAllow(o: Options, s: Status, now: int): Status {
    var r := Resolved(o, s, now);
    if r.state == HalfOpen then r.(probeInFlight := true) else r
  }

  function AfterSuccess(s: Status, now: int): Status {
    match s.state
    case HalfOpen => Status(Closed, 0, s.openedAt, false, now)
    case Closed => s.(consecutiveFails := 0)
    case Open => s
  }

  function AfterFailure(o: Options, s: Status, now: int): Status {
    var fails := s.consecutiveFails + 1;
    match s.state
    case HalfOpen => Status(Open, fails, now, false, now)
    case Closed =>
      if fails >= o.failureThreshold
      then s.(state := Open, consecutiveFails := fails, openedAt := now, lastStateChange := now)
      else s.(consecutiveFails := fails)
    case Open => s
  }

  /** What every method keeps. */
  ghost predicate Consistent(o: Options, s: Status) {
    && s.consecutiveFails >= 0
    && (s.state == Closed <==> s.consecutiveFails < o.failureThreshold)
    && (s.probeInFlight ==> s.state == HalfOpen)
    && (s.state == Open ==> s.lastStateChange == s.openedAt)
    && (s.state == HalfOpen ==> s.lastStateChange - s.openedAt >= o.recoveryTimeout)
  }

  /** Being turned away costs the breaker nothing: a look that moves it to HALF-OPEN always
      admits, so a refusing `Allow` leaves every field as it was. */
  lemma RefusalChangesNothing(o: Options, s: Status, now: int)
    ensures !Allowed(o, s, now) ==> AfterAllow(o, s, now) == s
    ensures Allowed(o, s, now) && AfterAllow(o, s, now).state == HalfOpen
            ==> AfterAllow(o, s, now).probeInFlight
    ensures Allowed(o, s, now) && s.state != Closed
            ==> !Allowed(o, AfterAllow(o, s, now), now) && AfterAllow(o, s, now).state == HalfOpen
  {
    if s.state == HalfOpen && s.probeInFlight {
      assert AfterAllow(o, s, now) == s.(probeInFlight := true) == s;
    }
  }

  class Breaker {
    const opts: Options
    var state: State
    var consecutiveFails: int
    var openedAt: int
    var probeInFlight: bool
    var lastStateChange: int

    function View(): Status
      reads this
    {
      Status(state, consecutiveFails, openedAt, probeInFlight, lastStateChange)
    }

    constructor (o: Options, now: int)
      ensures opts == Normalize(o)
      ensures View() == Fresh(now)
      ensures Consistent(opts, View())
    {
      var threshold, timeout := o.failureThreshold, o.recoveryTimeout;
      if threshold < 1 {
        threshold := 1;
      }
      if timeout <= 0 {
        timeout := DEFAULT_RECOVERY_TIMEOUT;
      }
      opts := Options(threshold, timeout);
      state, consecutiveFails, openedAt, probeInFlight, lastStateChange := Closed, 0, 0, false, now;
    }

    method MaybeTransitionToHalfOpen(now: int)
      modifies this
      ensures View() == Resolved(opts, old(View()), now)
      ensures old(Consistent(opts, View())) ==> Consistent(opts, View())
    {
      if state == Open && now - openedAt >= opts.recoveryTimeout {
        state := HalfOpen;
        probeInFlight := false;
        lastStateChange := now;
      }
    }

    /** `State()`: answers the current state, and may move the breaker to HALF-OPEN on the way. */
    method CurrentState(now: int) returns (r: State)
      modifies this
      ensures View() == Resolved(opts, old(View()), now)
      ensures r == View().state && !Ripe(opts, View(), now)
      ensures old(Consistent(opts, View())) ==> Consistent(opts, View())
    {
      MaybeTransitionToHalfOpen(now);
      r := state;
    }

    method Allow(now: int) returns (ok: bool)
      requires Usable(opts)
      modifies this
      ensures ok == Allowed(opts, old(View()), now)
      ensures View() == AfterAllow(opts, old(View()), now)
      ensures !ok ==> View() == old(View())
      ensures old(Consistent(opts, View())) ==> Consistent(opts, View())
    {
      RefusalChangesNothing(opts, View(), now);
      MaybeTransitionToHalfOpen(now);
      match state
      case Closed =>
        ok := true;
      case HalfOpen =>
        if probeInFlight {
          return false;
        }
        probeInFlight := true;
        ok := true;
      case Open =>
        ok := false;
    }

    method RecordSuccess(now: int)
      requires Usable(opts)
      modifies this
      ensures View() == AfterSuccess(old(View()), now)
      ensures old(Consistent(opts, View())) ==> Consistent(opts, View())
    {
      match state
      case HalfOpen =>
        state := Closed;
        consecutiveFails := 0;
        probeInFlight := false;
        lastStateChange := now;
      case Closed =>
        consecutiveFails := 0;
      case Open =>
    }

    method RecordFailure(now: int)
      modifies this
      ensures View() == AfterFailure(opts, old(View()), now)
      ensures old(Consistent(opts, View())) ==> Consistent(opts, View())
    {
      match state
      case HalfOpen =>
        consecutiveFails := consecutiveFails + 1;
        state := Open;
        openedAt := now;
        probeInFlight := false;
        lastStateChange := now;
      case Closed =>
        consecutiveFails := consecutiveFails + 1;
        if consecutiveFails >= opts.failureThreshold {
          state := Open;
          openedAt := now;
          lastStateChange := now;
        }
      case Open =>
    }
  }
}
