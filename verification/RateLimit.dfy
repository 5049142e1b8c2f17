/** The Redis-backed fixed-window limiter: an atomic script over a keyed store with expiry. */
module RateLimit {
  import opened Sequences
  import opened Wrappers

  // ----- The store: integer counters with an optional expiry, on a millisecond clock -----

  datatype Entry = Entry(count: int, expireAt: Option<int>)

  type Store = map<string, Entry>

  /** A key is gone once the instant at which it expires is past. */
  predicate Present(s: Store, key: string, now: int) {
    key in s && (s[key].expireAt.Some? ==> now <= s[key].expireAt.value)
  }

  /** INCR: a missing key counts as 0 and gets no expiry; otherwise the expiry stays. */
  function Incr(s: Store, key: string, now: int): Store {
    if Present(s, key, now) then s[key := s[key].(count := s[key].count + 1)]
    else s[key := Entry(1, None)]
  }

  /** EXPIRE, for a positive number of seconds. */
  function Expire(s: Store, key: string, seconds: int, now: int): Store {
    if Present(s, key, now) then s[key := s[key].(expireAt := Some(now + 1000 * seconds))] else s
  }

  /** Milliseconds in whole seconds, rounded to nearest. */
  function Rounded(ms: int): (r: int)
    ensures 1000 * r - 500 <= ms < 1000 * r + 500
  {
    (ms + 500) / 1000
  }

  /** TTL in rounded seconds; -1 without expiry, -2 for a missing key. */
  function Ttl(s: Store, key: string, now: int): int {
    if !Present(s, key, now) then -2
    else if s[key].expireAt == None then -1
    else Rounded(s[key].expireAt.value - now)
  }

  datatype Reply = Reply(store: Store, current: int, ttl: int)

  /** The whole script, run atomically. */
  function Script(s: Store, key: string, seconds: int, now: int): Reply {
    var counted := Incr(s, key, now);
    var current := counted[key].count;
    var after := if current == 1 then Expire(counted, key, seconds, now) else counted;
    Reply(after, current, Ttl(after, key, now))
  }

  class Redis {
    var entries: Store

    constructor ()
      ensures entries == map[]
    {
      entries := map[];
    }

    method RunScript(key: string, seconds: int, now: int) returns (current: int, ttl: int)
      modifies this
      ensures Reply(entries, current, ttl) == Script(old(entries), key, seconds, now)
    {
      entries := Incr(entries, key, now);
      current := entries[key].count;
      if current == 1 {
        entries := Expire(entries, key, seconds, now);
      }
      ttl := Ttl(entries, key, now);
    }
  }

  // ----- The limiter -----

  const SECOND := 1_000_000_000

  /** Requests allowed per window, and the window's length in nanoseconds. */
  datatype Limits = Limits(limit: int, window: int)

  /** The configured window in whole seconds, but at least one. */
  function WindowSeconds(c: Limits): (w: int)
    ensures w >= 1
    ensures c.window < 1_000_000_000 ==> w == 1
    ensures c.window >= 1_000_000_000 ==> w * 1_000_000_000 <= c.window < (w + 1) * 1_000_000_000
  {
    if c.window < SECOND then 1 else c.window / SECOND
  }

  datatype Verdict = Verdict(allowed: bool, limit: int, remaining: int, retryAfter: int)

  function Key(client: string): string {
    "ratelimit:" + client
  }

  function Judge(c: Limits, current: int, ttl: int): Verdict {
    Verdict(
      current <= c.limit,
      c.limit,
      if c.limit - current < 0 then 0 else c.limit - current,
      if ttl < 0 then c.window else ttl * SECOND)
  }

  function AllowReply(c: Limits, s: Store, client: string, now: int): Reply {
    Script(s, Key(client), WindowSeconds(c), now)
  }

  function AllowVerdict(c: Limits, s: Store, client: string, now: int): Verdict {
    var r := AllowReply(c, s, client, now);
    Judge(c, r.current, r.ttl)
  }

  /** Whether the script runs and its reply arrives. */
  datatype Link = Up | Down | ReplyLost

  class Limiter {
    const redis: Redis
    const limits: Limits

    constructor (redis: Redis, limit: int, window: int)
      ensures this.redis == redis && limits == Limits(limit, window)
    {
      this.redis, this.limits := redis, Limits(limit, window);
    }

    /** None stands for an error from Redis; the request may have been counted all the same. */
    method Allow(client: string, now: int, link: Link) returns (v: Option<Verdict>)
      modifies redis
      ensures v == if link.Up? then Some(AllowVerdict(limits, old(redis.entries), client, now)) else None
      ensures redis.entries
              == if link.Down? then old(redis.entries)
                 else AllowReply(limits, old(redis.entries), client, now).store
      ensures forall key :: key != "ratelimit:" + client ==>
                && (key in redis.entries <==> key in old(redis.entries))
                && (key in redis.entries ==> redis.entries[key] == old(redis.entries)[key])
    {
      var windowSeconds := if limits.window / SECOND < 1 then 1 else limits.window / SECOND;
      if link.Down? {
        return None;
      }
      var count, ttl := redis.RunScript("ratelimit:" + client, windowSeconds, now);
      if link.ReplyLost? {
        return None;
      }
      var remaining := limits.limit - count;
      if remaining < 0 {
        remaining := 0;
      }
      var retryAfter := ttl * SECOND;
      if ttl < 0 {
        retryAfter := limits.window;
      }
      v := Some(Verdict(count <= limits.limit, limits.limit, remaining, retryAfter));
    }
  }

  // ----- The middleware -----

  datatype Decision =
    | FailOpen                                    // Redis unavailable: let the request pass
    | Pass(limitHeader: int, remainingHeader: int)
    | Deny(limitHeader: int, remainingHeader: int, retryAfterSeconds: int) // 429

  function Decide(v: Option<Verdict>): Decision {
    match v
    case None => FailOpen
    case Some(r) =>
      if r.allowed then Pass(r.limit, r.remaining)
      else Deny(r.limit, r.remaining,
                if r.retryAfter / SECOND < 1 then 1 else r.retryAfter / SECOND)
  }

  // ----- Runs -----

  datatype Call = Call(client: string, now: nat, link: Link)
  {
    /** The script ran for it. */
    predicate Counted() {
      !link.Down?
    }
  }

  /** What a run of calls leaves of an empty store that only the script writes. */
  function StoreAfter(c: Limits, calls: seq<Call>): Store {
    if calls == [] then map[]
    else if !Last(calls).Counted() then StoreAfter(c, Front(calls))
    else AllowReply(c, StoreAfter(c, Front(calls)), Last(calls).client, Last(calls).now).store
  }

  /** The verdict on the last call of a run; it reaches the client unless there is an error. */
  function LastVerdict(c: Limits, calls: seq<Call>): Verdict
    requires calls != []
  {
    AllowVerdict(c, StoreAfter(c, Front(calls)), Last(calls).client, Last(calls).now)
  }

  /** The decision on the last call of a run. */
  function LastDecision(c: Limits, calls: seq<Call>): Decision
    requires calls != []
  {
    Decide(if Last(calls).link.Up? then Some(LastVerdict(c, calls)) else None)
  }

  /** Calls of a run that were answered 429. */
  function Denials(c: Limits, calls: seq<Call>): nat {
    if calls == [] then 0 else Denials(c, Front(calls)) + if LastDecision(c, calls).Deny? then 1 else 0
  }

  class Middleware {
    const limiter: Limiter
    var limited: nat               // requests answered 429
    ghost var history: seq<Call>   // every call made

    /** The store and the counter are what the calls so far have made of an empty store and of 0. */
    ghost predicate Valid()
      reads this, limiter.redis
    {
      && limiter.redis.entries == StoreAfter(limiter.limits, history)
      && limited == Denials(limiter.limits, history)
    }

    constructor (limiter: Limiter)
      ensures this.limiter == limiter && limited == 0 && history == []
      ensures limiter.redis.entries == map[] ==> Valid()
    {
      this.limiter, limited, history := limiter, 0, [];
    }

    method RateLimit(clientIP: string, now: nat, link: Link) returns (d: Decision)
      modifies this, limiter.redis
      ensures var s := old(limiter.redis.entries);
              && d == (if link.Up? then Decide(Some(AllowVerdict(limiter.limits, s, clientIP, now)))
                       else FailOpen)
              && limiter.redis.entries
                 == if link.Down? then s else AllowReply(limiter.limits, s, clientIP, now).store
      ensures limited == old(limited) + if d.Deny? then 1 else 0
      ensures history == old(history) + [Call(clientIP, now, link)]
      ensures old(Valid()) ==> Valid() && d == LastDecision(limiter.limits, history)
    {
      history := history + [Call(clientIP, now, link)];
      assert Front(history) == old(history);
      var v := limiter.Allow(clientIP, now, link);
      if v == None {
        return FailOpen;
      }
      var r := v.value;
      if !r.allowed {
        var retryAfterSeconds := r.retryAfter / SECOND;
        if retryAfterSeconds < 1 {
          retryAfterSeconds := 1;
        }
        limited := limited + 1;
        return Deny(r.limit, r.remaining, retryAfterSeconds);
      }
      d := Pass(r.limit, r.remaining);
    }
  }
}
