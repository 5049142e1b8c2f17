/** Whole runs of the limiter: any interleaving of timed calls by any clients, on a store that only
    the script writes. A call may not get through to the store, or its reply may be lost. */
module RateLimitBounds {
  import opened Arithmetic
  import opened RateLimit
  import opened Sequences
  import opened Wrappers

  // ----- One run of the script -----

  /** The window in milliseconds. */
  function Millis(c: Limits): (w: nat)
    ensures w >= 1000
  {
    1000 * WindowSeconds(c)
  }

  /** Calls so much later than the first call of a window are no longer in it: the counter lives
      through the whole millisecond at which it is due. */
  function Period(c: Limits): (w: nat)
    ensures w >= 1001
  {
    Millis(c) + 1
  }

  /** The script answers from, and writes to, its own key alone. */
  lemma ScriptTouchesOneKey(s: Store, t: Store, key: string, seconds: int, now: int)
    requires key in s <==> key in t
    requires key in s ==> s[key] == t[key]
    ensures var a, b := Script(s, key, seconds, now), Script(t, key, seconds, now);
            && a.current == b.current && a.ttl == b.ttl
            && key in a.store && key in b.store && a.store[key] == b.store[key]
    ensures forall other :: other != key ==>
              var a := Script(s, key, seconds, now).store;
              (other in a <==> other in s) && (other in s ==> a[other] == s[other])
  {
  }

  /** The client's counter after a call: a missing or expired one starts again at 1 with a full
      window; a live one goes up by one and keeps its expiry. */
  function NextEntry(c: Limits, s: Store, client: string, now: int): Entry {
    if Present(s, Key(client), now) then s[Key(client)].(count := s[Key(client)].count + 1)
    else Entry(1, Some(now + Millis(c)))
  }

  /** The verdict is read off that counter; it never lacks an expiry, so the fallback for a
      negative TTL is never taken. */
  lemma CallStep(c: Limits, s: Store, client: string, now: int)
    requires Key(client) in s ==> s[Key(client)].expireAt.Some? && s[Key(client)].count >= 1
    ensures var e := NextEntry(c, s, client, now);
            && e.expireAt.Some? && now <= e.expireAt.value
            && Key(client) in AllowReply(c, s, client, now).store
            && AllowReply(c, s, client, now).store[Key(client)] == e
            && AllowReply(c, s, client, now).ttl >= 0
            && AllowVerdict(c, s, client, now) == Judge(c, e.count, Rounded(e.expireAt.value - now))
  {
  }

  // ----- Clients do not see each other -----

  /** The client's own calls that were counted, in order. */
  function Own(calls: seq<Call>, client: string): seq<Call> {
    if calls == [] then []
    else if Last(calls).client == client && Last(calls).Counted() then Own(Front(calls), client) + [Last(calls)]
    else Own(Front(calls), client)
  }

  lemma KeysAreDistinct(a: string, b: string)
    ensures Key(a) == Key(b) <==> a == b
  {
    if Key(a) == Key(b) {
      assert a == Key(a)[10..] == Key(b)[10..] == b;
    }
  }

  /** What the store holds for a client is what it would hold had the client been alone. */
  lemma {:induction false} OwnEntry(c: Limits, calls: seq<Call>, client: string)
    ensures var s, alone := StoreAfter(c, calls), StoreAfter(c, Own(calls, client));
            && (Key(client) in s <==> Key(client) in alone)
            && (Key(client) in s ==> s[Key(client)] == alone[Key(client)])
  {
    if calls != [] {
      OwnEntry(c, Front(calls), client);
      KeysAreDistinct(client, Last(calls).client);
      var s, alone := StoreAfter(c, Front(calls)), StoreAfter(c, Own(Front(calls), client));
      ScriptTouchesOneKey(s, s, Key(Last(calls).client), WindowSeconds(c), Last(calls).now);
      if Last(calls).client == client && Last(calls).Counted() {
        assert Front(Own(calls, client)) == Own(Front(calls), client);
        ScriptTouchesOneKey(s, alone, Key(client), WindowSeconds(c), Last(calls).now);
      }
    }
  }

  /** Whatever the others do, and whichever calls failed, a client gets the verdicts of a run
      consisting of its own calls that were counted. */
  lemma ClientsDoNotInterfere(c: Limits, calls: seq<Call>)
    requires calls != [] && Last(calls).Counted()
    ensures Own(calls, Last(calls).client) != []
    ensures LastVerdict(c, calls) == LastVerdict(c, Own(calls, Last(calls).client))
  {
    var client := Last(calls).client;
    OwnEntry(c, Front(calls), client);
    assert Front(Own(calls, client)) == Own(Front(calls), client);
    ScriptTouchesOneKey(StoreAfter(c, Front(calls)), StoreAfter(c, Own(Front(calls), client)),
                        Key(client), WindowSeconds(c), Last(calls).now);
  }

  /** While only the script writes the store, every counter carries an expiry. */
  lemma {:induction false} EveryCounterExpires(c: Limits, calls: seq<Call>)
    ensures forall key :: key in StoreAfter(c, calls) ==>
              StoreAfter(c, calls)[key].expireAt.Some? && StoreAfter(c, calls)[key].count >= 1
  {
    if calls != [] {
      var s, last := StoreAfter(c, Front(calls)), Last(calls);
      EveryCounterExpires(c, Front(calls));
      CallStep(c, s, last.client, last.now);
      ScriptTouchesOneKey(s, s, Key(last.client), WindowSeconds(c), last.now);
    }
  }

  /** So the reply never has a negative TTL. */
  lemma FallbackIsNeverTaken(c: Limits, calls: seq<Call>, client: string, now: nat)
    ensures AllowReply(c, StoreAfter(c, calls), client, now).ttl >= 0
  {
    EveryCounterExpires(c, calls);
    CallStep(c, StoreAfter(c, calls), client, now);
  }

  // ----- Windows -----

  /** The number of the call that opened the window of call i: the first call of all, and then each
      first call at least one window length after the last opening. */
  function Opening(ts: seq<nat>, w: nat, i: nat): (s: nat)
    requires i < |ts|
    ensures s <= i
  {
    if i == 0 then 0 else
      var s := Opening(ts, w, i - 1);
      if ts[i] < ts[s] + w then s else i
  }

  /** Call i is the Rank-th of its window, counting from 1. */
  function Rank(ts: seq<nat>, w: nat, i: nat): (k: nat)
    requires i < |ts|
    ensures k >= 1
  {
    i - Opening(ts, w, i) + 1
  }

  /** Time until the window of call i is over, when it is made. */
  function Left(ts: seq<nat>, w: nat, i: nat): int
    requires i < |ts|
  {
    ts[Opening(ts, w, i)] + w - ts[i]
  }

  ghost predicate Ordered(ts: seq<nat>) {
    forall i, j :: 0 <= i <= j < |ts| ==> ts[i] <= ts[j]
  }

  /** A call lies less than one window length after its opening, and the opening opens itself. */
  lemma {:induction false} OpeningIsRecent(ts: seq<nat>, w: nat, i: nat)
    requires i < |ts| && w > 0
    ensures ts[i] < ts[Opening(ts, w, i)] + w
    ensures Opening(ts, w, Opening(ts, w, i)) == Opening(ts, w, i)
  {
    if i > 0 {
      OpeningIsRecent(ts, w, i - 1);
    }
  }

  function Times(calls: seq<Call>): (ts: seq<nat>)
    ensures |ts| == |calls|
    ensures forall i :: 0 <= i < |ts| ==> ts[i] == calls[i].now
  {
    if calls == [] then [] else Times(Front(calls)) + [Last(calls).now]
  }

  lemma {:induction false} OpeningOfPrefix(ts: seq<nat>, more: seq<nat>, w: nat, i: nat)
    requires i < |ts|
    ensures Opening(ts + more, w, i) == Opening(ts, w, i)
  {
    if i > 0 {
      OpeningOfPrefix(ts, more, w, i - 1);
    }
  }

  ghost predicate AllBy(calls: seq<Call>, client: string) {
    forall i :: 0 <= i < |calls| ==> calls[i].client == client && calls[i].Counted()
  }

  /** The client's counter is the rank of call n, and expires when its window ends. */
  ghost predicate Tracks(c: Limits, s: Store, client: string, ts: seq<nat>, n: nat)
    requires n < |ts|
  {
    && Key(client) in s
    && s[Key(client)] == Entry(Rank(ts, Period(c), n), Some(ts[n] + Left(ts, Period(c), n) - 1))
  }

  /** The verdict is read off that counter. */
  ghost predicate Judged(c: Limits, v: Verdict, ts: seq<nat>, n: nat)
    requires n < |ts|
  {
    v == Judge(c, Rank(ts, Period(c), n), Rounded(Left(ts, Period(c), n) - 1))
  }

  lemma TracksLonger(c: Limits, s: Store, client: string, ts: seq<nat>, t: nat, n: nat)
    requires n < |ts| && Tracks(c, s, client, ts, n)
    ensures Tracks(c, s, client, ts + [t], n)
  {
    OpeningOfPrefix(ts, [t], Period(c), n);
  }

  lemma TracksNext(c: Limits, s: Store, client: string, ts: seq<nat>, n: nat)
    requires n < |ts|
    requires if n == 0 then Key(client) !in s else Tracks(c, s, client, ts, n - 1)
    ensures Tracks(c, AllowReply(c, s, client, ts[n]).store, client, ts, n)
    ensures Judged(c, AllowVerdict(c, s, client, ts[n]), ts, n)
  {
    CallStep(c, s, client, ts[n]);
    assert NextEntry(c, s, client, ts[n])
        == Entry(Rank(ts, Period(c), n), Some(ts[n] + Left(ts, Period(c), n) - 1));
  }

  lemma OneMoreTimed(before: seq<Call>, call: Call)
    ensures Times(before + [call]) == Times(before) + [call.now]
  {
    assert Front(before + [call]) == before;
  }

  /** Alone, a client's counter tracks its calls, and the script's answer is their rank. */
  lemma {:induction false} CounterIsRank(c: Limits, calls: seq<Call>, client: string)
    requires calls != [] && AllBy(calls, client)
    ensures Tracks(c, StoreAfter(c, calls), client, Times(calls), |calls| - 1)
    ensures Judged(c, LastVerdict(c, calls), Times(calls), |calls| - 1)
  {
    var n, before := |calls| - 1, Front(calls);
    assert calls == before + [calls[n]];
    OneMoreTimed(before, calls[n]);
    if before != [] {
      CounterIsRank(c, before, client);
      TracksLonger(c, StoreAfter(c, before), client, Times(before), calls[n].now, n - 1);
    }
    TracksNext(c, StoreAfter(c, before), client, Times(calls), n);
  }

  /** The verdict that the n-th call deserves by its rank in its window, and by the time left there. */
  ghost predicate Deserved(c: Limits, v: Verdict, ts: seq<nat>, n: nat)
    requires n < |ts|
  {
    var k, left := Rank(ts, Period(c), n), Left(ts, Period(c), n);
    && (v.allowed <==> k <= c.limit)
    && v.remaining == (if k < c.limit then c.limit - k else 0)
    && v.limit == c.limit
    && v.retryAfter == Rounded(left - 1) * SECOND
    && 0 < left <= Period(c)
  }

  lemma VerdictByRank(c: Limits, calls: seq<Call>, client: string)
    requires calls != [] && AllBy(calls, client) && Ordered(Times(calls))
    ensures Deserved(c, LastVerdict(c, calls), Times(calls), |calls| - 1)
  {
    CounterIsRank(c, calls, client);
    JudgedIsDeserved(c, LastVerdict(c, calls), Times(calls), |calls| - 1);
  }

  lemma SomeIsLeft(ts: seq<nat>, w: nat, i: nat)
    requires i < |ts| && w > 0 && Ordered(ts)
    ensures 0 < Left(ts, w, i) <= w
  {
    OpeningIsRecent(ts, w, i);
  }

  lemma JudgedIsDeserved(c: Limits, v: Verdict, ts: seq<nat>, n: nat)
    requires n < |ts| && Ordered(ts) && Judged(c, v, ts, n)
    ensures Deserved(c, v, ts, n)
  {
    SomeIsLeft(ts, Period(c), n);
  }

  ghost predicate InOrder(calls: seq<Call>) {
    forall i, j :: 0 <= i <= j < |calls| ==> calls[i].now <= calls[j].now
  }

  lemma OneMoreInOrder(own: seq<Call>, call: Call, client: string)
    requires AllBy(own, client) && Ordered(Times(own)) && call.client == client && call.Counted()
    requires own != [] ==> Last(own).now <= call.now
    ensures AllBy(own + [call], client) && Ordered(Times(own + [call]))
  {
    var ts := Times(own + [call]);
    forall i, j | 0 <= i <= j < |ts| ensures ts[i] <= ts[j] {
      if j < |own| {
        assert Times(own)[i] <= Times(own)[j];
      } else if i < |own| {
        assert Times(own)[i] <= Times(own)[|own| - 1];
      }
    }
  }

  lemma {:induction false} OwnIsOrdered(calls: seq<Call>, client: string)
    requires InOrder(calls)
    ensures AllBy(Own(calls, client), client) && Ordered(Times(Own(calls, client)))
    ensures Own(calls, client) != [] ==> calls != [] && Last(Own(calls, client)).now <= Last(calls).now
  {
    if calls != [] {
      OwnIsOrdered(Front(calls), client);
      assert Front(calls) != [] ==> Last(Front(calls)).now <= Last(calls).now;
      if Last(calls).client == client && Last(calls).Counted() {
        OneMoreInOrder(Own(Front(calls), client), Last(calls), client);
      }
    }
  }

  lemma LastByRank(c: Limits, calls: seq<Call>)
    requires calls != [] && InOrder(calls) && Last(calls).Counted()
    ensures var own := Own(calls, Last(calls).client);
            own != [] && Deserved(c, LastVerdict(c, calls), Times(own), |own| - 1)
  {
    var client := Last(calls).client;
    ClientsDoNotInterfere(c, calls);
    OwnIsOrdered(calls, client);
    VerdictByRank(c, Own(calls, client), client);
  }

  /** In every run, for every client: the k-th call of a window is allowed exactly if k is within
      the limit, and reports max(0, limit - k) remaining. */
  lemma WindowAccounting(c: Limits, calls: seq<Call>)
    requires calls != [] && InOrder(calls) && Last(calls).Counted()
    ensures var own := Own(calls, Last(calls).client);
            && own != []
            && var k := Rank(Times(own), Period(c), |own| - 1);
               && (LastVerdict(c, calls).allowed <==> k <= c.limit)
               && LastVerdict(c, calls).remaining == if k < c.limit then c.limit - k else 0
  {
    LastByRank(c, calls);
  }

  /** A refused client is told to come back after 1..W seconds (W the window in seconds), and the
      window is certainly over half a second after that. */
  lemma RetryAfterIsUseful(c: Limits, calls: seq<Call>)
    requires calls != [] && InOrder(calls) && Last(calls).Counted()
    requires !LastVerdict(c, calls).allowed
    ensures var d := Decide(Some(LastVerdict(c, calls)));
            var own := Own(calls, Last(calls).client);
            && d.Deny?
            && 1 <= d.retryAfterSeconds <= WindowSeconds(c)
            && own != []
            && Left(Times(own), Period(c), |own| - 1) <= 1000 * d.retryAfterSeconds + 500
  {
    var own := Own(calls, Last(calls).client);
    LastByRank(c, calls);
    ComeBack(c, LastVerdict(c, calls), Times(own), |own| - 1);
  }

  lemma ComeBack(c: Limits, v: Verdict, ts: seq<nat>, n: nat)
    requires n < |ts| && Deserved(c, v, ts, n) && !v.allowed
    ensures var d := Decide(Some(v));
            && d.Deny?
            && 1 <= d.retryAfterSeconds <= WindowSeconds(c)
            && Left(ts, Period(c), n) <= 1000 * d.retryAfterSeconds + 500
  {
    var left := Left(ts, Period(c), n);
    var ttl := Rounded(left - 1);
    assert 1000 * ttl <= left - 1 + 500 < 1000 * ttl + 1000;
    assert ttl * SECOND / SECOND == ttl;
  }

  // ----- What a client is told, in terms of the configuration alone -----

  /** The configured window, in nanoseconds, comes to k whole seconds; anything shorter than one second
      counts as one. */
  predicate Lasts(c: Limits, k: nat) {
    if c.window < 1_000_000_000 then k == 1
    else k * 1_000_000_000 <= c.window < (k + 1) * 1_000_000_000
  }

  lemma LastsIsPeriod(c: Limits, k: nat)
    requires Lasts(c, k)
    ensures k >= 1 && WindowSeconds(c) == k && Period(c) == 1000 * k + 1
  {
    if c.window >= 1_000_000_000 {
      Cancel(k, WindowSeconds(c) + 1, 1_000_000_000);
      Cancel(WindowSeconds(c), k + 1, 1_000_000_000);
    }
  }

  /** In any run, the rank of the last call in its window: the client's counted calls no later than
      1000 k milliseconds after the one that opened the window, itself included, up to this one. */
  function LastRank(calls: seq<Call>, k: nat): (rank: nat)
    requires calls != [] && Last(calls).Counted()
  {
    var own := Own(calls, Last(calls).client);
    Rank(Times(own), 1000 * k + 1, |own| - 1)
  }

  /** What a window is: nobody is in it who comes more than 1000 k milliseconds after its opening call,
      all who come in time are, and the first one too late opens the next. */
  lemma {:induction false} WindowsOf(ts: seq<nat>, k: nat, i: nat)
    requires i < |ts| && Ordered(ts)
    ensures var w := 1000 * k + 1;
            var s := Opening(ts, w, i);
            && ts[i] <= ts[s] + 1000 * k
            && (forall j :: s <= j <= i ==> Opening(ts, w, j) == s)
            && (i + 1 < |ts| ==>
                  Opening(ts, w, i + 1) == if ts[i + 1] <= ts[s] + 1000 * k then s else i + 1)
  {
    OpeningIsRecent(ts, 1000 * k + 1, i);
    if i > 0 {
      WindowsOf(ts, k, i - 1);
    }
  }

  /** The answer to every call: with an error, the request passes unchecked; else, being the rank-th of
      its window, it passes if rank is within the limit, with what is left of the limit, and is denied
      otherwise, with nothing left and the advice to come back in 1..k seconds. */
  lemma AnswerByRank(c: Limits, calls: seq<Call>, k: nat)
    requires calls != [] && InOrder(calls) && Lasts(c, k)
    ensures !Last(calls).link.Up? ==> LastDecision(c, calls) == FailOpen
    ensures Last(calls).link.Up? ==>
              var rank, d := LastRank(calls, k), LastDecision(c, calls);
              && (rank <= c.limit ==> d == Pass(c.limit, c.limit - rank))
              && (rank > c.limit ==>
                    d.Deny? && d.limitHeader == c.limit && d.remainingHeader == 0
                    && 1 <= d.retryAfterSeconds <= k)
  {
    if Last(calls).link.Up? {
      var own := Own(calls, Last(calls).client);
      LastByRank(c, calls);
      DecidedByRank(c, LastVerdict(c, calls), Times(own), |own| - 1, k);
    }
  }

  lemma DecidedByRank(c: Limits, v: Verdict, ts: seq<nat>, n: nat, k: nat)
    requires n < |ts| && Deserved(c, v, ts, n) && Lasts(c, k)
    ensures var rank, d := Rank(ts, 1000 * k + 1, n), Decide(Some(v));
            && (rank <= c.limit ==> d == Pass(c.limit, c.limit - rank))
            && (rank > c.limit ==>
                  d.Deny? && d.limitHeader == c.limit && d.remainingHeader == 0
                  && 1 <= d.retryAfterSeconds <= k)
  {
    LastsIsPeriod(c, k);
    if !v.allowed {
      ComeBack(c, v, ts, n);
    }
  }

  /** Calls of a run, of any client, that got their answer and were beyond the limit of their window. */
  function BeyondLimit(calls: seq<Call>, k: nat, limit: int): nat {
    if calls == [] then 0 else
      BeyondLimit(Front(calls), k, limit)
      + if Last(calls).link.Up? && LastRank(calls, k) > limit then 1 else 0
  }

  /** Those and no others are denied; so many the middleware has counted. */
  lemma {:induction false} DenialsAreBeyondLimit(c: Limits, calls: seq<Call>, k: nat)
    requires InOrder(calls) && Lasts(c, k)
    ensures Denials(c, calls) == BeyondLimit(calls, k, c.limit)
  {
    if calls != [] {
      DenialsAreBeyondLimit(c, Front(calls), k);
      AnswerByRank(c, calls, k);
    }
  }

  /** A counter without an expiry, which only another writer can leave, makes the client wait for the
      whole window. */
  lemma WithoutExpiryWaitTheWindow(c: Limits, s: Store, client: string, now: int)
    requires Key(client) in s && s[Key(client)].expireAt == None && s[Key(client)].count >= 1
    ensures AllowVerdict(c, s, client, now).retryAfter == c.window
  {
  }

  // ----- Sliding intervals -----

  /** Calls of the client that got the verdict "allowed" at times in [a, a + length). */
  function AllowedWithin(c: Limits, calls: seq<Call>, client: string, a: nat, length: nat): nat {
    if calls == [] then 0 else
      AllowedWithin(c, Front(calls), client, a, length)
      + if LastIsAllowed(c, calls, client, a, length) then 1 else 0
  }

  predicate LastIsAllowed(c: Limits, calls: seq<Call>, client: string, a: nat, length: nat)
    requires calls != []
  {
    && Last(calls).client == client && Last(calls).link.Up?
    && LastVerdict(c, calls).allowed
    && a <= Last(calls).now < a + length
  }

  /** The same count on the client's call times alone, by rank. */
  function RankedWithin(limit: int, ts: seq<nat>, w: nat, n: nat, a: nat, length: nat): nat
    requires n <= |ts|
  {
    if n == 0 then 0 else
      RankedWithin(limit, ts, w, n - 1, a, length)
      + if RankedIn(limit, ts, w, n - 1, a, length) then 1 else 0
  }

  predicate RankedIn(limit: int, ts: seq<nat>, w: nat, i: nat, a: nat, length: nat)
    requires i < |ts|
  {
    Rank(ts, w, i) <= limit && a <= ts[i] < a + length
  }

  lemma {:induction false} RankedOfPrefix(
      limit: int, ts: seq<nat>, more: seq<nat>, w: nat, n: nat, a: nat, length: nat)
    requires n <= |ts|
    ensures RankedWithin(limit, ts + more, w, n, a, length) == RankedWithin(limit, ts, w, n, a, length)
  {
    if n > 0 {
      RankedOfPrefix(limit, ts, more, w, n - 1, a, length);
      OpeningOfPrefix(ts, more, w, n - 1);
    }
  }

  lemma RankedOneMore(limit: int, before: seq<Call>, call: Call, w: nat, a: nat, length: nat)
    ensures var ts := Times(before + [call]);
            RankedWithin(limit, ts, w, |before| + 1, a, length)
            == RankedWithin(limit, Times(before), w, |before|, a, length)
               + if RankedIn(limit, ts, w, |before|, a, length) then 1 else 0
  {
    assert Front(before + [call]) == before;
    RankedOfPrefix(limit, Times(before), [call.now], w, |before|, a, length);
  }

  lemma AllowedByRank(c: Limits, calls: seq<Call>, client: string, a: nat, length: nat)
    requires calls != [] && InOrder(calls)
    ensures LastIsAllowed(c, calls, client, a, length) ==>
              && Last(calls).client == client && Last(calls).Counted()
              && RankedIn(c.limit, Times(Own(calls, client)), Period(c), |Own(calls, client)| - 1, a, length)
    ensures Last(calls).client == client && Last(calls).link.Up? ==>
              && Own(calls, client) != []
              && (LastIsAllowed(c, calls, client, a, length) <==>
                    RankedIn(c.limit, Times(Own(calls, client)), Period(c), |Own(calls, client)| - 1, a, length))
  {
    if Last(calls).client == client && Last(calls).Counted() {
      WindowAccounting(c, calls);
    }
  }

  lemma {:induction false} CountByRank(c: Limits, calls: seq<Call>, client: string, a: nat, length: nat)
    requires InOrder(calls)
    ensures var own := Own(calls, client);
            var ranked := RankedWithin(c.limit, Times(own), Period(c), |own|, a, length);
            && AllowedWithin(c, calls, client, a, length) <= ranked
            && (AllAnswered(calls) ==> AllowedWithin(c, calls, client, a, length) == ranked)
  {
    if calls != [] {
      CountByRank(c, Front(calls), client, a, length);
      AllowedByRank(c, calls, client, a, length);
      if Last(calls).client == client && Last(calls).Counted() {
        RankedOneMore(c.limit, Own(Front(calls), client), Last(calls), Period(c), a, length);
      }
    }
  }

  ghost predicate AllAnswered(calls: seq<Call>) {
    forall i :: 0 <= i < |calls| ==> calls[i].link.Up?
  }

  /** Calls allowed before a window that opens d after the interval begins, if the windows follow each
      other as closely as they can: either all of them open within the interval, or the first one
      opened before and is used up just when the interval begins. */
  function MostBefore(d: int, w: nat, m: nat): nat
    requires w > 0
  {
    Max(Budget(d, w, m), if d < 1 then 0 else Budget(d - 1, w, m) + Max(m - 1, 0))
  }

  lemma MostBeforeGrows(x: int, y: int, w: nat, m: nat)
    requires w > 0 && 0 <= x <= y
    ensures MostBefore(x, w, m) <= MostBefore(y, w, m)
    ensures x + w <= y ==> MostBefore(x, w, m) + m <= MostBefore(y, w, m)
  {
    BudgetGrows(x, y, w, m);
    if x >= 1 {
      BudgetGrows(x - 1, y - 1, w, m);
    }
  }

  /** Calls allowed in an interval of the given length. */
  function MostWithin(length: nat, w: nat, m: nat): nat
    requires w > 0
  {
    if length == 0 || m == 0 then 0 else MostBefore(length - 1, w, m) + m
  }

  /** What is known after n calls, the last of them the k-th of a window opened at s. */
  ghost predicate Bounded(count: int, k: int, s: int, last: int, limit: int, w: nat, a: nat, length: nat)
    requires w > 0
  {
    var m := Max(limit, 0);
    && (count > 0 ==> a <= last)
    && (s < a ==> count <= Max(Min(k, m) - 1, 0))
    && (s >= a ==> count <= MostBefore(s - a, w, m) + Min(k, m))
    && count <= MostWithin(length, w, m)
  }

  lemma {:induction false} SlidingCount(limit: int, ts: seq<nat>, w: nat, n: nat, a: nat, length: nat)
    requires Ordered(ts) && w > 0 && 0 < n <= |ts|
    ensures Bounded(RankedWithin(limit, ts, w, n, a, length), Rank(ts, w, n - 1),
                    ts[Opening(ts, w, n - 1)], ts[n - 1], limit, w, a, length)
  {
    var t := ts[n - 1];
    if n == 1 {
      assert RankedWithin(limit, ts, w, 0, a, length) == 0 && Rank(ts, w, 0) == 1;
      FirstCall(t, limit, w, a, length);
    } else {
      SlidingCount(limit, ts, w, n - 1, a, length);
      OpeningIsRecent(ts, w, n - 2);
      var s := ts[Opening(ts, w, n - 2)];
      var count := RankedWithin(limit, ts, w, n - 1, a, length);
      assert Rank(ts, w, n - 1) == if t < s + w then Rank(ts, w, n - 2) + 1 else 1;
      assert ts[Opening(ts, w, n - 1)] == if t < s + w then s else t;
      NextCall(count, Rank(ts, w, n - 2), s, ts[n - 2], t, limit, w, a, length);
    }
  }

  lemma NextCall(
      count: nat, k: nat, s: nat, last: nat, t: nat, limit: int, w: nat, a: nat, length: nat)
    requires w > 0 && s <= last < s + w && last <= t && k >= 1
    requires Bounded(count, k, s, last, limit, w, a, length)
    ensures var (rank, opening) := if t < s + w then (k + 1, s) else (1, t);
            Bounded(count + if rank <= limit && a <= t < a + length then 1 else 0,
                    rank, opening, t, limit, w, a, length)
  {
    if t < s + w {
      SameWindow(count, k, s, last, t, limit, w, a, length);
    } else {
      NewWindow(count, k, s, last, t, limit, w, a, length);
    }
  }

  lemma FirstCall(t: nat, limit: int, w: nat, a: nat, length: nat)
    requires w > 0
    ensures Bounded(if 1 <= limit && a <= t < a + length then 1 else 0, 1, t, t, limit, w, a, length)
  {
    OpeningCall(0, t, limit, w, a, length);
  }

  lemma SameWindow(
      count: nat, k: nat, s: nat, last: nat, t: nat, limit: int, w: nat, a: nat, length: nat)
    requires w > 0 && s <= last <= t < s + w && k >= 1
    requires Bounded(count, k, s, last, limit, w, a, length)
    ensures Bounded(count + if k + 1 <= limit && a <= t < a + length then 1 else 0,
                    k + 1, s, t, limit, w, a, length)
  {
    if a <= s && t < a + length {
      MostBeforeGrows(s - a, length - 1, w, Max(limit, 0));
    }
  }

  /** The first call of a window, with `count` counted before it. */
  lemma OpeningCall(count: nat, t: nat, limit: int, w: nat, a: nat, length: nat)
    requires w > 0
    requires var m := Max(limit, 0);
             && (t < a ==> count == 0)
             && (t >= a ==> count <= MostBefore(t - a, w, m))
             && count <= MostWithin(length, w, m)
    ensures Bounded(count + if 1 <= limit && a <= t < a + length then 1 else 0,
                    1, t, t, limit, w, a, length)
  {
    if a <= t < a + length {
      MostBeforeGrows(t - a, length - 1, w, Max(limit, 0));
    }
  }

  lemma NewWindow(
      count: nat, k: nat, s: nat, last: nat, t: nat, limit: int, w: nat, a: nat, length: nat)
    requires w > 0 && s <= last < s + w <= t && k >= 1
    requires Bounded(count, k, s, last, limit, w, a, length)
    ensures Bounded(count + if 1 <= limit && a <= t < a + length then 1 else 0,
                    1, t, t, limit, w, a, length)
  {
    if s >= a {
      MostBeforeGrows(s - a, t - a, w, Max(limit, 0));
    }
    OpeningCall(count, t, limit, w, a, length);
  }

  function Ceiling(length: nat, w: nat): nat
    requires w > 0
  {
    (length + w - 1) / w
  }

  /** A full limit for each period begun, and all but one of another limit, from the end of an earlier
      window, unless that would take the last millisecond of the interval. */
  function Most(length: nat, w: nat, limit: int): nat
    requires w > 0
  {
    if length == 0 || limit <= 0 then 0
    else Ceiling(length, w) * limit + if length % w == 1 then 0 else limit - 1
  }

  lemma MostInClosedForm(length: nat, w: nat, limit: int)
    requires w > 1
    ensures MostWithin(length, w, Max(limit, 0)) == Most(length, w, limit)
  {
    if length > 0 && limit > 0 {
      CeilingOf(length, w);
      OneUp(length - 1, w);
      BudgetIsProduct(length - 1, w, limit);
      OneMoreTime((length - 1) / w, limit);
      if length > 1 {
        OneUp(length - 2, w);
        BudgetIsProduct(length - 2, w, limit);
        OneMoreTime((length - 2) / w, limit);
      }
    }
  }

  lemma CeilingOf(length: nat, w: nat)
    requires length > 0 && w > 0
    ensures Ceiling(length, w) == (length - 1) / w + 1
  {
    var q, r := (length - 1) / w, (length - 1) % w;
    assert length + w - 1 == (q + 1) * w + r;
    Residue(q + 1, w, r);
  }

  /** In every run: how many requests a client can get through in a half-open interval of this length
      at most. A period is the window and one millisecond. */
  lemma SlidingBound(c: Limits, calls: seq<Call>, client: string, a: nat, length: nat)
    requires InOrder(calls)
    ensures AllowedWithin(c, calls, client, a, length) <= Most(length, Period(c), c.limit)
  {
    CountByRank(c, calls, client, a, length);
    OwnIsOrdered(calls, client);
    MostInClosedForm(length, Period(c), c.limit);
    var own := Own(calls, client);
    if own != [] {
      SlidingCount(c.limit, Times(own), Period(c), |own|, a, length);
    }
  }

  lemma CeilingShrinks(length: nat, w: nat)
    requires w > 0
    ensures Ceiling(length, w + 1) <= Ceiling(length, w)
  {
    var p, q := Ceiling(length, w + 1), Ceiling(length, w);
    assert length + w - 1 < q * w + w && p * (w + 1) <= length + w;
    assert (q + 1) * (w + 1) == q * w + q + w + 1;
    Cancel(p, q + 1, w + 1);
  }

  /** The same in terms of the configuration alone. */
  lemma SlidingBoundAsConfigured(c: Limits, calls: seq<Call>, client: string, a: nat, length: nat, k: nat)
    requires InOrder(calls) && Lasts(c, k)
    ensures AllowedWithin(c, calls, client, a, length) <= Most(length, 1000 * k + 1, c.limit)
  {
    LastsIsPeriod(c, k);
    SlidingBound(c, calls, client, a, length);
  }

  /** That is within one limit for each window begun, and another. */
  lemma MostByWindows(c: Limits, length: nat)
    ensures Most(length, Period(c), c.limit) <= (Ceiling(length, Millis(c)) + 1) * Max(c.limit, 0)
  {
    CeilingShrinks(length, Millis(c));
    if length > 0 && c.limit > 0 {
      MoreTimes(Ceiling(length, Period(c)), Ceiling(length, Millis(c)), c.limit);
      OneMoreTime(Ceiling(length, Millis(c)), c.limit);
    }
  }

  /** An interval no longer than a period sees at most 2 * limit - 1 of them. */
  lemma OneWindowLength(c: Limits, calls: seq<Call>, client: string, a: nat, length: nat)
    requires InOrder(calls) && c.limit >= 1 && length <= Period(c)
    ensures AllowedWithin(c, calls, client, a, length) <= 2 * c.limit - 1
    ensures length > 1 ==> Most(length, Period(c), c.limit) == 2 * c.limit - 1
  {
    SlidingBound(c, calls, client, a, length);
    if length > 0 {
      CeilingOf(length, Period(c));
      Residue(0, Period(c), length - 1);
      OneUp(length - 1, Period(c));
    }
  }

  // ----- The bound is attained -----

  /** `limit` calls in each window: window after window opens as soon as it can, with all of its calls
      at once, but in the first window all calls except the opening one wait for a while. */
  function BurstTime(limit: nat, w: nat, wait: nat, i: nat): nat
    requires limit > 0
  {
    if 0 < i < limit then wait else i / limit * w
  }

  function Burst(c: Limits, client: string, wait: nat, windows: nat): (calls: seq<Call>)
    requires c.limit >= 1
  {
    seq(windows * c.limit, i requires i >= 0 => Call(client, BurstTime(c.limit, Period(c), wait, i), Up))
  }

  ghost predicate IsBurst(limit: nat, w: nat, wait: nat, ts: seq<nat>)
    requires limit > 0
  {
    wait < w && forall i :: 0 <= i < |ts| ==> ts[i] == BurstTime(limit, w, wait, i)
  }

  lemma BurstIsOrdered(limit: nat, w: nat, wait: nat, i: nat, j: nat)
    requires limit > 0 && wait < w && i <= j
    ensures BurstTime(limit, w, wait, i) <= BurstTime(limit, w, wait, j)
  {
    DivGrows(i, j, limit);
    MoreTimes(i / limit, j / limit, w);
    if j >= limit {
      DivGrows(limit, j, limit);
      Residue(1, limit, 0);
      MoreTimes(1, j / limit, w);
    } else {
      Residue(0, limit, i);
    }
  }

  /** The number of the call that opens the window of call i. */
  function First(limit: nat, i: nat): (s: nat)
    requires limit > 0
    ensures s <= i && i - s < limit
  {
    i / limit * limit
  }

  /** The next call either belongs to the same window or opens the next one as soon as it can. */
  lemma NextInBurst(limit: nat, w: nat, wait: nat, i: nat)
    requires limit > 0 && wait < w
    ensures if First(limit, i + 1) == First(limit, i)
            then BurstTime(limit, w, wait, i + 1) < BurstTime(limit, w, wait, First(limit, i)) + w
            else && First(limit, i + 1) == i + 1
                 && BurstTime(limit, w, wait, i + 1) >= BurstTime(limit, w, wait, First(limit, i)) + w
  {
    var q := i / limit;
    OneUp(i, limit);
    Residue(q, limit, 0);
    OneMoreTime(q, w);
    OneMoreTime(q, limit);
    OpensOnTime(limit, w, wait, q);
    OpensOnTime(limit, w, wait, q + 1);
  }

  lemma OpensOnTime(limit: nat, w: nat, wait: nat, q: nat)
    requires limit > 0
    ensures 0 <= q * limit && BurstTime(limit, w, wait, q * limit) == q * w
  {
    Residue(q, limit, 0);
    if q > 0 {
      MoreTimes(1, q, limit);
    }
  }

  lemma {:induction false} BurstOpening(limit: nat, w: nat, wait: nat, ts: seq<nat>, i: nat)
    requires limit > 0 && IsBurst(limit, w, wait, ts) && i < |ts|
    ensures Opening(ts, w, i) == First(limit, i)
  {
    if i > 0 {
      BurstOpening(limit, w, wait, ts, i - 1);
      NextInBurst(limit, w, wait, i - 1);
    } else {
      Residue(0, limit, 0);
    }
  }

  /** All of a burst is allowed, so what counts is what lies within the interval: all of it, or all
      but the very first call. */
  lemma {:induction false} BurstCount(
      limit: nat, w: nat, wait: nat, ts: seq<nat>, n: nat, a: nat, length: nat)
    requires limit > 0 && IsBurst(limit, w, wait, ts) && n <= |ts|
    requires forall i :: 0 <= i < |ts| ==> (a <= ts[i] < a + length <==> i > 0 || a == 0)
    ensures RankedWithin(limit, ts, w, n, a, length) == if a == 0 then n else Max(n - 1, 0)
  {
    if n > 0 {
      BurstCount(limit, w, wait, ts, n - 1, a, length);
      BurstOpening(limit, w, wait, ts, n - 1);
    }
  }

  lemma {:induction false} AllOwn(calls: seq<Call>, client: string)
    requires AllBy(calls, client)
    ensures Own(calls, client) == calls
  {
    if calls != [] {
      AllOwn(Front(calls), client);
    }
  }

  lemma CountAlone(c: Limits, calls: seq<Call>, client: string, a: nat, length: nat)
    requires InOrder(calls) && AllBy(calls, client) && AllAnswered(calls)
    ensures AllowedWithin(c, calls, client, a, length)
            == RankedWithin(c.limit, Times(calls), Period(c), |calls|, a, length)
  {
    AllOwn(calls, client);
    CountByRank(c, calls, client, a, length);
  }

  lemma BurstIsARun(c: Limits, client: string, wait: nat, windows: nat)
    requires c.limit >= 1 && wait < Period(c)
    ensures var calls := Burst(c, client, wait, windows);
            && |calls| == windows * c.limit
            && InOrder(calls) && AllBy(calls, client) && AllAnswered(calls)
            && IsBurst(c.limit, Period(c), wait, Times(calls))
  {
    var calls := Burst(c, client, wait, windows);
    forall i, j | 0 <= i <= j < |calls| ensures calls[i].now <= calls[j].now {
      BurstIsOrdered(c.limit, Period(c), wait, i, j);
    }
  }

  /** Allowed calls of a burst, if it lies in the interval but for its first call. */
  lemma BurstGetsThrough(c: Limits, client: string, wait: nat, windows: nat, a: nat, length: nat)
    requires c.limit >= 1 && wait < Period(c)
    requires forall i :: 0 <= i < windows * c.limit ==>
               (a <= BurstTime(c.limit, Period(c), wait, i) < a + length <==> i > 0 || a == 0)
    ensures var calls := Burst(c, client, wait, windows);
            InOrder(calls) && AllowedWithin(c, calls, client, a, length)
            == if a == 0 then windows * c.limit else Max(windows * c.limit - 1, 0)
  {
    var calls := Burst(c, client, wait, windows);
    BurstIsARun(c, client, wait, windows);
    CountAlone(c, calls, client, a, length);
    BurstCount(c.limit, Period(c), wait, Times(calls), |calls|, a, length);
  }

  lemma InTime(limit: nat, w: nat, wait: nat, windows: nat, i: nat)
    requires limit > 0 && wait < w && i < windows * limit
    ensures windows > 0 && BurstTime(limit, w, wait, i) <= Max(wait, (windows - 1) * w)
    ensures i >= limit ==> BurstTime(limit, w, wait, i) >= w
  {
    Cancel(i / limit, windows, limit);
    MoreTimes(i / limit, windows - 1, w);
    if i >= limit {
      DivGrows(limit, i, limit);
      Residue(1, limit, 0);
      MoreTimes(1, i / limit, w);
    }
  }

  /** Windows that all open within the interval, the last one in its last millisecond ... */
  lemma BurstFromStart(c: Limits, client: string, length: nat, q: nat)
    requires c.limit >= 1 && length == q * Period(c) + 1
    ensures var calls := Burst(c, client, 0, q + 1);
            InOrder(calls) && AllowedWithin(c, calls, client, 0, length) == (q + 1) * c.limit
  {
    forall i | 0 <= i < (q + 1) * c.limit ensures BurstTime(c.limit, Period(c), 0, i) < length {
      InTime(c.limit, Period(c), 0, q + 1, i);
    }
    BurstGetsThrough(c, client, 0, q + 1, 0, length);
  }

  /** ... or windows that follow one whose end lies in the first millisecond of the interval. */
  lemma BurstFromBefore(c: Limits, client: string, length: nat, q: nat)
    requires c.limit >= 1 && q * Period(c) + 1 < length
    ensures var calls, a := Burst(c, client, Period(c) - 1, q + 2), Period(c) - 1;
            InOrder(calls) && AllowedWithin(c, calls, client, a, length) == (q + 2) * c.limit - 1
  {
    var w, a := Period(c), Period(c) - 1;
    OneMoreTime(q, w);
    forall i | 0 <= i < (q + 2) * c.limit
      ensures a <= BurstTime(c.limit, w, a, i) < a + length <==> i > 0 || a == 0
    {
      InTime(c.limit, w, a, q + 2, i);
      Residue(0, c.limit, 0);
    }
    MoreTimes(1, q + 2, c.limit);
    BurstGetsThrough(c, client, a, q + 2, a, length);
  }

  lemma MostInLaps(length: nat, w: nat, limit: int) returns (q: nat)
    requires length > 0 && limit > 0 && w > 1
    ensures if length % w == 1 then length == q * w + 1 && Most(length, w, limit) == (q + 1) * limit
            else q * w + 1 < length && Most(length, w, limit) == (q + 2) * limit - 1
  {
    q := (length - 1) / w;
    CeilingOf(length, w);
    OneUp(length - 1, w);
    OneMoreTime(q + 1, limit);
  }

  /** For every limit, every window and every length, some run attains the bound. */
  lemma SlidingBoundIsTight(c: Limits, client: string, length: nat) returns (calls: seq<Call>, a: nat)
    ensures InOrder(calls)
    ensures AllowedWithin(c, calls, client, a, length) == Most(length, Period(c), c.limit)
  {
    calls, a := [], 0;
    if length > 0 && c.limit > 0 {
      var q := MostInLaps(length, Period(c), c.limit);
      if length % Period(c) == 1 {
        BurstFromStart(c, client, length, q);
        calls := Burst(c, client, 0, q + 1);
      } else {
        BurstFromBefore(c, client, length, q);
        calls, a := Burst(c, client, Period(c) - 1, q + 2), Period(c) - 1;
      }
    }
  }
}
