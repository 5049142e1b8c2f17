/** Round-robin over a wrapping cursor: when a scan sees everyone, and how evenly it serves. */
module Rotation {
  import opened CircuitBreaker
  import opened Arithmetic
  import opened Registry
  import opened Sequences
  import opened Wrappers

  lemma AdvanceIsModular(cursor: nat, k: nat)
    requires cursor < CURSOR_MODULUS
    ensures Advance(cursor, k) == (cursor + k) % CURSOR_MODULUS
  {
  }

  // ----- Completeness of one scan -----

  /** The scan does not run over the end of the counter, or running over it does not matter. */
  predicate ScanIsSmooth(cursor: nat, n: nat)
    requires n > 0
  {
    cursor + n <= CURSOR_MODULUS || CURSOR_MODULUS % n == 0
  }

  lemma SmoothCandidate(cursor: nat, k: nat, n: nat)
    requires 0 < n && cursor < CURSOR_MODULUS && k < n && ScanIsSmooth(cursor, n)
    ensures Candidate(cursor, k, n) == (cursor + k) % n
  {
    AdvanceIsModular(cursor, k);
    if cursor + n <= CURSOR_MODULUS {
      Residue(0, CURSOR_MODULUS, cursor + k);
    } else {
      ResidueOfResidue(cursor + k, CURSOR_MODULUS, n);
    }
  }

  /** How far past the cursor index `i` comes up. */
  function Distance(cursor: nat, n: nat, i: nat): (k: nat)
    requires i < n
    ensures k < n
  {
    if cursor % n <= i then i - cursor % n else i + n - cursor % n
  }

  lemma DistanceReaches(cursor: nat, n: nat, i: nat)
    requires i < n
    ensures (cursor + Distance(cursor, n, i)) % n == i
  {
    var q := cursor / n;
    if cursor % n <= i {
      Residue(q, n, i);
    } else {
      assert cursor + Distance(cursor, n, i) == (q + 1) * n + i;
      Residue(q + 1, n, i);
    }
  }

  ghost predicate Examined(cursor: nat, n: nat, i: nat)
    requires n > 0
  {
    exists k :: 0 <= k < n && Candidate(cursor, k, n) == i
  }

  /** An index that a scan running over the end of the counter never looks at. */
  function Missed(cursor: nat, n: nat): (i: nat)
    requires 0 < n < CURSOR_MODULUS && cursor < CURSOR_MODULUS && !ScanIsSmooth(cursor, n)
    ensures i < n
  {
    var a, q := CURSOR_MODULUS - cursor, CURSOR_MODULUS % n;
    if a <= q then n - 1 else if n - a < q then q else n - a
  }

  lemma MissedIsNotExamined(cursor: nat, n: nat, k: nat)
    requires 0 < n < CURSOR_MODULUS && cursor < CURSOR_MODULUS && !ScanIsSmooth(cursor, n) && k < n
    ensures Candidate(cursor, k, n) != Missed(cursor, n)
  {
    var a := CURSOR_MODULUS - cursor;
    AdvanceIsModular(cursor, k);
    if a <= k {
      Residue(1, CURSOR_MODULUS, k - a);
      Residue(0, n, k - a);
    } else {
      Residue(0, CURSOR_MODULUS, cursor + k);
      ResidueNearTop(CURSOR_MODULUS, n, a - k);
    }
  }

  /** A full scan looks at every instance exactly when it is smooth. */
  lemma ScanCompleteIff(cursor: nat, n: nat)
    requires 0 < n < CURSOR_MODULUS && cursor < CURSOR_MODULUS
    ensures (forall i :: 0 <= i < n ==> Examined(cursor, n, i)) <==> ScanIsSmooth(cursor, n)
  {
    if ScanIsSmooth(cursor, n) {
      forall i | 0 <= i < n ensures Examined(cursor, n, i) {
        DistanceReaches(cursor, n, i);
        SmoothCandidate(cursor, Distance(cursor, n, i), n);
      }
    } else {
      forall k | 0 <= k < n ensures Candidate(cursor, k, n) != Missed(cursor, n) {
        MissedIsNotExamined(cursor, n, k);
      }
      assert !Examined(cursor, n, Missed(cursor, n));
    }
  }

  /** ... and then it looks at none of them twice. */
  lemma ScanRepeatsNothing(cursor: nat, n: nat, j: nat, k: nat)
    requires 0 < n && cursor < CURSOR_MODULUS && ScanIsSmooth(cursor, n) && j < k < n
    ensures Candidate(cursor, j, n) != Candidate(cursor, k, n)
  {
    SmoothCandidate(cursor, j, n);
    SmoothCandidate(cursor, k, n);
    Shifted(cursor + j, k - j, n);
  }

  /** `Next` answers nil only if no instance is available, whatever the instances are. */
  ghost predicate NilIsHonest(o: Options, cursor: nat, n: nat) {
    forall eps: seq<Endpoint>, now :: |eps| == n && NextPick(o, eps, cursor, now).index == None ==>
      forall i :: 0 <= i < n ==> !Available(o, eps[i], now)
  }

  lemma NilIsHonestIff(o: Options, cursor: nat, n: nat)
    requires 0 < n < CURSOR_MODULUS && cursor < CURSOR_MODULUS
    ensures NilIsHonest(o, cursor, n) <==> ScanIsSmooth(cursor, n)
  {
    if ScanIsSmooth(cursor, n) {
      ScanCompleteIff(cursor, n);
      forall eps: seq<Endpoint>, now, i |
        |eps| == n && NextPick(o, eps, cursor, now).index == None && 0 <= i < n
        ensures !Available(o, eps[i], now)
      {
        assert Examined(cursor, n, i);
      }
    } else {
      var i := Missed(cursor, n);
      var eps := seq(n, j => Endpoint(j == i, Fresh(0)));
      forall k | 0 <= k < n ensures Candidate(cursor, k, n) != i {
        MissedIsNotExamined(cursor, n, k);
      }
      assert NextPick(o, eps, cursor, 0).index == None;
      assert Available(o, eps[i], 0);
    }
  }

  // ----- Positions -----

  /** Positions count on where the cursor wraps: at position x the cursor is x modulo 2^64. This is
      the index it points at there. */
  function Pointed(x: nat, n: nat): (i: nat)
    requires n > 0
    ensures i < n
  {
    x % CURSOR_MODULUS % n
  }

  lemma PointedIsCandidate(x: nat, j: nat, n: nat)
    requires n > 0
    ensures Candidate(x % CURSOR_MODULUS, j, n) == Pointed(x + j, n)
    ensures Advance(x % CURSOR_MODULUS, j) == (x + j) % CURSOR_MODULUS
  {
    AdvanceIsModular(x % CURSOR_MODULUS, j);
    Shifted(x, j, CURSOR_MODULUS);
  }

  /** How often a cursor on its way to position y has wrapped to the detriment of some index. */
  function Wraps(y: int, n: nat): nat
    requires n > 0
  {
    if y <= 0 || CURSOR_MODULUS % n == 0 then 0 else (y - 1) / CURSOR_MODULUS
  }

  lemma WrapsGrow(x: nat, y: nat, n: nat)
    requires n > 0 && x <= y
    ensures Wraps(x, n) <= Wraps(y, n)
  {
    if x > 0 {
      DivGrows(x - 1, y - 1, CURSOR_MODULUS);
    }
  }

  /** A full scan points at every index unless the cursor wraps, to somebody's detriment, on it. */
  lemma LapPointsAtAll(x: nat, n: nat, i: nat)
    requires i < n < CURSOR_MODULUS
    requires forall y :: x <= y < x + n ==> Pointed(y, n) != i
    ensures Wraps(x, n) < Wraps(x + n, n)
  {
    var cursor, q := x % CURSOR_MODULUS, x / CURSOR_MODULUS;
    if ScanIsSmooth(cursor, n) {
      ScanCompleteIff(cursor, n);
      assert Examined(cursor, n, i);
      var k :| 0 <= k < n && Candidate(cursor, k, n) == i;
      PointedIsCandidate(x, k, n);
      assert false;
    }
    assert x + n - 1 == (q + 1) * CURSOR_MODULUS + (cursor + n - 1 - CURSOR_MODULUS);
    Residue(q + 1, CURSOR_MODULUS, cursor + n - 1 - CURSOR_MODULUS);
  }

  /** Whether the index that position x points at is serving. */
  predicate ServingAt(serving: seq<bool>, x: nat)
    requires serving != []
  {
    serving[Pointed(x, |serving|)]
  }

  // ----- One call while the available set stands still -----

  /** Up to time `until`, `serving[i]` tells for good whether instance i takes requests: it is
      healthy and CLOSED; or it is unhealthy, OPEN before its timeout, or HALF-OPEN with the slot
      taken. */
  ghost predicate Frozen(o: Options, eps: seq<Endpoint>, serving: seq<bool>, until: int) {
    && |eps| == |serving|
    && forall i :: 0 <= i < |eps| ==>
         var ep := eps[i];
         if serving[i] then ep.healthy && ep.breaker.state == Closed
         else || !ep.healthy
              || (ep.breaker.state == Open && until - ep.breaker.openedAt < o.recoveryTimeout)
              || (ep.breaker.state == HalfOpen && ep.breaker.probeInFlight)
  }

  lemma FirstServing(o: Options, eps: seq<Endpoint>, serving: seq<bool>, x: nat, now: int) returns (k: nat)
    requires 0 < |eps| == |serving|
    requires forall i :: 0 <= i < |eps| ==> Available(o, eps[i], now) == serving[i]
    ensures k == FirstAvailable(o, eps, x % CURSOR_MODULUS, now, 0)
    ensures k < |eps| ==> ServingAt(serving, x + k)
    ensures forall y :: x <= y < x + k ==> !ServingAt(serving, y)
  {
    k := FirstAvailable(o, eps, x % CURSOR_MODULUS, now, 0);
    PointedIsCandidate(x, k, |eps|);
    forall y | x <= y < x + k ensures !ServingAt(serving, y) {
      PointedIsCandidate(x, y - x, |eps|);
      assert !Available(o, eps[Candidate(x % CURSOR_MODULUS, y - x, |eps|)], now);
    }
  }

  lemma FrozenPick(o: Options, eps: seq<Endpoint>, cursor: nat, now: int)
    requires eps != [] && forall i :: 0 <= i < |eps| ==> AfterAsking(o, eps[i], now) == eps[i]
    ensures var k, n := FirstAvailable(o, eps, cursor, now, 0), |eps|;
            NextPick(o, eps, cursor, now)
            == if k < n then Pick(Some(Candidate(cursor, k, n)), eps, Advance(cursor, k + 1))
               else Pick(None, eps, Advance(cursor, k))
  {
    var k := FirstAvailable(o, eps, cursor, now, 0);
    if k < |eps| {
      var c := Candidate(cursor, k, |eps|);
      assert eps[c := eps[c]] == eps;
    }
  }

  lemma NobodyOnLap(serving: seq<bool>, x: nat)
    requires true in serving && |serving| < CURSOR_MODULUS
    requires forall y :: x <= y < x + |serving| ==> !ServingAt(serving, y)
    ensures Wraps(x, |serving|) < Wraps(x + |serving|, |serving|)
  {
    var i :| 0 <= i < |serving| && serving[i];
    forall y | x <= y < x + |serving| ensures Pointed(y, |serving|) != i {
      assert !ServingAt(serving, y);
    }
    LapPointsAtAll(x, |serving|, i);
  }

  /** One call: the first serving index at or after the position, which moves just past it; or nil
      after a full scan without one. */
  lemma FrozenCall(o: Options, eps: seq<Endpoint>, serving: seq<bool>, until: int, x: nat, now: int)
      returns (k: nat)
    requires Frozen(o, eps, serving, until) && now <= until && 0 < |eps| < CURSOR_MODULUS
    ensures k <= |eps| && forall y :: x <= y < x + k ==> !ServingAt(serving, y)
    ensures k < |eps| ==>
              && ServingAt(serving, x + k)
              && NextPick(o, eps, x % CURSOR_MODULUS, now)
                 == Pick(Some(Pointed(x + k, |eps|)), eps, (x + k + 1) % CURSOR_MODULUS)
    ensures k == |eps| ==>
              && NextPick(o, eps, x % CURSOR_MODULUS, now) == Pick(None, eps, (x + k) % CURSOR_MODULUS)
              && (true in serving ==> Wraps(x, |eps|) < Wraps(x + |eps|, |eps|))
  {
    FrozenAnswers(o, eps, serving, until, now);
    k := FirstServing(o, eps, serving, x, now);
    FrozenPick(o, eps, x % CURSOR_MODULUS, now);
    PointedIsCandidate(x, k, |eps|);
    if k < |eps| {
      PointedIsCandidate(x, k + 1, |eps|);
    } else if true in serving {
      NobodyOnLap(serving, x);
    }
  }

  lemma FrozenAnswers(o: Options, eps: seq<Endpoint>, serving: seq<bool>, until: int, now: int)
    requires Frozen(o, eps, serving, until) && now <= until
    ensures forall i :: 0 <= i < |eps| ==> Available(o, eps[i], now) == serving[i]
    ensures forall i :: 0 <= i < |eps| ==> AfterAsking(o, eps[i], now) == eps[i]
  {
  }

  // ----- How often the cursor points at an index -----

  /** How many y < x are congruent to i. */
  function Upto(x: nat, n: nat, i: nat): nat
    requires n > 0
  {
    if x == 0 then 0 else Upto(x - 1, n, i) + if (x - 1) % n == i then 1 else 0
  }

  lemma {:induction false} UptoInClosedForm(x: nat, n: nat, i: nat)
    requires i < n
    ensures Upto(x, n, i) == x / n + if i < x % n then 1 else 0
  {
    if x == 0 {
      Residue(0, n, 0);
    } else {
      UptoInClosedForm(x - 1, n, i);
      OneUp(x - 1, n);
    }
  }

  /** How many positions below x point at index i. */
  function Passes(x: nat, n: nat, i: nat): nat
    requires n > 0
  {
    if x == 0 then 0 else Passes(x - 1, n, i) + if Pointed(x - 1, n) == i then 1 else 0
  }

  lemma {:induction false} PassesByLap(w: nat, r: nat, n: nat, i: nat)
    requires i < n && r <= CURSOR_MODULUS
    ensures Passes(w * CURSOR_MODULUS + r, n, i) == w * Upto(CURSOR_MODULUS, n, i) + Upto(r, n, i)
    decreases w, r
  {
    if r > 0 {
      Residue(w, CURSOR_MODULUS, r - 1);
      PassesByLap(w, r - 1, n, i);
    } else if w > 0 {
      PassesByLap(w - 1, CURSOR_MODULUS, n, i);
      OneMoreTime(w - 1, Upto(CURSOR_MODULUS, n, i));
    }
  }

  lemma SpreadByLap(lo: nat, w: nat, r: nat, n: nat, i: nat, j: nat)
    requires lo <= CURSOR_MODULUS && r <= CURSOR_MODULUS && i < n && j < n
    ensures var hi := w * CURSOR_MODULUS + r;
            (Passes(hi, n, i) - Passes(lo, n, i)) - (Passes(hi, n, j) - Passes(lo, n, j))
            <= 1 + if CURSOR_MODULUS % n == 0 then 0 else w
  {
    PassesByLap(w, r, n, i);
    PassesByLap(w, r, n, j);
    PassesByLap(0, lo, n, i);
    PassesByLap(0, lo, n, j);
    WithinLap(lo, r, n, i, j);
    ManyLaps(w, n, i, j);
  }

  /** From a cursor position on, no index is pointed at more often than another by more than one,
      and one more for each wrap. */
  lemma PassesSpread(lo: nat, hi: nat, n: nat, i: nat, j: nat)
    requires lo < CURSOR_MODULUS && lo <= hi && i < n && j < n
    ensures (Passes(hi, n, i) - Passes(lo, n, i)) - (Passes(hi, n, j) - Passes(lo, n, j)) <= 1 + Wraps(hi, n)
  {
    if hi > 0 {
      var w, r := (hi - 1) / CURSOR_MODULUS, (hi - 1) % CURSOR_MODULUS + 1;
      assert hi == w * CURSOR_MODULUS + r;
      SpreadByLap(lo, w, r, n, i, j);
    }
  }

  lemma ManyLaps(w: nat, n: nat, i: nat, j: nat)
    requires i < n && j < n
    ensures var a, b := Upto(CURSOR_MODULUS, n, i), Upto(CURSOR_MODULUS, n, j);
            w * a - w * b <= if CURSOR_MODULUS % n == 0 then 0 else w
  {
    var a, b := Upto(CURSOR_MODULUS, n, i), Upto(CURSOR_MODULUS, n, j);
    UptoInClosedForm(CURSOR_MODULUS, n, i);
    UptoInClosedForm(CURSOR_MODULUS, n, j);
    if CURSOR_MODULUS % n != 0 {
      assert w * (b + 1) == w * b + w;
      if a == b + 1 {
        assert w * a == w * (b + 1);
      } else {
        MoreTimes(a, b, w);
      }
    }
  }

  lemma WithinLap(x: nat, y: nat, n: nat, i: nat, j: nat)
    requires i < n && j < n
    ensures (Upto(y, n, i) - Upto(x, n, i)) - (Upto(y, n, j) - Upto(x, n, j)) <= 1
  {
    UptoInClosedForm(y, n, i);
    UptoInClosedForm(y, n, j);
    UptoInClosedForm(x, n, i);
    UptoInClosedForm(x, n, j);
  }

  // ----- Cyclic order -----

  /** The serving indices that the positions from lo to hi point at, in order. */
  function Rota(serving: seq<bool>, lo: nat, hi: nat): seq<nat>
    requires serving != []
  {
    if hi <= lo then []
    else Rota(serving, lo, hi - 1) + if ServingAt(serving, hi - 1) then [Pointed(hi - 1, |serving|)] else []
  }

  function Count(picks: seq<nat>, i: nat): nat {
    if picks == [] then 0 else Count(Front(picks), i) + if Last(picks) == i then 1 else 0
  }

  lemma CountOneMore(picks: seq<nat>, p: nat, i: nat)
    ensures Count(picks + [p], i) == Count(picks, i) + if p == i then 1 else 0
    ensures picks + [] == picks
  {
    assert Front(picks + [p]) == picks;
  }

  lemma {:induction false} RotaIsServing(serving: seq<bool>, lo: nat, hi: nat)
    requires serving != []
    ensures forall j :: 0 <= j < |Rota(serving, lo, hi)| ==>
              Rota(serving, lo, hi)[j] < |serving| && serving[Rota(serving, lo, hi)[j]]
  {
    if hi > lo {
      RotaIsServing(serving, lo, hi - 1);
    }
  }

  /** Two successive entries: whoever is served, next comes the first serving index after it that
      the cursor points at. */
  lemma {:induction false} NextOnRota(serving: seq<bool>, lo: nat, hi: nat, j: nat) returns (p: nat, d: nat)
    requires serving != [] && j + 1 < |Rota(serving, lo, hi)|
    ensures lo <= p && 1 <= d && p + d < hi
    ensures Rota(serving, lo, hi)[j] == Pointed(p, |serving|)
    ensures Rota(serving, lo, hi)[j + 1] == Pointed(p + d, |serving|)
    ensures ServingAt(serving, p) && ServingAt(serving, p + d)
    ensures forall y :: p < y < p + d ==> !ServingAt(serving, y)
  {
    if j + 1 < |Rota(serving, lo, hi - 1)| {
      p, d := NextOnRota(serving, lo, hi - 1, j);
    } else {
      p := LastOnRota(serving, lo, hi - 1);
      d := hi - 1 - p;
    }
  }

  lemma {:induction false} LastOnRota(serving: seq<bool>, lo: nat, hi: nat) returns (p: nat)
    requires serving != [] && Rota(serving, lo, hi) != []
    ensures lo <= p < hi && ServingAt(serving, p)
    ensures Last(Rota(serving, lo, hi)) == Pointed(p, |serving|)
    ensures forall y :: p < y < hi ==> !ServingAt(serving, y)
  {
    if ServingAt(serving, hi - 1) {
      p := hi - 1;
    } else {
      p := LastOnRota(serving, lo, hi - 1);
    }
  }

  // ----- Whole rounds -----

  function Members(serving: seq<bool>): nat {
    if serving == [] then 0 else Members(Front(serving)) + if Last(serving) then 1 else 0
  }

  /** Picks that went to the first m indices. */
  function Total(picks: seq<nat>, m: nat): nat {
    if m == 0 then 0 else Total(picks, m - 1) + Count(picks, m - 1)
  }

  lemma {:induction false} EveryPickCounts(picks: seq<nat>, n: nat)
    requires forall j :: 0 <= j < |picks| ==> picks[j] < n
    ensures Total(picks, n) == |picks|
  {
    if picks == [] {
      NoPicks(n);
    } else {
      EveryPickCounts(Front(picks), n);
      OneMorePick(picks, n);
    }
  }

  lemma NoPicks(m: nat)
    ensures Total([], m) == 0
  {
  }

  lemma {:induction false} OneMorePick(picks: seq<nat>, m: nat)
    requires picks != []
    ensures Total(picks, m)
            == Total(Front(picks), m)
               + if Last(picks) < m then 1 else 0
  {
    if m > 0 {
      OneMorePick(picks, m - 1);
    }
  }

  lemma {:induction false} NotServedNotPicked(picks: seq<nat>, i: nat)
    requires forall j :: 0 <= j < |picks| ==> picks[j] != i
    ensures Count(picks, i) == 0
  {
    if picks != [] {
      NotServedNotPicked(Front(picks), i);
    }
  }

  /** If every serving index in the first m has at least k picks, so has their total, strictly so
      once one of them has more. */
  lemma {:induction false} TotalAtLeast(picks: seq<nat>, serving: seq<bool>, m: nat, k: nat)
    requires m <= |serving|
    requires forall i :: 0 <= i < m && serving[i] ==> Count(picks, i) >= k
    ensures Total(picks, m) >= k * Members(serving[..m])
    ensures (exists i :: 0 <= i < m && serving[i] && Count(picks, i) > k)
            ==> Total(picks, m) > k * Members(serving[..m])
  {
    if m > 0 {
      TotalAtLeast(picks, serving, m - 1, k);
      OneMoreMember(serving, m, k);
    }
  }

  lemma {:induction false} TotalAtMost(picks: seq<nat>, serving: seq<bool>, m: nat, k: nat)
    requires m <= |serving|
    requires forall i :: 0 <= i < m ==> Count(picks, i) <= if serving[i] then k else 0
    ensures Total(picks, m) <= k * Members(serving[..m])
    ensures (exists i :: 0 <= i < m && serving[i] && Count(picks, i) < k)
            ==> Total(picks, m) < k * Members(serving[..m])
  {
    if m > 0 {
      TotalAtMost(picks, serving, m - 1, k);
      OneMoreMember(serving, m, k);
    }
  }

  lemma OneMoreMember(serving: seq<bool>, m: nat, k: nat)
    requires 0 < m <= |serving|
    ensures k * Members(serving[..m]) == k * Members(serving[..m - 1]) + if serving[m - 1] then k else 0
  {
    assert Front(serving[..m]) == serving[..m - 1];
    assert k * (Members(serving[..m - 1]) + 1) == k * Members(serving[..m - 1]) + k;
  }

  /** If so many picks as k rounds have went to serving indices, evenly up to one, every one of those
      has k of them. */
  lemma RoundsAreExact(picks: seq<nat>, serving: seq<bool>, k: nat, i: nat)
    requires forall j :: 0 <= j < |picks| ==> picks[j] < |serving| && serving[picks[j]]
    requires forall j, l :: 0 <= j < |serving| && 0 <= l < |serving| && serving[j] && serving[l] ==>
               Count(picks, j) <= Count(picks, l) + 1
    requires |picks| == k * Members(serving) && i < |serving| && serving[i]
    ensures Count(picks, i) == k
  {
    var n := |serving|;
    EveryPickCounts(picks, n);
    forall j | 0 <= j < n && !serving[j] ensures Count(picks, j) == 0 {
      NotServedNotPicked(picks, j);
    }
    assert serving[..n] == serving;
    if Count(picks, i) > k {
      TotalAtLeast(picks, serving, n, k);
    } else if Count(picks, i) < k {
      TotalAtMost(picks, serving, n, k);
    }
  }
}
