/** The bounded record of recent requests: a ring buffer over a fixed array. */
module Telemetry {
  import opened Arithmetic

  datatype Request = Request(
    time: int,
    verb: string,
    route: string,
    status: int,
    latencyMs: int,
    upstream: string,
    responseSize: int)

  /** The last m elements, newest first. */
  function Newest<T>(all: seq<T>, m: nat): (out: seq<T>)
    requires m <= |all|
    ensures |out| == m
  {
    seq(m, k requires 0 <= k < m => all[|all| - 1 - k])
  }

  function Reversed<T>(xs: seq<T>): (r: seq<T>) {
    if xs == [] then [] else Reversed(xs[1..]) + [xs[0]]
  }

  lemma {:induction false} NewestIsReversedSuffix<T>(all: seq<T>, m: nat)
    requires m <= |all|
    ensures Newest(all, m) == Reversed(all[|all| - m..])
  {
    if m > 0 {
      var suffix := all[|all| - m..];
      NewestIsReversedSuffix(all, m - 1);
      assert suffix[1..] == all[|all| - (m - 1)..] && suffix[0] == all[|all| - m];
      assert Newest(all, m) == Newest(all, m - 1) + [all[|all| - m]];
    }
  }

  /** How many entries a snapshot shows, of `held` in the buffer. */
  function Shown(limit: int, held: nat): nat {
    if limit <= 0 || limit > held then held else limit
  }

  /** A limit cuts off old entries and nothing else: a larger one only shows more of them. */
  lemma LargerLimitShowsMore<T>(all: seq<T>, held: nat, k: int, m: int)
    requires held <= |all| && 0 < k <= m
    ensures Newest(all, Shown(k, held)) <= Newest(all, Shown(m, held)) <= Newest(all, Shown(0, held))
    ensures |Newest(all, Shown(k, held))| == if k < held then k else held
    ensures |Newest(all, Shown(0, held))| == held
  {
    NewestExtends(all, Shown(k, held), Shown(m, held));
    NewestExtends(all, Shown(m, held), held);
  }

  lemma NewestExtends<T>(all: seq<T>, k: nat, m: nat)
    requires k <= m <= |all|
    ensures Newest(all, k) == Newest(all, m)[..k]
  {
  }

  lemma {:induction false} ReversedAt<T>(xs: seq<T>, k: nat)
    requires k < |xs|
    ensures |Reversed(xs)| == |xs| && Reversed(xs)[k] == xs[|xs| - 1 - k]
  {
    NewestIsReversedSuffix(xs, |xs|);
    assert xs[|xs| - |xs|..] == xs;
  }

  class RecentRequests {
    const buf: array<Request>
    var next: nat
    var count: nat
    ghost var history: seq<Request>  // everything ever added, oldest first

    ghost predicate Valid()
      reads this, buf
    {
      && buf.Length >= 1
      && next == |history| % buf.Length
      && count == Min(|history|, buf.Length)
      && forall j :: |history| - count <= j < |history| ==> Holds(j)
    }

    /** Entry j of the history still sits in its slot. */
    ghost predicate Holds(j: int)
      requires buf.Length >= 1 && 0 <= j < |history|
      reads this, buf
    {
      buf[j % buf.Length] == history[j]
    }

    constructor (capacity: int)
      ensures Valid() && fresh(buf) && history == []
      ensures buf.Length == if capacity < 1 then 1 else capacity
    {
      buf := new Request[if capacity < 1 then 1 else capacity];
      next, count, history := 0, 0, [];
    }

    method Add(req: Request)
      requires Valid()
      modifies `next, `count, `history, buf
      ensures Valid()
      ensures history == old(history) + [req]
    {
      buf[next] := req;
      OneUp(|history|, buf.Length);
      if next + 1 < buf.Length {
        Residue(0, buf.Length, next + 1);
      } else {
        Residue(1, buf.Length, 0);
      }
      next := (next + 1) % buf.Length;
      if count < buf.Length {
        count := count + 1;
      }
      history := history + [req];
      forall j | |history| - count <= j < |history| - 1 ensures Holds(j) {
        assert old(Holds(j));
        Shifted(j, |history| - 1 - j, buf.Length);
      }
    }

    /** The last additions, newest first: all that the buffer holds, or `limit` of them. */
    method Snapshot(limit: int) returns (out: seq<Request>)
      requires Valid()
      ensures out == Newest(history, Shown(limit, Min(|history|, buf.Length)))
      ensures limit <= 0 || limit > |history| || limit > buf.Length ==>
                |out| == if |history| < buf.Length then |history| else buf.Length
      ensures 0 < limit <= |history| && limit <= buf.Length ==> |out| == limit
      ensures out == Reversed(history[|history| - |out|..])
    {
      var n := if limit <= 0 || limit > count then count else limit;
      out := [];
      var idx := next - 1;
      for i := 0 to n
        invariant out == Newest(history, i)
        invariant idx + 1 == (|history| - i) % buf.Length
      {
        OneUp(|history| - i - 1, buf.Length);
        if idx < 0 {
          idx := buf.Length - 1;
        }
        assert Holds(|history| - 1 - i);
        out := out + [buf[idx]];
        idx := idx - 1;
      }
      NewestIsReversedSuffix(history, n);
    }
  }
}
