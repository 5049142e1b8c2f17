/** Division and remainder facts that the solver does not find by itself. */
module Arithmetic {

  function Max(a: int, b: int): int {
    if a >= b then a else b
  }

  function Min(a: int, b: int): int {
    if a <= b then a else b
  }

  lemma Cancel(a: int, b: int, r: int)
    requires r > 0 && a * r < b * r
    ensures a < b
  {
  }

  lemma OneMoreTime(m: nat, n: nat)
    ensures (m + 1) * n == m * n + n
  {
  }

  lemma MoreTimes(p: nat, q: nat, n: nat)
    requires p <= q
    ensures p * n <= q * n
  {
  }

  lemma DivGrows(x: nat, y: nat, n: nat)
    requires 0 < n && x <= y
    ensures x / n <= y / n
  {
    assert x / n * n <= x && y < (y / n + 1) * n;
    Cancel(x / n, y / n + 1, n);
  }

  lemma Residue(q: int, n: nat, i: nat)
    requires i < n
    ensures (q * n + i) % n == i && (q * n + i) / n == q
  {
    var x := q * n + i;
    assert x / n * n <= x < (x / n + 1) * n && q * n <= x < (q + 1) * n;
    Cancel(x / n, q + 1, n);
    Cancel(q, x / n + 1, n);
  }

  lemma Shifted(x: nat, d: nat, n: nat)
    requires 0 < n
    ensures (x % n + d) % n == (x + d) % n
    ensures 0 < d < n ==> (x + d) % n != x % n
  {
    var y := x % n + d;
    assert x + d == (x / n + y / n) * n + y % n;
    Residue(x / n + y / n, n, y % n);
    if 0 < d < n {
      if y < n {
        Residue(0, n, y);
      } else {
        Residue(1, n, y - n);
      }
    }
  }

  lemma ResidueOfResidue(x: nat, m: nat, n: nat)
    requires 0 < m && 0 < n && m % n == 0
    ensures (x % m) % n == x % n
  {
    var a, p, b, c := x / m, m / n, x % m / n, x % m % n;
    assert m == p * n;
    assert a * (p * n) == (a * p) * n;
    assert x == (a * p + b) * n + c;
    Residue(a * p + b, n, c);
  }

  /** The residue of a number d places below m. */
  lemma ResidueNearTop(m: nat, n: nat, d: nat)
    requires 0 < d < n < m
    ensures (m - d) % n == if d <= m % n then m % n - d else m % n - d + n
  {
    var q, r := m / n, m % n;
    if d <= r {
      assert m - d == q * n + (r - d);
      Residue(q, n, r - d);
    } else {
      assert m - d == (q - 1) * n + (r - d + n);
      Residue(q - 1, n, r - d + n);
    }
  }

  lemma OneUp(x: nat, n: nat)
    requires n > 0
    ensures (x + 1) / n == x / n + if x % n == n - 1 then 1 else 0
    ensures (x + 1) % n == if x % n == n - 1 then 0 else x % n + 1
  {
    var q, r := x / n, x % n;
    if r + 1 < n {
      assert x + 1 == q * n + (r + 1);
      Residue(q, n, r + 1);
    } else {
      assert x + 1 == (q + 1) * n + 0;
      Residue(q + 1, n, 0);
    }
  }

  /** m for every full w in x: what x / w * m is, without the division. */
  function Budget(x: int, w: nat, m: nat): nat
    requires w > 0
  {
    if x < w then 0 else Budget(x - w, w, m) + m
  }

  lemma {:induction false} BudgetGrows(x: int, y: int, w: nat, m: nat)
    requires w > 0 && 0 <= x <= y
    ensures Budget(x, w, m) <= Budget(y, w, m)
    ensures x + w <= y ==> Budget(x, w, m) + m <= Budget(y, w, m)
    decreases y
  {
    if x + w <= y {
      BudgetGrows(x, y - w, w, m);
    } else if x >= w {
      BudgetGrows(x - w, y - w, w, m);
    }
  }

  lemma {:induction false} BudgetIsProduct(x: int, w: nat, m: nat)
    requires w > 0 && 0 <= x
    ensures Budget(x, w, m) == x / w * m
  {
    if x < w {
      Residue(0, w, x);
    } else {
      BudgetIsProduct(x - w, w, m);
      assert x == (x - w) / w * w + (x - w) % w + w == ((x - w) / w + 1) * w + (x - w) % w;
      Residue((x - w) / w + 1, w, (x - w) % w);
      assert ((x - w) / w + 1) * m == (x - w) / w * m + m;
    }
  }
}
