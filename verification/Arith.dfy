/** Division and remainder facts for a symbolic modulus. */
module Arith {

  lemma MultipleBounds(d: int, m: nat)
    ensures d >= 1 ==> d * m >= m
    ensures d <= -1 ==> d * m <= 0 - m
  {
  }

  lemma ModUnique(x: int, m: nat, q: int, r: int)
    requires m > 0 && x == q * m + r && 0 <= r < m
    ensures x / m == q && x % m == r
  {
    var q', r' := x / m, x % m;
    assert (q - q') * m == r' - r;
    MultipleBounds(q - q', m);
  }

  /** Stepping a remainder is the remainder of the step. */
  lemma ModStep(x: nat, d: nat, m: nat)
    requires d <= m && 0 < m
    ensures (x % m + d) % m == (x + d) % m
    ensures (x + d) % m == if x % m + d < m then x % m + d else x % m + d - m
  {
    var q, r := x / m, x % m;
    if r + d < m {
      ModUnique(x + d, m, q, r + d);
      ModUnique(r + d, m, 0, r + d);
    } else {
      assert (q + 1) * m == q * m + m;
      ModUnique(x + d, m, q + 1, r + d - m);
      ModUnique(r + d, m, 1, r + d - m);
    }
  }

  lemma ModShift(x: int, y: int, m: nat, t: int)
    requires m > 0 && x - y == t * m
    ensures x % m == y % m
  {
    assert (y / m + t) * m == y / m * m + t * m;
    ModUnique(x, m, y / m + t, y % m);
  }

  lemma ModDifference(x: int, y: int, m: nat)
    requires m > 0 && x % m == y % m
    ensures x - y == (x / m - y / m) * m
  {
  }

  lemma ModScaleDown(a: nat, n: nat, m: nat, i: nat, j: nat)
    requires n > 0 && m == 4 * n
    requires (a + 4 * i) % m == (a + 4 * j) % m
    ensures i % n == j % n
  {
    var x, y := a + 4 * i, a + 4 * j;
    var t := x / m - y / m;
    ModDifference(x, y, m);
    assert 4 * (i - j) == t * m == 4 * (t * n);
    ModShift(i, j, n, t);
  }

  lemma ModScaleUp(a: nat, n: nat, m: nat, i: nat, j: nat)
    requires n > 0 && m == 4 * n
    requires i % n == j % n
    ensures (a + 4 * i) % m == (a + 4 * j) % m
  {
    var t := i / n - j / n;
    ModDifference(i, j, n);
    assert 4 * (i - j) == 4 * (t * n) == t * m;
    ModShift(a + 4 * i, a + 4 * j, m, t);
  }

  /** Points a + 4*i and a + 4*j coincide modulo 4*n iff i and j do modulo n. */
  lemma ModScale(a: nat, n: nat, m: nat, i: nat, j: nat)
    requires n > 0 && m == 4 * n
    ensures (a + 4 * i) % m == (a + 4 * j) % m <==> i % n == j % n
  {
    if (a + 4 * i) % m == (a + 4 * j) % m {
      ModScaleDown(a, n, m, i, j);
    }
    if i % n == j % n {
      ModScaleUp(a, n, m, i, j);
    }
  }

  lemma ModSum(x: int, y: int, m: nat)
    requires m > 0
    ensures (x % m + y) % m == (x + y) % m
  {
    var t := 0 - x / m;
    assert x % m + y - (x + y) == t * m;
    ModShift(x % m + y, x + y, m, t);
  }

  lemma ModEqual(x: int, y: int, m: nat)
    requires m > 0
    ensures x % m == y % m <==> (x - y) % m == 0
  {
    if x % m == y % m {
      ModDifference(x, y, m);
      ModUnique(x - y, m, x / m - y / m, 0);
    }
    if (x - y) % m == 0 {
      ModShift(x, y, m, (x - y) / m);
    }
  }
}
