/** Multiplication and division facts used by several components. */
module Arith {
  const WORD: nat := 0x1_0000_0000
  const QWORD: nat := 0x1_0000_0000_0000_0000

  lemma {:induction false} MulMonotone(m: nat, a: nat, b: nat)
    requires a <= b
    ensures m * a <= m * b
  {
    if a < b {
      MulMonotone(m, a, b - 1);
      assert m * b == m * (b - 1) + m;
    }
  }

  lemma QuotientUnique(m: nat, k: nat, r: nat, k': nat, r': nat)
    requires r < m && r' < m && m * k + r == m * k' + r'
    ensures k == k' && r == r'
  {
    assert m * (k + 1) == m * k + m && m * (k' + 1) == m * k' + m;
    if k < k' { MulMonotone(m, k + 1, k'); }
    if k' < k { MulMonotone(m, k' + 1, k); }
  }

  lemma DivModUnique(x: nat, m: nat, k: nat, r: nat)
    requires m > 0 && x == m * k + r && r < m
    ensures x / m == k && x % m == r
  {
    QuotientUnique(m, k, r, x / m, x % m);
  }

  lemma ModPlus(a: nat, m: nat)
    requires m > 0
    ensures (a + m) % m == a % m
  {
    assert a == m * (a / m) + a % m;
    assert a + m == m * (a / m + 1) + a % m;
    DivModUnique(a + m, m, a / m + 1, a % m);
  }

  /** Sum and difference of 64-bit numbers. */
  function Add64(a: nat, b: nat): nat { if a + b < QWORD then a + b else a + b - QWORD }

  function Sub64(a: nat, b: nat): nat
    requires b <= QWORD
  {
    if b <= a then a - b else a + QWORD - b
  }

  lemma Sums64(a: nat, b: nat)
    requires a < QWORD && b < QWORD
    ensures Add64(a, b) == (a + b) % QWORD && Sub64(a, b) == (a - b) % QWORD
  {
    if a + b >= QWORD { DivModUnique(a + b, QWORD, 1, a + b - QWORD); }
    if b > a { IntModUnique(a - b, QWORD, -1, a + QWORD - b); }
  }

  lemma IntModUnique(x: int, m: nat, k: int, r: nat)
    requires m > 0 && x == m * k + r && r < m
    ensures x % m == r
  {
    var d := x / m - k;
    assert m * d == m * (x / m) - m * k == r - x % m;
    assert m * -d == -(m * d);
    if d >= 1 {
      MulMonotone(m, 1, d);
      assert false;
    }
    if d <= -1 {
      MulMonotone(m, 1, -d);
      assert false;
    }
  }

  function CeilDiv(x: nat, d: nat): nat
    requires d > 0
  {
    (x + d - 1) / d
  }

  /** Rounding up counts exactly the multiples below `x`. */
  lemma CeilDivMeaning(x: nat, d: nat, k: nat)
    requires d > 0
    ensures k < CeilDiv(x, d) <==> k * d < x
  {
    var n := CeilDiv(x, d);
    var y := x + d - 1;
    assert y == d * n + y % d;
    if k < n {
      assert d * k <= d * (n - 1) by { MulMonotone(d, k, n - 1); }
      assert d * (n - 1) == d * n - d;
    } else {
      assert d * k >= d * n by { MulMonotone(d, n, k); }
    }
  }
}
