/** Powers of two, bitwise operations on bytes given by their bits, and the few division facts
    that the address arithmetic rests on. */
module Arithmetic {

  function Pow2(n: nat): (p: nat)
    ensures p > 0
  {
    if n == 0 then 1 else 2 * Pow2(n - 1)
  }

  lemma {:induction false} Pow2Add(a: nat, b: nat)
    ensures Pow2(a + b) == Pow2(a) * Pow2(b)
  {
    if a > 0 {
      Pow2Add(a - 1, b);
      assert Pow2(a + b) == 2 * Pow2(a - 1 + b);
      assert 2 * (Pow2(a - 1) * Pow2(b)) == Pow2(a) * Pow2(b);
    }
  }

  lemma {:induction false} Pow2Monotone(a: nat, b: nat)
    requires a <= b
    ensures Pow2(a) <= Pow2(b)
  {
    if a < b {
      Pow2Monotone(a, b - 1);
    }
  }

  lemma Pow2Of8()
    ensures Pow2(8) == 256
  {
  }

  lemma Pow2OfBytes(n: nat)
    ensures n == 8 ==> Pow2(n) == 256
    ensures n == 16 ==> Pow2(n) == 0x1_0000
    ensures n == 24 ==> Pow2(n) == 0x100_0000
    ensures n == 32 ==> Pow2(n) == 0x1_0000_0000
  {
    if n == 8 || n == 16 || n == 24 || n == 32 {
      Pow2Of8();
      Pow2Add(8, 8);
      Pow2Add(16, 8);
      Pow2Add(24, 8);
    }
  }

  /** A quotient and a remainder in range are the quotient and the remainder. */
  lemma DivModUnique(x: int, q: int, m: int, r: int)
    requires m > 0 && 0 <= r < m && x == q * m + r
    ensures x / m == q && x % m == r
  {
    QuotientUnique(q, r, x / m, x % m, m);
  }

  lemma QuotientUnique(q: int, r: int, q': int, r': int, m: int)
    requires 0 <= r < m && 0 <= r' < m && q * m + r == q' * m + r'
    ensures q == q' && r == r'
  {
    if q < q' {
      assert (q' - q) * m == q' * m - q * m;
      MulAtLeast(q' - q, m);
    } else if q > q' {
      assert (q - q') * m == q * m - q' * m;
      MulAtLeast(q - q', m);
    }
  }

  lemma MulAtLeast(a: int, m: int)
    requires a >= 1 && m >= 0
    ensures a * m >= m
  {
    assert (a - 1) * m >= 0;
  }

  lemma MulMonotone(a: int, b: int, m: nat)
    requires a <= b
    ensures a * m <= b * m
  {
    assert (b - a) * m >= 0;
  }

  /** The low `j` bits of x. */
  function LowBits(x: nat, j: nat): (r: nat)
    ensures r <= x
  {
    if j == 0 then 0 else 2 * LowBits(x / 2, j - 1) + x % 2
  }

  lemma {:induction false} LowBitsIsMod(x: nat, j: nat)
    ensures LowBits(x, j) == x % Pow2(j)
  {
    if j > 0 {
      LowBitsIsMod(x / 2, j - 1);
      ModOfDouble(x, Pow2(j - 1));
    }
  }

  lemma ModOfDouble(x: nat, h: nat)
    requires h > 0
    ensures x % (2 * h) == 2 * (x / 2 % h) + x % 2
  {
    var q, r := x / 2 / h, x / 2 % h;
    assert x / 2 == q * h + r;
    assert x == q * (2 * h) + (2 * r + x % 2);
    DivModUnique(x, q, 2 * h, 2 * r + x % 2);
  }

  /** Bitwise AND. */
  function And(a: nat, b: nat): (r: nat)
  {
    if a == 0 then 0
    else 2 * And(a / 2, b / 2) + (if a % 2 == 1 && b % 2 == 1 then 1 else 0)
  }

  /** Bitwise OR. */
  function Or(a: nat, b: nat): (r: nat)
  {
    if a == 0 then b
    else 2 * Or(a / 2, b / 2) + (if a % 2 == 1 || b % 2 == 1 then 1 else 0)
  }

  /** Masking with a run of ones above bit `j` clears the low `j` bits. */
  lemma {:induction false} AndWithPrefixMask(x: nat, j: nat, n: nat)
    requires j <= n && x < Pow2(n)
    ensures Pow2(j) <= Pow2(n)
    ensures And(x, Pow2(n) - Pow2(j)) == x - LowBits(x, j)
  {
    Pow2Monotone(j, n);
    if x > 0 {
      var j' := if j == 0 then 0 else j - 1;
      AndWithPrefixMask(x / 2, j', n - 1);
      var m := Pow2(n) - Pow2(j);
      assert m / 2 == Pow2(n - 1) - Pow2(j');
      assert m % 2 == if j == 0 then 1 else 0;
    }
  }

  /** Setting the low `j` bits. */
  lemma {:induction false} OrWithSuffixMask(x: nat, j: nat)
    ensures Or(x, Pow2(j) - 1) == x - LowBits(x, j) + Pow2(j) - 1
  {
    if x == 0 {
      LowBitsOfZero(j);
    } else {
      OrWithSuffixMask(x / 2, if j == 0 then 0 else j - 1);
    }
  }

  lemma {:induction false} LowBitsOfZero(j: nat)
    ensures LowBits(0, j) == 0
  {
    if j > 0 {
      LowBitsOfZero(j - 1);
    }
  }

  /** Splitting a number at a digit of base 256 whose low part is cut at m. */
  lemma ModAtDigit(a: nat, b: nat, c: nat, m: nat, k: nat, d: nat)
    requires m * k == 256 && c < d && 0 < m
    ensures 0 < m * d
    ensures ((a * 256 + b) * d + c) % (m * d) == b % m * d + c
  {
    var x := (a * 256 + b) * d + c;
    var q, r := a * k + b / m, b % m * d + c;
    assert b == b / m * m + b % m;
    assert a * 256 == a * k * m;
    assert (a * 256 + b) == q * m + b % m;
    calc {
      x;
      (q * m + b % m) * d + c;
      q * m * d + b % m * d + c;
      q * (m * d) + r;
    }
    assert r < m * d by {
      assert b % m <= m - 1;
      assert b % m * d <= (m - 1) * d;
      assert (m - 1) * d == m * d - d;
    }
    DivModUnique(x, q, m * d, r);
  }
}
