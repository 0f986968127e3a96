/** Container IDs and bridge names from a counter (resource_pool/resource_pool.go,
    network/bridgemgr/bridge_name_generator.go). */
module Identifiers {
  import opened Arithmetic

  /** The counter shifted right by 55 - (i + 1) * 5 places. The count is unsigned, so from i = 11 on it wraps
      to a number beyond the word size and nothing is left. */
  function Shifted(num: nat, i: nat): (r: nat)
  {
    if i < 11 then Quotient(num, Pow2(50 - 5 * i)) else 0
  }

  function Quotient(a: nat, b: nat): (q: nat)
    requires b > 0
  {
    QuotientNonNegative(a, b);
    a / b
  }

  lemma QuotientNonNegative(a: nat, b: nat)
    requires b > 0
    ensures a / b >= 0
  {
  }

  function Digit(num: nat, i: nat): (d: nat)
    ensures d < 32
  {
    Shifted(num, i) % 32
  }

  /** strconv's digits in base 32. */
  function DigitChar(d: nat): (c: char)
    requires d < 32
  {
    if d < 10 then '0' + d as char else 'a' + (d - 10) as char
  }

  function Digits(num: nat, n: nat): (s: string)
    ensures |s| == n
  {
    seq(n, i requires 0 <= i < n => DigitChar(Digit(num, i)))
  }

  method ContainerID(num: nat) returns (id: string)
    ensures id == Digits(num, 11)
    ensures |id| == 11 && Denotes(id, num % Pow2(55))
  {
    id := AppendDigits(num, 11);
    ShowsAll(num);
    DigitsDenote(num, 11);
  }

  method BridgeName(prefix: string, num: nat) returns (name: string)
    requires |prefix| <= 15
    ensures name == prefix + Digits(num, 15 - |prefix|)
  {
    var digits := AppendDigits(num, 15 - |prefix|);
    name := prefix + digits;
  }

  method AppendDigits(num: nat, n: nat) returns (s: string)
    ensures s == Digits(num, n)
  {
    s := "";
    for i := 0 to n
      invariant s == Digits(num, n)[..i]
    {
      s := s + [DigitChar(Digit(num, i))];
    }
  }

  lemma DigitCharInjective(a: nat, b: nat)
    requires a < 32 && b < 32 && DigitChar(a) == DigitChar(b)
    ensures a == b
  {
  }

  // ----- the digits as a number

  /** The digits are 0 to 9 and a to v. */
  predicate HasValue(c: char, d: int)
  {
    ('0' <= c <= '9' && d == c as int - '0' as int) || ('a' <= c <= 'v' && d == 10 + c as int - 'a' as int)
  }

  /** The string is the number written in base 32, with leading zeros. */
  predicate Denotes(s: string, n: nat)
  {
    if s == "" then n == 0 else HasValue(s[|s| - 1], n % 32) && Denotes(s[..|s| - 1], n / 32)
  }

  /** n digits write the upper n * 5 of the counter's 55 bits. */
  lemma {:induction false} DigitsDenote(num: nat, n: nat)
    requires n <= 11
    ensures Denotes(Digits(num, n), Shown(num, n))
  {
    if n == 0 {
      assert Pow2(0) == 1;
    } else {
      DigitsDenote(num, n - 1);
      ShownNext(num, n - 1);
      LastDigit(num, n - 1);
      hide Shown, Digits, Digit;
      DivModUnique(Shown(num, n), Shown(num, n - 1), 32, Digit(num, n - 1));
      DigitHasValue(Digit(num, n - 1));
    }
  }

  lemma DigitHasValue(d: nat)
    requires d < 32
    ensures HasValue(DigitChar(d), d)
  {
  }

  /** From the twelfth digit on there are only zeros. */
  lemma MoreDigits(num: nat, n: nat)
    requires n >= 11
    ensures Digits(num, n)[..11] == Digits(num, 11) && forall i | 11 <= i < n :: Digits(num, n)[i] == '0'
  {
    FirstDigits(num, n, 11);
  }

  /** A bridge name is the prefix and the digits that its fifteen characters leave room for. */
  lemma BridgeNameDenotes(prefix: string, num: nat)
    requires |prefix| <= 15
    ensures var name := prefix + Digits(num, 15 - |prefix|);
      && |name| == 15 && prefix <= name
      && (|prefix| > 4 ==> Denotes(name[|prefix|..], Shown(num, 15 - |prefix|)))
      && (|prefix| <= 4 ==>
            && Denotes(name[|prefix|..|prefix| + 11], num % Pow2(55))
            && forall i | |prefix| + 11 <= i < 15 :: name[i] == '0')
  {
    hide Denotes, Shown, Pow2, Digits;
    var n := 15 - |prefix|;
    var name := prefix + Digits(num, n);
    assert name[|prefix|..] == Digits(num, n);
    if |prefix| > 4 {
      DigitsDenote(num, n);
    } else {
      ShowsAll(num);
      DigitsDenote(num, 11);
      MoreDigits(num, n);
      assert name[|prefix|..|prefix| + 11] == Digits(num, n)[..11];
    }
  }

  /** The part of the counter that n digits show. */
  function Shown(num: nat, n: nat): (r: nat)
    requires n <= 11
  {
    num / Pow2(55 - 5 * n) % Pow2(5 * n)
  }

  lemma ShownNext(num: nat, n: nat)
    requires n < 11
    ensures Shown(num, n + 1) == Shown(num, n) * 32 + Digit(num, n)
  {
    var h, m := Pow2(50 - 5 * n), Pow2(5 * n);
    var y := num / h;
    Pow2Add(5, 50 - 5 * n);
    Pow2Add(5 * n, 5);
    assert Pow2(5) == 32;
    DivTwice(num, h, 32);
    ModTimes(y, m, 32);
  }

  lemma DivTwice(x: nat, h: nat, k: nat)
    requires h > 0 && k > 0
    ensures k * h > 0 && x / (k * h) == x / h / k
  {
    var y := x / h;
    var q, r := y / k, y % k;
    assert x == (q * k + r) * h + x % h;
    assert (q * k + r) * h == q * (k * h) + r * h by { MulSpread(q, k, r, h); }
    assert r * h + x % h < k * h by { MulMonotone(r, k - 1, h); assert (k - 1) * h == k * h - h; }
    DivModUnique(x, q, k * h, r * h + x % h);
  }

  lemma MulSpread(q: nat, k: nat, r: nat, h: nat)
    ensures (q * k + r) * h == q * (k * h) + r * h
  {
  }

  lemma ModTimes(y: nat, m: nat, k: nat)
    requires m > 0 && k > 0
    ensures m * k > 0 && y % (m * k) == (y / k % m) * k + y % k
  {
    var a := y / k;
    var q, r := a / m, a % m;
    assert y == (q * m + r) * k + y % k;
    assert (q * m + r) * k == q * (m * k) + r * k by { MulSpread(q, m, r, k); }
    assert r * k + y % k < m * k by { MulMonotone(r, m - 1, k); assert (m - 1) * k == m * k - k; }
    DivModUnique(y, q, m * k, r * k + y % k);
  }

  /** n digits agree exactly when the n * 5 bits of the counter they show agree. */
  lemma {:induction false} SameDigits(a: nat, b: nat, n: nat)
    requires n <= 11
    ensures Digits(a, n) == Digits(b, n) <==> Shown(a, n) == Shown(b, n)
  {
    if n > 0 {
      SameDigits(a, b, n - 1);
      ShownNext(a, n - 1);
      ShownNext(b, n - 1);
      LastDigit(a, n - 1);
      LastDigit(b, n - 1);
      var da, db := Digit(a, n - 1), Digit(b, n - 1);
      if Digits(a, n) == Digits(b, n) {
        assert Digits(a, n)[n - 1] == Digits(b, n)[n - 1];
        DigitCharInjective(da, db);
        assert Digits(a, n)[..n - 1] == Digits(b, n)[..n - 1];
      }
    }
  }

  lemma LastDigit(num: nat, n: nat)
    ensures Digits(num, n + 1) == Digits(num, n) + [DigitChar(Digit(num, n))]
    ensures Digits(num, n + 1)[..n] == Digits(num, n)
  {
  }

  lemma ShowsAll(num: nat)
    ensures Shown(num, 11) == num % Pow2(55)
  {
    var m := Pow2(55);
    assert Pow2(0) == 1 && num / 1 == num;
  }

  /** Two container IDs are equal exactly when their counters are congruent modulo 2^55. */
  lemma SameContainerID(a: nat, b: nat)
    ensures Digits(a, 11) == Digits(b, 11) <==> a % Pow2(55) == b % Pow2(55)
  {
    hide Pow2, Shown, Digits;
    ShowsAll(a);
    ShowsAll(b);
    SameDigits(a, b, 11);
  }

  /** No two of up to 2^55 consecutive container IDs are equal. */
  lemma ContainerIDsDistinct(first: nat, i: nat, j: nat)
    requires i < j < Pow2(55)
    ensures Digits(first + i, 11) != Digits(first + j, 11)
  {
    hide Pow2, Digits;
    SameContainerID(first + i, first + j);
    CongruentApart(first + i, first + j, Pow2(55));
  }

  lemma CongruentApart(a: nat, b: nat, m: nat)
    requires m > 0 && a < b && b - a < m
    ensures a % m != b % m
  {
    if a % m == b % m {
      var q := b / m - a / m;
      assert b - a == (b / m) * m - (a / m) * m == q * m;
      if q >= 1 {
        MulAtLeast(q, m);
      } else {
        MulMonotone(q, 0, m);
      }
    }
  }

  /** Bridge names with the same prefix are equal exactly when the bits they show agree: 55 bits for a prefix
      of at most four characters, the upper bits only for a longer one. */
  lemma SameBridgeName(prefix: string, a: nat, b: nat)
    requires |prefix| <= 15
    ensures var n := if |prefix| <= 4 then 11 else 15 - |prefix|;
            prefix + Digits(a, 15 - |prefix|) == prefix + Digits(b, 15 - |prefix|) <==> Shown(a, n) == Shown(b, n)
  {
    var l := 15 - |prefix|;
    var n := if |prefix| <= 4 then 11 else l;
    SameDigits(a, b, n);
    FirstDigits(a, l, n);
    FirstDigits(b, l, n);
    assert (prefix + Digits(a, l))[|prefix|..] == Digits(a, l) && (prefix + Digits(b, l))[|prefix|..] == Digits(b, l);
    if Digits(a, n) == Digits(b, n) {
      forall i | 0 <= i < l
        ensures Digits(a, l)[i] == Digits(b, l)[i]
      {
        if i < n {
          assert Digits(a, l)[i] == Digits(a, n)[i] && Digits(b, l)[i] == Digits(b, n)[i];
        }
      }
      assert Digits(a, l) == Digits(b, l);
    }
  }

  /** No two of up to 2^55 consecutive bridge names with a prefix of at most four characters are equal. */
  lemma BridgeNamesDistinct(prefix: string, first: nat, i: nat, j: nat)
    requires |prefix| <= 4 && i < j < Pow2(55)
    ensures prefix + Digits(first + i, 15 - |prefix|) != prefix + Digits(first + j, 15 - |prefix|)
  {
    hide Pow2, Shown, Digits;
    SameBridgeName(prefix, first + i, first + j);
    ShowsAll(first + i);
    ShowsAll(first + j);
    CongruentApart(first + i, first + j, Pow2(55));
  }

  lemma FirstDigits(num: nat, l: nat, n: nat)
    requires n <= l
    ensures Digits(num, l)[..n] == Digits(num, n)
  {
  }

  /** With a prefix of five characters 32 consecutive counters give one name, so names repeat. */
  lemma LongPrefixRepeats(prefix: string, a: nat, i: nat)
    requires |prefix| == 5 && i < 32
    ensures prefix + Digits(32 * a, 10) == prefix + Digits(32 * a + i, 10)
  {
    SameBridgeName(prefix, 32 * a, 32 * a + i);
    assert Pow2(5) == 32;
    DivModUnique(32 * a + i, a, 32, i);
    DivModUnique(32 * a, a, 32, 0);
  }
}
