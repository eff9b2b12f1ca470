/** Number formatting of `lib/stdlib/stdlib.c`: `itoa`, `xtoa` and the width of a conversion. */
module Format {
  import opened Arith

  /** `hexchars[d]`; for decimal digits the same as `d + '0'`. */
  function Digit(d: nat): char
    requires d < 16
  {
    "0123456789abcdef"[d]
  }

  function DigitValue(c: char): nat {
    if '0' <= c <= '9' then c as nat - '0' as nat
    else if 'a' <= c <= 'f' then c as nat - 'a' as nat + 10
    else 0
  }

  lemma DigitRoundTrip(d: nat)
    requires d < 16
    ensures DigitValue(Digit(d)) == d
    ensures Digit(d) == if d < 10 then ('0' as nat + d) as char else ('a' as nat + (d - 10)) as char
  {}

  /** Most significant digit first, and small letters. */
  lemma TwoNumerals()
    ensures Reverse(Stored(0xBE0, 16, 10)) == "be0" && Reverse(Stored(205, 10, 10)) == "205"
    ensures Reverse(Stored(205, 10, 2)) == "05"
  {
    assert Digits(0xB, 16) == "b" && Digits(0xBE, 16) == "eb" && Digits(0xBE0, 16) == "0eb";
    assert Digits(2, 10) == "2" && Digits(20, 10) == "02" && Digits(205, 10) == "502";
    assert Reverse("0eb") == "be0" && Reverse("502") == "205" && Reverse("50") == "05";
  }

  // ---- the two bases -----------------------------------------------------------------------------

  predicate IsBase(base: nat) { base == 10 || base == 16 }

  function Quot(n: nat, base: nat): nat { if base == 10 then n / 10 else n / 16 }
  function Rem(n: nat, base: nat): nat { if base == 10 then n % 10 else n % 16 }
  function Times(base: nat, m: nat): nat { if base == 10 then 10 * m else 16 * m }

  // ---- numerals ----------------------------------------------------------------------------------

  /** Value of a digit string, most significant digit first. */
  function Value(s: string, base: nat): nat {
    if s == "" then 0 else Times(base, Value(s[..|s| - 1], base)) + DigitValue(s[|s| - 1])
  }

  /** Value of a digit string, least significant digit first. */
  function ValueRev(s: string, base: nat): nat {
    if s == "" then 0 else Times(base, ValueRev(s[1..], base)) + DigitValue(s[0])
  }

  function Reverse(s: string): (r: string)
    ensures |r| == |s| && forall i | 0 <= i < |s| :: r[i] == s[|s| - 1 - i]
  {
    if s == "" then "" else Reverse(s[1..]) + [s[0]]
  }

  lemma ValueAppend(s: string, c: char, base: nat)
    ensures Value(s + [c], base) == Times(base, Value(s, base)) + DigitValue(c)
  {
    assert (s + [c])[..|s|] == s;
  }

  lemma {:induction false} ValueReverse(s: string, base: nat)
    ensures Value(Reverse(s), base) == ValueRev(s, base)
  {
    if s != "" {
      ValueReverse(s[1..], base);
      ValueAppend(Reverse(s[1..]), s[0], base);
      assert Reverse(s) == Reverse(s[1..]) + [s[0]];
    }
  }

  /** Digits of `n`, least significant first: what the first loop stores. */
  function Digits(n: nat, base: nat): (s: string)
    requires IsBase(base)
    ensures s != ""
  {
    [Digit(Rem(n, base))] + if Quot(n, base) > 0 then Digits(Quot(n, base), base) else ""
  }

  lemma LastDigitNonzero(n: nat, base: nat)
    requires IsBase(base) && Quot(n, base) == 0
    ensures Rem(n, base) == n && (n > 0 ==> Digit(Rem(n, base)) != '0') && (n == 0 ==> Digit(Rem(n, base)) == '0')
  {
    DigitRoundTrip(n);
    assert DigitValue('0') == 0;
  }

  /** No leading zero: the last digit stored is zero only for the number zero. */
  lemma {:induction false} DigitsShortest(n: nat, base: nat)
    requires IsBase(base)
    ensures n > 0 ==> Digits(n, base)[|Digits(n, base)| - 1] != '0'
    ensures n == 0 ==> Digits(n, base) == "0"
  {
    if Quot(n, base) > 0 {
      DigitsShortest(Quot(n, base), base);
    } else {
      LastDigitNonzero(n, base);
    }
  }

  /** No digit string of the same value is shorter. */
  lemma {:induction false} DigitsMinimal(n: nat, base: nat, t: string)
    requires IsBase(base) && t != "" && Value(t, base) == n
    requires forall i | 0 <= i < |t| :: DigitValue(t[i]) < base
    ensures |Digits(n, base)| <= |t|
  {
    ValueBound(t, base);
    DigitsFit(n, base, |t|);
  }

  lemma {:induction false} ValueBound(t: string, base: nat)
    requires IsBase(base) && forall i | 0 <= i < |t| :: DigitValue(t[i]) < base
    ensures Value(t, base) < Pow(base, |t|)
  {
    if t != "" { ValueBound(t[..|t| - 1], base); }
  }

  function Pow(base: nat, k: nat): nat { if k == 0 then 1 else Times(base, Pow(base, k - 1)) }

  /** The number of digits is the least k >= 1 with `n < base^k`. */
  lemma {:induction false} DigitsFit(n: nat, base: nat, k: nat)
    requires IsBase(base) && k > 0
    ensures |Digits(n, base)| <= k <==> n < Pow(base, k)
    decreases k
  {
    assert Pow(base, k) == Times(base, Pow(base, k - 1));
    if k == 1 {
      assert Pow(base, 0) == 1;
    } else {
      PowPositive(base, k - 1);
      if Quot(n, base) > 0 { DigitsFit(Quot(n, base), base, k - 1); }
    }
  }

  lemma {:induction false} PowPositive(base: nat, k: nat)
    ensures Pow(base, k) > 0
  {
    if k > 0 { PowPositive(base, k - 1); }
  }

  // ---- conversion into a buffer ------------------------------------------------------------------

  /** The digits that fit: the loop stores at least one and at most `size`. */
  function Stored(n: nat, base: nat, size: nat): (s: string)
    requires IsBase(base)
    ensures 1 <= |s| && |s| <= |Digits(n, base)| && (|s| <= size || |s| == 1)
  {
    var s := Digits(n, base);
    if |s| <= size then s else s[..if size == 0 then 1 else size]
  }

  lemma StoredStep(n: nat, base: nat, size: nat)
    requires IsBase(base)
    ensures Stored(n, base, size) ==
            [Digit(Rem(n, base))] + if Quot(n, base) > 0 && 1 < size then Stored(Quot(n, base), base, size - 1) else ""
  {
    var s := Digits(n, base);
    if Quot(n, base) > 0 {
      assert s[1..] == Digits(Quot(n, base), base);
      assert size > 0 && |s| > size ==> s[..size] == [s[0]] + s[1..][..size - 1];
    }
  }

  lemma TenDigits(base: nat)
    requires IsBase(base)
    ensures WORD <= Pow(base, 10)
  {
    PowAbove(base, 10);
    assert Pow(10, 5) == 100000 && Pow(10, 10) == 100000 * Pow(10, 5);
  }

  lemma {:induction false} PowAbove(base: nat, k: nat)
    requires IsBase(base)
    ensures Pow(10, k) <= Pow(base, k)
  {
    if k > 0 { PowAbove(base, k - 1); }
  }

  /** What is still to be stored after `i` digits, when `n` is left. */
  function Rest(n: nat, base: nat, size: nat, i: nat): (s: string)
    requires IsBase(base)
    ensures s != "" <==> n > 0 && i < size
  {
    if n > 0 && i < size then Stored(n, base, size - i) else ""
  }

  lemma RestStep(n: nat, base: nat, size: nat, i: nat)
    requires IsBase(base) && n > 0 && i < size
    ensures Rest(n, base, size, i) == [Digit(Rem(n, base))] + Rest(Quot(n, base), base, size, i + 1)
  {
    StoredStep(n, base, size - i);
  }

  /** The part of a number left after its lowest digit, and that digit. */
  method CutDigit(n: nat, base: nat, ghost size: nat, ghost i: nat) returns (c: char, rest: nat)
    requires IsBase(base) && n > 0 && i < size
    ensures Rest(n, base, size, i) == [c] + Rest(rest, base, size, i + 1) && rest < n
  {
    RestStep(n, base, size, i);
    c, rest := Digit(Rem(n, base)), Quot(n, base);
  }

  lemma Regroup(s: string, c: char, t: string)
    ensures s + ([c] + t) == s + [c] + t
  {}

  /** The do-while loop after its first round. */
  method StoreRest(num: nat, base: nat, buf: array<char>, size: nat, ghost all: string) returns (i: nat)
    requires IsBase(base) && buf.Length > |all| > 0 && all == [buf[0]] + Rest(num, base, size, 1)
    modifies buf
    ensures i == |all| && buf[..i] == all
    ensures forall k | i <= k < buf.Length :: buf[k] == old(buf[k])
  {
    var n := num;
    i := 1;
    while n > 0 && i < size
      invariant 1 <= i < buf.Length
      invariant all == buf[..i] + Rest(n, base, size, i)
      invariant forall k | i <= k < buf.Length :: buf[k] == old(buf[k])
      decreases n
    {
      var c, rest := CutDigit(n, base, size, i);
      ghost var before, tail := buf[..i], Rest(rest, base, size, i + 1);
      Regroup(before, c, tail);
      buf[i] := c;
      assert buf[..i + 1] == before + [c];
      n, i := rest, i + 1;
    }
  }

  /** First loop and terminator: the digits, least significant first. */
  method StoreDigits(num: nat, base: nat, buf: array<char>, size: nat) returns (i: nat)
    requires IsBase(base) && buf.Length > |Stored(num, base, size)|
    modifies buf
    ensures i == |Stored(num, base, size)| && buf[..i] == Stored(num, base, size) && buf[i] == '\0'
    ensures forall k | i < k < buf.Length :: buf[k] == old(buf[k])
  {
    ghost var all := Stored(num, base, size);
    StoredStep(num, base, size);
    buf[0] := Digit(Rem(num, base));
    assert all == [buf[0]] + Rest(Quot(num, base), base, size, 1);
    i := StoreRest(Quot(num, base), base, buf, size, all);
    buf[i] := '\0';
    assert buf[..i] == all;
  }

  /** Second loop: two pointers meet in the middle. */
  method ReversePrefix(buf: array<char>, n: nat)
    requires 1 <= n <= buf.Length
    modifies buf
    ensures buf[..n] == Reverse(old(buf[..n]))
    ensures forall k | n <= k < buf.Length :: buf[k] == old(buf[k])
  {
    var p1, p2 := n - 1, 0;
    while p1 > p2
      invariant 0 <= p2 <= n && p1 == n - 1 - p2 && p2 <= p1 + 2
      invariant forall k | 0 <= k < p2 :: buf[k] == old(buf[n - 1 - k]) && buf[n - 1 - k] == old(buf[k])
      invariant forall k | p2 <= k <= p1 :: buf[k] == old(buf[k])
      invariant forall k | n <= k < buf.Length :: buf[k] == old(buf[k])
    {
      buf[p2], buf[p1] := buf[p1], buf[p2];
      p1, p2 := p1 - 1, p2 + 1;
    }
    forall k | 0 <= k < n ensures buf[k] == old(buf[n - 1 - k]) {
      if k > p1 && k >= p2 { assert n - 1 - k < p2; }
    }
  }

  /** What the text left by a conversion is: the shortest one with the value of the number. */
  ghost predicate ShortestNumeral(text: string, n: nat, base: nat) {
    && text != "" && Value(text, base) == n
    && (forall t: string | t != "" && Value(t, base) == n
         && (forall i | 0 <= i < |t| :: DigitValue(t[i]) < base) :: |text| <= |t|)
    && (n > 0 ==> text[0] != '0')
  }

  lemma DigitsValue(n: nat, base: nat)
    requires IsBase(base)
    ensures ValueRev(Digits(n, base), base) == n
  {
    var k := |Digits(n, base)|;
    assert Digits(n, base)[..k] == Digits(n, base);
    PrefixValue(n, base, k);
    DigitsFit(n, base, k);
    DivModUnique(n, Pow(base, k), 0, n);
  }

  lemma NumeralIsShortest(n: nat, base: nat)
    requires IsBase(base)
    ensures ShortestNumeral(Reverse(Digits(n, base)), n, base)
  {
    var text := Reverse(Digits(n, base));
    ValueReverse(Digits(n, base), base);
    DigitsValue(n, base);
    DigitsShortest(n, base);
    forall t: string | t != "" && Value(t, base) == n && (forall i | 0 <= i < |t| :: DigitValue(t[i]) < base)
      ensures |text| <= |t|
    {
      DigitsMinimal(n, base, t);
    }
  }

  lemma ModTimes(n: nat, base: nat, p: nat, q: nat, d: nat)
    requires IsBase(base) && p > 0 && n == Times(base, q) + d && d < base
    ensures n % Times(base, p) == Times(base, q % p) + d
  {
    var k, r := q / p, q % p;
    assert q == p * k + r;
    ScaleProduct(base, p, k);
    DivModUnique(n, Times(base, p), k, Times(base, r) + d);
  }

  lemma ScaleProduct(base: nat, p: nat, k: nat)
    ensures Times(base, p * k) == Times(base, p) * k
  {}

  /** The first `k` digits stored have the value of the number modulo `base^k`. */
  lemma {:induction false} PrefixValue(n: nat, base: nat, k: nat)
    requires IsBase(base) && k <= |Digits(n, base)|
    ensures ValueRev(Digits(n, base)[..k], base) == Residue(n, base, k)
    decreases k
  {
    if k > 0 {
      DigitsPrefix(n, base, k);
      if Quot(n, base) > 0 { PrefixValue(Quot(n, base), base, k - 1); } else { ResidueOfZero(base, k - 1); }
      ResidueStep(n, base, k);
    }
  }

  function Residue(n: nat, base: nat, k: nat): nat {
    PowPositive(base, k);
    n % Pow(base, k)
  }

  lemma ResidueOfZero(base: nat, k: nat)
    requires IsBase(base)
    ensures Residue(0, base, k) == 0
  {
    PowPositive(base, k);
    DivModUnique(0, Pow(base, k), 0, 0);
  }

  lemma ResidueStep(n: nat, base: nat, k: nat)
    requires IsBase(base) && k > 0
    ensures Residue(n, base, k) == Times(base, Residue(Quot(n, base), base, k - 1)) + Rem(n, base)
  {
    PowPositive(base, k - 1);
    ModTimes(n, base, Pow(base, k - 1), Quot(n, base), Rem(n, base));
  }

  lemma DigitsPrefix(n: nat, base: nat, k: nat)
    requires IsBase(base) && 0 < k <= |Digits(n, base)|
    ensures Quot(n, base) == 0 ==> ValueRev(Digits(n, base)[..k], base) == Rem(n, base)
    ensures Quot(n, base) > 0 ==>
              k - 1 <= |Digits(Quot(n, base), base)|
              && ValueRev(Digits(n, base)[..k], base) ==
                 Times(base, ValueRev(Digits(Quot(n, base), base)[..k - 1], base)) + Rem(n, base)
  {
    DigitRoundTrip(Rem(n, base));
    var s := Digits(n, base)[..k];
    if Quot(n, base) > 0 {
      assert s[1..] == Digits(Quot(n, base), base)[..k - 1];
    } else {
      assert s[1..] == "";
    }
  }

  /** What a conversion leaves: the number modulo the digits that fit, and the shortest numeral of
      the number itself exactly if that many digits can hold it. */
  ghost predicate Converted(text: string, n: nat, base: nat, size: nat) {
    && text != ""
    && Value(text, base) == Residue(n, base, |text|)
    && (ShortestNumeral(text, n, base) <==> n < Pow(base, if size == 0 then 1 else size))
  }

  lemma StoredConverts(n: nat, base: nat, size: nat)
    requires IsBase(base)
    ensures Converted(Reverse(Stored(n, base, size)), n, base, size)
  {
    var s, room := Stored(n, base, size), if size == 0 then 1 else size;
    StoredValue(n, base, size);
    DigitsFit(n, base, room);
    if |Digits(n, base)| <= room { NumeralIsShortest(n, base); } else { ResidueBelow(n, base, room); }
  }

  lemma StoredValue(n: nat, base: nat, size: nat)
    requires IsBase(base)
    ensures var s := Stored(n, base, size); Value(Reverse(s), base) == Residue(n, base, |s|)
  {
    var s := Stored(n, base, size);
    assert s == Digits(n, base)[..|s|];
    PrefixValue(n, base, |s|);
    ValueReverse(s, base);
  }

  lemma ResidueBelow(n: nat, base: nat, k: nat)
    ensures Residue(n, base, k) < Pow(base, k)
  {
    PowPositive(base, k);
  }

  /** Ten decimal or hexadecimal digits hold every 32-bit number. */
  lemma WordsConvertWhole(text: string, n: nat, base: nat, size: nat)
    requires n < WORD && size >= 10 && IsBase(base) && Converted(text, n, base, size)
    ensures ShortestNumeral(text, n, base)
  {
    TenDigits(base);
    PowGrows(base, 10, size);
  }

  lemma {:induction false} PowGrows(base: nat, k: nat, m: nat)
    requires k <= m
    ensures Pow(base, k) <= Pow(base, m)
  {
    if k < m { PowGrows(base, k, m - 1); }
  }

  /** `itoa`: the text up to the terminator, for any size and a buffer that holds the digits stored. */
  method Itoa(num: nat, buf: array<char>, size: nat)
    requires num < WORD && |Stored(num, 10, size)| < buf.Length
    modifies buf
    ensures exists n :: 1 <= n < buf.Length && buf[n] == '\0' && Converted(buf[..n], num, 10, size)
  {
    var n := StoreDigits(num, 10, buf, size);
    ReversePrefix(buf, n);
    StoredConverts(num, 10, size);
    assert buf[n] == '\0' && Converted(buf[..n], num, 10, size);
  }

  /** `xtoa`, which also returns the number of digits. */
  method Xtoa(num: nat, buf: array<char>, bufsize: nat) returns (i: nat)
    requires num < WORD && |Stored(num, 16, bufsize)| < buf.Length
    modifies buf
    ensures 1 <= i < buf.Length && buf[i] == '\0' && Converted(buf[..i], num, 16, bufsize)
  {
    i := StoreDigits(num, 16, buf, bufsize);
    ReversePrefix(buf, i);
    StoredConverts(num, 16, bufsize);
  }

  // ---- width of a conversion --------------------------------------------------------------------

  predicate IsDecimal(s: string) { forall i | 0 <= i < |s| :: '0' <= s[i] <= '9' }

  lemma ShiftWeight(v: nat, d: nat, p: nat, u: nat)
    requires v == d * p + u
    ensures v * 10 == d * (10 * p) + u * 10
  {}

  /** A digit in front adds its weight. */
  lemma {:induction false} TopDigit(s: string)
    requires s != ""
    ensures Value(s, 10) == DigitValue(s[0]) * Pow(10, |s| - 1) + Value(s[1..], 10)
  {
    if |s| == 1 {
      assert s[..0] == "" && Value(s[1..], 10) == 0 && Pow(10, 0) == 1;
    } else {
      var t, u := s[..|s| - 1], s[1..];
      TopDigit(t);
      assert t[1..] == u[..|u| - 1] && t[0] == s[0] && u[|u| - 1] == s[|s| - 1];
      ShiftWeight(Value(t, 10), DigitValue(s[0]), Pow(10, |s| - 2), Value(t[1..], 10));
    }
  }

  /** Wrapping weight and sum follow the exact ones modulo the word size. */
  lemma WrapStep(count: nat, weight: nat, p: nat, v: nat, d: nat)
    requires count == v % WORD && weight == p % WORD
    ensures (count + weight * d) % WORD == (d * p + v) % WORD
    ensures weight * 10 % WORD == 10 * p % WORD
  {
    ModScale(p, d);
    ModScale(p, 10);
    assert count + weight * d == d * p + v - WORD * (v / WORD) - WORD * (d * (p / WORD));
    var k := v / WORD + d * (p / WORD);
    assert d * p + v == WORD * k + (count + weight * d);
    ModAddMultiple(count + weight * d, k);
  }

  lemma ModScale(p: nat, d: nat)
    ensures d * p == WORD * (d * (p / WORD)) + p % WORD * d
    ensures p % WORD * d % WORD == d * p % WORD
  {
    assert p == WORD * (p / WORD) + p % WORD;
    assert d * p == d * (WORD * (p / WORD)) + d * (p % WORD);
    assert d * (WORD * (p / WORD)) == WORD * (d * (p / WORD));
    ModAddMultiple(p % WORD * d, d * (p / WORD));
  }

  lemma ModAddMultiple(x: nat, k: nat)
    ensures (WORD * k + x) % WORD == x % WORD
  {
    DivModUnique(WORD * k + x, WORD, k + x / WORD, x % WORD);
  }

  /** The width after the padding character: digits are collected, then weighted from the right. */
  method ParseWidth(fmt: string, at: nat) returns (next: nat, width: nat)
    requires at <= |fmt|
    ensures at <= next <= |fmt| && IsDecimal(fmt[at..next]) && (next < |fmt| ==> !('0' <= fmt[next] <= '9'))
    ensures width == Value(fmt[at..next], 10) % WORD
  {
    next := at;
    while next < |fmt| && '0' <= fmt[next] <= '9'
      invariant at <= next <= |fmt| && IsDecimal(fmt[at..next])
    {
      assert fmt[at..next + 1] == fmt[at..next] + [fmt[next]];
      next := next + 1;
    }
    var digits := fmt[at..next];
    var tmp, i := |digits|, 1;
    width := 0;
    assert digits[tmp..] == "" && Pow(10, 0) == 1;
    while tmp > 0
      invariant tmp <= |digits|
      invariant width == Value(digits[tmp..], 10) % WORD
      invariant i == Pow(10, |digits| - tmp) % WORD
    {
      ghost var rest, p := digits[tmp..], Pow(10, |digits| - tmp);
      tmp := tmp - 1;
      TopDigit(digits[tmp..]);
      assert digits[tmp..][1..] == rest;
      WrapStep(width, i, p, Value(rest, 10), DigitValue(digits[tmp]));
      width := (width + i * DigitValue(digits[tmp])) % WORD;
      i := i * 10 % WORD;
    }
    assert digits[0..] == digits;
  }
}
