/** Numbers written in a base, most significant digit first. */
module Radix {
  import opened Limbs

  function Pow(base: nat, n: nat): (r: nat)
    ensures base > 0 ==> r > 0
  {
    if n == 0 then 1
    else
      MulLe(0, base, Pow(base, n - 1));
      if base > 0 then MulLe(1, base, Pow(base, n - 1)); base * Pow(base, n - 1) else 0
  }

  lemma {:induction false} PowAdd(base: nat, m: nat, n: nat)
    requires base > 0
    ensures Pow(base, m + n) == Pow(base, m) * Pow(base, n)
  {
    if m > 0 {
      PowAdd(base, m - 1, n);
      Mul3(base, Pow(base, m - 1), Pow(base, n));
    }
  }

  lemma {:induction false} PowGrows(base: nat, m: nat, n: nat)
    requires base > 0 && m <= n
    ensures Pow(base, m) <= Pow(base, n)
  {
    if m < n {
      PowGrows(base, m, n - 1);
      MulLe(1, base, Pow(base, n - 1));
    }
  }

  lemma {:induction false} PowOfPow(base: nat, m: nat, n: nat)
    requires base > 0
    ensures m * n >= 0 && Pow(Pow(base, m), n) == Pow(base, m * n)
  {
    if n > 0 {
      PowOfPow(base, m, n - 1);
      Distribute(m, n, 1);
      PowAdd(base, m, m * (n - 1));
    }
  }

  /** Larger bases have larger powers, strictly so for positive exponents. */
  lemma {:induction false} PowMonotone(a: nat, b: nat, n: nat)
    requires 0 < a <= b
    ensures Pow(a, n) <= Pow(b, n) && (a < b && n > 0 ==> Pow(a, n) < Pow(b, n))
  {
    if n > 0 {
      PowMonotone(a, b, n - 1);
      MulLe(Pow(a, n - 1), Pow(b, n - 1), a);
      MulLe(a, b, Pow(b, n - 1));
      if a < b {
        MulLe(a + 1, b, Pow(b, n - 1));
        Distribute(Pow(b, n - 1), a, 1);
      }
    }
  }

  /** If x^p <= y^q then x^n fits in k digits of base y whenever k * p exceeds n * q. */
  lemma PowFits(x: nat, y: nat, p: nat, q: nat, n: nat, k: nat)
    requires x > 0 && y > 0 && p > 0 && Pow(x, p) <= Pow(y, q) && n * q <= k * p
    ensures Pow(x, n) <= Pow(y, k)
  {
    hide Pow;
    PowOfPow(x, p, n);
    PowOfPow(y, q, n);
    PowMonotone(Pow(x, p), Pow(y, q), n);
    PowOfPow(x, n, p);
    PowOfPow(y, k, p);
    assert p * n == n * p && q * n == n * q;
    PowGrows(y, n * q, k * p);
    if Pow(x, n) > Pow(y, k) {
      PowMonotone(Pow(y, k), Pow(x, n), p);
      assert false;
    }
  }

  // ---------------------------------------------------------------- digits

  predicate AreDigits(s: seq<nat>, base: nat) { forall i :: 0 <= i < |s| ==> s[i] < base }

  function Value(s: seq<nat>, base: nat): nat {
    if s == [] then 0 else Times(Value(s[..|s| - 1], base), base) + s[|s| - 1]
  }

  /** The digits of a number, without leading zeros. */
  function DigitsOf(n: nat, base: nat): seq<nat>
    requires base > 1
  {
    if n == 0 then []
    else
      QuotientLess(n, base);
      DigitsOf(Quot(n, base), base) + [Rem(n, base)]
  }

  function LeadingZeros(s: seq<nat>): (z: nat)
    ensures z <= |s| && (forall i :: 0 <= i < z ==> s[i] == 0) && (z < |s| ==> s[z] != 0)
  {
    if s == [] || s[0] != 0 then 0 else 1 + LeadingZeros(s[1..])
  }

  function Zeros(n: nat): seq<nat> { seq(n, i => 0) }

  lemma DigitsStep(q: nat, base: nat, d: nat)
    requires base > 1 && d < base && (q > 0 || d > 0)
    ensures DigitsOf(Times(q, base) + d, base) == DigitsOf(q, base) + [d]
  {
    QuotRemIs(q * base + d, q, base, d);
    assert q * base + d > 0 by {
      if q > 0 { MulLe(1, q, base); }
    }
  }

  lemma ValueSnoc(s: seq<nat>, d: nat, base: nat)
    ensures Value(s + [d], base) == Times(Value(s, base), base) + d
  {
    assert (s + [d])[..|s|] == s;
  }

  /** The digits of a number write that number. */
  lemma {:induction false} DigitsValue(n: nat, base: nat)
    requires base > 1
    ensures Value(DigitsOf(n, base), base) == n && AreDigits(DigitsOf(n, base), base)
    ensures n > 0 ==> DigitsOf(n, base) != [] && DigitsOf(n, base)[0] != 0
  {
    hide Quot, Rem, Value;
    if n == 0 {
      EmptyValue(base);
    } else {
      var q, d := Quot(n, base), Rem(n, base);
      QuotientLess(n, base);
      DigitsValue(q, base);
      ValueSnoc(DigitsOf(q, base), d, base);
    }
  }

  lemma EmptyValue(base: nat)
    ensures Value([], base) == 0
  {
  }

  lemma QuotientLess(n: nat, base: nat)
    requires base > 1 && n > 0
    ensures Quot(n, base) < n && n == Quot(n, base) * base + Rem(n, base) && Rem(n, base) < base
  {
    hide Quot, Rem;
    QuotRem(n, base);
    MulLe(2, base, Quot(n, base));
  }

  /** A digit string is leading zeros and the digits of its value: the way to write a number is unique. */
  lemma {:induction false} DigitsUnique(s: seq<nat>, base: nat)
    requires base > 1 && AreDigits(s, base)
    ensures s == Zeros(LeadingZeros(s)) + DigitsOf(Value(s, base), base)
    ensures LeadingZeros(s) == |s| <==> Value(s, base) == 0
  {
    hide Value, DigitsOf, LeadingZeros;
    if s == [] {
      NoDigits(base);
      assert s == Zeros(0) + [];
    } else {
      var front, d := s[..|s| - 1], s[|s| - 1];
      DigitsUnique(front, base);
      assert s == front + [d];
      var q := Value(front, base);
      FrontZeros(front, d);
      ValueSnoc(front, d, base);
      ValueZero(q, base, d);
      if q > 0 || d > 0 {
        DigitsStep(q, base, d);
        assert Zeros(LeadingZeros(s)) + (DigitsOf(q, base) + [d]) == front + [d];
      } else {
        NoDigits(base);
        assert Zeros(|s|) == Zeros(|front|) + [0];
      }
    }
  }

  lemma NoDigits(base: nat)
    requires base > 1
    ensures DigitsOf(0, base) == [] && Value([], base) == 0 && LeadingZeros([]) == 0
  {
  }

  lemma ValueZero(q: nat, base: nat, d: nat)
    requires base > 1
    ensures Times(q, base) + d == 0 <==> q == 0 && d == 0
  {
    if q > 0 { MulLe(1, q, base); }
  }

  lemma {:induction false} FrontZeros(front: seq<nat>, d: nat)
    ensures LeadingZeros(front + [d]) ==
              if LeadingZeros(front) < |front| then LeadingZeros(front) else if d == 0 then |front| + 1 else |front|
  {
    if front == [] {
      assert front + [d] == [d] && [d][1..] == [];
    } else {
      FrontZeros(front[1..], d);
      assert (front + [d])[1..] == front[1..] + [d];
    }
  }

  lemma {:induction false} ValueBound(s: seq<nat>, base: nat)
    requires base > 1 && AreDigits(s, base)
    ensures Value(s, base) < Pow(base, |s|)
  {
    if s != [] {
      var n := |s| - 1;
      ValueBound(s[..n], base);
      MulLe(Value(s[..n], base), Pow(base, n) - 1, base);
      Distribute(base, Pow(base, n), 1);
    }
  }

  lemma {:induction false} ValueOfZeros(s: seq<nat>, base: nat)
    requires forall i :: 0 <= i < |s| ==> s[i] == 0
    ensures Value(s, base) == 0
  {
    if s != [] {
      ValueOfZeros(s[..|s| - 1], base);
    }
  }

  /** Leading zeros do not change the value. */
  lemma {:induction false} ZerosValue(z: nat, s: seq<nat>, base: nat)
    ensures Value(Zeros(z) + s, base) == Value(s, base)
  {
    var t := Zeros(z) + s;
    if s == [] {
      ValueOfZeros(t, base);
    } else {
      var front := s[..|s| - 1];
      ZerosValue(z, front, base);
      assert t[..|t| - 1] == Zeros(z) + front;
    }
  }

  // ---------------------------------------------------------------- digit buffers

  /** The value of the last `i` digits of a buffer. */
  function Tail(s: seq<nat>, i: nat, base: nat): nat
    requires i <= |s|
  {
    if i == 0 then 0 else Tail(s, i - 1, base) + Times(s[|s| - i], Pow(base, i - 1))
  }

  lemma {:induction false} TailSame(s: seq<nat>, t: seq<nat>, i: nat, base: nat)
    requires |s| == |t| && i <= |s| && forall k :: |s| - i <= k < |s| ==> s[k] == t[k]
    ensures Tail(s, i, base) == Tail(t, i, base)
  {
    if i > 0 {
      TailSame(s, t, i - 1, base);
    }
  }

  lemma {:induction false} TailZeros(s: seq<nat>, i: nat, j: nat, base: nat)
    requires i <= j <= |s| && forall k :: |s| - j <= k < |s| - i ==> s[k] == 0
    ensures Tail(s, j, base) == Tail(s, i, base)
  {
    if i < j {
      TailZeros(s, i, j - 1, base);
    }
  }

  /** Dropping the last digit divides. */
  lemma {:induction false} TailShift(s: seq<nat>, i: nat, base: nat)
    requires 0 < i <= |s| && base > 0
    ensures Tail(s, i, base) == Times(Tail(s[..|s| - 1], i - 1, base), base) + s[|s| - 1]
  {
    var front := s[..|s| - 1];
    if i == 1 {
      assert Tail(s, 0, base) == 0 && Pow(base, 0) == 1;
    } else {
      TailShift(s, i - 1, base);
      var x, p := s[|s| - i], Pow(base, i - 2);
      assert front[|front| - (i - 1)] == x;
      Distribute(base, Tail(front, i - 2, base), x * p);
      Mul3(x, p, base);
    }
  }

  lemma {:induction false} TailIsValue(s: seq<nat>, base: nat)
    requires base > 0
    ensures Tail(s, |s|, base) == Value(s, base)
  {
    if s != [] {
      TailShift(s, |s|, base);
      TailIsValue(s[..|s| - 1], base);
    }
  }

  /** `t` is `s` times `factor` plus `digit` in its last `i` digits, but for the carry. */
  ghost predicate Multiplied(s: seq<nat>, t: seq<nat>, i: nat, base: nat, factor: nat, digit: nat, carry: nat)
    requires |s| == |t| && i <= |s|
  {
    Tail(t, i, base) + carry * Pow(base, i) == factor * Tail(s, i, base) + digit
  }

  lemma MultiplyStep(s: seq<nat>, before: seq<nat>, t: seq<nat>, i: nat, base: nat, factor: nat, digit: nat, carry: nat)
    requires |s| == |t| == |before| && i < |s| && base > 1
    requires Multiplied(s, before, i, base, factor, digit, carry)
    requires var k := |s| - 1 - i;
             before[k] == s[k] && t == before[k := Rem(carry + Times(factor, s[k]), base)]
    ensures Multiplied(s, t, i + 1, base, factor, digit, Quot(carry + Times(factor, s[|s| - 1 - i]), base))
  {
    hide Quot, Rem;
    var x, p := s[|s| - 1 - i], Pow(base, i);
    var n := carry + factor * x;
    QuotRem(n, base);
    TailSame(before, t, i, base);
    Distribute(p, Quot(n, base) * base, Rem(n, base));
    Mul3(Quot(n, base), base, p);
    Distribute(p, carry, factor * x);
    Distribute(factor, Tail(s, i, base), x * p);
    Mul3(factor, x, p);
  }

  lemma MultiplyEnd(s: seq<nat>, t: seq<nat>, i: nat, base: nat, factor: nat, digit: nat, carry: nat)
    requires |s| == |t| && i <= |s| && base > 1 && AreDigits(t, base)
    requires Multiplied(s, t, i, base, factor, digit, carry)
    requires forall k :: 0 <= k < |s| - i ==> s[k] == 0 && t[k] == 0
    requires i < |s| ==> carry == 0
    requires factor * Value(s, base) + digit < Pow(base, |s|)
    ensures carry == 0 && Value(t, base) == factor * Value(s, base) + digit
  {
    TailZeros(s, i, |s|, base);
    TailZeros(t, i, |t|, base);
    TailIsValue(s, base);
    TailIsValue(t, base);
    if carry > 0 {
      MulLe(1, carry, Pow(base, i));
    }
  }

  /** Replaces the number in the buffer by `factor` times it plus `digit`. Only the last `length` digits are in
      use; the result says how many are afterwards. */
  method MultiplyAdd(b: array<nat>, base: nat, factor: nat, digit: nat, length: nat) returns (i: nat)
    requires base > 1 && length <= b.Length && AreDigits(b[..], base)
    requires forall k :: 0 <= k < b.Length - length ==> b[k] == 0
    requires factor * Value(b[..], base) + digit < Pow(base, b.Length)
    modifies b
    ensures AreDigits(b[..], base) && i <= b.Length && forall k :: 0 <= k < b.Length - i ==> b[k] == 0
    ensures Value(b[..], base) == factor * old(Value(b[..], base)) + digit
  {
    hide Quot, Rem, Multiplied, Value, Pow;
    ghost var s := b[..];
    var carry: nat := digit;
    i := 0;
    MultiplyStart(s, base, factor, digit);
    while (carry != 0 || i < length) && i < b.Length
      invariant i <= b.Length && AreDigits(b[..], base)
      invariant forall k :: 0 <= k < b.Length - i ==> b[k] == s[k]
      invariant Multiplied(s, b[..], i, base, factor, digit, carry)
    {
      ghost var before := b[..];
      var k := b.Length - 1 - i;
      QuotRem(carry + Times(factor, b[k]), base);
      var n := carry + Times(factor, b[k]);
      b[k] := Rem(n, base);
      MultiplyStep(s, before, b[..], i, base, factor, digit, carry);
      carry := Quot(n, base);
      i := i + 1;
    }
    MultiplyEnd(s, b[..], i, base, factor, digit, carry);
    assert carry == 0;
  }

  lemma MultiplyStart(s: seq<nat>, base: nat, factor: nat, digit: nat)
    requires base > 0
    ensures Multiplied(s, s, 0, base, factor, digit, digit)
  {
  }
}

/** Base58 strings (src/base58.cpp). */
module Base58Model {
  import opened Limbs
  import opened Options
  import opened Radix

  /** 58 characters: the digits and letters without 0, I, O and l. */
  function CharOf(d: nat): char {
    if d < 9 then '1' + d as char
    else if d < 17 then 'A' + (d - 9) as char
    else if d < 22 then 'J' + (d - 17) as char
    else if d < 33 then 'P' + (d - 22) as char
    else if d < 44 then 'a' + (d - 33) as char
    else if d < 58 then 'm' + (d - 44) as char
    else '0'
  }

  /** The digit of a character, or 58. */
  function DigitOf(c: char): nat {
    if '1' <= c <= '9' then (c - '1') as nat
    else if 'A' <= c <= 'H' then (c - 'A') as nat + 9
    else if 'J' <= c <= 'N' then (c - 'J') as nat + 17
    else if 'P' <= c <= 'Z' then (c - 'P') as nat + 22
    else if 'a' <= c <= 'k' then (c - 'a') as nat + 33
    else if 'm' <= c <= 'z' then (c - 'm') as nat + 44
    else 58
  }

  predicate IsSpace(c: char) { c == ' ' || 9 as char <= c <= 13 as char }

  lemma CharFacts(d: nat)
    requires d < 58
    ensures DigitOf(CharOf(d)) == d && !IsSpace(CharOf(d)) && (CharOf(d) == '1' <==> d == 0)
  {
  }

  lemma DigitFacts(c: char)
    requires DigitOf(c) < 58
    ensures CharOf(DigitOf(c)) == c && !IsSpace(c) && (c == '1' <==> DigitOf(c) == 0)
  {
  }

  function CharsOf(ds: seq<nat>): string { seq(|ds|, i requires 0 <= i < |ds| => CharOf(ds[i])) }

  function DigitsIn(s: string): seq<nat> { seq(|s|, i requires 0 <= i < |s| => DigitOf(s[i])) }

  function Encoded(b: seq<nat>): string {
    CharsOf(Zeros(LeadingZeros(b)) + DigitsOf(Value(b, 256), 58))
  }

  /** The first position from `k` on that is not a space, or the end. */
  function SkipSpaces(s: string, k: nat): (r: nat)
    requires k <= |s|
    ensures k <= r <= |s| && (forall i :: k <= i < r ==> IsSpace(s[i])) && (r < |s| ==> !IsSpace(s[r]))
    decreases |s| - k
  {
    if k < |s| && IsSpace(s[k]) then SkipSpaces(s, k + 1) else k
  }

  /** The first position from `k` on that is a space, or the end. */
  function SkipWord(s: string, k: nat): (r: nat)
    requires k <= |s|
    ensures k <= r <= |s| && (forall i :: k <= i < r ==> !IsSpace(s[i])) && (r < |s| ==> IsSpace(s[r]))
    decreases |s| - k
  {
    if k < |s| && !IsSpace(s[k]) then SkipWord(s, k + 1) else k
  }

  /** The string without the spaces around its first word. */
  function Trimmed(s: string): string {
    var a := SkipSpaces(s, 0);
    s[a..SkipWord(s, a)]
  }

  /** One word over the alphabet, with nothing but spaces around it. */
  predicate WellFormed(s: string) {
    var a := SkipSpaces(s, 0);
    AreDigits(DigitsIn(Trimmed(s)), 58) && SkipSpaces(s, SkipWord(s, a)) == |s|
  }

  function Decoded(s: string): Option<seq<nat>> {
    if !WellFormed(s) then None
    else
      var ds := DigitsIn(Trimmed(s));
      Some(Zeros(LeadingZeros(ds)) + DigitsOf(Value(ds, 58), 256))
  }

  lemma CharsRoundTrip(ds: seq<nat>)
    requires AreDigits(ds, 58)
    ensures DigitsIn(CharsOf(ds)) == ds && forall i :: 0 <= i < |ds| ==> !IsSpace(CharsOf(ds)[i])
  {
    hide CharOf, DigitOf;
    forall i | 0 <= i < |ds| ensures DigitOf(CharOf(ds[i])) == ds[i] && !IsSpace(CharOf(ds[i])) {
      CharFacts(ds[i]);
    }
  }

  lemma TrimmedWord(s: string)
    requires forall i :: 0 <= i < |s| ==> !IsSpace(s[i])
    ensures Trimmed(s) == s && SkipSpaces(s, 0) == 0 && SkipWord(s, 0) == |s| && SkipSpaces(s, |s|) == |s|
  {
  }

  /** Converting digits to another base and back gives the same digits, leading zeros included. */
  lemma Convert(s: seq<nat>, base: nat, other: nat)
    requires base > 1 && other > 1 && AreDigits(s, base)
    ensures var t := Zeros(LeadingZeros(s)) + DigitsOf(Value(s, base), other);
            && AreDigits(t, other) && LeadingZeros(t) == LeadingZeros(s) && Value(t, other) == Value(s, base)
            && Zeros(LeadingZeros(t)) + DigitsOf(Value(t, other), base) == s
  {
    hide LeadingZeros, Value, DigitsOf;
    var z, n := LeadingZeros(s), Value(s, base);
    var ds := DigitsOf(n, other);
    DigitsValue(n, other);
    ZerosValue(z, ds, other);
    DigitsUnique(s, base);
    if n == 0 { NoDigits(other); }
    LeadingOf(z, ds);
  }

  lemma NoDigits(base: nat)
    requires base > 1
    ensures DigitsOf(0, base) == []
  {
  }

  lemma {:induction false} LeadingOf(z: nat, ds: seq<nat>)
    requires ds == [] || ds[0] != 0
    ensures LeadingZeros(Zeros(z) + ds) == z
  {
    var t := Zeros(z) + ds;
    if z > 0 {
      LeadingOf(z - 1, ds);
      assert t[1..] == Zeros(z - 1) + ds;
    }
  }

  /** Decoding an encoded byte string gives it back, leading zero bytes included. */
  lemma DecodeEncode(b: seq<nat>)
    requires AreDigits(b, 256)
    ensures Decoded(Encoded(b)) == Some(b)
  {
    hide LeadingZeros, Value, DigitsOf, CharsOf, DigitsIn, Trimmed, SkipSpaces, SkipWord;
    Convert(b, 256, 58);
    var ds := Zeros(LeadingZeros(b)) + DigitsOf(Value(b, 256), 58);
    CharsRoundTrip(ds);
    CharsLength(ds);
    TrimmedWord(CharsOf(ds));
  }

  lemma CharsLength(ds: seq<nat>)
    ensures |CharsOf(ds)| == |ds|
  {
  }

  /** Encoding a decoded string gives the string without the spaces around it. */
  lemma EncodeDecode(s: string)
    requires Decoded(s).Some?
    ensures AreDigits(Decoded(s).value, 256) && Encoded(Decoded(s).value) == Trimmed(s)
  {
    hide LeadingZeros, Value, DigitsOf, CharsOf, DigitsIn, Trimmed, SkipSpaces, SkipWord;
    var ds := DigitsIn(Trimmed(s));
    Convert(ds, 58, 256);
    DigitsRoundTrip(Trimmed(s));
  }

  lemma DigitsRoundTrip(s: string)
    requires AreDigits(DigitsIn(s), 58)
    ensures CharsOf(DigitsIn(s)) == s
  {
    hide CharOf, DigitOf;
    forall i | 0 <= i < |s| ensures CharOf(DigitOf(s[i])) == s[i] {
      assert DigitsIn(s)[i] == DigitOf(s[i]);
      DigitFacts(s[i]);
    }
  }

  const ALPHABET := "123456789" + "ABCDEFGHJKLMNPQRSTUVWXYZ" + "abcdefghijkmnopqrstuvwxyz"

  lemma Alphabet0(d: nat)
    requires d < 9
    ensures CharOf(d) == ALPHABET[d]
  {
  }

  lemma Alphabet1(d: nat)
    requires 9 <= d < 17
    ensures CharOf(d) == ALPHABET[d]
  {
  }

  lemma Alphabet2(d: nat)
    requires 17 <= d < 22
    ensures CharOf(d) == ALPHABET[d]
  {
  }

  lemma Alphabet3(d: nat)
    requires 22 <= d < 33
    ensures CharOf(d) == ALPHABET[d]
  {
  }

  lemma Alphabet4(d: nat)
    requires 33 <= d < 44
    ensures CharOf(d) == ALPHABET[d]
  {
  }

  lemma Alphabet5(d: nat)
    requires 44 <= d < 58
    ensures CharOf(d) == ALPHABET[d]
  {
  }

  /** The characters of the digits, in order. */
  lemma AlphabetIs(d: nat)
    requires d < 58
    ensures CharOf(d) == ALPHABET[d]
  {
    hide CharOf;
    if d < 9 { Alphabet0(d); } else if d < 17 { Alphabet1(d); } else if d < 22 { Alphabet2(d); }
    else if d < 33 { Alphabet3(d); } else if d < 44 { Alphabet4(d); } else { Alphabet5(d); }
  }

  /** A string writes the number of its bytes in base 58, after as many first characters of the alphabet as there are
      leading zero bytes. */
  lemma EncodedMeans(b: seq<nat>)
    requires AreDigits(b, 256)
    ensures var ds := DigitsIn(Encoded(b));
            && AreDigits(ds, 58) && Value(ds, 58) == Value(b, 256) && LeadingZeros(ds) == LeadingZeros(b)
            && |Encoded(b)| == |ds| && forall i :: 0 <= i < |ds| ==> Encoded(b)[i] == ALPHABET[ds[i]]
  {
    hide LeadingZeros, Value, DigitsOf, CharOf, DigitOf;
    Convert(b, 256, 58);
    var ds := Zeros(LeadingZeros(b)) + DigitsOf(Value(b, 256), 58);
    CharsRoundTrip(ds);
    forall i | 0 <= i < |ds| ensures CharsOf(ds)[i] == ALPHABET[ds[i]] { AlphabetIs(ds[i]); }
  }

  /** Only blanks and the control characters from tab to carriage return. */
  predicate Spaces(s: string) { forall i :: 0 <= i < |s| ==> s[i] == ' ' || 9 <= s[i] as int <= 13 }

  predicate Padded(s: string, before: string, word: string, after: string) {
    Spaces(before) && Spaces(after) && s == before + word + after
  }

  /** Just the strings that encode the bytes, with any spaces around, decode to them. */
  lemma DecodeIff(s: string, b: seq<nat>)
    ensures Decoded(s) == Some(b) <==> AreDigits(b, 256) && exists before, after :: Padded(s, before, Encoded(b), after)
  {
    hide Encoded, Decoded, AreDigits, Padded;
    if Decoded(s) == Some(b) {
      EncodeDecode(s);
      DecodedIsPadded(s);
    }
    if AreDigits(b, 256) && exists before, after :: Padded(s, before, Encoded(b), after) {
      var before, after :| Padded(s, before, Encoded(b), after);
      NoSpaces(b);
      PaddingIgnored(s, before, Encoded(b), after);
      PaddingIgnored(Encoded(b), "", Encoded(b), "") by { Unpadded(Encoded(b)); }
      DecodeEncode(b);
    }
  }

  lemma Unpadded(s: string)
    ensures Padded(s, "", s, "")
  {
  }

  lemma NoSpaces(b: seq<nat>)
    requires AreDigits(b, 256)
    ensures forall i :: 0 <= i < |Encoded(b)| ==> !IsSpace(Encoded(b)[i])
  {
    hide LeadingZeros, Value, DigitsOf, CharOf;
    Convert(b, 256, 58);
    CharsRoundTrip(Zeros(LeadingZeros(b)) + DigitsOf(Value(b, 256), 58));
  }

  lemma DecodedIsPadded(s: string)
    requires Decoded(s).Some?
    ensures exists before, after :: Padded(s, before, Trimmed(s), after)
  {
    hide SkipSpaces, SkipWord, DigitsIn, Value, DigitsOf, LeadingZeros;
    var a := SkipSpaces(s, 0);
    var e := SkipWord(s, a);
    assert s == s[..a] + s[a..e] + s[e..];
    assert Padded(s, s[..a], Trimmed(s), s[e..]);
  }

  lemma PaddingIgnored(s: string, before: string, word: string, after: string)
    requires Padded(s, before, word, after) && forall i :: 0 <= i < |word| ==> !IsSpace(word[i])
    ensures Decoded(s) == if AreDigits(DigitsIn(word), 58)
                          then Some(Zeros(LeadingZeros(DigitsIn(word))) + DigitsOf(Value(DigitsIn(word), 58), 256)) else None
  {
    hide SkipSpaces, SkipWord, DigitsIn, Value, DigitsOf, LeadingZeros;
    WordFound(s, before, word, after);
  }

  lemma SpacesAre(s: string)
    ensures Spaces(s) <==> forall i :: 0 <= i < |s| ==> IsSpace(s[i])
  {
  }

  lemma SpacesEnd(s: string, k: nat, n: nat)
    requires k <= n <= |s| && (forall i :: k <= i < n ==> IsSpace(s[i])) && (n < |s| ==> !IsSpace(s[n]))
    ensures SkipSpaces(s, k) == n
  {
    hide SkipSpaces, IsSpace;
  }

  lemma WordEnds(s: string, k: nat, n: nat)
    requires k <= n <= |s| && (forall i :: k <= i < n ==> !IsSpace(s[i])) && (n < |s| ==> IsSpace(s[n]))
    ensures SkipWord(s, k) == n
  {
    hide SkipWord, IsSpace;
  }

  lemma WordFound(s: string, before: string, word: string, after: string)
    requires Padded(s, before, word, after) && forall i :: 0 <= i < |word| ==> !IsSpace(word[i])
    ensures Trimmed(s) == word && SkipSpaces(s, SkipWord(s, SkipSpaces(s, 0))) == |s|
  {
    hide SkipSpaces, SkipWord, IsSpace;
    var n, m := |before|, |before| + |word|;
    SpacesAre(before);
    SpacesAre(after);
    forall i | 0 <= i < n ensures IsSpace(s[i]) { assert s[i] == before[i]; }
    forall i | n <= i < m ensures !IsSpace(s[i]) { assert s[i] == word[i - n]; }
    forall i | m <= i < |s| ensures IsSpace(s[i]) { assert s[i] == after[i - m]; }
    if word == "" {
      SpacesEnd(s, 0, |s|);
      WordEnds(s, |s|, |s|);
      SpacesEnd(s, |s|, |s|);
    } else {
      SpacesEnd(s, 0, n);
      WordEnds(s, n, m);
      SpacesEnd(s, m, |s|);
      assert s[n..m] == word;
    }
  }

  // ---------------------------------------------------------------- the buffers are large enough

  lemma Powers11And8()
    ensures Pow(256, 8) <= Pow(58, 11)
  {
    hide Pow;
    PowOne(58);
    PowOne(256);
    assert Pow(58, 1) == 58;
    PowAdd(58, 1, 1);
    assert Pow(58, 2) == 3364;
    PowAdd(58, 2, 2);
    assert Pow(58, 4) == 11316496;
    PowAdd(58, 4, 4);
    assert Pow(58, 8) == 128063081718016;
    PowAdd(58, 8, 2);
    assert Pow(58, 10) == 430804206899405824;
    PowAdd(58, 10, 1);
    assert Pow(58, 11) == 24986644000165537792;
    assert Pow(256, 1) == 256;
    PowAdd(256, 1, 1);
    assert Pow(256, 2) == 65536;
    PowAdd(256, 2, 2);
    assert Pow(256, 4) == 4294967296;
    PowAdd(256, 4, 4);
    assert Pow(256, 8) == 18446744073709551616;
  }

  lemma PowOne(base: nat)
    requires base > 0
    ensures Pow(base, 1) == base
  {
  }

  lemma Power58()
    ensures Pow(58, 71) == 159730386663078066345306447337161584696769904898410078913243029577507397293846405390982563136983769384625594118558891106107392
  {
    hide Pow;
    PowOne(58);
    assert Pow(58, 1) == 58;
    PowAdd(58, 1, 1);
    assert Pow(58, 2) == 3364;
    PowAdd(58, 2, 2);
    assert Pow(58, 4) == 11316496;
    PowAdd(58, 4, 4);
    assert Pow(58, 8) == 128063081718016;
    PowAdd(58, 8, 8);
    assert Pow(58, 16) == 16400152899115243850138976256;
    PowAdd(58, 16, 16);
    assert Pow(58, 32) == 268965015114358137726910587140455987105619365599731777536;
    PowAdd(58, 32, 32);
    assert Pow(58, 64) == 72342179355466901471258927612150153907721848234316445933056526044582001260898145151856420451025374266490194231296;
    PowAdd(58, 64, 4);
    assert Pow(58, 68) == 818659983307423768631895769287186768096118664656249123135650444757408038940948816018402574608346843785239217057684258816;
    PowAdd(58, 68, 2);
    assert Pow(58, 70) == 2753972183846173557677697367882096287875343187903622050228328096163920642997351817085906260982478782493544726182049846657024;
    PowAdd(58, 70, 1);
    assert Pow(58, 71) == 159730386663078066345306447337161584696769904898410078913243029577507397293846405390982563136983769384625594118558891106107392;
  }

  lemma Power256()
    ensures Pow(256, 52) == 169230328010303641331690318856389386196071598838855992136870091590247882556495704531248437872567112920983350278405979725889536
  {
    hide Pow;
    PowOne(256);
    assert Pow(256, 1) == 256;
    PowAdd(256, 1, 1);
    assert Pow(256, 2) == 65536;
    PowAdd(256, 2, 2);
    assert Pow(256, 4) == 4294967296;
    PowAdd(256, 4, 4);
    assert Pow(256, 8) == 18446744073709551616;
    PowAdd(256, 8, 8);
    assert Pow(256, 16) == 340282366920938463463374607431768211456;
    PowAdd(256, 16, 16);
    assert Pow(256, 32) == 115792089237316195423570985008687907853269984665640564039457584007913129639936;
    PowAdd(256, 32, 16);
    assert Pow(256, 48) == 39402006196394479212279040100143613805079739270465446667948293404245721771497210611414266254884915640806627990306816;
    PowAdd(256, 48, 4);
    assert Pow(256, 52) == 169230328010303641331690318856389386196071598838855992136870091590247882556495704531248437872567112920983350278405979725889536;
  }

  /** 138/100 digits of base 58 for each byte, plus one, hold every byte string of that length. */
  lemma EncodeBufferFits(n: nat)
    ensures Pow(256, n) <= Pow(58, n * 138 / 100 + 1)
  {
    hide Pow;
    Powers11And8();
    PowFits(256, 58, 8, 11, n, n * 138 / 100 + 1);
  }

  /** 733/1000 bytes for each digit of base 58, plus one, hold every digit string of that length. */
  lemma DecodeBufferFits(n: nat)
    ensures Pow(58, n) <= Pow(256, n * 733 / 1000 + 1)
  {
    hide Pow;
    Power58();
    Power256();
    PowFits(58, 256, 71, 52, n, n * 733 / 1000 + 1);
  }
}

/** The conversions with their digit buffers. */
module Base58 {
  import opened Limbs
  import opened Options
  import opened Radix
  import opened Base58Model

  /** Counts the digits from `k` on that are zero. */
  method SkipZeros(s: seq<nat>, k: nat) returns (i: nat)
    requires k <= LeadingZeros(s)
    ensures i == LeadingZeros(s)
  {
    i := k;
    while i < |s| && s[i] == 0
      invariant i <= LeadingZeros(s)
    {
      i := i + 1;
    }
  }

  /** Writes the number of `digits` in base `from` into a buffer of base `to`; the result are its digits there. */
  method ConvertDigits(digits: seq<nat>, from: nat, to: nat, size: nat) returns (r: seq<nat>)
    requires from > 1 && to > 1 && AreDigits(digits, from) && Pow(from, |digits|) <= Pow(to, size)
    ensures r == DigitsOf(Value(digits, from), to)
  {
    hide Value, Pow, DigitsOf, LeadingZeros;
    var b := new nat[size](i => 0);
    var length: nat := 0;
    StartValue(b[..], digits, from, to);
    for j := 0 to |digits|
      invariant length <= size && AreDigits(b[..], to)
      invariant forall k :: 0 <= k < size - length ==> b[k] == 0
      invariant Value(b[..], to) == Value(digits[..j], from)
    {
      PowGrows(from, j + 1, |digits|);
      NextFits(digits[..j], digits[j], from, to, size);
      assert digits[..j + 1] == digits[..j] + [digits[j]];
      length := MultiplyAdd(b, to, from, digits[j], length);
    }
    assert digits[..|digits|] == digits;
    r := Significant(b, to, length);
  }

  /** The digits of the number in the buffer, of which the last `length` are in use. */
  method Significant(b: array<nat>, base: nat, length: nat) returns (r: seq<nat>)
    requires base > 1 && length <= b.Length && AreDigits(b[..], base) && forall k :: 0 <= k < b.Length - length ==> b[k] == 0
    ensures r == DigitsOf(Value(b[..], base), base)
  {
    hide Value, DigitsOf, LeadingZeros;
    DigitsUnique(b[..], base);
    LeadingAtLeast(b[..], b.Length - length);
    var it := SkipZeros(b[..], b.Length - length);
    r := b[it..];
    assert b[..] == Zeros(it) + r;
  }

  lemma StartValue(b: seq<nat>, digits: seq<nat>, from: nat, to: nat)
    requires forall i :: 0 <= i < |b| ==> b[i] == 0
    ensures Value(b, to) == 0 && Value(digits[..0], from) == 0
  {
    ValueOfZeros(b, to);
  }

  lemma NextFits(digits: seq<nat>, d: nat, from: nat, to: nat, size: nat)
    requires from > 1 && to > 1 && AreDigits(digits, from) && d < from && Pow(from, |digits| + 1) <= Pow(to, size)
    ensures Value(digits + [d], from) == from * Value(digits, from) + d < Pow(to, size)
  {
    hide Value, Pow;
    ValueSnoc(digits, d, from);
    ValueBound(digits + [d], from);
  }

  lemma {:induction false} LeadingAtLeast(s: seq<nat>, n: nat)
    requires n <= |s| && forall i :: 0 <= i < n ==> s[i] == 0
    ensures n <= LeadingZeros(s)
  {
  }

  method EncodeBase58(bytes: seq<nat>) returns (str: string)
    requires AreDigits(bytes, 256)
    ensures str == Encoded(bytes)
  {
    hide Value, Pow, DigitsOf, CharOf, LeadingZeros;
    var zeroes := SkipZeros(bytes, 0);
    var rest := bytes[zeroes..];
    EncodeBufferFits(|rest|);
    var b58 := ConvertDigits(rest, 256, 58, |rest| * 138 / 100 + 1);
    RestValue(bytes, zeroes, 256);
    str := seq(zeroes, i => '1');
    CharFacts(0);
    for i := 0 to |b58|
      invariant str == CharsOf(Zeros(zeroes) + b58[..i])
    {
      str := str + [CharOf(b58[i])];
    }
    assert b58[..|b58|] == b58;
  }

  lemma RestValue(s: seq<nat>, z: nat, base: nat)
    requires z == LeadingZeros(s)
    ensures Value(s[z..], base) == Value(s, base)
  {
    ZerosValue(z, s[z..], base);
    assert s == Zeros(z) + s[z..];
  }

  method SkipSpacesFrom(s: string, k: nat) returns (i: nat)
    requires k <= |s|
    ensures i == SkipSpaces(s, k)
  {
    i := k;
    while i < |s| && IsSpace(s[i])
      invariant k <= i <= |s| && SkipSpaces(s, k) == SkipSpaces(s, i)
    {
      i := i + 1;
    }
  }

  /** Counts the characters from `k` on that stand for zero. */
  method SkipOnes(s: string, k: nat) returns (i: nat)
    requires k <= |s|
    ensures k <= i <= |s| && (forall j :: k <= j < i ==> s[j] == '1') && (i < |s| ==> s[i] != '1')
  {
    i := k;
    while i < |s| && s[i] == '1'
      invariant k <= i <= |s| && forall j :: k <= j < i ==> s[j] == '1'
    {
      i := i + 1;
    }
  }

  lemma WordFits(i: nat, k: nat, n: nat)
    requires k <= i < k + n
    ensures Pow(58, i - k + 1) <= Pow(256, n * 733 / 1000 + 1)
  {
    hide Pow;
    DecodeBufferFits(n);
    PowGrows(58, i - k + 1, n);
  }

  lemma BadDigit(s: string, k: nat, i: nat)
    requires k <= |s| && k <= i < SkipWord(s, k) && DigitOf(s[i]) >= 58
    ensures !AreDigits(DigitsIn(s[k..SkipWord(s, k)]), 58)
  {
    hide DigitOf, SkipWord;
    assert s[k..SkipWord(s, k)][i - k] == s[i];
    assert DigitsIn(s[k..SkipWord(s, k)])[i - k] >= 58;
  }

  lemma NextDigit(s: string, k: nat, i: nat)
    requires k <= i < |s|
    ensures DigitsIn(s[k..i + 1]) == DigitsIn(s[k..i]) + [DigitOf(s[i])]
  {
    hide DigitOf;
    assert s[k..i + 1] == s[k..i] + [s[i]];
  }

  /** Reads the word that starts at `k` into a buffer, character by character; fails on one outside the alphabet. The
      carry ends at 0 after every character read, also before a bad one. */
  method ReadWord(s: string, k: nat) returns (ok: bool, i: nat, bytes: seq<nat>)
    requires k <= |s|
    ensures ok == AreDigits(DigitsIn(s[k..SkipWord(s, k)]), 58)
    ensures ok ==> i == SkipWord(s, k) && bytes == DigitsOf(Value(DigitsIn(s[k..i]), 58), 256)
  {
    hide DigitOf, Value, Pow, DigitsOf, DigitsIn;
    var size := (|s| - k) * 733 / 1000 + 1;
    var b256 := new nat[size](j => 0);
    var length: nat := 0;
    i := k;
    StartWord(b256[..], s, k);
    while i < |s| && !IsSpace(s[i])
      invariant k <= i <= |s| && SkipWord(s, k) == SkipWord(s, i)
      invariant length <= size && AreDigits(b256[..], 256)
      invariant forall j :: 0 <= j < size - length ==> b256[j] == 0
      invariant AreDigits(DigitsIn(s[k..i]), 58) && |DigitsIn(s[k..i])| == i - k
      invariant Value(b256[..], 256) == Value(DigitsIn(s[k..i]), 58)
    {
      if DigitOf(s[i]) >= 58 {
        BadDigit(s, k, i);
        return false, i, [];
      }
      WordFits(i, k, |s| - k);
      NextFits(DigitsIn(s[k..i]), DigitOf(s[i]), 58, 256, size);
      NextDigit(s, k, i);
      length := MultiplyAdd(b256, 256, 58, DigitOf(s[i]), length);
      i := i + 1;
    }
    ok := true;
    bytes := Significant(b256, 256, length);
  }

  lemma StartWord(b: seq<nat>, s: string, k: nat)
    requires k <= |s| && forall i :: 0 <= i < |b| ==> b[i] == 0
    ensures AreDigits(DigitsIn(s[k..k]), 58) && DigitsIn(s[k..k]) == [] && Value(b, 256) == Value(DigitsIn(s[k..k]), 58)
  {
    ValueOfZeros(b, 256);
  }

  lemma WordOfOnes(s: string, a: nat, p: nat)
    requires a <= p <= |s| && (forall j :: a <= j < p ==> s[j] == '1') && (p < |s| ==> s[p] != '1')
    ensures SkipWord(s, a) == SkipWord(s, p)
    ensures var ds, rest := DigitsIn(s[a..SkipWord(s, a)]), DigitsIn(s[p..SkipWord(s, p)]);
            LeadingZeros(ds) == p - a && ds == Zeros(p - a) + rest
  {
    hide DigitOf;
    SameWord(s, a, p);
    var end := SkipWord(s, a);
    var ds, rest := DigitsIn(s[a..end]), DigitsIn(s[p..end]);
    ZeroChar('1');
    assert forall i :: 0 <= i < p - a ==> s[a..end][i] == s[a + i];
    assert ds == Zeros(p - a) + rest;
    LeadingAtLeast(ds, p - a);
    if p < end {
      ZeroChar(s[p]);
      assert ds[p - a] == DigitOf(s[p]) != 0;
    }
  }

  lemma ZeroChar(c: char)
    ensures DigitOf(c) == 0 <==> c == '1'
  {
  }

  lemma {:induction false} SameWord(s: string, a: nat, p: nat)
    requires a <= p <= |s| && forall j :: a <= j < p ==> s[j] == '1'
    ensures SkipWord(s, a) == SkipWord(s, p)
    decreases p - a
  {
    if a < p { SameWord(s, a + 1, p); }
  }

  method DecodeBase58(s: string) returns (r: Option<seq<nat>>)
    ensures r == Decoded(s)
  {
    hide Value, Pow, DigitsOf, DigitOf, LeadingZeros, SkipSpaces, SkipWord, DigitsIn;
    var a := SkipSpacesFrom(s, 0);
    var p := SkipOnes(s, a);
    WordOfOnes(s, a, p);
    var ok, end, b256 := ReadWord(s, p);
    RestDigits(p - a, DigitsIn(s[p..SkipWord(s, p)]));
    if !ok { return None; }
    var last := SkipSpacesFrom(s, end);
    if last != |s| { return None; }
    return Some(Zeros(p - a) + b256);
  }

  lemma RestDigits(z: nat, rest: seq<nat>)
    ensures AreDigits(Zeros(z) + rest, 58) <==> AreDigits(rest, 58)
    ensures Value(Zeros(z) + rest, 58) == Value(rest, 58)
  {
    hide Value;
    ZerosValue(z, rest, 58);
    assert forall i :: 0 <= i < |rest| ==> (Zeros(z) + rest)[z + i] == rest[i];
  }
}
