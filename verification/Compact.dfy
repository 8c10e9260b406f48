/** The compact form of 256-bit targets (src/arith_uint256.cpp). */
module CompactModel {
  import opened Limbs

  /** The number of bits of a number. */
  function BitLen(x: nat): (n: nat)
    ensures x < Pow2(n) && (x > 0 ==> n > 0 && Pow2(n - 1) <= x) && (x == 0 ==> n == 0)
  {
    if x == 0 then 0 else 1 + BitLen(x / 2)
  }

  lemma BitLenIs(x: nat, n: nat)
    requires n > 0 && Pow2(n - 1) <= x < Pow2(n)
    ensures BitLen(x) == n
  {
    var m := BitLen(x);
    if m < n {
      Pow2Grows(m, n - 1);
      assert false;
    }
    if m > n {
      Pow2Grows(n, m - 1);
      assert false;
    }
  }

  function Bytes(x: nat): nat { (BitLen(x) + 7) / 8 }

  const SIGN := 0x0080_0000

  /** The three leading bytes of a number of `n` bytes. */
  function Leading(x: nat, n: nat): nat {
    if n <= 3 then Times(x, Pow2(8 * (3 - n))) else Quot(x, Pow2(8 * (n - 3)))
  }

  /** Exponent and mantissa, the mantissa kept below the sign bit. */
  function Exponent(x: nat): nat { if Leading(x, Bytes(x)) >= SIGN then Bytes(x) + 1 else Bytes(x) }

  function Mantissa(x: nat): nat {
    var m := Leading(x, Bytes(x));
    if m >= SIGN then m / 256 else m
  }

  function Compact(x: nat, fNegative: bool): nat {
    Exponent(x) * 0x0100_0000 + Mantissa(x) + if fNegative && Mantissa(x) != 0 then SIGN else 0
  }

  datatype Uncompacted = Uncompacted(value: nat, negative: bool, overflow: bool)

  /** The number a compact form stands for, before any truncation to 256 bits. */
  function Meant(c: nat): nat {
    var (nSize, word) := (c / 0x0100_0000, c % SIGN);
    if nSize <= 3 then Quot(word, Pow2(8 * (3 - nSize))) else Times(word, Pow2(8 * (nSize - 3)))
  }

  function Uncompact(c: nat): Uncompacted {
    var nSize := c / 0x0100_0000;
    var word := if nSize <= 3 then Quot(c % SIGN, Pow2(8 * (3 - nSize))) else c % SIGN;
    Uncompacted(
      if nSize <= 3 then word else Rem(Times(word, Pow2(8 * (nSize - 3))), Pow2(256)),
      word != 0 && c / SIGN % 2 == 1,
      word != 0 && (nSize > 34 || (word > 0xff && nSize > 33) || (word > 0xffff && nSize > 32)))
  }

  lemma Pow2At(n: nat, m: nat, k: nat)
    requires n >= k && Pow2(k) == m
    ensures Pow2(n) == m * Pow2(n - k)
  {
    Pow2Add(k, n - k);
  }

  lemma SmallPowers()
    ensures Pow2(0) == 1 && Pow2(1) == 2 && Pow2(8) == 256 && Pow2(16) == 65536 && Pow2(24) == 0x0100_0000 && Pow2(23) == SIGN
  {
    Pow2Add(8, 8);
    Pow2Add(16, 8);
    assert Pow2(24) == 2 * Pow2(23);
  }

  /** The overflow flag is set exactly when the number does not fit in 256 bits. */
  lemma OverflowIff(c: nat)
    requires c < 0x1_0000_0000
    ensures Uncompact(c).overflow <==> Meant(c) >= Pow2(256)
    ensures !Uncompact(c).overflow ==> Uncompact(c).value == Meant(c)
  {
    hide Quot, Rem, Pow2;
    SmallPowers();
    var (nSize, word) := (c / 0x0100_0000, c % SIGN);
    if nSize <= 3 {
      SmallWord(word, 8 * (3 - nSize));
    } else {
      BigWord(word, nSize);
      if !Uncompact(c).overflow {
        QuotRemIs(Meant(c), 0, Pow2(256), Meant(c));
      }
    }
  }

  lemma SmallWord(word: nat, s: nat)
    requires word < SIGN
    ensures Quot(word, Pow2(s)) < Pow2(256)
  {
    hide Quot, Rem;
    SmallPowers();
    Pow2Grows(23, 256);
    QuotRem(word, Pow2(s));
    MulLe(1, Pow2(s), Quot(word, Pow2(s)));
  }

  lemma BigWord(word: nat, nSize: nat)
    requires word < SIGN && nSize > 3
    ensures Times(word, Pow2(8 * (nSize - 3))) >= Pow2(256) <==>
              word != 0 && (nSize > 34 || (word > 0xff && nSize > 33) || (word > 0xffff && nSize > 32))
  {
    hide Pow2;
    SmallPowers();
    var p := Pow2(8 * (nSize - 3));
    if nSize > 34 {
      Pow2Grows(256, 8 * (nSize - 3));
      if word > 0 { MulLe(1, word, p); }
    } else if nSize == 34 {
      Threshold(word, 256, 8);
    } else if nSize == 33 {
      Threshold(word, 65536, 16);
    } else {
      Pow2Grows(8 * (nSize - 3), 232);
      MulLe(word, SIGN, p);
      MulLe(p, Pow2(232), SIGN);
      Pow2At(255, SIGN, 23);
      Pow2At(256, 2, 1);
    }
  }

  lemma Threshold(word: nat, m: nat, k: nat)
    requires k <= 256 && Pow2(k) == m
    ensures word * Pow2(256 - k) >= Pow2(256) <==> word >= m
  {
    hide Pow2;
    var p := Pow2(256 - k);
    Pow2At(256, m, k);
    if word >= m {
      MulLe(m, word, p);
    } else {
      MulLe(word, m - 1, p);
      Distribute(p, m, 1);
    }
  }

  /** How many low bytes the compact form of `x` loses. */
  function Lost(x: nat): nat { if Exponent(x) <= 3 then 0 else Exponent(x) - 3 }

  /** Nothing is lost below 2^23; otherwise as many bytes as leave 16 to 23 bits. */
  lemma LostIs(x: nat)
    ensures Lost(x) == 0 ==> x < Pow2(23)
    ensures Lost(x) > 0 ==> Pow2(8 * Lost(x) + 15) <= x < Pow2(8 * Lost(x) + 23)
  {
    hide Pow2, Quot, Rem, BitLen;
    var n, b, m := Bytes(x), BitLen(x), Leading(x, Bytes(x));
    LeadingSign(x);
    if n <= 2 || (n == 3 && m < SIGN) {
      Pow2Grows(b, 23);
    } else if m >= SIGN {
      assert b == 8 * n;
      assert 8 * Lost(x) + 15 == b - 1;
      Pow2Grows(b, 8 * Lost(x) + 23);
    } else {
      assert 8 * Lost(x) + 15 == 8 * n - 9;
      Pow2Grows(8 * n - 9, b - 1);
      Pow2Grows(b, 8 * Lost(x) + 23);
    }
  }

  /** The sign bit of the leading bytes is set just for a whole number of bytes. */
  lemma LeadingSign(x: nat)
    ensures Leading(x, Bytes(x)) >= SIGN <==> x > 0 && BitLen(x) % 8 == 0
  {
    hide Pow2, Quot, Rem, BitLen;
    var n, b := Bytes(x), BitLen(x);
    if x == 0 {
      assert n == 0;
      QuotRemIs(0, 0, 1, 0);
    } else if n <= 3 {
      ShortSign(x, n, b);
    } else {
      LongSign(x, n, b);
    }
  }

  lemma ShortSign(x: nat, n: nat, b: nat)
    requires 0 < n <= 3 && 8 * n - 8 < b <= 8 * n && Pow2(b - 1) <= x < Pow2(b)
    ensures x * Pow2(8 * (3 - n)) >= SIGN <==> b == 8 * n
  {
    hide Pow2;
    TopBit();
    var p := Pow2(8 * (3 - n));
    Pow2Add(8 * n - 1, 8 * (3 - n));
    if b == 8 * n {
      MulLe(Pow2(b - 1), x, p);
    } else {
      Pow2Grows(b, 8 * n - 1);
      MulLe(x, Pow2(8 * n - 1) - 1, p);
      Distribute(p, Pow2(8 * n - 1), 1);
    }
  }

  lemma LongSign(x: nat, n: nat, b: nat)
    requires n > 3 && 8 * n - 8 < b <= 8 * n && Pow2(b - 1) <= x < Pow2(b)
    ensures Quot(x, Pow2(8 * (n - 3))) >= SIGN <==> b == 8 * n
  {
    hide Pow2, Quot, Rem;
    TopBit();
    SmallPowers();
    var p := Pow2(8 * (n - 3));
    Pow2Add(23, 8 * (n - 3));
    Pow2Add(24, 8 * (n - 3));
    if b == 8 * n {
      QuotientBetween(x, p, SIGN, 0x0100_0000);
    } else {
      Pow2Grows(b, 8 * n - 1);
      MulLe(0, x, p);
      QuotientBetween(x, p, 0, SIGN);
    }
  }

  lemma TopBit()
    ensures Pow2(23) == SIGN
  {
    SmallPowers();
    Pow2Add(8, 15);
    Pow2Add(7, 8);
    assert Pow2(7) == 128;
  }

  /** A number with its low bytes set to zero. */
  function Cleared(x: nat, bytes: nat): nat { Times(Quot(x, Pow2(8 * bytes)), Pow2(8 * bytes)) }

  lemma LeadingBound(x: nat)
    ensures Leading(x, Bytes(x)) < 0x0100_0000 && (x > 0 ==> Leading(x, Bytes(x)) >= 0x0001_0000)
  {
    hide Pow2, Quot, Rem, BitLen;
    SmallPowers();
    var n, b := Bytes(x), BitLen(x);
    if n <= 3 {
      ShortBound(x, n, b);
    } else {
      LongBound(x, n, b);
    }
  }

  lemma ShortBound(x: nat, n: nat, b: nat)
    requires n <= 3 && b <= 8 * n && x < Pow2(b) && (x > 0 ==> 8 * n - 8 <= b - 1 && Pow2(b - 1) <= x && n > 0)
    ensures x * Pow2(8 * (3 - n)) < 0x0100_0000 && (x > 0 ==> x * Pow2(8 * (3 - n)) >= 0x0001_0000)
  {
    hide Pow2;
    SmallPowers();
    var p := Pow2(8 * (3 - n));
    Pow2Add(8 * n, 8 * (3 - n));
    Pow2Grows(b, 8 * n);
    MulLe(x, Pow2(8 * n) - 1, p);
    Distribute(p, Pow2(8 * n), 1);
    if x > 0 {
      Pow2Grows(8 * n - 8, b - 1);
      Pow2Add(8 * n - 8, 8 * (3 - n));
      MulLe(Pow2(8 * n - 8), x, p);
    }
  }

  lemma LongBound(x: nat, n: nat, b: nat)
    requires n > 3 && 8 * n - 8 < b <= 8 * n && Pow2(b - 1) <= x < Pow2(b)
    ensures 0x0001_0000 <= Quot(x, Pow2(8 * (n - 3))) < 0x0100_0000
  {
    hide Pow2, Quot;
    SmallPowers();
    Pow2Add(24, 8 * (n - 3));
    Pow2Add(16, 8 * (n - 3));
    Pow2Grows(b, 8 * n);
    Pow2Grows(8 * n - 8, b - 1);
    QuotientBetween(x, Pow2(8 * (n - 3)), 0x0001_0000, 0x0100_0000);
  }

  lemma QuotientBetween(x: nat, p: nat, lo: nat, hi: nat)
    requires p > 0 && lo * p <= x < hi * p
    ensures lo <= Quot(x, p) < hi
  {
    hide Quot, Rem;
    var q := Quot(x, p);
    QuotRem(x, p);
    if q < lo {
      MulLe(q, lo - 1, p);
      Distribute(p, lo, 1);
      assert false;
    }
    if q >= hi {
      MulLe(hi, q, p);
      assert false;
    }
  }

  lemma LengthBound(x: nat)
    requires x < Pow2(256)
    ensures Bytes(x) <= 32
  {
    hide Pow2;
    if BitLen(x) > 256 {
      Pow2Grows(256, BitLen(x) - 1);
      assert false;
    }
  }

  lemma CompactFields(x: nat, neg: bool)
    requires x < Pow2(256)
    ensures Bytes(x) <= 32 && Mantissa(x) < SIGN && Exponent(x) <= 33 && Compact(x, neg) < 0x1_0000_0000
    ensures Compact(x, neg) / 0x0100_0000 == Exponent(x) && Compact(x, neg) % SIGN == Mantissa(x)
    ensures Compact(x, neg) / SIGN % 2 == 1 <==> neg && x > 0
    ensures x > 0 ==> Mantissa(x) >= 0x8000
  {
    hide Leading, BitLen, Pow2;
    LeadingBound(x);
    LengthBound(x);
    if x == 0 { LeadingZero(); }
  }

  lemma LeadingZero()
    ensures Leading(0, Bytes(0)) == 0
  {
  }

  /** Mantissa and exponent stand for `x` with its low bytes cleared. */
  lemma MeantIs(x: nat, neg: bool)
    requires x < Pow2(256)
    ensures Meant(Compact(x, neg)) == Cleared(x, Lost(x))
  {
    hide Pow2, Quot, Rem, Bytes, Compact;
    CompactFields(x, neg);
    SmallPowers();
    var n, m := Bytes(x), Leading(x, Bytes(x));
    if n <= 3 {
      QuotRemIs(x, x, 1, 0);
      if m >= SIGN && n == 3 {
        Divide256(x);
      } else if m >= SIGN {
        ShortShift(x, 8 * (2 - n));
      } else {
        QuotRemIs(x * Pow2(8 * (3 - n)), x, Pow2(8 * (3 - n)), 0);
      }
    } else if m >= SIGN {
      Pow2At(8 * (n - 2), 256, 8);
      NestedQuotient(x, Pow2(8 * (n - 3)));
    }
  }

  lemma Divide256(x: nat)
    ensures Quot(x, 256) == x / 256
  {
  }

  lemma ShortShift(x: nat, s: nat)
    ensures Times(x, Pow2(s + 8)) / 256 == Times(x, Pow2(s)) && Quot(Times(x, Pow2(s)), Pow2(s)) == x
  {
    hide Pow2, Quot, Rem;
    var h := Pow2(s);
    SmallPowers();
    Pow2At(s + 8, 256, 8);
    MulSwap(x, 256, h);
    assert x * (256 * h) == 256 * (x * h);
    QuotRemIs(x * h, x, h, 0);
  }

  lemma NestedQuotient(x: nat, p: nat)
    requires p > 0
    ensures Quot(x, 256 * p) == Quot(x, p) / 256
  {
    hide Quot, Rem;
    var q := Quot(x, p);
    QuotRem(x, p);
    Distribute(p, q / 256 * 256, q % 256);
    Mul3(q / 256, 256, p);
    MulLe(q % 256, 255, p);
    Distribute(p, 256, 1);
    MulLe(0, q % 256, p);
    QuotRemIs(x, q / 256, 256 * p, q % 256 * p + Rem(x, p));
  }

  /** Expanding the compact form of a 256-bit number gives the number with its low bytes cleared, with its sign
      unless it is zero, and without overflow. */
  lemma RoundTrip(x: nat, neg: bool)
    requires x < Pow2(256)
    ensures Uncompact(Compact(x, neg)) == Uncompacted(Cleared(x, Lost(x)), neg && x > 0, false)
    ensures Lost(x) <= 30
  {
    hide Pow2, Quot, Rem, Bytes, Compact, Meant, Cleared, Mantissa;
    CompactFields(x, neg);
    MeantIs(x, neg);
    OverflowIff(Compact(x, neg));
    ClearedSmaller(x, Lost(x));
    WordIsZero(x, neg);
  }

  /** The shifted mantissa vanishes only for zero. */
  lemma WordIsZero(x: nat, neg: bool)
    requires x < Pow2(256)
    ensures var c := Compact(x, neg);
            x > 0 ==> if c / 0x0100_0000 <= 3 then Meant(c) != 0 else c % SIGN != 0
  {
    hide Pow2, Quot, Rem, Bytes, Compact, Meant, Mantissa, Cleared;
    CompactFields(x, neg);
    MeantIs(x, neg);
    ClearedNone(x);
  }

  lemma ClearedSmaller(x: nat, k: nat)
    ensures Cleared(x, k) <= x < Cleared(x, k) + Pow2(8 * k)
  {
    hide Quot, Rem, Pow2;
    QuotRem(x, Pow2(8 * k));
  }

  /** The compact form is a fixed point of that round trip. */
  lemma FixedPoint(x: nat)
    requires x < Pow2(256)
    ensures Compact(Cleared(x, Lost(x)), false) == Compact(x, false)
  {
    hide Pow2, Quot, Rem, BitLen, Leading, Cleared;
    if Lost(x) == 0 {
      ClearedNone(x);
    } else {
      ClearedBits(x);
      ClearedLeading(x);
    }
  }

  lemma ClearedNone(x: nat)
    ensures Cleared(x, 0) == x
  {
    SmallPowers();
  }

  /** Clearing the lost bytes keeps the length. */
  lemma ClearedBits(x: nat)
    requires 0 < Lost(x)
    ensures BitLen(Cleared(x, Lost(x))) == BitLen(x)
  {
    hide Pow2, Quot, Rem, Leading;
    var k, b := Lost(x), BitLen(x);
    assert x > 0;
    LeadingBound(x);
    Pow2Add(b - 1 - 8 * k, 8 * k);
    MultipleBelow(x, Pow2(8 * k), Pow2(b - 1 - 8 * k));
    ClearedSmaller(x, k);
    BitLenIs(Cleared(x, k), b);
  }

  lemma MultipleBelow(x: nat, p: nat, k: nat)
    requires p > 0 && k * p <= x
    ensures k * p <= Quot(x, p) * p
  {
    hide Quot, Rem;
    var q := Quot(x, p);
    QuotRem(x, p);
    if q < k {
      MulLe(q, k - 1, p);
      Distribute(p, k, 1);
      assert false;
    }
    MulLe(k, q, p);
  }

  lemma ClearedLeading(x: nat)
    requires 0 < Lost(x)
    ensures var (n, m, k) := (Bytes(x), Leading(x, Bytes(x)), Leading(Cleared(x, Lost(x)), Bytes(x)));
            if m >= SIGN then k == m / 256 * 256 else k == m
  {
    hide Pow2, Quot, Rem, Bytes;
    var n, m := Bytes(x), Leading(x, Bytes(x));
    SmallPowers();
    if n <= 3 {
      Divide256(x);
    } else {
      var p := Pow2(8 * (n - 3));
      if m >= SIGN {
        Pow2At(8 * (n - 2), 256, 8);
        NestedQuotient(x, p);
        Mul3(m / 256, 256, p);
        QuotRemIs(Cleared(x, Lost(x)), m / 256 * 256, p, 0);
      } else {
        QuotRemIs(m * p, m, p, 0);
      }
    }
  }
}

/** The conversions on the big integer object. */
module Compact {
  import opened Limbs
  import opened CompactModel
  import opened Arith

  lemma Modulus256(x: BaseUint)
    requires x.pn.Length == 8
    ensures x.Modulus() == Pow2(256)
  {
    PIsPow2(8);
  }

  method SetCompact(x: BaseUint, nCompact: nat) returns (fNegative: bool, fOverflow: bool)
    requires x.pn.Length == 8 && nCompact < B
    modifies x.pn
    ensures Uncompact(nCompact) == Uncompacted(x.Value(), fNegative, fOverflow)
  {
    hide Pow2, Quot, P, Val;
    var nSize := nCompact / 0x0100_0000;
    var nWord := nCompact % SIGN;
    if nSize <= 3 {
      WordFits(nWord, 8 * (3 - nSize));
      nWord := Quot(nWord, Pow2(8 * (3 - nSize)));
      x.Assign(nWord);
    } else {
      x.Assign(nWord);
      x.ShiftLeft(8 * (nSize - 3));
      Modulus256(x);
      RemOfTimes(nWord, Pow2(8 * (nSize - 3)), Pow2(256));
    }
    fNegative := nWord != 0 && nCompact / SIGN % 2 == 1;
    fOverflow := nWord != 0 && (nSize > 34 || (nWord > 0xff && nSize > 33) || (nWord > 0xffff && nSize > 32));
  }

  lemma WordFits(word: nat, s: nat)
    requires word < SIGN
    ensures Quot(word, Pow2(s)) < B * B
  {
    hide Quot, Rem;
    QuotRem(word, Pow2(s));
    MulLe(1, Pow2(s), Quot(word, Pow2(s)));
  }

  /** The three leading bytes of a number of `nSize` bytes. */
  method LeadingBytes(x: BaseUint, nSize: nat) returns (m: nat)
    requires x.pn.Length == 8 && nSize == Bytes(x.Value())
    ensures m == Leading(x.Value(), nSize)
  {
    hide Pow2, Quot, P, Val, Bytes;
    ghost var v := x.Value();
    LeadingBound(v);
    if nSize <= 3 {
      var low := x.GetLow64();
      ShortIsLow(v, nSize);
      m := Times(low, Pow2(8 * (3 - nSize)));
    } else {
      var bn := new BaseUint.Copy(x);
      bn.ShiftRight(8 * (nSize - 3));
      m := bn.GetLow64();
      LowIs(Leading(v, nSize));
    }
  }

  lemma LowIs(v: nat)
    requires v < 0x0100_0000
    ensures v % (B * B) == v
  {
  }

  method GetCompact(x: BaseUint, fNegative: bool) returns (nCompact: nat)
    requires x.pn.Length == 8
    ensures nCompact == CompactModel.Compact(x.Value(), fNegative)
  {
    hide Pow2, Quot, P, Val, BitLen, Leading;
    var bits := x.Bits();
    BitsAre(x.Value(), bits);
    var nSize := (bits + 7) / 8;
    LeadingBound(x.Value());
    nCompact := LeadingBytes(x, nSize);
    if nCompact / SIGN % 2 == 1 {
      nCompact := nCompact / 256;
      nSize := nSize + 1;
    }
    var sign := if fNegative && nCompact != 0 then SIGN else 0;
    nCompact := nSize * 0x0100_0000 + nCompact + sign;
  }

  lemma BitsAre(v: nat, bits: nat)
    requires v < Pow2(bits) && (bits > 0 ==> Pow2(bits - 1) <= v) && (bits == 0 <==> v == 0)
    ensures bits == BitLen(v)
  {
    if bits > 0 { BitLenIs(v, bits); }
  }

  lemma ShortIsLow(v: nat, n: nat)
    requires n == Bytes(v) && n <= 3
    ensures v % (B * B) == v
  {
    SmallPowers();
    Pow2Grows(BitLen(v), 24);
  }
}
