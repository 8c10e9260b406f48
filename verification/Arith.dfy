/** What the limb loops of the big integers compute (src/arith_uint256.cpp, src/arith_uint256.h), limb by limb. */
module ArithModel {
  import opened Limbs

  /** Splitting a limb at a bit: with t * u == B, multiplying by t moves the top bits into the carry. */
  lemma SplitLimb(x: Limb, t: nat, u: nat)
    requires t > 0 && u > 0 && t * u == B && x * t >= 0
    ensures (x * t) % B == Rem(x, u) * t && (x * t) / B == Quot(x, u) && Quot(x, u) < t && Rem(x, u) < u
    ensures Rem(x, u) * t <= B - t
  {
    hide Quot, Rem;
    var q, r := Quot(x, u), Rem(x, u);
    QuotRem(x, u);
    assert x * t == q * B + r * t by {
      Distribute(t, q * u, r);
      Mul3(q, u, t);
    }
    MulLe(r, u - 1, t);
    Distribute(t, u, 1);
    ModUnique(x * t, q, B, r * t);
    if q >= t {
      MulLe(t, q, u);
      assert false;
    }
  }

  lemma Halves(s: nat)
    requires s <= 32
    ensures Pow2(s) * Pow2(32 - s) == B
  {
    Pow2Add(s, 32 - s);
    Pow2Of32();
  }

  // ---------------------------------------------------------------- shifting left

  /** The shifts of a 32-bit word. */
  function Shl32(x: Limb, s: nat): Limb { x * Pow2(s) % B }

  function Shr32(x: Limb, s: nat): (r: Limb) {
    QuotSmaller(x, Pow2(s));
    Quot(x, Pow2(s))
  }

  lemma QuotSmaller(x: nat, d: nat)
    requires d > 0
    ensures Quot(x, d) <= x
  {
    hide Quot, Rem;
    QuotRem(x, d);
    MulLe(1, d, Quot(x, d));
  }

  /** A word shifted left, and its bits that are shifted out. */
  lemma SplitWord(x: Limb, s: nat)
    requires s <= 32
    ensures x * Pow2(s) == Shr32(x, 32 - s) * B + Shl32(x, s)
    ensures Shl32(x, s) == Rem(x, Pow2(32 - s)) * Pow2(s) <= B - Pow2(s) && Shr32(x, 32 - s) < Pow2(s)
    ensures (s == 0 ==> Shr32(x, 32 - s) == 0) && (s == 32 ==> Shl32(x, s) == 0)
  {
    hide Quot, Rem;
    Halves(s);
    MulLe(0, x, Pow2(s));
    SplitLimb(x, Pow2(s), Pow2(32 - s));
    assert Pow2(0) == 1;
    Pow2Of32();
  }

  /** Limb `m` of `a` shifted left by 32 * k + s bits. */
  function LeftLimb(a: seq<Limb>, k: nat, s: nat, m: nat): int
    requires s < 32 && m < |a|
  {
    (if k <= m then Shl32(a[m - k], s) else 0) + (if k < m then Shr32(a[m - k - 1], 32 - s) else 0)
  }

  ghost predicate IsLeft(r: seq<Limb>, a: seq<Limb>, k: nat, s: nat)
    requires s < 32
  {
    |r| == |a| && forall m :: 0 <= m < |a| ==> r[m] == LeftLimb(a, k, s, m)
  }

  function Spill(a: seq<Limb>, s: nat, n: nat): nat
    requires n <= |a| && s < 32
  {
    if n == 0 then 0 else Shr32(a[n - 1], 32 - s)
  }

  lemma {:induction false} LeftPart(r: seq<Limb>, a: seq<Limb>, k: nat, s: nat, n: nat)
    requires s < 32 && IsLeft(r, a, k, s) && k + n <= |a|
    ensures Part(r, k, n) + Spill(a, s, n) * P(n) == Pow2(s) * Part(a, 0, n)
  {
    if n > 0 {
      LeftPart(r, a, k, s, n - 1);
      var t, p, x := Pow2(s), P(n - 1), a[n - 1];
      assert r[k + n - 1] == LeftLimb(a, k, s, k + n - 1) == Shl32(x, s) + Spill(a, s, n - 1);
      SplitWord(x, s);
      LeftStep(Shl32(x, s), Spill(a, s, n - 1), Shr32(x, 32 - s), t, p, x, Part(a, 0, n - 1));
    }
  }

  lemma LeftStep(lo: nat, spill: nat, hi: nat, t: nat, p: nat, x: nat, part: nat)
    requires x * t == hi * B + lo
    ensures (lo + spill) * p == lo * p + spill * p
    ensures lo * p + hi * (B * p) == t * (part + x * p) - t * part
  {
    Distribute(p, lo, spill);
    Distribute(p, hi * B, lo);
    Mul3(hi, B, p);
    Distribute(t, part, x * p);
    MulSwap(t, x, p);
    Mul3(x, t, p);
  }

  /** Shifting left multiplies modulo the width. */
  lemma LeftValue(r: seq<Limb>, a: seq<Limb>, k: nat, s: nat)
    requires s < 32 && IsLeft(r, a, k, s)
    ensures Val(r) == Val(a) * Pow2(32 * k + s) % P(|a|)
  {
    var w, t := |a|, Pow2(s);
    PIsPow2(k);
    Pow2Add(32 * k, s);
    if k >= w {
      PartZero(r, 0, w);
      PAdd(w, k - w);
      var f := Val(a) * (P(k - w) * t);
      assert Val(a) * (P(k) * t) == f * P(w) by {
        Mul3(P(w), P(k - w), t);
        MulSwap(Val(a), P(w), P(k - w) * t);
      }
      ModUnique(f * P(w), f, P(w), 0);
    } else {
      var n := w - k;
      LeftPart(r, a, k, s, n);
      PartZero(r, 0, k);
      PartSplit(r, k, n);
      PartSplit(a, n, k);
      PAdd(k, n);
      PartBound(r, 0, w);
      LeftSum(Val(r), Part(r, k, n), Spill(a, s, n), t, P(k), P(n), Part(a, 0, n), Part(a, n, k), Val(a));
      ModUnique(Val(a) * (P(k) * t), Spill(a, s, n) + t * Part(a, n, k), P(w), Val(r));
    }
  }

  lemma LeftSum(v: nat, part: nat, spill: nat, t: nat, pk: nat, pn: nat, lo: nat, hi: nat, a: nat)
    requires v == pk * part && part + spill * pn == t * lo && a == lo + pn * hi
    ensures a * (pk * t) == (spill + t * hi) * (pk * pn) + v
  {
    calc {
      a * (pk * t);
      { Distribute(pk * t, lo, pn * hi); }
      lo * (pk * t) + (pn * hi) * (pk * t);
      { MulSwap(lo, pk, t); assert lo * t == t * lo; }
      pk * (t * lo) + (pn * hi) * (pk * t);
      { Distribute(pk, part, spill * pn); }
      v + pk * (spill * pn) + (pn * hi) * (pk * t);
      { MulSwap(pk, spill, pn); }
      v + spill * (pk * pn) + (pn * hi) * (pk * t);
      { Regroup(pn, hi, pk, t); }
      v + spill * (pk * pn) + (t * hi) * (pk * pn);
      { Distribute(pk * pn, spill, t * hi); }
      (spill + t * hi) * (pk * pn) + v;
    }
  }

  lemma Regroup(a: nat, b: nat, c: nat, d: nat)
    ensures (a * b) * (c * d) == (d * b) * (c * a)
  {
    Mul3(a * b, c, d);
    assert (a * b) * c == b * (c * a) by { Mul3(b, a, c); }
    assert b * (c * a) * d == (d * b) * (c * a) by { Mul3(d, b, c * a); }
  }

  // ---------------------------------------------------------------- shifting right

  /** Limb `m` of `a` shifted right by 32 * k + s bits. */
  function RightLimb(a: seq<Limb>, k: nat, s: nat, m: nat): int
    requires s < 32 && m < |a|
  {
    (if m + k < |a| then Shr32(a[m + k], s) else 0) + (if m + k + 1 < |a| then Shl32(a[m + k + 1], 32 - s) else 0)
  }

  ghost predicate IsRight(r: seq<Limb>, a: seq<Limb>, k: nat, s: nat)
    requires s < 32
  {
    |r| == |a| && forall m :: 0 <= m < |a| ==> r[m] == RightLimb(a, k, s, m)
  }

  function Rest(a: seq<Limb>, s: nat, i: nat): nat { if i < |a| then Rem(a[i], Pow2(s)) else 0 }

  lemma {:induction false} RightPart(r: seq<Limb>, a: seq<Limb>, k: nat, s: nat, n: nat)
    requires s < 32 && IsRight(r, a, k, s) && k + n <= |a|
    ensures Pow2(s) * Part(r, 0, n) + Rest(a, s, k) == Part(a, k, n) + Rest(a, s, k + n) * P(n)
  {
    hide Quot, Rem;
    if n > 0 {
      RightPart(r, a, k, s, n - 1);
      Halves(s);
      if k + n < |a| { SplitWord(a[k + n], 32 - s); }
      assert r[n - 1] == RightLimb(a, k, s, n - 1) == Quot(a[k + n - 1], Pow2(s)) + Rest(a, s, k + n) * Pow2(32 - s);
      RightStep(Part(r, 0, n - 1), r[n - 1], Pow2(s), Pow2(32 - s), P(n - 1), a[k + n - 1], Rest(a, s, k + n));
    }
  }

  lemma RightStep(part: nat, limb: nat, t: nat, u: nat, p: nat, x: nat, next: nat)
    requires t > 0 && t * u == B && limb == Quot(x, t) + next * u
    ensures t * (part + limb * p) == t * part + (x - Rem(x, t)) * p + next * (B * p)
    ensures (x - Rem(x, t)) * p == x * p - Rem(x, t) * p
  {
    hide Quot, Rem;
    LimbTimes(limb, t, u, x, next);
    Distribute(t, part, limb * p);
    Mul3(t, limb, p);
    Distribute(p, x - Rem(x, t), next * B);
    Distribute(p, x, Rem(x, t));
    Mul3(next, B, p);
  }

  lemma LimbTimes(limb: nat, t: nat, u: nat, x: nat, next: nat)
    requires t > 0 && t * u == B && limb == Quot(x, t) + next * u
    ensures t * limb == x - Rem(x, t) + next * B
  {
    hide Quot, Rem;
    QuotRem(x, t);
    Distribute(t, Quot(x, t), next * u);
    MulSwap(t, next, u);
  }

  /** Shifting right divides. */
  lemma RightValue(r: seq<Limb>, a: seq<Limb>, k: nat, s: nat)
    requires s < 32 && IsRight(r, a, k, s)
    ensures Val(r) == Quot(Val(a), Pow2(32 * k + s))
  {
    hide Quot, Rem, Part, P, Pow2;
    var w, t := |a|, Pow2(s);
    PIsPow2(k);
    Pow2Add(32 * k, s);
    PartBound(a, 0, w);
    if k >= w {
      PartZero(r, 0, w);
      PAdd(w, k - w);
      SmallQuotient(Val(a), P(w), P(k - w), t);
    } else {
      var n := w - k;
      RightPart(r, a, k, s, n);
      PartZero(r, n, k);
      PartSplit(r, n, k);
      PartSplit(a, k, n);
      PartBound(a, 0, k);
      QuotRem(a[k], t);
      RightSum(Val(a), Part(a, 0, k), P(k), t, Val(r), Rest(a, s, k));
    }
  }

  lemma SmallQuotient(a: nat, p: nat, q: nat, t: nat)
    requires a < p && q > 0 && t > 0
    ensures (p * q) * t > 0 && Quot(a, (p * q) * t) == 0
  {
    MulLe(1, q, p);
    MulLe(1, t, p * q);
    ModUnique(a, 0, (p * q) * t, a);
  }

  lemma RightSum(a: nat, lo: nat, pk: nat, t: nat, v: nat, rest: nat)
    requires a == lo + pk * (t * v + rest) && lo < pk && rest < t
    ensures pk * t > 0 && v == Quot(a, pk * t)
  {
    Distribute(pk, t * v, rest);
    assert pk * (t * v) == v * (pk * t) by { Mul3(pk, t, v); }
    MulLe(rest, t - 1, pk);
    Distribute(pk, t, 1);
    ModUnique(a, v, pk * t, pk * rest + lo);
  }
}

/** The big integer object: a fixed array of 32-bit limbs, changed in place. */
module Arith {
  import opened Limbs
  import opened ArithModel

  class BaseUint {
    const pn: array<Limb>

    ghost predicate Valid()
      reads this
    {
      pn.Length >= 2
    }

    ghost function Value(): nat
      reads pn
    {
      Val(pn[..])
    }

    ghost function Modulus(): nat { P(pn.Length) }

    /** From a 64-bit number. */
    constructor (width: nat, b: nat)
      requires width >= 2 && b < B * B
      ensures Valid() && fresh(pn) && pn.Length == width && Value() == b
    {
      pn := new Limb[width](i => 0);
      new;
      pn[0] := b % B;
      pn[1] := b / B;
      TwoLimbs(pn[..], b);
    }

    constructor Copy(b: BaseUint)
      requires b.Valid()
      ensures Valid() && fresh(pn) && pn.Length == b.pn.Length && pn[..] == b.pn[..]
    {
      var n := b.pn.Length;
      pn := new Limb[n](i => 0);
      new;
      for i := 0 to n
        invariant forall j :: 0 <= j < i ==> pn[j] == b.pn[j]
      {
        pn[i] := b.pn[i];
      }
    }

    method Clear()
      modifies pn
      ensures Value() == 0 && forall j :: 0 <= j < pn.Length ==> pn[j] == 0
    {
      for i := 0 to pn.Length
        invariant forall j :: 0 <= j < i ==> pn[j] == 0
      {
        pn[i] := 0;
      }
      PartZero(pn[..], 0, pn.Length);
    }

    /** Takes over a 64-bit number. */
    method Assign(b: nat)
      requires Valid() && b < B * B
      modifies pn
      ensures Value() == b
    {
      Clear();
      pn[0] := b % B;
      pn[1] := b / B;
      TwoLimbs(pn[..], b);
    }

    static lemma TwoLimbs(s: seq<Limb>, b: nat)
      requires |s| >= 2 && b < B * B && s[0] == b % B && s[1] == b / B && forall i :: 2 <= i < |s| ==> s[i] == 0
      ensures Val(s) == b
    {
      PartZero(s, 2, |s| - 2);
      PartSplit(s, 2, |s| - 2);
      assert P(1) == B && P(0) == 1 && Part(s, 0, 1) == s[0];
      assert Part(s, 0, 2) == Part(s, 0, 1) + s[1] * P(1);
    }

    /** The low 64 bits. */
    method GetLow64() returns (r: nat)
      requires Valid()
      ensures r == Value() % (B * B) && r < B * B
    {
      r := pn[0] + pn[1] * B;
      PartSplit(pn[..], 2, pn.Length - 2);
      assert P(1) == B && P(0) == 1 && Part(pn[..], 0, 1) == pn[0];
      assert Part(pn[..], 0, 2) == r && P(2) == B * B;
      ModUnique(Value(), Part(pn[..], 2, pn.Length - 2), B * B, r);
    }

    /** Addition modulo the width; the other operand may be this object. */
    method Add(b: BaseUint)
      requires Valid() && b.pn.Length == pn.Length
      modifies pn
      ensures Value() == (old(Value()) + old(b.Value())) % Modulus()
    {
      ghost var x, y := pn[..], b.pn[..];
      var carry := 0;
      for i := 0 to pn.Length
        invariant 0 <= carry <= 1
        invariant forall j :: i <= j < pn.Length ==> pn[j] == x[j] && b.pn[j] == y[j]
        invariant Part(pn[..], 0, i) + carry * P(i) == Part(x, 0, i) + Part(y, 0, i)
      {
        ghost var before := pn[..];
        var n := carry + pn[i] + b.pn[i];
        assert n < B * B;
        pn[i] := n % B;
        PartSame(before, pn[..], 0, i);
        AddStep(carry, x[i], y[i], P(i));
        carry := n / B;
      }
      PartBound(pn[..], 0, pn.Length);
      ModUnique(Val(x) + Val(y), carry, P(pn.Length), Value());
    }

    static lemma AddStep(carry: nat, a: nat, b: nat, p: nat)
      ensures var n := carry + a + b;
              (n % B) * p + (n / B) * (B * p) == carry * p + a * p + b * p
    {
      CarryStep(carry + a + b, p);
      Distribute(p, carry + a, b);
      Distribute(p, carry, a);
    }

    /** The complement of each limb. */
    method Complement() returns (r: BaseUint)
      requires Valid()
      ensures r.Valid() && fresh(r) && fresh(r.pn) && r.pn.Length == pn.Length
      ensures r.Value() == Modulus() - 1 - Value()
    {
      r := new BaseUint(pn.Length, 0);
      for i := 0 to pn.Length
        invariant Part(r.pn[..], 0, i) + Part(pn[..], 0, i) == P(i) - 1
        invariant unchanged(pn)
      {
        ghost var before := r.pn[..];
        r.pn[i] := B - 1 - pn[i];
        PartSame(before, r.pn[..], 0, i);
        Distribute(P(i), B - 1, pn[i]);
        Distribute(P(i), B, 1);
      }
    }

    method Increment()
      requires Valid()
      modifies pn
      ensures Value() == (old(Value()) + 1) % Modulus()
    {
      hide Part, P;
      ghost var x := pn[..];
      var i := 0;
      NoCarry(x, pn[..]);
      while i < pn.Length
        invariant 0 <= i <= pn.Length
        invariant forall j :: i <= j < pn.Length ==> pn[j] == x[j]
        invariant Part(pn[..], 0, i) == 0 && Part(x, 0, i) == P(i) - 1
      {
        ghost var before := pn[..];
        pn[i] := (pn[i] + 1) % B;
        PartSame(before, pn[..], 0, i);
        if pn[i] != 0 {
          IncrementEnds(x, pn[..], i);
          return;
        }
        CarryOn(x, pn[..], i);
        i := i + 1;
      }
      ModUnique(P(pn.Length), 1, P(pn.Length), 0);
    }

    static lemma NoCarry(x: seq<Limb>, y: seq<Limb>)
      ensures Part(x, 0, 0) == 0 && Part(y, 0, 0) == 0 && P(0) == 1
    {
    }

    static lemma CarryOn(x: seq<Limb>, y: seq<Limb>, i: nat)
      requires |x| == |y| && i < |x| && x[i] == B - 1 && y[i] == 0 && Part(x, 0, i) == P(i) - 1 && Part(y, 0, i) == 0
      ensures Part(x, 0, i + 1) == P(i + 1) - 1 && Part(y, 0, i + 1) == 0
    {
      Distribute(P(i), B, 1);
    }

    static lemma IncrementEnds(x: seq<Limb>, y: seq<Limb>, i: nat)
      requires |x| == |y| && i < |x| && y[i] > 0 && x[i] == y[i] - 1 && forall j :: i < j < |x| ==> y[j] == x[j]
      requires Part(x, 0, i) == P(i) - 1 && Part(y, 0, i) == 0
      ensures Val(y) == (Val(x) + 1) % P(|x|)
    {
      var n := |x| - i - 1;
      Distribute(P(i), x[i], 1);
      PartSame(x, y, i + 1, n);
      PartSplit(x, i + 1, n);
      PartSplit(y, i + 1, n);
      PartBound(y, 0, |y|);
      ModUnique(Val(x) + 1, 0, P(|x|), Val(y));
    }

    /** Two's complement. */
    method Negated() returns (r: BaseUint)
      requires Valid()
      ensures r.Valid() && fresh(r) && fresh(r.pn) && r.pn.Length == pn.Length
      ensures r.Value() == (Modulus() - Value()) % Modulus()
    {
      PartBound(pn[..], 0, pn.Length);
      r := Complement();
      r.Increment();
    }

    /** Subtraction modulo the width; the other operand may be this object. */
    method Sub(b: BaseUint)
      requires Valid() && b.Valid() && b.pn.Length == pn.Length
      modifies pn
      ensures Value() == (old(Value()) - old(b.Value())) % Modulus()
    {
      hide Val, P;
      ghost var x, y, m := Value(), b.Value(), Modulus();
      InRange();
      b.InRange();
      var n := b.Negated();
      Add(n);
      SubSum(x, y, m);
    }

    lemma InRange()
      ensures Value() < Modulus()
    {
      PartBound(pn[..], 0, pn.Length);
    }

    static lemma SubSum(x: nat, y: nat, m: nat)
      requires x < m && y < m
      ensures (x + (m - y) % m) % m == (x - y) % m
    {
      if y == 0 {
        ModUnique(m, 1, m, 0);
      } else {
        ModUnique(m - y, 0, m, m - y);
        if x >= y {
          ModUnique(x + m - y, 1, m, x - y);
          ModUnique(x - y, 0, m, x - y);
        } else {
          ModUnique(x + m - y, 0, m, x + m - y);
          ModUnique(x - y, -1, m, x + m - y);
        }
      }
    }

    /** Multiplication by a 32-bit number. */
    method MulSmall(b32: Limb)
      requires Valid()
      modifies pn
      ensures Value() == old(Value()) * b32 % Modulus()
    {
      ghost var x := pn[..];
      var carry := 0;
      for i := 0 to pn.Length
        invariant 0 <= carry < B
        invariant forall j :: i <= j < pn.Length ==> pn[j] == x[j]
        invariant Part(pn[..], 0, i) + carry * P(i) == Part(x, 0, i) * b32
      {
        ghost var before := pn[..];
        var n := Wide(carry, 0, b32, pn[i]);
        pn[i] := n % B;
        PartSame(before, pn[..], 0, i);
        MulStep(carry, 0, b32, x[i], P(i));
        assert (b32 * x[i]) * P(i) == (x[i] * P(i)) * b32 by { Mul3(b32, x[i], P(i)); }
        Distribute(b32, Part(x, 0, i), x[i] * P(i));
        carry := n / B;
      }
      PartBound(pn[..], 0, pn.Length);
      ModUnique(Val(x) * b32, carry, P(pn.Length), Value());
    }

    /** A limb product with a limb and a carry added, which still fits in 64 bits. */
    static function Wide(carry: Limb, c: Limb, a: Limb, b: Limb): (n: nat)
      ensures 0 <= n < B * B
    {
      ProductFits(carry, c, a, b);
      carry + c + a * b
    }

    static lemma ProductFits(carry: Limb, c: Limb, a: Limb, b: Limb)
      ensures 0 <= carry + c + a * b < B * B
    {
      var top := B - 1;
      MulLe(0, a, b);
      MulLe(a, top, b);
      MulLe(b, top, top);
      assert a * b <= top * top;
    }

    static lemma MulStep(carry: nat, c: nat, a: nat, b: nat, p: nat)
      ensures var n := carry + c + a * b;
              (n % B) * p + (n / B) * (B * p) == carry * p + c * p + (a * b) * p
    {
      CarryStep(carry + c + a * b, p);
      Distribute(p, carry + c, a * b);
      Distribute(p, carry, c);
    }

    predicate AllZero()
      reads pn
    {
      forall k :: 0 <= k < pn.Length ==> pn[k] == 0
    }

    /** `r` is `x` with `aj` times the low `i` limbs of `y` added from limb `j` on, but for the carry. */
    static ghost predicate RowDone(r: seq<Limb>, x: seq<Limb>, y: seq<Limb>, j: nat, i: nat, aj: nat, carry: nat)
      requires |r| == |x| == |y| && j + i <= |x|
    {
      Part(r, j, i) + carry * P(i) == Part(x, j, i) + aj * Part(y, 0, i)
    }

    static lemma RowStep(before: seq<Limb>, r: seq<Limb>, x: seq<Limb>, y: seq<Limb>, j: nat, i: nat, aj: Limb, carry: Limb)
      requires |before| == |r| == |x| == |y| && j + i < |x| && before[j + i] == x[j + i]
      requires RowDone(before, x, y, j, i, aj, carry)
      requires r == before[j + i := Wide(carry, x[j + i], aj, y[i]) % B]
      ensures RowDone(r, x, y, j, i + 1, aj, Wide(carry, x[j + i], aj, y[i]) / B)
    {
      MulStep(carry, x[j + i], aj, y[i], P(i));
      ProductStep(aj, Part(y, 0, i), y[i], P(i));
      PartSame(before, r, j, i);
    }

    static lemma RowEnd(r: seq<Limb>, x: seq<Limb>, y: seq<Limb>, j: nat, aj: Limb, carry: Limb) returns (q: nat)
      requires |r| == |x| == |y| && j < |x| && RowDone(r, x, y, j, |x| - j, aj, carry)
      requires forall k :: 0 <= k < j ==> r[k] == x[k]
      ensures Val(r) + q * P(|x|) == Val(x) + P(j) * (aj * Val(y))
    {
      var n := |x| - j;
      PartSame(x, r, 0, j);
      PartSplit(x, j, n);
      PartSplit(r, j, n);
      PartSplit(y, n, j);
      PAdd(j, n);
      MulLe(0, aj, Part(y, n, j));
      q := carry + aj * Part(y, n, j);
      ProductSum(Part(x, 0, j), Part(x, j, n), Part(r, j, n), carry, aj, Part(y, 0, n), Part(y, n, j), P(j), P(n));
    }

    /** Adds a shifted multiple of `b`, as one round of the long multiplication does. `q` counts what fell off the
        top. If `b` is this very number, already cleared, nothing changes. */
    method AddProduct(j: nat, aj: Limb, b: BaseUint) returns (ghost q: nat)
      requires Valid() && b.pn.Length == pn.Length && j < pn.Length
      requires b.pn == pn ==> AllZero()
      modifies pn
      ensures b.pn == pn ==> AllZero()
      ensures b.pn != pn ==> Value() + q * Modulus() == old(Value()) + P(j) * (aj * b.Value())
    {
      hide RowDone, Val, P, Wide;
      ghost var x, y := pn[..], b.pn[..];
      var carry: Limb := 0;
      q := 0;
      WideZero(aj);
      RowStart(x, y, j, aj);
      for i := 0 to pn.Length - j
        invariant forall k :: 0 <= k < j || j + i <= k < pn.Length ==> pn[k] == x[k]
        invariant b.pn == pn ==> AllZero() && carry == 0
        invariant b.pn != pn ==> b.pn[..] == y && RowDone(pn[..], x, y, j, i, aj, carry)
      {
        ghost var before := pn[..];
        var n := Wide(carry, pn[i + j], aj, b.pn[i]);
        pn[i + j] := n % B;
        if b.pn != pn {
          RowStep(before, pn[..], x, y, j, i, aj, carry);
        }
        carry := n / B;
      }
      if b.pn != pn {
        q := RowEnd(pn[..], x, y, j, aj, carry);
      }
    }

    static lemma WideZero(a: Limb)
      ensures Wide(0, 0, a, 0) == 0
    {
    }

    static lemma RowStart(x: seq<Limb>, y: seq<Limb>, j: nat, aj: Limb)
      requires |x| == |y| && j < |x|
      ensures RowDone(x, x, y, j, 0, aj, 0)
    {
    }

    static lemma ProductStep(a: nat, part: nat, y: nat, p: nat)
      ensures a * (part + y * p) == a * part + (a * y) * p
    {
      Distribute(a, part, y * p);
      Mul3(a, y, p);
    }

    static lemma ProductSum(lo: nat, x: nat, r: nat, carry: nat, a: nat, y: nat, top: nat, pj: nat, pn: nat)
      requires r + carry * pn == x + a * y
      ensures lo + pj * r + (carry + a * top) * (pj * pn) == lo + pj * x + pj * (a * (y + pn * top))
    {
      calc {
        lo + pj * r + (carry + a * top) * (pj * pn);
        { Distribute(pj * pn, carry, a * top); }
        lo + pj * r + carry * (pj * pn) + (a * top) * (pj * pn);
        { MulSwap(carry, pj, pn); Distribute(pj, r, carry * pn); }
        lo + pj * (x + a * y) + (a * top) * (pj * pn);
        { Distribute(pj, x, a * y); }
        lo + pj * x + pj * (a * y) + (a * top) * (pj * pn);
        { Regroup2(a, top, pj, pn); }
        lo + pj * x + pj * (a * y) + pj * (a * (pn * top));
        { Distribute(a, y, pn * top); Distribute(pj, a * y, a * (pn * top)); }
        lo + pj * x + pj * (a * (y + pn * top));
      }
    }

    static lemma Regroup2(a: nat, t: nat, p: nat, q: nat)
      ensures (a * t) * (p * q) == p * (a * (q * t))
    {
      MulSwap(a * t, p, q);
      Mul3(a, t, q);
      assert t * q == q * t;
    }

    /** Multiplication modulo the width. A number multiplied by itself in place becomes 0, because it is cleared
        before it is read. */
    method Mul(b: BaseUint)
      requires Valid() && b.pn.Length == pn.Length
      modifies pn
      ensures b.pn != pn ==> Value() == old(Value()) * old(b.Value()) % Modulus()
      ensures b.pn == pn ==> Value() == 0
    {
      hide Part, P;
      var a := pn[..];
      ghost var y, m := b.Value(), Modulus();
      Clear();
      ghost var q: nat := 0;
      NoLimbs(a);
      for j := 0 to pn.Length
        invariant b.pn == pn ==> AllZero()
        invariant b.pn != pn ==> b.Value() == y
        invariant b.pn != pn ==> Value() + q * m == Part(a, 0, j) * y
      {
        ghost var d := AddProduct(j, a[j], b);
        MulRound(a, j, y, q, d, m);
        q := q + d;
      }
      if b.pn == pn {
        PartZero(pn[..], 0, pn.Length);
      } else {
        InRange();
        ModUnique(Val(a) * y, q, m, Value());
      }
    }

    static lemma NoLimbs(a: seq<Limb>)
      ensures Part(a, 0, 0) == 0
    {
    }

    static lemma MulRound(a: seq<Limb>, j: nat, y: nat, q: nat, d: nat, m: nat)
      requires j < |a|
      ensures Part(a, 0, j + 1) * y == Part(a, 0, j) * y + P(j) * (a[j] * y) && (q + d) * m == q * m + d * m
    {
      Distribute(y, Part(a, 0, j), a[j] * P(j));
      Mul3(P(j), a[j], y);
      Distribute(m, q, d);
    }

    method ShiftLeft(shift: nat)
      requires Valid()
      modifies pn
      ensures Value() == old(Value()) * Pow2(shift) % Modulus()
    {
      hide Pow2, Or, Val, P, Shl32, Shr32, LeftDone, LeftLimb;
      var a := pn[..];
      Clear();
      var k, s := shift / 32, shift % 32;
      LeftStart(pn[..], a, k, s);
      for i := 0 to pn.Length
        invariant LeftDone(pn[..], a, k, s, i)
      {
        ghost var before := pn[..];
        LeftHigh(before, a, k, s, i);
        if i + k + 1 < pn.Length && s != 0 {
          pn[i + k + 1] := Or(pn[i + k + 1], Shr32(a[i], 32 - s));
        }
        ghost var between := pn[..];
        LeftLow(before, between, a, k, s, i);
        if i + k < pn.Length {
          pn[i + k] := Or(pn[i + k], Shl32(a[i], s));
        }
        LeftTurn(before, between, pn[..], a, k, s, i);
      }
      LeftEnd(pn[..], a, k, s);
      LeftValue(pn[..], a, k, s);
    }

    /** The left shift after `i` turns of its loop: limbs below `i + k` are done, the next has its high part. */
    static ghost predicate LeftDone(r: seq<Limb>, a: seq<Limb>, k: nat, s: nat, i: nat) {
      && |r| == |a| && s < 32 && i <= |a|
      && (forall m :: 0 <= m < |r| && m < i + k ==> r[m] == LeftLimb(a, k, s, m))
      && (i + k < |r| ==> r[i + k] == if i > 0 then Shr32(a[i - 1], 32 - s) else 0)
      && (forall m :: i + k < m < |r| ==> r[m] == 0)
    }

    static lemma LeftStart(r: seq<Limb>, a: seq<Limb>, k: nat, s: nat)
      requires |r| == |a| && s < 32 && forall m :: 0 <= m < |r| ==> r[m] == 0
      ensures LeftDone(r, a, k, s, 0)
    {
    }

    /** The first assignment of a turn writes into a limb that is still 0. */
    static lemma LeftHigh(r: seq<Limb>, a: seq<Limb>, k: nat, s: nat, i: nat)
      requires LeftDone(r, a, k, s, i) && i < |a|
      ensures i + k + 1 < |r| ==> r[i + k + 1] == 0 && Or(r[i + k + 1], Shr32(a[i], 32 - s)) == Shr32(a[i], 32 - s)
      ensures s == 0 ==> Shr32(a[i], 32 - s) == 0
    {
      hide Or, Shl32, Shr32, LeftLimb;
      OrFromZero(Shr32(a[i], 32 - s));
      SplitWord(a[i], s);
    }

    /** The second one does not overflow the limb and completes it. */
    static lemma LeftLow(r: seq<Limb>, t: seq<Limb>, a: seq<Limb>, k: nat, s: nat, i: nat)
      requires LeftDone(r, a, k, s, i) && i < |a| == |t| && (i + k < |t| ==> t[i + k] == r[i + k])
      ensures i + k < |t| ==> Or(t[i + k], Shl32(a[i], s)) == LeftLimb(a, k, s, i + k) < B
    {
      hide Or, Shl32, Shr32;
      WordsFit(if i > 0 then a[i - 1] else 0, a[i], s);
      ZeroWord(32 - s);
    }

    static lemma LeftTurn(r: seq<Limb>, t: seq<Limb>, u: seq<Limb>, a: seq<Limb>, k: nat, s: nat, i: nat)
      requires LeftDone(r, a, k, s, i) && i < |a| == |t| == |u|
      requires t == if i + k + 1 < |r| then r[i + k + 1 := t[i + k + 1]] else r
      requires u == if i + k < |r| then t[i + k := u[i + k]] else t
      requires i + k + 1 < |r| ==> t[i + k + 1] == Shr32(a[i], 32 - s)
      requires i + k < |r| ==> u[i + k] == LeftLimb(a, k, s, i + k)
      ensures LeftDone(u, a, k, s, i + 1)
    {
      hide LeftLimb, Shr32;
    }

    static lemma LeftEnd(r: seq<Limb>, a: seq<Limb>, k: nat, s: nat)
      requires LeftDone(r, a, k, s, |a|)
      ensures IsLeft(r, a, k, s)
    {
      hide Shl32, Shr32, LeftLimb;
    }

    static lemma OrFromZero(y: nat)
      ensures Or(0, y) == y
    {
      OrCommutes(0, y);
      OrZero(y);
    }

    static lemma ZeroWord(s: nat)
      ensures Shr32(0, s) == 0
    {
      QuotSmaller(0, Pow2(s));
    }

    /** The bits that one word takes from another do not overlap its own. */
    static lemma WordsFit(x: Limb, y: Limb, s: nat)
      requires s <= 32
      ensures Or(Shr32(x, 32 - s), Shl32(y, s)) == Shr32(x, 32 - s) + Shl32(y, s) < B
    {
      hide Shl32, Shr32, Quot, Rem;
      SplitWord(x, s);
      SplitWord(y, s);
      OrDisjoint(Rem(y, Pow2(32 - s)), s, Shr32(x, 32 - s));
      OrCommutes(Shr32(x, 32 - s), Shl32(y, s));
    }

    method ShiftRight(shift: nat)
      requires Valid()
      modifies pn
      ensures Value() == Quot(old(Value()), Pow2(shift))
    {
      hide Pow2, Or, Val, P, Shl32, Shr32, Quot, RightDone, RightLimb;
      var a := pn[..];
      Clear();
      var k, s := shift / 32, shift % 32;
      RightStart(pn[..], a, k, s);
      for i := 0 to pn.Length
        invariant RightDone(pn[..], a, k, s, i)
      {
        ghost var before := pn[..];
        RightLow(before, a, k, s, i);
        if i - k - 1 >= 0 && s != 0 {
          pn[i - k - 1] := Or(pn[i - k - 1], Shl32(a[i], 32 - s));
        }
        RightHigh(before, pn[..], a, k, s, i);
        ghost var between := pn[..];
        if i - k >= 0 {
          pn[i - k] := Or(pn[i - k], Shr32(a[i], s));
        }
        RightTurn(before, between, pn[..], a, k, s, i);
      }
      RightEnd(pn[..], a, k, s);
      RightValue(pn[..], a, k, s);
    }

    /** The right shift after `i` turns of its loop: limbs below `i - k - 1` are done, the next has its low part. */
    static ghost predicate RightDone(r: seq<Limb>, a: seq<Limb>, k: nat, s: nat, i: nat) {
      && |r| == |a| && s < 32 && i <= |a|
      && (forall m :: 0 <= m < i - k - 1 ==> r[m] == RightLimb(a, k, s, m))
      && (i >= k + 1 ==> r[i - k - 1] == Shr32(a[i - 1], s))
      && (forall m :: 0 <= m < |r| && i - k <= m ==> r[m] == 0)
    }

    static lemma RightStart(r: seq<Limb>, a: seq<Limb>, k: nat, s: nat)
      requires |r| == |a| && s < 32 && forall m :: 0 <= m < |r| ==> r[m] == 0
      ensures RightDone(r, a, k, s, 0)
    {
    }

    /** The first assignment of a turn does not overflow the limb and completes it. */
    static lemma RightLow(r: seq<Limb>, a: seq<Limb>, k: nat, s: nat, i: nat)
      requires RightDone(r, a, k, s, i) && i < |a|
      ensures i - k - 1 >= 0 && s != 0 ==>
                Or(r[i - k - 1], Shl32(a[i], 32 - s)) == RightLimb(a, k, s, i - k - 1) < B
      ensures i - k - 1 >= 0 && s == 0 ==> r[i - k - 1] == RightLimb(a, k, s, i - k - 1)
    {
      hide Or, Shl32, Shr32;
      if i - k - 1 >= 0 {
        if s != 0 { WordsFit(a[i - 1], a[i], 32 - s); } else { NoShift(a[i]); }
      }
    }

    static lemma NoShift(x: Limb)
      ensures Shl32(x, 32) == 0
    {
      Pow2Of32();
      ModUnique(x * B, x, B, 0);
    }

    /** The second one writes into a limb that is still 0. */
    static lemma RightHigh(r: seq<Limb>, t: seq<Limb>, a: seq<Limb>, k: nat, s: nat, i: nat)
      requires RightDone(r, a, k, s, i) && i < |a| == |t| && (i - k >= 0 ==> t[i - k] == r[i - k])
      ensures i - k >= 0 ==> t[i - k] == 0 && Or(t[i - k], Shr32(a[i], s)) == Shr32(a[i], s)
    {
      hide Or, Shl32, Shr32;
      OrFromZero(Shr32(a[i], s));
    }

    static lemma RightTurn(r: seq<Limb>, t: seq<Limb>, u: seq<Limb>, a: seq<Limb>, k: nat, s: nat, i: nat)
      requires RightDone(r, a, k, s, i) && i < |a| == |t| == |u|
      requires t == if i - k - 1 >= 0 then r[i - k - 1 := t[i - k - 1]] else r
      requires u == if i - k >= 0 then t[i - k := u[i - k]] else t
      requires i - k - 1 >= 0 ==> t[i - k - 1] == RightLimb(a, k, s, i - k - 1)
      requires i - k >= 0 ==> u[i - k] == Shr32(a[i], s)
      ensures RightDone(u, a, k, s, i + 1)
    {
      hide RightLimb, Shr32;
    }

    static lemma RightEnd(r: seq<Limb>, a: seq<Limb>, k: nat, s: nat)
      requires RightDone(r, a, k, s, |a|)
      ensures IsRight(r, a, k, s)
    {
      hide Shl32, Shr32;
    }

    method CompareTo(b: BaseUint) returns (r: int)
      requires Valid() && b.pn.Length == pn.Length
      ensures r == -1 <==> Value() < b.Value()
      ensures r == 0 <==> Value() == b.Value()
      ensures r == 1 <==> Value() > b.Value()
    {
      var i := pn.Length;
      while i > 0
        invariant 0 <= i <= pn.Length && forall j :: i <= j < pn.Length ==> pn[j] == b.pn[j]
      {
        i := i - 1;
        if pn[i] < b.pn[i] {
          LimbDecides(pn[..], b.pn[..], i);
          return -1;
        }
        if pn[i] > b.pn[i] {
          LimbDecides(b.pn[..], pn[..], i);
          return 1;
        }
      }
      assert pn[..] == b.pn[..];
      return 0;
    }

    static lemma LimbDecides(x: seq<Limb>, y: seq<Limb>, i: nat)
      requires |x| == |y| && i < |x| && x[i] < y[i] && forall j :: i < j < |x| ==> x[j] == y[j]
      ensures Val(x) < Val(y)
    {
      var n := |x| - i - 1;
      PartSame(x, y, i + 1, n);
      PartSplit(x, i + 1, n);
      PartSplit(y, i + 1, n);
      PartBound(x, 0, i);
      MulLe(x[i], y[i] - 1, P(i));
      Distribute(P(i), y[i], 1);
    }

    /** The position of the highest set bit plus one, or 0. */
    method Bits() returns (r: nat)
      requires Valid()
      ensures Value() < Pow2(r) && (r > 0 ==> Pow2(r - 1) <= Value())
      ensures r <= 32 * pn.Length && (r == 0 <==> Value() == 0)
    {
      var pos := pn.Length;
      while pos > 0
        invariant 0 <= pos <= pn.Length && forall j :: pos <= j < pn.Length ==> pn[j] == 0
      {
        pos := pos - 1;
        if pn[pos] != 0 {
          var bits := 31;
          Pow2Of32();
          while bits > 0
            invariant 0 <= bits <= 31 && pn[pos] < Pow2(bits + 1)
          {
            if Quot(pn[pos], Pow2(bits)) % 2 == 1 {
              BitIsTop(pn[pos], bits);
              TopLimb(pn[..], pos, bits);
              return 32 * pos + bits + 1;
            }
            BitIsTop(pn[pos], bits);
            bits := bits - 1;
          }
          TopLimb(pn[..], pos, 0);
          return 32 * pos + 1;
        }
      }
      PartZero(pn[..], 0, pn.Length);
      return 0;
    }

    static lemma BitIsTop(x: nat, bit: nat)
      requires x < Pow2(bit + 1)
      ensures Quot(x, Pow2(bit)) % 2 == 1 <==> x >= Pow2(bit)
    {
      hide Quot;
      var p := Pow2(bit);
      if x >= p {
        QuotRemIs(x, 1, p, x - p);
      } else {
        QuotRemIs(x, 0, p, x);
      }
    }

    static lemma TopLimb(s: seq<Limb>, pos: nat, bit: nat)
      requires pos < |s| && bit < 32 && Pow2(bit) <= s[pos] < Pow2(bit + 1) && forall j :: pos < j < |s| ==> s[j] == 0
      ensures Pow2(32 * pos + bit) <= Val(s) < Pow2(32 * pos + bit + 1)
    {
      var n := |s| - pos - 1;
      PartZero(s, pos + 1, n);
      PartSplit(s, pos + 1, n);
      PartBound(s, 0, pos);
      var p := P(pos);
      PIsPow2(pos);
      Pow2Add(32 * pos, bit);
      Pow2Add(32 * pos, bit + 1);
      MulLe(Pow2(bit), s[pos], p);
      MulLe(s[pos], Pow2(bit + 1) - 1, p);
      Distribute(p, Pow2(bit + 1), 1);
    }

    // ------------------------------------------------------------ division

    /** The low `n` bits are clear. */
    static ghost predicate LowClear(s: seq<Limb>, n: nat) {
      forall k :: 0 <= k < |s| ==>
        && (32 * k + 32 <= n ==> s[k] == 0)
        && (32 * k < n < 32 * k + 32 ==> Rem(s[k], Pow2(n - 32 * k)) == 0)
    }

    static lemma MultipleLess(x: nat, n: nat)
      requires n < 32 && x < B && Rem(x, Pow2(n + 1)) == 0
      ensures x + Pow2(n) < B && Or(x, Pow2(n)) == x + Pow2(n)
      ensures Rem(x, Pow2(n)) == 0 && Rem(x + Pow2(n), Pow2(n)) == 0
    {
      hide Quot, Rem;
      var p, q := Pow2(n), Quot(x, Pow2(n + 1));
      QuotRem(x, Pow2(n + 1));
      OrDisjoint(q, n + 1, p);
      assert x == (2 * q) * p by { Mul3(q, 2, p); }
      QuotRemIs(x, 2 * q, p, 0);
      Distribute(p, 2 * q, 1);
      QuotRemIs(x + p, 2 * q + 1, p, 0);
      Halves(n + 1);
      MultipleFits(q, Pow2(n + 1), Pow2(31 - n));
    }

    static lemma MultipleFits(q: nat, p: nat, u: nat)
      requires p > 0 && p * u == B && q * p < B
      ensures q * p <= B - p
    {
      if q >= u {
        MulLe(u, q, p);
        assert false;
      }
      MulLe(q, u - 1, p);
      Distribute(p, u, 1);
    }

    static lemma LowerClear(s: seq<Limb>, n: nat)
      requires LowClear(s, n + 1)
      ensures LowClear(s, n)
    {
      forall k | 0 <= k < |s| && 32 * k < n < 32 * k + 32 ensures Rem(s[k], Pow2(n - 32 * k)) == 0 {
        ClearLimb(s, n, k);
        MultipleLess(s[k], n - 32 * k);
      }
    }

    static lemma ClearLimb(s: seq<Limb>, n: nat, k: nat)
      requires LowClear(s, n + 1) && k < |s| && 32 * k <= n < 32 * k + 32
      ensures Rem(s[k], Pow2(n - 32 * k + 1)) == 0
    {
      if n + 1 == 32 * k + 32 {
        assert s[k] == 0;
        QuotRemIs(0, 0, Pow2(32), 0);
      }
    }

    method SetBit(n: nat)
      requires Valid() && n < 32 * pn.Length && LowClear(pn[..], n + 1)
      modifies pn
      ensures Value() == old(Value()) + Pow2(n) && LowClear(pn[..], n)
    {
      hide Rem, P, Pow2;
      ghost var x := pn[..];
      var k, b := n / 32, n % 32;
      ClearLimb(x, n, k);
      MultipleLess(x[k], b);
      LowerClear(x, n);
      pn[k] := Or(pn[k], Pow2(b));
      BitAdds(x, pn[..], k, b);
    }

    static lemma BitAdds(x: seq<Limb>, y: seq<Limb>, k: nat, b: nat)
      requires |x| == |y| && k < |x| && y[k] == x[k] + Pow2(b) as int && forall j :: 0 <= j < |x| && j != k ==> y[j] == x[j]
      ensures Val(y) == Val(x) + Pow2(32 * k + b)
    {
      var n := |x| - k - 1;
      PartSame(x, y, 0, k);
      PartSame(x, y, k + 1, n);
      PartSplit(x, k + 1, n);
      PartSplit(y, k + 1, n);
      Distribute(P(k), x[k], Pow2(b));
      PIsPow2(k);
      Pow2Add(32 * k, b);
    }

    /** Division by shifting and subtracting. It fails on a zero divisor, with this number already cleared. */
    method Div(b: BaseUint) returns (ok: bool)
      requires Valid() && b.Valid() && b.pn.Length == pn.Length
      modifies pn
      ensures ok <==> old(b.Value()) != 0
      ensures ok ==> Value() == Quot(old(Value()), old(b.Value()))
      ensures !ok ==> Value() == 0
    {
      hide Val, P, Pow2, LowClear, Quot;
      ghost var N, D := Value(), b.Value();
      var div := new BaseUint.Copy(b);
      var num := new BaseUint.Copy(this);
      Clear();
      var numBits := num.Bits();
      var divBits := div.Bits();
      if divBits == 0 { return false; }
      if divBits > numBits {
        SmallNumerator(N, D, numBits, divBits);
        return true;
      }
      var shift := numBits - divBits;
      AlignFits(N, D, numBits, divBits, pn.Length);
      div.ShiftLeft(shift);
      ClearAll(shift + 1);
      while shift >= 0
        invariant -1 <= shift < 32 * pn.Length
        invariant fresh(div.pn) && fresh(num.pn) && div.pn != num.pn && div.pn.Length == num.pn.Length == pn.Length
        invariant LowClear(pn[..], shift + 1)
        invariant shift >= 0 ==> div.Value() == D * Pow2(shift)
        invariant N == Value() * D + num.Value() && num.Value() < D * Pow2(shift + 1)
      {
        DivideTurn(num, div, shift, N, D);
        shift := shift - 1;
      }
      QuotientIs(N, D, Value(), num.Value());
      return true;
    }

    /** One turn of the division: a bit of the quotient, and the divisor shifted back. */
    method DivideTurn(num: BaseUint, div: BaseUint, shift: nat, ghost N: nat, ghost D: nat)
      requires Valid() && num.pn.Length == div.pn.Length == pn.Length && shift < 32 * pn.Length
      requires pn != num.pn && pn != div.pn && num.pn != div.pn
      requires LowClear(pn[..], shift + 1) && div.Value() == D * Pow2(shift)
      requires N == Value() * D + num.Value() && num.Value() < D * Pow2(shift + 1)
      modifies pn, num.pn, div.pn
      ensures LowClear(pn[..], shift) && (shift > 0 ==> div.Value() == D * Pow2(shift - 1))
      ensures N == Value() * D + num.Value() && num.Value() < D * Pow2(shift)
    {
      hide Val, P, Pow2, LowClear, Quot;
      ghost var q, r := Value(), num.Value();
      DivideStep(q, D, r, shift);
      num.InRange();
      var c := num.CompareTo(div);
      if c >= 0 {
        ModUnique(r - div.Value(), 0, Modulus(), r - div.Value());
        num.Sub(div);
        SetBit(shift);
      } else {
        LowerClear(pn[..], shift);
      }
      div.ShiftRight(1);
    }

    lemma ClearAll(n: nat)
      requires AllZero()
      ensures LowClear(pn[..], n)
    {
      forall k | 0 <= k < pn.Length && 32 * k < n < 32 * k + 32 ensures Rem(pn[k], Pow2(n - 32 * k)) == 0 {
        QuotRemIs(0, 0, Pow2(n - 32 * k), 0);
      }
    }

    static lemma SmallNumerator(n: nat, d: nat, numBits: nat, divBits: nat)
      requires n < Pow2(numBits) && 0 < divBits && Pow2(divBits - 1) <= d && divBits > numBits
      ensures d > 0 && Quot(n, d) == 0
    {
      Pow2Grows(numBits, divBits - 1);
      ModUnique(n, 0, d, n);
    }

    /** The aligned divisor fits the width and is more than half the numerator. */
    static lemma AlignFits(n: nat, d: nat, numBits: nat, divBits: nat, width: nat)
      requires n < Pow2(numBits) && 0 < divBits <= numBits <= 32 * width && Pow2(divBits - 1) <= d < Pow2(divBits)
      ensures var shift := numBits - divBits;
              d * Pow2(shift) % P(width) == d * Pow2(shift) && n < d * Pow2(shift + 1)
    {
      hide Pow2, P;
      var shift := numBits - divBits;
      Pow2Add(divBits, shift);
      Pow2Add(divBits - 1, shift + 1);
      MulLe(d, Pow2(divBits), Pow2(shift));
      MulLe(d + 1, Pow2(divBits), Pow2(shift));
      Distribute(Pow2(shift), d, 1);
      Pow2Grows(numBits, 32 * width);
      PIsPow2(width);
      ModUnique(d * Pow2(shift), 0, P(width), d * Pow2(shift));
      MulLe(Pow2(divBits - 1), d, Pow2(shift + 1));
    }

    /** What one round of the division does to quotient and remainder. */
    static lemma DivideStep(q: nat, d: nat, r: nat, shift: nat)
      requires r < d * Pow2(shift + 1)
      ensures r >= d * Pow2(shift) ==>
                && q * d + r == (q + Pow2(shift)) * d + (r - d * Pow2(shift)) && r - d * Pow2(shift) < d * Pow2(shift)
      ensures shift > 0 ==> Quot(d * Pow2(shift), Pow2(1)) == d * Pow2(shift - 1)
    {
      assert d * Pow2(shift + 1) == 2 * (d * Pow2(shift)) by { MulSwap(d, 2, Pow2(shift)); }
      Distribute(d, q, Pow2(shift));
      if shift > 0 {
        MulSwap(d, 2, Pow2(shift - 1));
        assert Pow2(1) == 2;
      }
    }

    static lemma QuotientIs(n: nat, d: nat, q: nat, r: nat)
      requires n == q * d + r && r < d * Pow2(0)
      ensures d > 0 && q == Quot(n, d)
    {
      assert Pow2(0) == 1;
      ModUnique(n, q, d, r);
    }
  }
}
