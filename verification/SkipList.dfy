/** How many steps the walk over the skip list takes (src/main.cpp). */
module SkipList {
  import opened Limbs
  import opened ChainModel

  // ---------------------------------------------------------------- shifted numbers and set bits

  /** `a` followed by `q` zero bits. */
  function Shifted(a: nat, q: nat): nat {
    if q == 0 then a else 2 * Shifted(a, q - 1)
  }

  lemma {:induction false} ShiftedAdd(a: nat, b: nat, q: nat)
    ensures Shifted(a + b, q) == Shifted(a, q) + Shifted(b, q)
  {
    if q > 0 { ShiftedAdd(a, b, q - 1); }
  }

  lemma {:induction false} ShiftedTwice(a: nat, q: nat)
    ensures Shifted(a, q + 1) == Shifted(2 * a, q)
  {
    if q > 0 { ShiftedTwice(a, q - 1); }
  }

  lemma {:induction false} ShiftedOne(q: nat)
    ensures Shifted(1, q) == Pow2(q)
  {
    if q > 0 { ShiftedOne(q - 1); }
  }

  /** The bounds of the two halves of the block of numbers that `a` starts with `q + 1` more bits. */
  lemma Halves(a: nat, q: nat)
    ensures Shifted(a, q + 1) == Shifted(2 * a, q) && Shifted(a + 1, q + 1) == Shifted(2 * a + 2, q)
    ensures Shifted(2 * a + 1, q) == Shifted(2 * a, q) + Shifted(1, q)
    ensures Shifted(2 * a + 2, q) == Shifted(2 * a + 1, q) + Shifted(1, q)
    ensures Shifted(1, q) > 0
  {
    ShiftedTwice(a, q);
    ShiftedTwice(a + 1, q);
    ShiftedAdd(2 * a, 1, q);
    ShiftedAdd(2 * a + 1, 1, q);
    ShiftedOne(q);
  }

  function Ones(n: nat): nat {
    if n == 0 then 0 else n % 2 + Ones(n / 2)
  }

  lemma OnesDouble(m: nat)
    ensures Ones(2 * m) == Ones(m) && Ones(2 * m + 1) == 1 + Ones(m)
  {
  }

  lemma DropDouble(m: nat)
    ensures InvertLowestOne(2 * m) == 2 * InvertLowestOne(m) && InvertLowestOne(2 * m + 1) == 2 * m
  {
  }

  lemma {:induction false} OnesBound(n: nat, q: nat)
    requires n < Shifted(1, q)
    ensures Ones(n) <= q && (q > 0 && n % 2 == 0 ==> Ones(n) < q)
  {
    hide Ones;
    if q == 0 {
      OnesZero(0);
    } else {
      var m := n / 2;
      OnesDouble(m);
      OnesBound(m, q - 1);
      assert n == 2 * m || n == 2 * m + 1;
    }
  }

  lemma {:induction false} OnesDrop(n: nat)
    requires n > 0
    ensures Ones(InvertLowestOne(n)) == Ones(n) - 1
  {
    if n % 2 == 0 { OnesDrop(n / 2); }
  }

  lemma OnesZero(n: nat)
    ensures Ones(n) == 0 <==> n == 0
  {
    if n > 0 && n % 2 == 0 { OnesZero(n / 2); }
  }

  /** The lowest bit of a sum with low bits is theirs. */
  lemma {:induction false} DropLow(a: nat, q: nat, low: nat)
    requires 0 < low < Shifted(1, q)
    ensures InvertLowestOne(Shifted(a, q) + low) == Shifted(a, q) + InvertLowestOne(low)
  {
    hide InvertLowestOne;
    var m, x := low / 2, Shifted(a, q - 1);
    DropDouble(m);
    DropDouble(x + m);
    if low % 2 == 0 {
      DropLow(a, q - 1, m);
      assert Shifted(a, q) + low == 2 * (x + m) && low == 2 * m;
    } else {
      assert Shifted(a, q) + low == 2 * (x + m) + 1 && low == 2 * m + 1;
    }
  }

  lemma {:induction false} DropMid(a: nat, q: nat)
    ensures InvertLowestOne(Shifted(2 * a + 1, q)) == Shifted(2 * a, q)
  {
    if q > 0 { DropMid(a, q - 1); }
  }

  lemma ShiftedMod(a: nat, q: nat)
    ensures (q >= 1 ==> Shifted(a, q) % 2 == 0) && (q >= 3 ==> Shifted(a, q) % 8 == 0)
  {
    if q >= 3 { assert Shifted(a, q - 1) == 2 * Shifted(a, q - 2) && Shifted(a, q - 2) == 2 * Shifted(a, q - 3); }
  }

  // ---------------------------------------------------------------- one step above the middle of a block

  /** The walk is at `mid + low` in the upper half of a block of 2^(q+1) heights, on the way to one in the lower half. */
  predicate Above(a: nat, q: nat, low: nat, height: nat) {
    q >= 1 && low < Shifted(1, q) && Shifted(2 * a, q) <= height < Shifted(2 * a + 1, q)
  }

  /** The target is further down than the skip over the whole lower half leads. */
  predicate Far(a: nat, q: nat, height: nat) { Shifted(2 * a, q) + 1 < height }

  /** The steps that the walk takes at most before it is in the lower half. */
  function Rank(a: nat, q: nat, low: nat, height: nat): nat {
    if low == 0 then 1
    else if low % 2 == 1 then Ones(low - 1) + 2
    else if Far(a, q, height) && Ones(low) == 1 then 2
    else Ones(low) + 3
  }

  lemma RankBound(a: nat, q: nat, low: nat, height: nat)
    requires Above(a, q, low, height)
    ensures Rank(a, q, low, height) <= q + 2
  {
    if low % 2 == 1 { OnesBound(low - 1, q); } else { OnesBound(low, q); }
  }

  /** A step leaves the upper half or lowers the rank. */
  predicate Descends(a: nat, q: nat, low: nat, height: nat)
    requires Above(a, q, low, height)
  {
    var mid := Shifted(2 * a + 1, q);
    var next := NextHeight(mid + low, height);
    next < mid || (next < mid + low && Rank(a, q, next - mid, height) < Rank(a, q, low, height))
  }

  lemma MidFacts(a: nat, q: nat)
    requires q >= 1
    ensures var mid, c := Shifted(2 * a + 1, q), Shifted(2 * a, q);
            && mid == c + Shifted(1, q) && mid % 2 == 0 && mid >= 2 && Shifted(1, q) >= 2
            && InvertLowestOne(mid) == c && GetSkipHeight(mid) == c
  {
    Halves(a, q);
    ShiftedMod(2 * a + 1, q);
    DropMid(a, q);
    ShiftedOne(q);
  }

  lemma FromMid(a: nat, q: nat, height: nat)
    requires Above(a, q, 0, height)
    ensures Descends(a, q, 0, height)
  {
    hide InvertLowestOne, Shifted;
    MidFacts(a, q);
  }

  lemma NextIs(h: nat, height: nat, skip: nat, skipPrev: nat)
    requires height < h && GetSkipHeight(h) == skip && GetSkipHeight(h - 1) == skipPrev
    ensures NextHeight(h, height) ==
              if skip == height || (skip > height && !(skipPrev < skip - 2 && skipPrev >= height)) then skip else h - 1
  {
    hide GetSkipHeight;
  }

  lemma EvenSum(x: nat, y: nat)
    requires x % 2 == 0 && y % 2 == 0
    ensures (x + y) % 2 == 0
  {
  }

  lemma SkipOfEven(h: nat)
    requires h >= 2 && h % 2 == 0
    ensures GetSkipHeight(h) == InvertLowestOne(h) && GetSkipHeight(h + 1) == InvertLowestOne(InvertLowestOne(h)) + 1
  {
    hide InvertLowestOne;
  }

  /** Next to the middle: the step leads to the middle or below it. */
  lemma FromOne(a: nat, q: nat, height: nat)
    requires Above(a, q, 1, height)
    ensures Descends(a, q, 1, height)
  {
    hide InvertLowestOne, Shifted, GetSkipHeight, NextHeight, Ones;
    MidFacts(a, q);
    var mid, c := Shifted(2 * a + 1, q), Shifted(2 * a, q);
    SkipOfEven(mid);
    NextIs(mid + 1, height, InvertLowestOne(c) + 1, c);
    OnesZero(0);
    RankOdd(a, q, 1, height);
    RankMid(a, q, height);
  }

  lemma RankMid(a: nat, q: nat, height: nat)
    ensures Rank(a, q, 0, height) == 1
  {
  }

  lemma RankOdd(a: nat, q: nat, low: nat, height: nat)
    requires low % 2 == 1
    ensures Rank(a, q, low, height) == Ones(low - 1) + 2
  {
    hide Ones;
  }

  lemma RankEven(a: nat, q: nat, low: nat, height: nat)
    requires low > 0 && low % 2 == 0
    ensures Rank(a, q, low, height) == if Far(a, q, height) && Ones(low) == 1 then 2 else Ones(low) + 3
  {
    hide Ones;
  }

  lemma DescendsTo(a: nat, q: nat, low: nat, height: nat, next: nat)
    requires Above(a, q, low, height) && NextHeight(Shifted(2 * a + 1, q) + low, height) == next
    requires var mid := Shifted(2 * a + 1, q);
             next < mid || (next < mid + low && Rank(a, q, next - mid, height) < Rank(a, q, low, height))
    ensures Descends(a, q, low, height)
  {
    hide NextHeight, Shifted, Rank, Above;
  }

  /** One above a single bit: the skip over the lower half is taken unless the target is nearer. */
  lemma FromBitAndOne(a: nat, q: nat, low: nat, height: nat)
    requires Above(a, q, low, height) && low % 2 == 1 && low > 1 && InvertLowestOne(low - 1) == 0
    ensures Descends(a, q, low, height)
  {
    hide InvertLowestOne, Shifted, GetSkipHeight, NextHeight, Ones, Rank, Descends;
    MidFacts(a, q);
    var mid, c, e := Shifted(2 * a + 1, q), Shifted(2 * a, q), low - 1;
    SkipsAtBit(a, q, e);
    NextIs(mid + low, height, c + 1, mid);
    if c + 1 < height { RankAtBit(a, q, e, height); }
    DescendsTo(a, q, low, height, if c + 1 >= height then c + 1 else mid + e);
  }

  lemma SkipsAtBit(a: nat, q: nat, e: nat)
    requires q >= 1 && 0 < e < Shifted(1, q) && e % 2 == 0 && InvertLowestOne(e) == 0
    ensures var mid, c := Shifted(2 * a + 1, q), Shifted(2 * a, q);
            GetSkipHeight(mid + e + 1) == c + 1 && GetSkipHeight(mid + e) == mid
  {
    hide InvertLowestOne, Shifted, GetSkipHeight;
    MidFacts(a, q);
    DropLow(2 * a + 1, q, e);
    EvenSum(Shifted(2 * a + 1, q), e);
    SkipOfEven(Shifted(2 * a + 1, q) + e);
  }

  lemma RankAtBit(a: nat, q: nat, e: nat, height: nat)
    requires e > 0 && e % 2 == 0 && InvertLowestOne(e) == 0 && Far(a, q, height)
    ensures Rank(a, q, e, height) < Rank(a, q, e + 1, height)
  {
    hide InvertLowestOne, Ones, Rank, Far;
    OnesDrop(e);
    OnesZero(0);
    RankOdd(a, q, e + 1, height);
    RankEven(a, q, e, height);
  }

  /** One above several bits: the skip drops two of them. */
  lemma FromBitsAndOne(a: nat, q: nat, low: nat, height: nat)
    requires Above(a, q, low, height) && low % 2 == 1 && low > 1 && InvertLowestOne(low - 1) > 0
    ensures Descends(a, q, low, height)
  {
    hide InvertLowestOne, Shifted, GetSkipHeight, NextHeight, Ones, Rank, Descends;
    var mid, e := Shifted(2 * a + 1, q), low - 1;
    var f := InvertLowestOne(e);
    var g := InvertLowestOne(f);
    SkipsAtBits(a, q, e);
    NextIs(mid + low, height, mid + g + 1, mid + f);
    RankAtBits(a, q, e, height);
    DescendsTo(a, q, low, height, mid + g + 1);
  }

  lemma SkipsAtBits(a: nat, q: nat, e: nat)
    requires q >= 1 && 0 < e < Shifted(1, q) && e % 2 == 0 && InvertLowestOne(e) > 0
    ensures var mid, f := Shifted(2 * a + 1, q), InvertLowestOne(e);
            && GetSkipHeight(mid + e + 1) == mid + InvertLowestOne(f) + 1 && GetSkipHeight(mid + e) == mid + f
            && InvertLowestOne(f) < f < e
  {
    hide InvertLowestOne, Shifted, GetSkipHeight;
    MidFacts(a, q);
    DropLow(2 * a + 1, q, e);
    DropLow(2 * a + 1, q, InvertLowestOne(e));
    EvenSum(Shifted(2 * a + 1, q), e);
    SkipOfEven(Shifted(2 * a + 1, q) + e);
  }

  lemma RankAtBits(a: nat, q: nat, e: nat, height: nat)
    requires e > 0 && e % 2 == 0 && InvertLowestOne(e) > 0
    ensures Rank(a, q, InvertLowestOne(InvertLowestOne(e)) + 1, height) < Rank(a, q, e + 1, height)
  {
    hide InvertLowestOne, Ones, Rank;
    var f := InvertLowestOne(e);
    LowestEven(e);
    LowestEven(f);
    OnesDrop(e);
    OnesDrop(f);
    RankOdd(a, q, e + 1, height);
    RankOdd(a, q, InvertLowestOne(f) + 1, height);
  }

  lemma FromOdd(a: nat, q: nat, low: nat, height: nat)
    requires Above(a, q, low, height) && low % 2 == 1
    ensures Descends(a, q, low, height)
  {
    hide InvertLowestOne, Shifted, Descends, Above;
    if low == 1 { FromOne(a, q, height); }
    else if InvertLowestOne(low - 1) == 0 { FromBitAndOne(a, q, low, height); }
    else { FromBitsAndOne(a, q, low, height); }
  }

  lemma LowestEven(n: nat)
    requires n % 2 == 0
    ensures InvertLowestOne(n) % 2 == 0
  {
  }

  lemma DropSix(m: nat)
    ensures InvertLowestOne(8 * m + 6) == 8 * m + 4 && InvertLowestOne(8 * m + 4) == 8 * m
    ensures InvertLowestOne(8 * m + 8) <= 8 * m
  {
    hide InvertLowestOne;
    DropDouble(4 * m + 3);
    DropDouble(2 * m + 1);
    DropDouble(4 * m + 2);
    DropDouble(m);
    DropDouble(4 * m + 4);
    DropDouble(2 * m + 2);
    DropDouble(m + 1);
  }

  /** The skip of the predecessor of an even height, for low bits 2 and 4 alone and for three low zeros. */
  lemma PrevSkip(a: nat, q: nat, low: nat)
    requires q >= 1 && 0 < low < Shifted(1, q) && low % 2 == 0
    ensures var mid, c := Shifted(2 * a + 1, q), Shifted(2 * a, q);
            var skipPrev := GetSkipHeight(mid + low - 1);
            && (low == 2 || low == 4 ==> skipPrev <= c + 1)
            && (low % 8 == 0 ==> skipPrev == mid + low - 7)
  {
    hide Shifted, Ones, InvertLowestOne, GetSkipHeight;
    MidFacts(a, q);
    var mid := Shifted(2 * a + 1, q);
    EvenSum(mid, low - 2);
    SkipOfEven(mid + low - 2);
    if low == 4 {
      DropLow(2 * a + 1, q, 2);
      DropDouble(1);
      DropDouble(0);
    }
    if low % 8 == 0 {
      var m := low / 8 - 1;
      assert low == 8 * m + 8;
      DropLow(2 * a + 1, q, 8 * m + 6);
      DropSix(m);
      if m > 0 { DropLow(2 * a + 1, q, 8 * m + 4); } else { DropLow(2 * a + 1, q, 4); }
    }
  }

  lemma OnesLess(low: nat)
    requires low % 2 == 0 && low % 8 != 0
    ensures Ones(low - 2) <= Ones(low) && (Ones(low) == 1 ==> low == 2 || low == 4)
  {
    hide Ones;
    var m := low / 8;
    OnesZero(m);
    OnesDouble(m);
    OnesDouble(2 * m);
    OnesDouble(2 * m + 1);
    OnesDouble(4 * m);
    OnesDouble(4 * m + 1);
    OnesDouble(4 * m + 2);
    OnesDouble(4 * m + 3);
    assert low == 2 * (4 * m + 1) || low == 2 * (4 * m + 2) || low == 2 * (4 * m + 3);
  }

  lemma FromEven(a: nat, q: nat, low: nat, height: nat)
    requires Above(a, q, low, height) && low > 0 && low % 2 == 0
    ensures Descends(a, q, low, height)
  {
    hide InvertLowestOne, Shifted, GetSkipHeight, NextHeight, Ones, Rank;
    MidFacts(a, q);
    var mid, f := Shifted(2 * a + 1, q), InvertLowestOne(low);
    var skipPrev := GetSkipHeight(mid + low - 1);
    DropLow(2 * a + 1, q, low);
    EvenSum(mid, low);
    SkipOfEven(mid + low);
    NextIs(mid + low, height, mid + f, skipPrev);
    if skipPrev < mid + f - 2 && skipPrev >= height {
      PrevIsBetter(a, q, low, height);
    } else {
      RankEvenDrop(a, q, low, height);
    }
  }

  /** When the skip of the predecessor is better, the predecessor ranks lower. */
  lemma PrevIsBetter(a: nat, q: nat, low: nat, height: nat)
    requires Above(a, q, low, height) && low > 0 && low % 2 == 0
    requires var mid := Shifted(2 * a + 1, q); var skipPrev := GetSkipHeight(mid + low - 1);
             height <= skipPrev < mid + InvertLowestOne(low) - 2
    ensures Rank(a, q, low - 1, height) < Rank(a, q, low, height)
  {
    hide InvertLowestOne, Shifted, GetSkipHeight, Ones, Rank;
    PrevSkip(a, q, low);
    RankEven(a, q, low, height);
    RankOdd(a, q, low - 1, height);
    if low % 8 == 0 { DropSix(low / 8 - 1); }
    OnesLess(low);
  }

  lemma RankEvenDrop(a: nat, q: nat, low: nat, height: nat)
    requires low > 0 && low % 2 == 0
    ensures Rank(a, q, InvertLowestOne(low), height) < Rank(a, q, low, height)
  {
    hide InvertLowestOne, Ones, Rank;
    var f := InvertLowestOne(low);
    LowestEven(low);
    OnesDrop(low);
    OnesZero(f);
    RankEven(a, q, low, height);
    if f == 0 { RankMid(a, q, height); } else { RankEven(a, q, f, height); }
  }

  // ---------------------------------------------------------------- the whole walk

  /** What the walk within a block of 2^p heights costs at most. */
  function Cost(p: nat): nat {
    if p == 0 then 0 else p + 1 + Cost(p - 1)
  }

  lemma {:induction false} CostIs(p: nat)
    ensures 2 * Cost(p) == p * (p + 3)
  {
    if p > 0 {
      CostIs(p - 1);
      Distribute(p, p, 3);
      Distribute(p - 1, p - 1, 3);
    }
  }

  lemma {:induction false} WalkBound(heightWalk: nat, height: nat, a: nat, p: nat)
    requires Shifted(a, p) <= height <= heightWalk < Shifted(a + 1, p)
    ensures Steps(heightWalk, height) <= Cost(p)
    decreases p, 0, 0
  {
    hide NextHeight, Shifted;
    if p == 0 {
      BlockOfOne(a);
      BlockOfOne(a + 1);
    } else {
      Halves(a, p - 1);
      var mid := Shifted(2 * a + 1, p - 1);
      if heightWalk < mid {
        WalkBound(heightWalk, height, 2 * a, p - 1);
      } else if height >= mid {
        WalkBound(heightWalk, height, 2 * a + 1, p - 1);
      } else if p == 1 {
        BlockOfOne(2 * a);
        BlockOfOne(1);
        assert NextHeight(heightWalk, height) == height;
      } else {
        WalkDown(a, p - 1, heightWalk - mid, height);
        RankBound(a, p - 1, heightWalk - mid, height);
      }
    }
  }

  lemma BlockOfOne(a: nat)
    ensures Shifted(a, 0) == a
  {
  }

  lemma {:induction false} WalkDown(a: nat, q: nat, low: nat, height: nat)
    requires Above(a, q, low, height)
    ensures Steps(Shifted(2 * a + 1, q) + low, height) <= Rank(a, q, low, height) + Cost(q)
    decreases q, 1, low
  {
    hide NextHeight, Shifted, Rank, Cost;
    var mid := Shifted(2 * a + 1, q);
    if low == 0 { FromMid(a, q, height); } else if low % 2 == 1 { FromOdd(a, q, low, height); } else { FromEven(a, q, low, height); }
    var next := NextHeight(mid + low, height);
    RankPositive(a, q, low, height);
    if next < mid {
      WalkBound(next, height, 2 * a, q);
    } else {
      WalkDown(a, q, next - mid, height);
    }
  }

  lemma RankPositive(a: nat, q: nat, low: nat, height: nat)
    ensures Rank(a, q, low, height) >= 1
  {
  }

  /** The walk back from any height below 2^k, to any height, takes at most k * (k + 3) / 2 steps. */
  lemma WalkIsShort(heightWalk: nat, height: nat, k: nat)
    requires height <= heightWalk < Pow2(k)
    ensures 2 * Steps(heightWalk, height) <= k * (k + 3)
  {
    hide Steps;
    ShiftedOne(k);
    ShiftedAdd(0, 0, k);
    WalkBound(heightWalk, height, 0, k);
    CostIs(k);
  }
}
