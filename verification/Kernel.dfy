/** The stake kernel: weighted targets and the weights of the staking classes (src/kernel.cpp). */
module KernelModel {
  import opened Limbs
  import opened CompactModel
  import opened Options
  import opened Sets

  const SATURATION_HEIGHT := 2280

  function Weight(stakeValue: nat): nat { stakeValue / 100 }

  /** The target after weighting. From the saturation height on it is capped when a division shows that the
      product would not fit; before, it wraps around. */
  function WeightedTarget(target: nat, stakeValue: nat, height: int): nat {
    var w := Weight(stakeValue);
    if height >= SATURATION_HEIGHT && w > 0 && target > Quot(Pow2(256) - 1, w) then Pow2(256) - 1
    else Rem(Times(target, w), Pow2(256))
  }

  predicate KernelPasses(hash: nat, nBits: nat, stakeValue: nat, height: int) {
    hash < WeightedTarget(Uncompact(nBits).value, stakeValue, height)
  }

  /** The division test is exact: it fires just when the product exceeds the largest target. */
  lemma DivisionTest(target: nat, w: nat, m: nat)
    requires w > 0
    ensures target > Quot(m, w) <==> target * w > m
  {
    hide Quot, Rem;
    QuotRem(m, w);
    var q := Quot(m, w);
    if target > q {
      MulLe(q + 1, target, w);
      Distribute(w, q, 1);
    } else {
      MulLe(target, q, w);
    }
  }

  /** From the saturation height on, the weighted target is the product capped at 2^256 - 1. */
  lemma SaturatedTarget(target: nat, stakeValue: nat, height: int)
    requires height >= 2280 && target < Pow2(256)
    ensures var product := target * (stakeValue / 100);
            WeightedTarget(target, stakeValue, height) == if product < Pow2(256) then product else Pow2(256) - 1
  {
    hide Quot, Rem, Pow2;
    var w := Weight(stakeValue);
    if w > 0 { DivisionTest(target, w, Pow2(256) - 1); }
    if target * w < Pow2(256) {
      QuotRemIs(Times(target, w), 0, Pow2(256), target * w);
    }
  }

  /** A kernel that passes at one stake passes at every larger one, for the same hash and target. */
  lemma LargerStakePasses(hash: nat, nBits: nat, s1: nat, s2: nat, height: int)
    requires height >= SATURATION_HEIGHT && s1 <= s2 && KernelPasses(hash, nBits, s1, height)
    requires nBits < B
    ensures KernelPasses(hash, nBits, s2, height)
  {
    hide Quot, Rem, Pow2, Uncompact, WeightedTarget;
    var t := Uncompact(nBits).value;
    TargetFits(nBits);
    SaturatedTarget(t, s1, height);
    SaturatedTarget(t, s2, height);
    WeightGrows(s1, s2);
    MulLe(Weight(s1), Weight(s2), t);
  }

  lemma WeightGrows(s1: nat, s2: nat)
    requires s1 <= s2
    ensures Weight(s1) <= Weight(s2)
  {
  }

  lemma TargetFits(nBits: nat)
    requires nBits < B
    ensures Uncompact(nBits).value < Pow2(256)
  {
    hide Quot, Rem, Pow2;
    var (nSize, word) := (nBits / 0x0100_0000, nBits % SIGN);
    if nSize <= 3 {
      SmallWord(word, 8 * (3 - nSize));
    } else {
      QuotRem(Times(word, Pow2(8 * (nSize - 3))), Pow2(256));
    }
  }

  /** Before the saturation height the weighted target is the product modulo 2^256. */
  lemma EarlyTarget(target: nat, stakeValue: nat, height: int) returns (wraps: nat)
    requires height < 2280
    ensures var r := WeightedTarget(target, stakeValue, height);
            target * (stakeValue / 100) == wraps * Pow2(256) + r && r < Pow2(256)
  {
    hide Quot, Rem, Pow2;
    var p := Times(target, Weight(stakeValue));
    QuotRem(p, Pow2(256));
    wraps := Quot(p, Pow2(256));
  }

  /** So it is the product just when that fits in 256 bits. */
  lemma EarlyTargetIff(target: nat, stakeValue: nat, height: int)
    requires height < SATURATION_HEIGHT
    ensures var product := target * Weight(stakeValue);
            WeightedTarget(target, stakeValue, height) == product <==> product < Pow2(256)
  {
    hide Quot, Rem, Pow2;
    var p := Times(target, Weight(stakeValue));
    QuotRem(p, Pow2(256));
    if p < Pow2(256) { QuotRemIs(p, 0, Pow2(256), p); }
  }

  lemma HalfTargetDoubles(height: int)
    requires height < SATURATION_HEIGHT
    ensures WeightedTarget(Pow2(255), 100, height) == Pow2(255) && WeightedTarget(Pow2(255), 200, height) == 0
  {
    hide Quot, Rem, Pow2;
    Pow2At(256, 2, 1) by { assert Pow2(1) == 2 by { TwoIs(); } }
    QuotRemIs(Pow2(255), 0, Pow2(256), Pow2(255));
    QuotRemIs(Pow2(255) * 2, 1, Pow2(256), 0);
  }

  const HALF_TARGET_BITS := 0x2100_8000

  lemma HalfTarget()
    ensures Uncompact(HALF_TARGET_BITS) == Uncompacted(Pow2(255), false, false)
  {
    hide Quot, Rem, Pow2;
    assert HALF_TARGET_BITS / 0x0100_0000 == 33 && HALF_TARGET_BITS % SIGN == 0x8000;
    Pow2At(255, 0x8000, 15) by { FifteenIs(); }
    Pow2At(256, 2, 1) by { TwoIs(); }
    QuotRemIs(Times(0x8000, Pow2(240)), 0, Pow2(256), Pow2(255));
  }

  lemma FifteenIs()
    ensures Pow2(15) == 0x8000
  {
    assert Pow2(7) == 128;
    Pow2Add(7, 7);
  }

  /** So there a larger stake can fail where a smaller one passes: at compact target 0x21008000, which expands to 2^255
      without overflow, a stake of 100 passes with every hash below 2^255 and a stake of 200 with none. */
  lemma EarlyTargetWraps(hash: nat, height: int)
    requires height < SATURATION_HEIGHT
    ensures KernelPasses(hash, HALF_TARGET_BITS, 100, height) <==> hash < Pow2(255)
    ensures !KernelPasses(hash, HALF_TARGET_BITS, 200, height)
  {
    hide Uncompact, WeightedTarget, Pow2;
    HalfTarget();
    HalfTargetDoubles(height);
  }

  /** No hash passes at a smaller stake and fails at a larger one of at most `stakeValue`. */
  ghost predicate LargerPassUpTo(nBits: nat, stakeValue: nat, height: int) {
    forall hash: nat, s1: nat, s2: nat ::
      s1 <= s2 <= stakeValue && KernelPasses(hash, nBits, s1, height) ==> KernelPasses(hash, nBits, s2, height)
  }

  /** The exact condition: larger stakes never lose, up to a given one, just when the target times its weight fits. */
  lemma EarlyStakesIff(nBits: nat, stakeValue: nat, height: int)
    requires height < SATURATION_HEIGHT && nBits < B
    ensures LargerPassUpTo(nBits, stakeValue, height) <==> Uncompact(nBits).value * Weight(stakeValue) < Pow2(256)
  {
    hide Quot, Rem, Pow2, Uncompact, WeightedTarget, KernelPasses;
    var t := Uncompact(nBits).value;
    if t * Weight(stakeValue) < Pow2(256) {
      forall hash: nat, s1: nat, s2: nat | s1 <= s2 <= stakeValue && KernelPasses(hash, nBits, s1, height)
        ensures KernelPasses(hash, nBits, s2, height)
      {
        WeightGrows(s2, stakeValue);
        MulLe(Weight(s2), Weight(stakeValue), t);
        EarlyStakePasses(hash, nBits, s1, s2, height);
      }
    } else {
      TargetFits(nBits);
      var w := FirstWrap(t, Weight(stakeValue), Pow2(256));
      FirstWrapLoses(nBits, w, height);
    }
  }

  /** The least weight at which the product reaches `m`. */
  lemma {:induction false} FirstWrap(t: nat, w: nat, m: nat) returns (v: nat)
    requires t * w >= m > t
    ensures 1 < v <= w && t * (v - 1) < m <= t * v
  {
    assert w > 1 by { if w <= 1 { MulLe(w, 1, t); } }
    if t * (w - 1) < m { v := w; } else { v := FirstWrap(t, w - 1, m); }
  }

  lemma FirstWrapLoses(nBits: nat, w: nat, height: int)
    requires height < SATURATION_HEIGHT && w > 1 && Uncompact(nBits).value < Pow2(256)
    requires Uncompact(nBits).value * (w - 1) < Pow2(256) <= Uncompact(nBits).value * w
    ensures exists hash: nat :: KernelPasses(hash, nBits, 100 * (w - 1), height) && !KernelPasses(hash, nBits, 100 * w, height)
  {
    hide Quot, Rem, Pow2, Uncompact;
    var t := Uncompact(nBits).value;
    Distribute(t, w, 1);
    EarlyTargetIff(t, 100 * (w - 1), height);
    QuotRemIs(Times(t, w), 1, Pow2(256), t * w - Pow2(256));
    var hash: nat := t * w - Pow2(256);
    assert !KernelPasses(hash, nBits, 100 * w, height);
    assert KernelPasses(hash, nBits, 100 * (w - 1), height);
  }

  /** With no wrap up to the larger stake, it passes wherever the smaller one does. */
  lemma EarlyStakePasses(hash: nat, nBits: nat, s1: nat, s2: nat, height: int)
    requires height < SATURATION_HEIGHT && s1 <= s2 && KernelPasses(hash, nBits, s1, height)
    requires Uncompact(nBits).value * Weight(s2) < Pow2(256)
    ensures KernelPasses(hash, nBits, s2, height)
  {
    hide Quot, Rem, Pow2, Uncompact, WeightedTarget;
    var t := Uncompact(nBits).value;
    WeightGrows(s1, s2);
    MulLe(Weight(s1), Weight(s2), t);
    EarlyTargetIff(t, s1, height);
    EarlyTargetIff(t, s2, height);
  }

  lemma TwoIs()
    ensures Pow2(1) == 2
  {
  }

  // ---------------------------------------------------------------- weights of the staking classes

  const LOCK_MAX := 50000
  const LOCK_FACTOR := 2
  const BURN_FACTOR := 5

  function MinNat(a: nat, b: nat): nat { if a < b then a else b }

  /** A share of the amount that grows with `part` up to `whole`. */
  function Share(amount: nat, factor: nat, part: nat, whole: nat): nat
    requires whole > 0
  {
    Quot(Times(Times(amount, factor), part), whole)
  }

  lemma ShareBound(amount: nat, factor: nat, part: nat, whole: nat)
    requires whole > 0 && part <= whole
    ensures Share(amount, factor, part, whole) <= amount * factor
  {
    hide Quot, Rem;
    var a := Times(amount, factor);
    QuotRem(Times(a, part), whole);
    var q := Quot(Times(a, part), whole);
    MulLe(part, whole, a);
    if q > a {
      MulLe(a + 1, q, whole);
      Distribute(whole, a, 1);
      assert false;
    }
  }

  lemma ShareGrows(amount: nat, factor: nat, p1: nat, p2: nat, whole: nat)
    requires whole > 0 && p1 <= p2
    ensures Share(amount, factor, p1, whole) <= Share(amount, factor, p2, whole)
  {
    hide Quot, Rem;
    var a := Times(amount, factor);
    MulLe(p1, p2, a);
    QuotGrows(Times(a, p1), Times(a, p2), whole);
  }

  lemma QuotGrows(x: nat, y: nat, d: nat)
    requires d > 0 && x <= y
    ensures Quot(x, d) <= Quot(y, d)
  {
    hide Quot, Rem;
    QuotRem(x, d);
    QuotRem(y, d);
    if Quot(x, d) > Quot(y, d) {
      MulLe(Quot(y, d) + 1, Quot(x, d), d);
      Distribute(d, Quot(y, d), 1);
      assert false;
    }
  }

  datatype Burn = Burn(height: int, amount: nat)

  /** What one burn still weighs. */
  function BurnShare(b: Burn, height: int, decay: nat): nat
    requires decay > 0
  {
    var t := height - b.height;
    if 0 <= t < decay then Share(b.amount, BURN_FACTOR, decay - t, decay) else 0
  }

  function BurnWeight(burns: seq<Burn>, height: int, decay: int): nat {
    if decay <= 0 || burns == [] then 0
    else BurnWeight(burns[..|burns| - 1], height, decay) + BurnShare(burns[|burns| - 1], height, decay)
  }

  lemma BurnShareDecays(b: Burn, h1: int, h2: int, decay: nat)
    requires decay > 0 && b.height <= h1 <= h2
    ensures BurnShare(b, h2, decay) <= BurnShare(b, h1, decay)
  {
    hide Quot;
    if h2 - b.height < decay {
      ShareGrows(b.amount, BURN_FACTOR, decay - (h2 - b.height), decay - (h1 - b.height), decay);
    }
  }

  /** Past all burns their weight only decays as the height grows, and it is gone after the decay period. */
  lemma {:induction false} BurnWeightDecays(burns: seq<Burn>, h1: int, h2: int, decay: int)
    requires h1 <= h2 && forall i :: 0 <= i < |burns| ==> burns[i].height <= h1
    ensures BurnWeight(burns, h2, decay) <= BurnWeight(burns, h1, decay)
    ensures (forall i :: 0 <= i < |burns| ==> burns[i].height + decay <= h2) ==> BurnWeight(burns, h2, decay) == 0
  {
    hide BurnShare;
    if decay > 0 && burns != [] {
      BurnWeightDecays(burns[..|burns| - 1], h1, h2, decay);
      BurnShareDecays(burns[|burns| - 1], h1, h2, decay);
      BurnShareGone(burns[|burns| - 1], h2, decay);
    }
  }

  lemma BurnShareGone(b: Burn, height: int, decay: nat)
    requires decay > 0
    ensures b.height + decay <= height ==> BurnShare(b, height, decay) == 0
  {
  }

  function TotalBurnt(burns: seq<Burn>): nat {
    if burns == [] then 0 else TotalBurnt(burns[..|burns| - 1]) + burns[|burns| - 1].amount
  }

  lemma {:induction false} BurnWeightBound(burns: seq<Burn>, height: int, decay: int)
    ensures BurnWeight(burns, height, decay) <= BURN_FACTOR * TotalBurnt(burns)
  {
    hide Share;
    if decay > 0 && burns != [] {
      var b := burns[|burns| - 1];
      BurnWeightBound(burns[..|burns| - 1], height, decay);
      if 0 <= height - b.height < decay {
        ShareBound(b.amount, BURN_FACTOR, decay - (height - b.height), decay);
      }
    }
  }

  datatype WeightType = PoS | PoM | PoL | PoB

  /** A time lock in blocks: an absolute height or a relative number of blocks. */
  datatype TimeLock = TimeLock(lockTime: int, relative: bool)

  /** What the weight computation finds out about an output: the first height of the active masternode it is the
      collateral of, whether it exists, its time lock and the burns of its address. */
  datatype Stake = Stake(
    upgraded: bool, masternodeFrom: Option<int>, uptimeLimit: int,
    found: bool, lock: Option<TimeLock>, burns: Option<seq<Burn>>, decay: int)

  function Uptime(s: Stake, height: int): nat {
    if s.masternodeFrom.Some? && height > s.masternodeFrom.value then height - s.masternodeFrom.value else 0
  }

  function LockLength(lock: Option<TimeLock>, height: int): int {
    if lock.None? then 0
    else if lock.value.relative then lock.value.lockTime
    else if lock.value.lockTime > height then lock.value.lockTime - height
    else 0
  }

  function MpaWeight(s: Stake, amount: nat, height: int): (nat, WeightType) {
    if !s.upgraded then (amount, PoS)
    else if s.masternodeFrom.Some? then
      var t := Uptime(s, height);
      if s.uptimeLimit <= 0 || t == 0 then (amount, PoM)
      else (amount + Share(amount, 1, MinNat(t, s.uptimeLimit), s.uptimeLimit), PoM)
    else if !s.found then (amount, PoS)
    else if LockLength(s.lock, height) > 0 then
      (amount + Share(amount, LOCK_FACTOR, MinNat(LockLength(s.lock, height), LOCK_MAX), LOCK_MAX), PoL)
    else if s.burns.Some? && BurnWeight(s.burns.value, height, s.decay) > 0 then
      (amount + BurnWeight(s.burns.value, height, s.decay), PoB)
    else (amount, PoS)
  }

  /** The weight is at least the amount; a masternode at most doubles it, a lock at most triples it, a burn adds at
      most five times what was burnt, and plain stake weighs its amount. */
  lemma WeightBounds(s: Stake, amount: nat, height: int)
    ensures var (w, kind) := MpaWeight(s, amount, height);
            && amount <= w
            && (kind.PoM? ==> w <= 2 * amount)
            && (kind.PoL? ==> w <= 3 * amount)
            && (kind.PoB? ==> s.burns.Some? && w <= amount + BURN_FACTOR * TotalBurnt(s.burns.value))
            && (kind.PoS? ==> w == amount)
  {
    hide Share, BurnWeight, TotalBurnt;
    if s.uptimeLimit > 0 { ShareBound(amount, 1, MinNat(Uptime(s, height), s.uptimeLimit), s.uptimeLimit); }
    if LockLength(s.lock, height) > 0 {
      ShareBound(amount, LOCK_FACTOR, MinNat(LockLength(s.lock, height), LOCK_MAX), LOCK_MAX);
    }
    if s.burns.Some? { BurnWeightBound(s.burns.value, height, s.decay); }
  }

  // ---------------------------------------------------------------- which weight it is

  /** `share` is `part` out of `whole` of the amount, rounded down. */
  predicate PartOf(share: int, amount: nat, part: nat, whole: nat) {
    share * whole <= amount * part < (share + 1) * whole
  }

  lemma ShareIs(amount: nat, factor: nat, part: nat, whole: nat)
    requires whole > 0
    ensures PartOf(Share(amount, factor, part, whole), amount * factor, part, whole)
    ensures Share(amount, factor, whole, whole) == amount * factor
  {
    hide Quot, Rem;
    var a := Times(amount, factor);
    var q := Quot(Times(a, part), whole);
    QuotRem(Times(a, part), whole);
    Distribute(whole, q, 1);
    QuotRemIs(Times(a, whole), a, whole, 0);
  }

  /** Which class an output stakes in: a collateral first, then a lock that still holds, then burns that still weigh. */
  lemma ClassIs(s: Stake, amount: nat, height: int)
    ensures var kind := MpaWeight(s, amount, height).1;
            if s.upgraded && s.masternodeFrom != None then kind == PoM
            else if s.upgraded && s.found && s.lock != None && Left(s.lock.value, height) > 0 then kind == PoL
            else if s.upgraded && s.found && s.burns != None && BurnWeight(s.burns.value, height, s.decay) > 0 then kind == PoB
            else kind == PoS
  {
    hide Share, BurnWeight;
  }

  /** How many blocks a lock still holds; none when that is not positive. */
  function Left(lock: TimeLock, height: int): int { if lock.relative then lock.lockTime else lock.lockTime - height }

  /** A masternode's stake grows in proportion to its uptime and weighs exactly twice its amount from the limit on. */
  lemma MasternodeWeight(s: Stake, amount: nat, height: int)
    requires s.upgraded && s.masternodeFrom.Some?
    ensures var w, uptime := MpaWeight(s, amount, height).0, height - s.masternodeFrom.value;
            if uptime <= 0 || s.uptimeLimit <= 0 then w == amount
            else if uptime < s.uptimeLimit then PartOf(w - amount, amount, uptime, s.uptimeLimit)
            else w == 2 * amount
  {
    hide Share;
    if s.uptimeLimit > 0 { ShareIs(amount, 1, MinNat(Uptime(s, height), s.uptimeLimit), s.uptimeLimit); }
  }

  /** A lock adds twice the amount in proportion to the blocks it still holds, and from 50000 blocks on makes it weigh
      exactly three times. */
  lemma LockWeight(s: Stake, amount: nat, height: int)
    requires s.upgraded && s.masternodeFrom.None? && s.found && s.lock.Some? && Left(s.lock.value, height) > 0
    ensures var w, left := MpaWeight(s, amount, height).0, Left(s.lock.value, height);
            if left < 50000 then PartOf(w - amount, amount * 2, left, 50000) else w == 3 * amount
  {
    hide Share;
    ShareIs(amount, LOCK_FACTOR, MinNat(Left(s.lock.value, height), LOCK_MAX), LOCK_MAX);
  }

  /** Within its decay period a burn adds five times its amount in proportion to the blocks that remain, else nothing. */
  predicate BurnPart(part: nat, b: Burn, height: int, decay: int) {
    if b.height <= height < b.height + decay then PartOf(part, b.amount * 5, b.height + decay - height, decay) else part == 0
  }

  function Sum(parts: seq<nat>): nat { if parts == [] then 0 else parts[0] + Sum(parts[1..]) }

  lemma {:induction false} SumAppend(parts: seq<nat>, x: nat)
    ensures Sum(parts + [x]) == Sum(parts) + x
  {
    if parts == [] {
      assert [x][1..] == [];
    } else {
      assert (parts + [x])[1..] == parts[1..] + [x];
      SumAppend(parts[1..], x);
    }
  }

  /** The burns of an address weigh the sum of their parts. */
  lemma {:induction false} BurnWeightIs(burns: seq<Burn>, height: int, decay: int) returns (parts: seq<nat>)
    ensures |parts| == |burns| && forall i :: 0 <= i < |burns| ==> BurnPart(parts[i], burns[i], height, decay)
    ensures BurnWeight(burns, height, decay) == Sum(parts)
  {
    hide Share, PartOf;
    if burns == [] {
      parts := [];
    } else if decay <= 0 {
      parts := BurnWeightIs(burns[..|burns| - 1], height, decay);
      SumAppend(parts, 0);
      parts := parts + [0];
    } else {
      var b := burns[|burns| - 1];
      parts := BurnWeightIs(burns[..|burns| - 1], height, decay);
      var part := BurnShare(b, height, decay);
      if 0 <= height - b.height < decay { ShareIs(b.amount, BURN_FACTOR, decay - (height - b.height), decay); }
      SumAppend(parts, part);
      parts := parts + [part];
    }
  }

  /** A burn weighs exactly five times its amount at its own height. */
  lemma FreshBurn(b: Burn, decay: int)
    requires decay > 0
    ensures BurnWeight([b], b.height, decay) == 5 * b.amount
  {
    hide Share;
    ShareIs(b.amount, BURN_FACTOR, decay, decay);
    assert [b][..0] == [];
  }

  /** Burns add their weight to the amount; nothing else does to plain stake. */
  lemma BurnsAdd(s: Stake, amount: nat, height: int)
    ensures var (w, kind) := MpaWeight(s, amount, height);
            && (kind == PoB ==> s.burns.Some? && w == amount + BurnWeight(s.burns.value, height, s.decay))
            && (kind == PoS ==> w == amount)
  {
    hide Share, BurnWeight;
  }

  // ---------------------------------------------------------------- weights over time

  /** From when a masternode counts: its earliest stored ping or, if earlier, the block of its unspent collateral. */
  function FirstHeight(height: int, pings: set<int>, coinHeight: Option<int>): int {
    var first := if pings == {} then height else Smallest(pings);
    if coinHeight.Some? && coinHeight.value > 0 && coinHeight.value < first then coinHeight.value else first
  }

  /** It is the least of the stored pings and the positive height of a known collateral; the height itself without either,
      or when it is below the collateral's and there is no ping. */
  lemma FirstHeightIs(height: int, pings: set<int>, coinHeight: Option<int>)
    ensures var h := FirstHeight(height, pings, coinHeight);
            && (h in pings || coinHeight == Some(h) || (pings == {} && h == height))
            && (forall p :: p in pings ==> h <= p) && (coinHeight.Some? && coinHeight.value > 0 ==> h <= coinHeight.value)
            && (pings == {} ==> h <= height) && (coinHeight == Some(h) ==> h > 0 || h in pings || h == height)
  {
  }

  /** While the collateral is known and no ping is older, a masternode's weight never falls, whatever pings were added or
      pruned in between. */
  lemma CollateralWeightGrows(s: Stake, amount: nat, coinHeight: int, h1: int, pings1: set<int>, h2: int, pings2: set<int>)
    requires s.upgraded && 0 < coinHeight <= h1 <= h2
    requires (forall p :: p in pings1 ==> coinHeight <= p) && (forall p :: p in pings2 ==> coinHeight <= p)
    ensures FirstHeight(h1, pings1, Some(coinHeight)) == FirstHeight(h2, pings2, Some(coinHeight)) == coinHeight
    ensures MpaWeight(s.(masternodeFrom := Some(FirstHeight(h1, pings1, Some(coinHeight)))), amount, h1).0
            <= MpaWeight(s.(masternodeFrom := Some(FirstHeight(h2, pings2, Some(coinHeight)))), amount, h2).0
  {
    hide MpaWeight;
    MasternodeWeightGrows(s.(masternodeFrom := Some(coinHeight)), amount, h1, h2);
  }

  lemma MasternodeWeightGrows(s: Stake, amount: nat, h1: int, h2: int)
    requires s.upgraded && s.masternodeFrom.Some? && h1 <= h2
    ensures MpaWeight(s, amount, h1).0 <= MpaWeight(s, amount, h2).0
  {
    hide Share;
    if s.uptimeLimit > 0 {
      ShareGrows(amount, 1, MinNat(Uptime(s, h1), s.uptimeLimit), MinNat(Uptime(s, h2), s.uptimeLimit), s.uptimeLimit);
    }
  }

  /** An absolute lock weighs less the closer it is to its end. */
  lemma LockWeightDecays(s: Stake, amount: nat, h1: int, h2: int)
    requires s.upgraded && s.masternodeFrom.None? && s.lock.Some? && !s.lock.value.relative && h1 <= h2
    requires MpaWeight(s, amount, h1).1.PoL? && MpaWeight(s, amount, h2).1.PoL?
    ensures MpaWeight(s, amount, h2).0 <= MpaWeight(s, amount, h1).0
  {
    hide Share, BurnWeight;
    ShareGrows(amount, LOCK_FACTOR, MinNat(LockLength(s.lock, h2), LOCK_MAX), MinNat(LockLength(s.lock, h1), LOCK_MAX), LOCK_MAX);
  }
}

/** The computations on big integers and on the burn list. */
module Kernel {
  import opened Limbs
  import opened CompactModel
  import opened KernelModel
  import opened Arith
  import C = Compact

  /** Tells whether the target times the weight would exceed the largest 256-bit number. */
  method Exceeds(target: BaseUint, weight: BaseUint) returns (over: bool)
    requires target.pn.Length == weight.pn.Length == 8
    ensures over <==> weight.Value() > 0 && target.Value() > Quot(Pow2(256) - 1, weight.Value())
  {
    hide Val, P, Pow2, Quot, Rem;
    C.Modulus256(target);
    var zero := new BaseUint(8, 0);
    var isPositive := weight.CompareTo(zero);
    if isPositive <= 0 { return false; }
    C.Modulus256(zero);
    var limit := zero.Complement();
    var _ := limit.Div(weight);
    var c := target.CompareTo(limit);
    return c > 0;
  }

  /** Computes the weighted target of a kernel and compares the hash with it. */
  method CheckKernelHash(hash: BaseUint, nBits: nat, stakeValue: nat, height: int) returns (res: bool)
    requires hash.pn.Length == 8 && nBits < B && stakeValue < B * B
    ensures res <==> KernelPasses(hash.Value(), nBits, stakeValue, height)
  {
    hide Val, P, Pow2, Quot, Rem, Uncompact;
    var target := new BaseUint(8, 0);
    var _, _ := C.SetCompact(target, nBits);
    ghost var t := target.Value();
    C.Modulus256(target);
    var weight := new BaseUint(8, stakeValue);
    var hundred := new BaseUint(8, 100);
    var _ := weight.Div(hundred);
    Hundredth(stakeValue);
    var over := false;
    if height >= SATURATION_HEIGHT {
      over := Exceeds(target, weight);
    }
    if over {
      var zero := new BaseUint(8, 0);
      C.Modulus256(zero);
      target := zero.Complement();
    } else {
      RemOfTimes(t, weight.Value(), Pow2(256));
      target.Mul(weight);
    }
    var c := hash.CompareTo(target);
    res := c < 0;
  }

  lemma Hundredth(v: nat)
    ensures Quot(v, 100) == Weight(v)
  {
  }

  method GetActiveBurnWeight(burns: seq<Burn>, nHeight: int, decay: int) returns (weight: nat)
    ensures weight == BurnWeight(burns, nHeight, decay)
  {
    hide Share;
    weight := 0;
    if decay <= 0 { return; }
    for i := 0 to |burns|
      invariant weight == BurnWeight(burns[..i], nHeight, decay)
    {
      assert burns[..i + 1][..i] == burns[..i];
      var t := nHeight - burns[i].height;
      if t >= 0 && t < decay {
        weight := weight + Share(burns[i].amount, BURN_FACTOR, decay - t, decay);
      }
    }
    assert burns[..|burns|] == burns;
  }
}
