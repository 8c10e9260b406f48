/** The active chain and the skip list of the block index (src/chain.cpp, src/chain.h, src/main.cpp).

    Index entries never change once built, so they are values; the chain is an object. */
module ChainModel {
  import opened Limbs
  import opened Options

  /** An index entry with its two pointers. */
  datatype Block = Block(id: nat, height: nat, prev: Option<Block>, skip: Option<Block>)

  /** Clears the lowest set bit. */
  function InvertLowestOne(n: nat): (r: nat)
    ensures r <= n && (n > 0 ==> r < n)
  {
    if n == 0 then 0 else if n % 2 == 1 then n - 1 else 2 * InvertLowestOne(n / 2)
  }

  function GetSkipHeight(height: nat): (r: nat)
    ensures height > 0 ==> r < height
  {
    if height < 2 then 0
    else if height % 2 == 1 then InvertLowestOne(InvertLowestOne(height - 1)) + 1
    else InvertLowestOne(height)
  }

  /** The ancestor at a height, by walking back one block at a time. */
  function Ancestor(b: Block, h: nat): (a: Block)
    requires Linked(b) && h <= b.height
    ensures Linked(a) && a.height == h
    decreases b
  {
    if b.height == h then b else Ancestor(b.prev.value, h)
  }

  /** Heights count back to a block without predecessor. */
  predicate Linked(b: Block) {
    if b.prev.None? then b.height == 0 else b.height == b.prev.value.height + 1 && Linked(b.prev.value)
  }

  /** Every skip pointer in the ancestry leads to the ancestor at the skip height. */
  predicate Built(b: Block) {
    && Linked(b)
    && (b.prev.Some? ==> Built(b.prev.value) && b.skip == Some(Ancestor(b.prev.value, GetSkipHeight(b.height))))
  }

  predicate IsAncestor(a: Block, b: Block)
    requires Linked(b)
  {
    a.height <= b.height && a == Ancestor(b, a.height)
  }

  lemma {:induction false} AncestorOfAncestor(b: Block, h1: nat, h2: nat)
    requires Linked(b) && h2 <= h1 <= b.height
    ensures Ancestor(Ancestor(b, h1), h2) == Ancestor(b, h2)
    decreases b
  {
    if b.height > h1 {
      AncestorOfAncestor(b.prev.value, h1, h2);
    }
  }

  lemma {:induction false} AncestorBuilt(b: Block, h: nat)
    requires Built(b) && h <= b.height
    ensures Built(Ancestor(b, h))
    decreases b
  {
    if b.height > h {
      AncestorBuilt(b.prev.value, h);
    }
  }

  /** The height the walk to `height` goes to next: the skip, unless the one of the predecessor is better. */
  function NextHeight(heightWalk: nat, height: nat): (r: nat)
    requires height < heightWalk
    ensures height <= r < heightWalk
  {
    var heightSkip, heightSkipPrev := GetSkipHeight(heightWalk), GetSkipHeight(heightWalk - 1);
    if heightSkip == height || (heightSkip > height && !(heightSkipPrev < heightSkip - 2 && heightSkipPrev >= height))
    then heightSkip else heightWalk - 1
  }

  /** The number of steps of the walk. */
  function Steps(heightWalk: nat, height: nat): nat
    requires height <= heightWalk
  {
    if heightWalk == height then 0 else 1 + Steps(NextHeight(heightWalk, height), height)
  }

  /** The walk over the skip list. */
  method GetAncestor(b: Block, height: int) returns (r: Option<Block>, ghost steps: nat)
    requires Built(b)
    ensures r == if 0 <= height <= b.height then Some(Ancestor(b, height)) else None
    ensures steps == if 0 <= height <= b.height then Steps(b.height, height) else 0
  {
    hide GetSkipHeight, InvertLowestOne;
    if height > b.height || height < 0 { return None, 0; }
    var walk := b;
    var heightWalk := b.height;
    steps := 0;
    while heightWalk > height
      invariant heightWalk == walk.height >= height && Built(walk)
      invariant Ancestor(walk, height) == Ancestor(b, height)
      invariant steps + Steps(heightWalk, height) == Steps(b.height, height)
    {
      steps := steps + 1;
      var heightSkip := GetSkipHeight(heightWalk);
      var heightSkipPrev := GetSkipHeight(heightWalk - 1);
      AncestorBuilt(walk.prev.value, heightSkip);
      if heightSkip == height ||
         (heightSkip > height && !(heightSkipPrev < heightSkip - 2 && heightSkipPrev >= height)) {
        AncestorOfAncestor(walk.prev.value, heightSkip, height);
        walk := walk.skip.value;
        heightWalk := heightSkip;
      } else {
        walk := walk.prev.value;
        heightWalk := heightWalk - 1;
      }
    }
    return Some(walk), steps;
  }

  /** The walk goes from block to block, each the predecessor or the skip of the one before, in as many steps as counted. */
  lemma {:induction false} WalkPath(b: Block, height: nat) returns (path: seq<Block>)
    requires Built(b) && height <= b.height
    ensures |path| == Steps(b.height, height) + 1 && path[0] == b && path[|path| - 1] == Ancestor(b, height)
    ensures forall i :: 0 <= i < |path| - 1 ==> path[i].prev == Some(path[i + 1]) || path[i].skip == Some(path[i + 1])
    decreases b.height - height
  {
    hide GetSkipHeight, InvertLowestOne;
    path := [b];
    if b.height > height {
      var h := NextHeight(b.height, height);
      var prev := b.prev.value;
      AncestorBuilt(prev, h);
      AncestorOfAncestor(prev, h, height);
      var rest := WalkPath(Ancestor(prev, h), height);
      path := path + rest;
      assert b.prev == Some(rest[0]) || b.skip == Some(rest[0]);
      forall i | 0 <= i < |path| - 1 ensures path[i].prev == Some(path[i + 1]) || path[i].skip == Some(path[i + 1]) {
        if i > 0 { assert path[i] == rest[i - 1] && path[i + 1] == rest[i]; }
      }
    }
  }

  /** A new entry on top of `prev`, with its skip pointer built. */
  method BuildSkip(id: nat, prev: Option<Block>) returns (b: Block)
    requires prev.Some? ==> Built(prev.value)
    ensures Built(b) && b.prev == prev && b.id == id
  {
    var height := if prev.Some? then prev.value.height + 1 else 0;
    var skip := None;
    if prev.Some? {
      ghost var steps;
      skip, steps := GetAncestor(prev.value, GetSkipHeight(height));
    }
    b := Block(id, height, prev, skip);
  }

  // ---------------------------------------------------------------- the active chain

  /** The chain of a tip: its ancestor at every height. */
  ghost predicate IsChainOf(v: seq<Option<Block>>, tip: Block) {
    && Built(tip) && |v| == tip.height + 1
    && forall h :: 0 <= h < |v| ==> v[h] == Some(Ancestor(tip, h))
  }

  ghost predicate IsChain(v: seq<Option<Block>>) { v == [] || exists tip :: IsChainOf(v, tip) }

  predicate Contains(v: seq<Option<Block>>, b: Block) { b.height < |v| && v[b.height] == Some(b) }

  lemma EmptyChain()
    ensures IsChain([])
  {
  }

  lemma TipIsLast(v: seq<Option<Block>>, tip: Block)
    requires IsChainOf(v, tip)
    ensures IsChain(v) && v != [] && v[|v| - 1] == Some(tip)
  {
  }

  lemma ChainTip(v: seq<Option<Block>>, tip: Block)
    requires IsChainOf(v, tip)
    ensures v[|v| - 1] == Some(tip)
  {
  }

  /** A block of a chain has its ancestors below it in the chain. */
  lemma ChainBelow(v: seq<Option<Block>>, b: Block, h: nat)
    requires IsChain(v) && Contains(v, b) && h <= b.height
    ensures Built(b) && h < |v| && v[h] == Some(Ancestor(b, h))
  {
    var tip :| IsChainOf(v, tip);
    AncestorOfAncestor(tip, b.height, h);
    AncestorBuilt(tip, b.height);
  }

  /** Where a block of the new tip's ancestry is already in place, everything below it is too. */
  lemma EarlyExit(was: seq<Option<Block>>, v: seq<Option<Block>>, tip: Block, b: Block)
    requires IsChain(was) && Contains(was, b) && Linked(tip) && IsAncestor(b, tip) && b.height < |v|
    requires forall h :: 0 <= h <= b.height ==> v[h] == was[h]
    ensures forall h :: 0 <= h <= b.height ==> v[h] == Some(Ancestor(tip, h))
  {
    forall h | 0 <= h <= b.height ensures v[h] == Some(Ancestor(tip, h)) {
      ChainBelow(was, b, h);
      AncestorOfAncestor(tip, b.height, h);
    }
  }

  /** A chain contains exactly the ancestors of its tip. */
  lemma ContainsIff(v: seq<Option<Block>>, tip: Block, b: Block)
    requires IsChainOf(v, tip)
    ensures Contains(v, b) <==> IsAncestor(b, tip)
  {
  }

  function HeightOf(b: Option<Block>): int { if b.Some? then b.value.height else -1 }

  /** No block above height `h` is both in the chain and an ancestor of `b`. */
  ghost predicate NoneAbove(v: seq<Option<Block>>, b: Block, h: int)
    requires Linked(b)
  {
    forall a :: Contains(v, a) && IsAncestor(a, b) ==> a.height <= h
  }

  lemma BuiltLinked(b: Block)
    requires Built(b)
    ensures Linked(b) && IsAncestor(b, b)
  {
  }

  lemma PrevAncestor(tip: Block, b: Block)
    requires Linked(tip) && Built(b) && IsAncestor(b, tip)
    ensures b.prev.Some? ==> Built(b.prev.value) && IsAncestor(b.prev.value, tip) && b.prev.value.height == b.height - 1
    ensures b.prev.None? ==> b.height == 0
  {
    if b.prev.Some? {
      AncestorOfAncestor(tip, b.height, b.height - 1);
    }
  }

  lemma ForkStart(v: seq<Option<Block>>, b: Block)
    requires Built(b)
    ensures Linked(b) && IsAncestor(b, b) && NoneAbove(v, b, b.height) && NoneAbove(v, b, |v| - 1)
    ensures 0 <= |v| - 1 <= b.height ==> Built(Ancestor(b, |v| - 1)) && IsAncestor(Ancestor(b, |v| - 1), b)
  {
    hide GetSkipHeight, InvertLowestOne;
    if 0 <= |v| - 1 <= b.height {
      AncestorBuilt(b, |v| - 1);
    }
  }

  lemma ForkStep(v: seq<Option<Block>>, b: Block, r: Block)
    requires Linked(b) && Built(r) && IsAncestor(r, b) && NoneAbove(v, b, r.height) && !Contains(v, r)
    ensures NoneAbove(v, b, HeightOf(r.prev))
    ensures r.prev.Some? ==> Built(r.prev.value) && IsAncestor(r.prev.value, b) && r.prev.value.height < r.height
  {
    if r.height > 0 {
      AncestorOfAncestor(b, r.height, r.height - 1);
    }
    forall a | Contains(v, a) && IsAncestor(a, b) ensures a.height <= HeightOf(r.prev) {
      assert a.height != r.height;
    }
  }

  /** The heights that a locator from height `h` visits: one by one at first, then in doubling steps. */
  function LocatorHeights(h: nat, step: nat, count: nat): (r: seq<nat>)
    requires step > 0
    ensures r != [] && r[0] == h && r[|r| - 1] == 0 && forall i :: 0 <= i < |r| ==> r[i] <= h
    ensures forall i, j :: 0 <= i < j < |r| ==> r[i] > r[j]
  {
    if h == 0 then [0]
    else [h] + LocatorHeights(StepBack(h, step), NextStep(step, count), count + 1)
  }

  /** The gap after the i-th entry of a locator. */
  function Gap(i: nat): nat { if i <= 10 then 1 else Pow2(i - 10) }

  /** Each height is the one before less the gap, which is 1 for the first eleven entries and doubles from there on. */
  lemma {:induction false} LocatorGaps(h: nat, count: nat, i: nat)
    requires var hs := LocatorHeights(h, Gap(count), count); i + 1 < |hs|
    ensures var hs := LocatorHeights(h, Gap(count), count);
            hs[i + 1] == if hs[i] > Gap(count + i) then hs[i] - Gap(count + i) else 0
    decreases i
  {
    hide LocatorHeights, Gap;
    LocatorCons(h, count);
    if h > 0 {
      if i > 0 { LocatorGaps(StepBack(h, Gap(count)), count + 1, i - 1); }
    }
  }

  lemma LocatorCons(h: nat, count: nat)
    ensures Gap(count) > 0 && Gap(count + 1) > 0
    ensures LocatorHeights(h, Gap(count), count) ==
            if h == 0 then [0] else [h] + LocatorHeights(StepBack(h, Gap(count)), Gap(count + 1), count + 1)
  {
    GapGrows(count);
    GapGrows(count + 1);
  }

  lemma GapGrows(count: nat)
    ensures Gap(count) > 0 && NextStep(Gap(count), count) == Gap(count + 1)
  {
    if count == 10 { assert Pow2(1) == 2; }
  }

  function StepBack(h: nat, step: nat): nat { if h > step then h - step else 0 }

  function NextStep(step: nat, count: nat): nat { if count + 1 > 10 then step * 2 else step }

  /** The blocks that a locator from a block visits. */
  function LocatorFrom(b: Block, step: nat, count: nat): seq<Block>
    requires Linked(b) && step > 0
    decreases b.height
  {
    if b.height == 0 then [b]
    else [b] + LocatorFrom(Ancestor(b, StepBack(b.height, step)), NextStep(step, count), count + 1)
  }

  /** They are the ancestors at the locator heights. */
  lemma {:induction false} LocatorBlocks(b: Block, step: nat, count: nat)
    requires Linked(b) && step > 0
    ensures var (r, hs) := (LocatorFrom(b, step, count), LocatorHeights(b.height, step, count));
            |r| == |hs| && forall i :: 0 <= i < |r| ==> r[i] == Ancestor(b, hs[i])
    decreases b.height
  {
    if b.height > 0 {
      var h := StepBack(b.height, step);
      var a := Ancestor(b, h);
      LocatorBlocks(a, NextStep(step, count), count + 1);
      var hs := LocatorHeights(h, NextStep(step, count), count + 1);
      forall i | 0 <= i < |hs| ensures Ancestor(a, hs[i]) == Ancestor(b, hs[i]) {
        AncestorOfAncestor(b, h, hs[i]);
      }
    }
  }

  /** Once the steps double, k of them cover any height up to step * (2^k - 1). */
  lemma LocatorEnd(step: nat, count: nat)
    requires step > 0
    ensures LocatorHeights(0, step, count) == [0]
  {
  }

  lemma LocatorStep(h: nat, step: nat, count: nat)
    requires h > 0 && step > 0 && count >= 10
    ensures |LocatorHeights(h, step, count)| == 1 + |LocatorHeights(StepBack(h, step), step * 2, count + 1)|
  {
  }

  lemma HalfSpan(step: nat, x: nat)
    ensures step * (2 * x - 1) == step + (step * 2) * (x - 1)
  {
    Distribute(step, 2 * x, 1);
    Distribute(step * 2, x, 1);
    Mul3(step, 2, x);
  }

  lemma {:induction false} DoublingLength(h: nat, step: nat, count: nat, k: nat)
    requires step > 0 && count >= 10 && h <= step * (Pow2(k) - 1)
    ensures |LocatorHeights(h, step, count)| <= k + 1
    decreases k
  {
    hide LocatorHeights;
    if h == 0 {
      LocatorEnd(step, count);
    } else {
      assert k > 0;
      HalfSpan(step, Pow2(k - 1));
      MulLe(0, step * 2, Pow2(k - 1) - 1);
      LocatorStep(h, step, count);
      DoublingLength(StepBack(h, step), step * 2, count + 1, k - 1);
    }
  }

  lemma {:induction false} SteppingLength(h: nat, count: nat, k: nat)
    requires h < Pow2(k) && count <= 10
    ensures |LocatorHeights(h, 1, count)| <= 10 - count + k + 1
    decreases 10 - count
  {
    if count == 10 {
      DoublingLength(h, 1, count, k);
    } else if h > 0 {
      SteppingLength(h - 1, count + 1, k);
    }
  }

  /** A locator for a height below 2^k has at most k + 11 entries. */
  lemma LocatorIsShort(h: nat, k: nat)
    requires h < Pow2(k)
    ensures |LocatorHeights(h, 1, 0)| <= k + 11
  {
    SteppingLength(h, 0, k);
  }
}

/** The chain object. */
module Chain {
  import opened Options
  import opened M = ChainModel

  class Chain {
    var vChain: seq<Option<Block>>
    var atomicTip: Option<Block>

    ghost predicate Valid()
      reads this
    {
      IsChain(vChain) && atomicTip == (if vChain == [] then None else vChain[|vChain| - 1])
    }

    constructor ()
      ensures Valid() && vChain == []
    {
      vChain, atomicTip := [], None;
    }

    function Tip(): (r: Option<Block>)
      requires Valid()
      reads this
      ensures r == atomicTip
    {
      if vChain == [] then None else vChain[|vChain| - 1]
    }

    /** The tip when only proof-of-stake blocks count: the highest one, or the genesis block when there is none. */
    method StakeTip(isProofOfStake: Block -> bool) returns (r: Option<Block>)
      requires Valid()
      ensures r.Some? <==> Tip().Some?
      ensures r.Some? ==> Contains(vChain, r.value) && (isProofOfStake(r.value) || r.value.height == 0)
      ensures r.Some? ==> forall h :: r.value.height < h < |vChain| && vChain[h].Some? ==> !isProofOfStake(vChain[h].value)
    {
      if vChain == [] { return None; }
      ghost var tip :| IsChainOf(vChain, tip);
      TipIsLast(vChain, tip);
      var b := vChain[|vChain| - 1].value;
      while b.prev.Some? && !isProofOfStake(b)
        invariant Contains(vChain, b) && Linked(b)
        invariant forall h :: b.height < h < |vChain| && vChain[h].Some? ==> !isProofOfStake(vChain[h].value)
        decreases b
      {
        AncestorOfAncestor(tip, b.height, b.height - 1);
        b := b.prev.value;
      }
      return Some(b);
    }

    /** Rewrites the vector from the new tip down to the first block that is already in place. */
    method SetTip(tip: Option<Block>)
      requires Valid() && (tip.Some? ==> Built(tip.value))
      modifies this
      ensures Valid() && Tip() == tip
      ensures tip.None? ==> vChain == []
      ensures tip.Some? ==> IsChainOf(vChain, tip.value)
    {
      hide IsChain, Ancestor, Built;
      if tip.None? {
        vChain, atomicTip := [], None;
        EmptyChain();
        return;
      }
      ghost var was := vChain;
      var n := tip.value.height + 1;
      vChain := if |vChain| >= n then vChain[..n] else vChain + seq(n - |vChain|, i => None);
      ghost var resized := vChain;
      var walk := tip;
      BuiltLinked(tip.value);
      while walk.Some? && vChain[walk.value.height] != walk
        invariant |vChain| == n
        invariant walk.Some? ==> Built(walk.value) && walk.value.height < n && IsAncestor(walk.value, tip.value)
        invariant var done := if walk.Some? then walk.value.height + 1 else 0;
                  && (forall h :: done <= h < n ==> vChain[h] == Some(Ancestor(tip.value, h)))
                  && (forall h :: 0 <= h < done ==> vChain[h] == resized[h])
        decreases if walk.Some? then walk.value.height + 1 else 0
      {
        var b := walk.value;
        vChain := vChain[b.height := walk];
        PrevAncestor(tip.value, b);
        walk := b.prev;
      }
      if walk.Some? {
        var b := walk.value;
        EarlyExit(was, vChain, tip.value, b);
      }
      atomicTip := tip;
      TipIsLast(vChain, tip.value);
    }

    /** The highest block that is both in the chain and an ancestor of the given block. */
    method FindFork(b: Option<Block>) returns (r: Option<Block>)
      requires Valid() && (b.Some? ==> Built(b.value))
      ensures r.Some? ==> b.Some? && Contains(vChain, r.value) && IsAncestor(r.value, b.value)
      ensures b.Some? ==> NoneAbove(vChain, b.value, HeightOf(r))
    {
      hide Built, Ancestor, IsChain, NoneAbove, Contains;
      if b.None? { return None; }
      r := b;
      ForkStart(vChain, b.value);
      if b.value.height > |vChain| - 1 {
        ghost var steps;
        r, steps := GetAncestor(b.value, |vChain| - 1);
      }
      while r.Some? && !Contains(vChain, r.value)
        invariant r.Some? ==> Built(r.value) && IsAncestor(r.value, b.value)
        invariant NoneAbove(vChain, b.value, HeightOf(r))
        decreases HeightOf(r) + 1
      {
        ForkStep(vChain, b.value, r.value);
        r := r.value.prev;
      }
    }

    /** The locator holds the ancestors at the locator heights. */
    method GetLocator(b: Option<Block>) returns (r: seq<Block>)
      requires Valid() && (b.Some? ==> Built(b.value))
      ensures b.None? && Tip().None? ==> r == []
      ensures b.None? && Tip().Some? ==> Linked(Tip().value) && r == LocatorFrom(Tip().value, 1, 0)
      ensures b.Some? ==> r == LocatorFrom(b.value, 1, 0)
    {
      hide Built, Ancestor, IsChain, Contains;
      r := [];
      var walk := if b.Some? then b else Tip();
      if walk.None? { return; }
      ghost var from := walk.value;
      if b.None? {
        TipInChain();
        ChainBelow(vChain, from, from.height);
      }
      BuiltLinked(from);
      var nStep := 1;
      while true
        invariant walk.Some? && Linked(from) && Built(walk.value) && Linked(walk.value) && nStep > 0
        invariant r + LocatorFrom(walk.value, nStep, |r|) == LocatorFrom(from, 1, 0)
        decreases walk.value.height
      {
        var p := walk.value;
        var nHeight := StepBack(p.height, nStep);
        AncestorBuilt(p, nHeight);
        BuiltLinked(Ancestor(p, nHeight));
        ghost var rest := LocatorFrom(p, nStep, |r|);
        assert p.height > 0 ==> r + rest == (r + [p]) + rest[1..];
        r := r + [p];
        if p.height == 0 { break; }
        walk := AncestorOf(p, nHeight);
        nStep := NextStep(nStep, |r| - 1);
      }
    }

    /** An ancestor, looked up in the vector when the block is in the chain and in the skip list otherwise. */
    method AncestorOf(p: Block, height: nat) returns (r: Option<Block>)
      requires Valid() && Built(p) && height <= p.height
      ensures r == Some(Ancestor(p, height))
    {
      if Contains(vChain, p) {
        ChainBelow(vChain, p, height);
        r := vChain[height];
      } else {
        ghost var steps;
        r, steps := GetAncestor(p, height);
      }
    }

    lemma TipInChain()
      requires Valid() && Tip().Some?
      ensures Contains(vChain, Tip().value)
    {
      var tip :| IsChainOf(vChain, tip);
      ChainTip(vChain, tip);
    }
  }
}
