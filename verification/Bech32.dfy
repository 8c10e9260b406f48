/** Bech32 and Bech32m strings (src/bech32.cpp; BIP 173, section "Bech32", and BIP 350, section "Bech32m").

    Checksum states and 5-bit symbols are 32-bit words. */
module Bech32Model {
  type Word = bv32

  datatype Encoding = Invalid | Bech32 | Bech32m

  const NONE: Word := 0xffff_ffff
  const ONE := '1'
  const LIMIT := 1023

  function Constant(e: Encoding): Word {
    match e
    case Bech32 => 1
    case Bech32m => 0x2bc8_30a3
    case Invalid => 0
  }

  // ---------------------------------------------------------------- the checksum polynomial

  /** Exclusive or, named so that proofs can treat it as opaque. */
  function X(a: Word, b: Word): Word { a ^ b }

  predicate BitSet(c0: Word, bit: Word) { c0 & bit != 0 }

  function Pick(c0: Word, bit: Word, k: Word): Word { if BitSet(c0, bit) then k else 0 }

  /** What the leading coefficient adds back after the shift. */
  function Reduce(c0: Word): Word {
    X(X(X(X(Pick(c0, 1, 0x3b6a_57b2), Pick(c0, 2, 0x2650_8e6d)), Pick(c0, 4, 0x1ea1_19fa)), Pick(c0, 8, 0x3d42_33dd)),
      Pick(c0, 16, 0x2a14_62b3))
  }

  function Up(c: Word): Word { (c & 0x01ff_ffff) << 5 }

  function Lead(c: Word): Word { c >> 25 }

  function Step(c: Word, v: Word): Word { X(X(Up(c), v), Reduce(Lead(c))) }

  function Fold(c: Word, v: seq<Word>): Word
    decreases |v|
  {
    if v == [] then c else Fold(Step(c, v[0]), v[1..])
  }

  function PolyMod(v: seq<Word>): Word { Fold(1, v) }

  predicate Small(c: Word) { c < 0x4000_0000 }

  lemma BitXor(a: Word, b: Word, bit: Word)
    requires bit == 1 || bit == 2 || bit == 4 || bit == 8 || bit == 16
    ensures BitSet(X(a, b), bit) == (BitSet(a, bit) != BitSet(b, bit))
  {
  }

  lemma PickLinear(a: Word, b: Word, bit: Word, k: Word)
    requires bit == 1 || bit == 2 || bit == 4 || bit == 8 || bit == 16
    ensures Pick(X(a, b), bit, k) == X(Pick(a, bit, k), Pick(b, bit, k))
  {
    hide X, BitSet;
    BitXor(a, b, bit);
    XorFacts(k, 0);
    XorFacts(0, 0);
  }

  lemma ReduceLinear(a: Word, b: Word)
    ensures Reduce(X(a, b)) == X(Reduce(a), Reduce(b))
  {
    hide X, Pick;
    PickLinear(a, b, 1, 0x3b6a_57b2);
    PickLinear(a, b, 2, 0x2650_8e6d);
    PickLinear(a, b, 4, 0x1ea1_19fa);
    PickLinear(a, b, 8, 0x3d42_33dd);
    PickLinear(a, b, 16, 0x2a14_62b3);
    var p, q, r, s := Pick(a, 1, 0x3b6a_57b2), Pick(a, 2, 0x2650_8e6d), Pick(a, 4, 0x1ea1_19fa), Pick(a, 8, 0x3d42_33dd);
    var t, u, v, w := Pick(b, 1, 0x3b6a_57b2), Pick(b, 2, 0x2650_8e6d), Pick(b, 4, 0x1ea1_19fa), Pick(b, 8, 0x3d42_33dd);
    Shuffle(p, t, q, u);
    Shuffle(X(p, q), X(t, u), r, v);
    Shuffle(X(X(p, q), r), X(X(t, u), v), s, w);
    Shuffle(X(X(X(p, q), r), s), X(X(X(t, u), v), w), Pick(a, 16, 0x2a14_62b3), Pick(b, 16, 0x2a14_62b3));
  }

  lemma UpLinear(a: Word, b: Word)
    ensures Up(X(a, b)) == X(Up(a), Up(b)) && Lead(X(a, b)) == X(Lead(a), Lead(b))
  {
  }

  lemma Shuffle(a: Word, b: Word, c: Word, d: Word)
    ensures X(X(a, b), X(c, d)) == X(X(a, c), X(b, d))
  {
    hide X;
    XorAssoc(X(a, b), c, d);
    XorAssoc(a, b, c);
    XorFacts(b, c);
    XorAssoc(a, c, b);
    XorAssoc(X(a, c), b, d);
  }

  lemma XorAssoc(a: Word, b: Word, c: Word)
    ensures X(X(a, b), c) == X(a, X(b, c))
  {
  }

  lemma StepLinear(a: Word, b: Word, v: Word, w: Word)
    ensures Step(X(a, b), X(v, w)) == X(Step(a, v), Step(b, w))
  {
    hide Reduce, X, Up, Lead;
    UpLinear(a, b);
    ReduceLinear(Lead(a), Lead(b));
    Shuffle(Up(a), Up(b), v, w);
    Shuffle(X(Up(a), v), X(Up(b), w), Reduce(Lead(a)), Reduce(Lead(b)));
  }

  lemma StepSmall(c: Word, v: Word)
    requires Small(c) && Small(v)
    ensures Small(Step(c, v))
  {
  }

  /** Only the zero state steps to zero. */
  lemma StepKernel(c: Word)
    requires Small(c) && Step(c, 0) == 0
    ensures c == 0
  {
  }

  lemma XorFacts(a: Word, b: Word)
    ensures X(a, a) == 0 && X(a, 0) == a && X(0, a) == a && (X(a, b) == 0 <==> a == b)
    ensures X(X(a, b), b) == a && X(X(a, b), a) == b && X(a, b) == X(b, a)
    ensures Small(a) && Small(b) ==> Small(X(a, b))
  {
  }

  /** A step is injective on 30-bit states. */
  lemma StepInjective(a: Word, b: Word, v: Word)
    requires Small(a) && Small(b) && Step(a, v) == Step(b, v)
    ensures a == b
  {
    hide Step, X;
    StepLinear(a, b, v, v);
    XorFacts(v, v);
    XorFacts(a, b);
    XorFacts(Step(a, v), Step(b, v));
    StepKernel(X(a, b));
  }

  lemma StepDistinct(c: Word, v: Word, w: Word)
    requires v != w
    ensures Step(c, v) != Step(c, w)
  {
    hide X, Up, Reduce, Lead;
    XorFacts(Up(c), v);
    XorFacts(Up(c), w);
    XorCancel(X(Up(c), v), X(Up(c), w), Reduce(Lead(c)));
  }

  lemma XorCancel(a: Word, b: Word, c: Word)
    requires a != b
    ensures X(a, c) != X(b, c)
  {
  }

  predicate AllSmall(v: seq<Word>) { forall i :: 0 <= i < |v| ==> Small(v[i]) }

  lemma {:induction false} FoldSmall(c: Word, v: seq<Word>)
    requires Small(c) && AllSmall(v)
    ensures Small(Fold(c, v))
    decreases |v|
  {
    hide Step;
    if v != [] {
      StepSmall(c, v[0]);
      FoldSmall(Step(c, v[0]), v[1..]);
    }
  }

  lemma {:induction false} FoldInjective(a: Word, b: Word, v: seq<Word>)
    requires Small(a) && Small(b) && AllSmall(v) && Fold(a, v) == Fold(b, v)
    ensures a == b
    decreases |v|
  {
    hide Step;
    if v != [] {
      StepSmall(a, v[0]);
      StepSmall(b, v[0]);
      FoldInjective(Step(a, v[0]), Step(b, v[0]), v[1..]);
      StepInjective(a, b, v[0]);
    }
  }

  lemma {:induction false} FoldAppend(c: Word, v: seq<Word>, w: seq<Word>)
    ensures Fold(c, v + w) == Fold(Fold(c, v), w)
    decreases |v|
  {
    hide Step;
    if v == [] {
      assert v + w == w;
    } else {
      FoldAppend(Step(c, v[0]), v[1..], w);
      assert (v + w)[1..] == v[1..] + w;
    }
  }

  /** Folding is linear in the start and the symbols together. */
  lemma {:induction false} FoldLinear(a: Word, b: Word, v: seq<Word>, w: seq<Word>)
    requires |v| == |w|
    ensures Fold(X(a, b), Xor(v, w)) == X(Fold(a, v), Fold(b, w))
    decreases |v|
  {
    hide Step, X;
    if v != [] {
      StepLinear(a, b, v[0], w[0]);
      FoldLinear(Step(a, v[0]), Step(b, w[0]), v[1..], w[1..]);
      assert Xor(v, w)[1..] == Xor(v[1..], w[1..]);
    }
  }

  function Xor(v: seq<Word>, w: seq<Word>): seq<Word>
    requires |v| == |w|
  {
    seq(|v|, i requires 0 <= i < |v| => X(v[i], w[i]))
  }

  // ---------------------------------------------------------------- checksums

  predicate Symbol(v: Word) { v < 32 }

  predicate Symbols(v: seq<Word>) { forall i :: 0 <= i < |v| ==> Symbol(v[i]) }

  /** The i-th 5-bit group of a 30-bit number, highest first. */
  function Group(m: Word, i: nat): Word {
    (if i == 0 then m >> 25 else if i == 1 then m >> 20 else if i == 2 then m >> 15
     else if i == 3 then m >> 10 else if i == 4 then m >> 5 else m) & 31
  }

  const ZEROS: seq<Word> := [0, 0, 0, 0, 0, 0]

  function Groups(m: Word): seq<Word> { [Group(m, 0), Group(m, 1), Group(m, 2), Group(m, 3), Group(m, 4), Group(m, 5)] }

  function Then(c: Word, v: Word): Word { (c << 5) ^ v }

  function Pack(r: seq<Word>): Word
    requires |r| == 6
  {
    Then(Then(Then(Then(Then(r[0], r[1]), r[2]), r[3]), r[4]), r[5])
  }

  lemma PackGroups(m: Word)
    requires Small(m)
    ensures Pack(Groups(m)) == m && Symbols(Groups(m))
  {
    hide Symbols;
    PackIs(m);
    GroupsAreSymbols(m);
  }

  lemma PackIs(m: Word)
    requires Small(m)
    ensures Pack(Groups(m)) == m
  {
  }

  lemma GroupsAreSymbols(m: Word)
    ensures Symbols(Groups(m))
  {
  }

  lemma GroupsPack(r: seq<Word>)
    requires |r| == 6 && Symbols(r)
    ensures Groups(Pack(r)) == r && Small(Pack(r))
  {
    GroupsOfSix(r[0], r[1], r[2], r[3], r[4], r[5]);
  }

  lemma GroupsOfSix(a: Word, b: Word, c: Word, d: Word, e: Word, f: Word)
    requires Symbol(a) && Symbol(b) && Symbol(c) && Symbol(d) && Symbol(e) && Symbol(f)
    ensures var m := Then(Then(Then(Then(Then(a, b), c), d), e), f);
            && Small(m) && Group(m, 0) == a && Group(m, 1) == b && Group(m, 2) == c
            && Group(m, 3) == d && Group(m, 4) == e && Group(m, 5) == f
  {
  }

  lemma FoldOne(c: Word, v: seq<Word>)
    requires v != []
    ensures Fold(c, v) == Fold(Step(c, v[0]), v[1..])
  {
  }

  lemma FoldSix(c: Word, r: seq<Word>)
    requires |r| == 6
    ensures Fold(c, r) == Step(Step(Step(Step(Step(Step(c, r[0]), r[1]), r[2]), r[3]), r[4]), r[5])
  {
    hide Step, Fold;
    var c1 := Step(c, r[0]);
    var c2 := Step(c1, r[1]);
    var c3 := Step(c2, r[2]);
    var c4 := Step(c3, r[3]);
    var c5 := Step(c4, r[4]);
    FoldOne(c, r);
    FoldOne(c1, r[1..]);
    FoldOne(c2, r[1..][1..]);
    FoldOne(c3, r[1..][1..][1..]);
    FoldOne(c4, r[1..][1..][1..][1..]);
    FoldOne(c5, r[1..][1..][1..][1..][1..]);
    FoldNone(Step(c5, r[5]), r[1..][1..][1..][1..][1..][1..]);
  }

  lemma FoldNone(c: Word, v: seq<Word>)
    requires v == []
    ensures Fold(c, v) == c
  {
  }

  /** Below 2^25 a step only shifts. */
  lemma StepLow(c: Word, v: Word)
    requires c < 0x0200_0000
    ensures Step(c, v) == Then(c, v)
  {
    hide Reduce, X, Up, Lead, Then;
    LeadLow(c, v);
    ReduceZero();
    XorFacts(X(Up(c), v), 0);
  }

  lemma LeadLow(c: Word, v: Word)
    requires c < 0x0200_0000
    ensures Lead(c) == 0 && X(Up(c), v) == Then(c, v)
  {
  }

  lemma ReduceZero()
    ensures Reduce(0) == 0
  {
  }

  lemma SixLow(a: Word, b: Word, c: Word, d: Word, e: Word)
    requires Symbol(a) && Symbol(b) && Symbol(c) && Symbol(d) && Symbol(e)
    ensures Then(0, a) == a && a < 0x0200_0000 && Then(a, b) < 0x0200_0000 && Then(Then(a, b), c) < 0x0200_0000
    ensures Then(Then(Then(a, b), c), d) < 0x0200_0000 && Then(Then(Then(Then(a, b), c), d), e) < 0x0200_0000
  {
  }

  /** From zero, six symbols are simply packed. */
  lemma FoldPacks(r: seq<Word>)
    requires |r| == 6 && Symbols(r)
    ensures Fold(0, r) == Pack(r)
  {
    hide Step, Fold, Then;
    FoldSix(0, r);
    SixLow(r[0], r[1], r[2], r[3], r[4]);
    StepLow(0, r[0]);
    StepLow(r[0], r[1]);
    StepLow(Then(r[0], r[1]), r[2]);
    StepLow(Then(Then(r[0], r[1]), r[2]), r[3]);
    StepLow(Then(Then(Then(r[0], r[1]), r[2]), r[3]), r[4]);
    StepLow(Then(Then(Then(Then(r[0], r[1]), r[2]), r[3]), r[4]), r[5]);
  }

  /** Six symbols change the remainder by just their packed value. */
  lemma LastSix(c: Word, r: seq<Word>)
    requires |r| == 6 && Symbols(r)
    ensures Fold(c, r) == X(Fold(c, ZEROS), Pack(r))
  {
    hide Fold, X, Pack;
    FoldLinear(c, 0, ZEROS, r);
    XorFacts(c, 0);
    FoldPacks(r);
    assert Xor(ZEROS, r) == r by {
      forall i | 0 <= i < 6 ensures X(ZEROS[i], r[i]) == r[i] {
        XorFacts(r[i], 0);
      }
    }
  }

  /** A number below 32 as a word. */
  function WordOf(x: nat): Word {
    if x == 0 then 0
    else if x == 1 then 1
    else if x == 2 then 2
    else if x == 3 then 3
    else if x == 4 then 4
    else if x == 5 then 5
    else if x == 6 then 6
    else if x == 7 then 7
    else if x == 8 then 8
    else if x == 9 then 9
    else if x == 10 then 10
    else if x == 11 then 11
    else if x == 12 then 12
    else if x == 13 then 13
    else if x == 14 then 14
    else if x == 15 then 15
    else if x == 16 then 16
    else if x == 17 then 17
    else if x == 18 then 18
    else if x == 19 then 19
    else if x == 20 then 20
    else if x == 21 then 21
    else if x == 22 then 22
    else if x == 23 then 23
    else if x == 24 then 24
    else if x == 25 then 25
    else if x == 26 then 26
    else if x == 27 then 27
    else if x == 28 then 28
    else if x == 29 then 29
    else if x == 30 then 30
    else 31
  }

  /** The two symbols a prefix character contributes. */
  function HighBits(c: char): Word { WordOf(c as int / 32) }

  function LowBits(c: char): Word { WordOf(c as int % 32) }

  function ExpandHrp(hrp: string): seq<Word> {
    seq(|hrp|, i requires 0 <= i < |hrp| => HighBits(hrp[i])) + [0]
    + seq(|hrp|, i requires 0 <= i < |hrp| => LowBits(hrp[i]))
  }

  function Checksum(hrp: string, values: seq<Word>, e: Encoding): seq<Word> {
    Groups(X(PolyMod(ExpandHrp(hrp) + values + ZEROS), Constant(e)))
  }

  function Verified(hrp: string, values: seq<Word>): Encoding {
    var check := PolyMod(ExpandHrp(hrp) + values);
    if check == 1 then Bech32 else if check == 0x2bc8_30a3 then Bech32m else Invalid
  }

  lemma ExpandSmall(hrp: string)
    ensures AllSmall(ExpandHrp(hrp))
  {
    forall i | 0 <= i < |ExpandHrp(hrp)| ensures Small(ExpandHrp(hrp)[i]) {
      if i < |hrp| {
        ShiftedSmall(hrp[i]);
      } else if i > |hrp| {
        ShiftedSmall(hrp[i - |hrp| - 1]);
      }
    }
  }

  lemma ShiftedSmall(c: char)
    ensures Small(HighBits(c)) && Small(LowBits(c))
  {
    WordSmall(c as int / 32);
    WordSmall(c as int % 32);
  }

  lemma WordSmall(x: nat)
    ensures Small(WordOf(x))
  {
  }

  lemma SymbolsSmall(v: seq<Word>)
    requires Symbols(v)
    ensures AllSmall(v)
  {
  }

  lemma SmallAppend(v: seq<Word>, w: seq<Word>)
    requires AllSmall(v) && AllSmall(w)
    ensures AllSmall(v + w)
  {
  }

  /** The remainder over everything but the last six symbols. */
  lemma SplitPolyMod(hrp: string, values: seq<Word>, r: seq<Word>)
    ensures PolyMod(ExpandHrp(hrp) + (values + r)) == Fold(PolyMod(ExpandHrp(hrp) + values), r)
  {
    hide Fold;
    FoldAppend(1, ExpandHrp(hrp) + values, r);
    assert ExpandHrp(hrp) + (values + r) == ExpandHrp(hrp) + values + r;
  }

  lemma RemainderSmall(hrp: string, values: seq<Word>)
    requires Symbols(values)
    ensures Small(Fold(PolyMod(ExpandHrp(hrp) + values), ZEROS))
  {
    hide Fold, Symbols;
    ExpandSmall(hrp);
    SymbolsSmall(values);
    SmallAppend(ExpandHrp(hrp), values);
    FoldSmall(1, ExpandHrp(hrp) + values);
    FoldSmall(PolyMod(ExpandHrp(hrp) + values), ZEROS);
  }

  /** The six checksum symbols are exactly those that make the whole verify. */
  lemma ChecksumIff(hrp: string, values: seq<Word>, r: seq<Word>, e: Encoding)
    requires e != Invalid && Symbols(values) && |r| == 6 && Symbols(r)
    ensures Verified(hrp, values + r) == e <==> r == Checksum(hrp, values, e)
  {
    hide Fold, X, Pack, Groups, Symbols, PolyMod;
    var c := PolyMod(ExpandHrp(hrp) + values);
    var z := Fold(c, ZEROS);
    SplitPolyMod(hrp, values, r);
    SplitPolyMod(hrp, values, ZEROS);
    assert ExpandHrp(hrp) + values + ZEROS == ExpandHrp(hrp) + (values + ZEROS);
    LastSix(c, r);
    GroupsPack(r);
    RemainderSmall(hrp, values);
    ConstantFacts(e);
    XorFacts(z, Constant(e));
    XorFacts(z, Pack(r));
    PackGroups(X(z, Constant(e)));
    XorFacts(Constant(e), Pack(r));
  }

  lemma ConstantFacts(e: Encoding)
    ensures Small(Constant(e)) && Constant(Bech32) != Constant(Bech32m)
  {
  }

  /** Replacing one symbol by another never verifies under the same encoding. */
  lemma SubstitutionDetected(hrp: string, values: seq<Word>, i: nat, w: Word)
    requires Symbols(values) && i < |values| && Symbol(w) && w != values[i] && Verified(hrp, values) != Invalid
    ensures Verified(hrp, values[i := w]) != Verified(hrp, values)
  {
    hide Fold, Step, Symbols;
    var head, tail := ExpandHrp(hrp) + values[..i], values[i + 1..];
    var c := Fold(1, head);
    assert ExpandHrp(hrp) + values == head + ([values[i]] + tail);
    assert ExpandHrp(hrp) + values[i := w] == head + ([w] + tail);
    FoldAppend(1, head, [values[i]] + tail);
    FoldAppend(1, head, [w] + tail);
    FoldOne(c, [values[i]] + tail);
    FoldOne(c, [w] + tail);
    PartsSmall(hrp, values, i);
    StepDistinct(c, values[i], w);
    StepSmall(c, values[i]);
    StepSmall(c, w);
    if Fold(Step(c, values[i]), tail) == Fold(Step(c, w), tail) {
      FoldInjective(Step(c, values[i]), Step(c, w), tail);
    }
  }

  /** Equal but for six consecutive symbols from `i` on. */
  predicate SameOutside(v: seq<Word>, w: seq<Word>, i: nat) {
    |v| == |w| && i + 6 <= |v| && v[..i] == w[..i] && v[i + 6..] == w[i + 6..]
  }

  lemma Window(hrp: string, v: seq<Word>, i: nat)
    requires i + 6 <= |v|
    ensures PolyMod(ExpandHrp(hrp) + v) == Fold(Fold(Fold(1, ExpandHrp(hrp) + v[..i]), v[i..i + 6]), v[i + 6..])
  {
    hide Fold, ExpandHrp;
    var head := ExpandHrp(hrp) + v[..i];
    assert ExpandHrp(hrp) + v == head + (v[i..i + 6] + v[i + 6..]);
    FoldAppend(1, head, v[i..i + 6] + v[i + 6..]);
    FoldAppend(Fold(1, head), v[i..i + 6], v[i + 6..]);
  }

  lemma SixDistinct(c: Word, r: seq<Word>, q: seq<Word>)
    requires |r| == |q| == 6 && Symbols(r) && Symbols(q) && r != q
    ensures Fold(c, r) != Fold(c, q)
  {
    hide Fold, Pack, Groups, Symbols, X;
    LastSix(c, r);
    LastSix(c, q);
    GroupsPack(r);
    GroupsPack(q);
    XorCancels(Fold(c, ZEROS), Pack(r), Pack(q));
  }

  lemma XorCancels(c: Word, a: Word, b: Word)
    ensures X(c, a) == X(c, b) ==> a == b
  {
  }

  lemma SliceSymbols(v: seq<Word>, i: nat, j: nat)
    requires Symbols(v) && i <= j <= |v|
    ensures Symbols(v[i..j])
  {
  }

  /** No change within six consecutive symbols verifies under the same encoding. */
  lemma BurstDetected(hrp: string, values: seq<Word>, other: seq<Word>, i: nat)
    requires Symbols(values) && Symbols(other) && SameOutside(values, other, i) && values != other
    requires Verified(hrp, values) != Invalid
    ensures Verified(hrp, other) != Verified(hrp, values)
  {
    hide Fold, Symbols, ExpandHrp;
    var c, tail := Fold(1, ExpandHrp(hrp) + values[..i]), values[i + 6..];
    var r, q := values[i..i + 6], other[i..i + 6];
    assert values == values[..i] + r + tail && other == other[..i] + q + other[i + 6..];
    Window(hrp, values, i);
    Window(hrp, other, i);
    SliceSymbols(values, i, i + 6);
    SliceSymbols(other, i, i + 6);
    SixDistinct(c, r, q);
    BurstSmall(hrp, values, i);
    BurstSmall(hrp, other, i);
    if Fold(Fold(c, r), tail) == Fold(Fold(c, q), tail) { FoldInjective(Fold(c, r), Fold(c, q), tail); }
  }

  lemma BurstSmall(hrp: string, v: seq<Word>, i: nat)
    requires Symbols(v) && i + 6 <= |v|
    ensures Small(Fold(Fold(1, ExpandHrp(hrp) + v[..i]), v[i..i + 6])) && AllSmall(v[i + 6..])
  {
    hide Fold;
    ExpandSmall(hrp);
    SymbolsSmall(v);
    SmallAppend(ExpandHrp(hrp), v[..i]);
    FoldSmall(1, ExpandHrp(hrp) + v[..i]);
    FoldSmall(Fold(1, ExpandHrp(hrp) + v[..i]), v[i..i + 6]);
  }

  lemma PartsSmall(hrp: string, values: seq<Word>, i: nat)
    requires Symbols(values) && i < |values|
    ensures Small(Fold(1, ExpandHrp(hrp) + values[..i])) && AllSmall(values[i + 1..]) && Small(values[i])
  {
    hide Fold;
    ExpandSmall(hrp);
    SymbolsSmall(values);
    SmallAppend(ExpandHrp(hrp), values[..i]);
    FoldSmall(1, ExpandHrp(hrp) + values[..i]);
  }

  // ---------------------------------------------------------------- characters

  /** The character of a symbol. */
  function CharOf(v: Word): char {
    if v == 0 then 'q'
    else if v == 1 then 'p'
    else if v == 2 then 'z'
    else if v == 3 then 'r'
    else if v == 4 then 'y'
    else if v == 5 then '9'
    else if v == 6 then 'x'
    else if v == 7 then '8'
    else if v == 8 then 'g'
    else if v == 9 then 'f'
    else if v == 10 then '2'
    else if v == 11 then 't'
    else if v == 12 then 'v'
    else if v == 13 then 'd'
    else if v == 14 then 'w'
    else if v == 15 then '0'
    else if v == 16 then 's'
    else if v == 17 then '3'
    else if v == 18 then 'j'
    else if v == 19 then 'n'
    else if v == 20 then '5'
    else if v == 21 then '4'
    else if v == 22 then 'k'
    else if v == 23 then 'h'
    else if v == 24 then 'c'
    else if v == 25 then 'e'
    else if v == 26 then '6'
    else if v == 27 then 'm'
    else if v == 28 then 'u'
    else if v == 29 then 'a'
    else if v == 30 then '7'
    else 'l'
  }

  /** The symbol of a character of either case, or NONE. */
  function RevOf(c: char): Word {
    if c == 'q' || c == 'Q' then 0
    else if c == 'p' || c == 'P' then 1
    else if c == 'z' || c == 'Z' then 2
    else if c == 'r' || c == 'R' then 3
    else if c == 'y' || c == 'Y' then 4
    else if c == '9' then 5
    else if c == 'x' || c == 'X' then 6
    else if c == '8' then 7
    else if c == 'g' || c == 'G' then 8
    else if c == 'f' || c == 'F' then 9
    else if c == '2' then 10
    else if c == 't' || c == 'T' then 11
    else if c == 'v' || c == 'V' then 12
    else if c == 'd' || c == 'D' then 13
    else if c == 'w' || c == 'W' then 14
    else if c == '0' then 15
    else if c == 's' || c == 'S' then 16
    else if c == '3' then 17
    else if c == 'j' || c == 'J' then 18
    else if c == 'n' || c == 'N' then 19
    else if c == '5' then 20
    else if c == '4' then 21
    else if c == 'k' || c == 'K' then 22
    else if c == 'h' || c == 'H' then 23
    else if c == 'c' || c == 'C' then 24
    else if c == 'e' || c == 'E' then 25
    else if c == '6' then 26
    else if c == 'm' || c == 'M' then 27
    else if c == 'u' || c == 'U' then 28
    else if c == 'a' || c == 'A' then 29
    else if c == '7' then 30
    else if c == 'l' || c == 'L' then 31
    else NONE
  }

  predicate Printable(c: char) { 33 as char <= c <= 126 as char }
  predicate IsLower(c: char) { 'a' <= c <= 'z' }
  predicate IsUpper(c: char) { 'A' <= c <= 'Z' }

  function Lower(c: char): char { if IsUpper(c) then c - 'A' + 'a' else c }

  lemma CharFacts(v: Word)
    requires Symbol(v)
    ensures Printable(CharOf(v)) && !IsUpper(CharOf(v)) && CharOf(v) != ONE && RevOf(CharOf(v)) == v
  {
    hide CharOf, RevOf;
    CharIsData(v);
    if v < 12 { RevOfChar0(v); } else if v < 18 { RevOfChar1(v); } else if v < 21 { RevOfChar2(v); } else if v < 24 { RevOfChar3(v); }
    else if v < 27 { RevOfChar4(v); } else if v < 30 { RevOfChar5(v); } else { RevOfChar6(v); }
  }

  lemma CharIsData(v: Word)
    requires Symbol(v)
    ensures Printable(CharOf(v)) && !IsUpper(CharOf(v)) && CharOf(v) != ONE
  {
  }

  lemma RevOfChar0(v: Word)
    requires 0 <= v < 12
    ensures RevOf(CharOf(v)) == v
  {
  }

  lemma RevOfChar1(v: Word)
    requires 12 <= v < 18
    ensures RevOf(CharOf(v)) == v
  {
  }

  lemma RevOfChar2(v: Word)
    requires 18 <= v < 21
    ensures RevOf(CharOf(v)) == v
  {
  }

  lemma RevOfChar3(v: Word)
    requires 21 <= v < 24
    ensures RevOf(CharOf(v)) == v
  {
  }

  lemma RevOfChar4(v: Word)
    requires 24 <= v < 27
    ensures RevOf(CharOf(v)) == v
  {
  }

  lemma RevOfChar5(v: Word)
    requires 27 <= v < 30
    ensures RevOf(CharOf(v)) == v
  {
  }

  lemma RevOfChar6(v: Word)
    requires 30 <= v < 32
    ensures RevOf(CharOf(v)) == v
  {
  }

  lemma RevFacts(c: char)
    requires RevOf(c) != NONE
    ensures Symbol(RevOf(c)) && CharOf(RevOf(c)) == Lower(c) && c != ONE
  {
    hide CharOf, RevOf;
    RevIsSymbol(c);
    if c <= '9' { CharOfDigit(c); } else if c <= 'G' { CharOfUpper0(c); } else if c <= 'P' { CharOfUpper1(c); }
    else if c <= 'Z' { CharOfUpper2(c); } else if c <= 'm' { CharOfLower0(c); } else { CharOfLower1(c); }
  }

  lemma RevIsSymbol(c: char)
    requires RevOf(c) != NONE
    ensures Symbol(RevOf(c)) && c != ONE
  {
  }

  lemma CharOfDigit(c: char)
    requires RevOf(c) != NONE && c <= '9'
    ensures CharOf(RevOf(c)) == Lower(c)
  {
  }

  lemma CharOfUpper0(c: char)
    requires RevOf(c) != NONE && '9' < c <= 'G'
    ensures CharOf(RevOf(c)) == Lower(c)
  {
  }

  lemma CharOfUpper1(c: char)
    requires RevOf(c) != NONE && 'G' < c <= 'P'
    ensures CharOf(RevOf(c)) == Lower(c)
  {
  }

  lemma CharOfUpper2(c: char)
    requires RevOf(c) != NONE && 'P' < c <= 'Z'
    ensures CharOf(RevOf(c)) == Lower(c)
  {
  }

  lemma CharOfLower0(c: char)
    requires RevOf(c) != NONE && 'Z' < c <= 'm'
    ensures CharOf(RevOf(c)) == Lower(c)
  {
  }

  lemma CharOfLower1(c: char)
    requires RevOf(c) != NONE && 'm' < c
    ensures CharOf(RevOf(c)) == Lower(c)
  {
  }

  // ---------------------------------------------------------------- strings

  datatype Decoded = Decoded(encoding: Encoding, hrp: string, data: seq<Word>)

  const REFUSED := Decoded(Invalid, "", [])

  function Chars(v: seq<Word>): string { seq(|v|, i requires 0 <= i < |v| => CharOf(v[i])) }

  function Revs(s: string): seq<Word> { seq(|s|, i requires 0 <= i < |s| => RevOf(s[i])) }

  function LowerAll(s: string): string { seq(|s|, i requires 0 <= i < |s| => Lower(s[i])) }

  function Encoded(hrp: string, values: seq<Word>, e: Encoding): string {
    if e == Invalid then ""
    else
      var combined := values + Checksum(hrp, values, e);
      if Symbols(combined) then hrp + [ONE] + Chars(combined) else ""
  }

  /** The position of the last separator, or -1. */
  function LastOne(s: string): (pos: int)
    ensures -1 <= pos < |s| && (pos >= 0 ==> s[pos] == ONE) && forall i :: pos < i < |s| ==> s[i] != ONE
  {
    if s == "" then -1
    else if s[|s| - 1] == ONE then |s| - 1
    else LastOne(s[..|s| - 1])
  }

  /** Printable and not of mixed case. */
  predicate WellCased(s: string) {
    && (forall i :: 0 <= i < |s| ==> Printable(s[i]))
    && !(exists i, j :: 0 <= i < |s| && 0 <= j < |s| && IsLower(s[i]) && IsUpper(s[j]))
  }

  predicate Framed(s: string) {
    var pos := LastOne(s);
    && WellCased(s) && |s| <= LIMIT && pos >= 1 && pos + 7 <= |s|
    && forall i :: pos < i < |s| ==> RevOf(s[i]) != NONE
  }

  function Decode(s: string): Decoded {
    if !Framed(s) then REFUSED
    else
      var pos := LastOne(s);
      var hrp, values := LowerAll(s[..pos]), Revs(s[pos + 1..]);
      var e := Verified(hrp, values);
      if e == Invalid then REFUSED else Decoded(e, hrp, values[..|values| - 6])
  }

  /** A prefix that decoding accepts and keeps as it is. */
  predicate GoodPrefix(hrp: string) {
    |hrp| >= 1 && forall i :: 0 <= i < |hrp| ==> Printable(hrp[i]) && !IsUpper(hrp[i])
  }

  lemma SymbolsAppend(v: seq<Word>, w: seq<Word>)
    ensures Symbols(v + w) <==> Symbols(v) && Symbols(w)
  {
    if Symbols(v + w) {
      forall i | 0 <= i < |v| ensures Symbol(v[i]) { assert Symbol((v + w)[i]); }
      forall i | 0 <= i < |w| ensures Symbol(w[i]) { assert Symbol((v + w)[|v| + i]); }
    }
  }

  lemma LastOneIs(hrp: string, tail: string)
    requires forall i :: 0 <= i < |tail| ==> tail[i] != ONE
    ensures LastOne(hrp + [ONE] + tail) == |hrp|
  {
    var s := hrp + [ONE] + tail;
    assert s[|hrp|] == ONE;
  }

  lemma CharsFacts(v: seq<Word>)
    requires Symbols(v)
    ensures forall i :: 0 <= i < |v| ==>
              Printable(Chars(v)[i]) && !IsUpper(Chars(v)[i]) && Chars(v)[i] != ONE && RevOf(Chars(v)[i]) != NONE
    ensures Revs(Chars(v)) == v
  {
    hide CharOf, RevOf;
    forall i | 0 <= i < |v|
      ensures Printable(CharOf(v[i])) && !IsUpper(CharOf(v[i])) && CharOf(v[i]) != ONE && RevOf(CharOf(v[i])) == v[i]
    {
      CharFacts(v[i]);
    }
    assert forall i :: 0 <= i < |v| ==> v[i] != NONE;
  }

  lemma LowerSame(s: string)
    requires forall i :: 0 <= i < |s| ==> !IsUpper(s[i])
    ensures LowerAll(s) == s
  {
  }

  lemma EncodedIsFramed(hrp: string, v: seq<Word>)
    requires GoodPrefix(hrp) && Symbols(v) && |v| >= 6 && |hrp| + 1 + |v| <= LIMIT
    ensures var s := hrp + [ONE] + Chars(v);
            Framed(s) && LastOne(s) == |hrp| && LowerAll(s[..|hrp|]) == hrp && Revs(s[|hrp| + 1..]) == v
  {
    hide CharOf, RevOf, LastOne, Chars;
    var tail := Chars(v);
    var s := hrp + [ONE] + tail;
    CharsFacts(v);
    CharsLength(v);
    LastOneIs(hrp, tail);
    LowerSame(hrp);
    assert s[..|hrp|] == hrp && s[|hrp| + 1..] == tail;
    forall i | 0 <= i < |s| ensures Printable(s[i]) && !IsUpper(s[i]) {
      if i > |hrp| { assert s[i] == tail[i - |hrp| - 1]; }
    }
    forall i | |hrp| < i < |s| ensures RevOf(s[i]) != NONE { assert s[i] == tail[i - |hrp| - 1]; }
  }

  lemma CharsLength(v: seq<Word>)
    ensures |Chars(v)| == |v|
  {
  }

  /** Decoding what was encoded gives back encoding, prefix and data. */
  lemma DecodeEncode(hrp: string, v: seq<Word>, e: Encoding)
    requires e != Invalid && GoodPrefix(hrp) && Symbols(v) && |hrp| + 7 + |v| <= LIMIT
    ensures Decode(Encoded(hrp, v, e)) == Decoded(e, hrp, v)
  {
    hide Symbols, Framed, LastOne, Verified, Checksum, Chars, Revs, LowerAll;
    var r := Checksum(hrp, v, e);
    ChecksumSymbols(hrp, v, e);
    SymbolsAppend(v, r);
    EncodedIsFramed(hrp, v + r);
    ChecksumIff(hrp, v, r, e);
    assert (v + r)[..|v|] == v;
  }

  lemma ChecksumSymbols(hrp: string, v: seq<Word>, e: Encoding)
    ensures |Checksum(hrp, v, e)| == 6 && Symbols(Checksum(hrp, v, e))
  {
    hide PolyMod, X, Symbols, Group;
    GroupsAreSymbols(X(PolyMod(ExpandHrp(hrp) + v + ZEROS), Constant(e)));
  }

  lemma RevsFacts(s: string)
    requires forall i :: 0 <= i < |s| ==> RevOf(s[i]) != NONE
    ensures Symbols(Revs(s)) && Chars(Revs(s)) == LowerAll(s)
  {
    hide RevOf, CharOf;
    forall i | 0 <= i < |s| ensures Symbol(RevOf(s[i])) && CharOf(RevOf(s[i])) == Lower(s[i]) {
      RevFacts(s[i]);
    }
  }

  lemma LowerSplit(s: string, pos: nat)
    requires pos < |s| && s[pos] == ONE
    ensures LowerAll(s) == LowerAll(s[..pos]) + [ONE] + LowerAll(s[pos + 1..])
  {
  }

  /** What an accepted string consists of. */
  lemma DecodeParts(s: string) returns (pos: nat, r: seq<Word>)
    requires Decode(s).encoding != Invalid
    ensures pos < |s| && s[pos] == ONE && |r| == 6 && forall i :: pos < i < |s| ==> RevOf(s[i]) != NONE
    ensures var d := Decode(s);
            && d.hrp == LowerAll(s[..pos]) && Revs(s[pos + 1..]) == d.data + r && Verified(d.hrp, d.data + r) == d.encoding
  {
    hide Symbols, LastOne, Verified, Revs, LowerAll, RevOf, WellCased;
    pos := LastOne(s);
    RevsLength(s[pos + 1..]);
    var values := Revs(s[pos + 1..]);
    r := values[|values| - 6..];
    assert values[..|values| - 6] + r == values;
  }

  /** Encoding what was decoded gives back the string in lower case. */
  lemma EncodeDecode(s: string)
    requires Decode(s).encoding != Invalid
    ensures var d := Decode(s); Encoded(d.hrp, d.data, d.encoding) == LowerAll(s)
  {
    hide Symbols, LastOne, Verified, Checksum, Chars, Revs, LowerAll, RevOf, Decode;
    var pos, r := DecodeParts(s);
    var d := Decode(s);
    RevsFacts(s[pos + 1..]);
    SymbolsAppend(d.data, r);
    ChecksumIff(d.hrp, d.data, r, d.encoding);
    LowerSplit(s, pos);
  }

  lemma RevsLength(s: string)
    ensures |Revs(s)| == |s|
  {
  }

  /** Replacing one data character of a valid string by one for another symbol never gives a string that is
      valid under the same encoding. */
  lemma ReplacementDetected(s: string, j: nat, c: char)
    requires Decode(s).encoding != Invalid && LastOne(s) < j < |s| && RevOf(c) != NONE && RevOf(c) != RevOf(s[j])
    ensures Decode(s[j := c]).encoding != Decode(s).encoding
  {
    hide Symbols, LastOne, Verified, Revs, LowerAll, RevOf, WellCased;
    var pos := LastOne(s);
    var t := s[j := c];
    RevFacts(c);
    SameLastOne(s, j, c);
    var tail := s[pos + 1..];
    assert t[..pos] == s[..pos] && t[pos + 1..] == tail[j - pos - 1 := c];
    RevsUpdate(tail, j - pos - 1, c);
    RevsFacts(tail);
    SubstitutionDetected(LowerAll(s[..pos]), Revs(tail), j - pos - 1, RevOf(c));
  }

  /** Equal but for six consecutive characters from `j` on. */
  predicate SameBut(s: string, t: string, j: nat) {
    j + 6 <= |s| == |t| && forall k :: 0 <= k < |s| && (k < j || j + 6 <= k) ==> s[k] == t[k]
  }

  /** Replacing data characters within six consecutive ones, by others of the alphabet and not all of the same symbols,
      never yields a string valid under the same encoding. */
  lemma BurstReplacementDetected(s: string, t: string, j: nat)
    requires Decode(s).encoding != Invalid && LastOne(s) < j && SameBut(s, t, j)
    requires forall k :: j <= k < j + 6 ==> RevOf(t[k]) != NONE
    requires exists k :: j <= k < j + 6 && RevOf(t[k]) != RevOf(s[k])
    ensures Decode(t).encoding != Decode(s).encoding
  {
    hide LastOne, Verified, LowerAll, Revs, RevOf, SameOutside, SameBut, Symbols, Decode, Framed;
    DecodedUnder(s);
    DecodedUnder(t);
    if Decode(t).encoding != Invalid {
      BurstParts(s, t, j);
      BurstDetected(LowerAll(Prefix(s)), Revs(Data(s)), Revs(Data(t)), j - LastOne(s) - 1);
    }
  }

  function Prefix(s: string): string { if LastOne(s) < 0 then "" else s[..LastOne(s)] }

  function Data(s: string): string { s[LastOne(s) + 1..] }

  lemma DecodedUnder(s: string)
    ensures Decode(s).encoding != Invalid ==>
              0 <= LastOne(s) && Symbols(Revs(Data(s))) && Decode(s).encoding == Verified(LowerAll(Prefix(s)), Revs(Data(s)))
  {
    hide LastOne, Verified, LowerAll, Revs, RevOf, Symbols, WellCased, Framed;
    if Framed(s) { FramedData(s); }
  }

  lemma FramedData(s: string)
    requires Framed(s)
    ensures LastOne(s) >= 1 && Symbols(Revs(Data(s)))
  {
    hide LastOne, RevOf, Symbols, WellCased, Revs;
    assert forall i :: 0 <= i < |Data(s)| ==> Data(s)[i] == s[LastOne(s) + 1 + i];
    RevsFacts(Data(s));
  }

  lemma BurstParts(s: string, t: string, j: nat)
    requires 0 <= LastOne(s) < j && SameBut(s, t, j)
    requires forall k :: j <= k < j + 6 ==> RevOf(t[k]) != NONE
    requires exists k :: j <= k < j + 6 && RevOf(t[k]) != RevOf(s[k])
    ensures Prefix(s) == Prefix(t)
    ensures SameOutside(Revs(Data(s)), Revs(Data(t)), j - LastOne(s) - 1) && Revs(Data(s)) != Revs(Data(t))
  {
    hide LastOne, RevOf;
    var pos := LastOne(s);
    forall k | pos < k < |t| ensures t[k] != ONE {
      if j <= k < j + 6 { RevFacts(t[k]); }
    }
    LastOneAt(t, pos);
    assert s[..pos] == t[..pos];
    var a, b, i := s[pos + 1..], t[pos + 1..], j - pos - 1;
    assert forall k :: 0 <= k < |a| ==> a[k] == s[pos + 1 + k] && b[k] == t[pos + 1 + k];
    RevsSame(a, b, i);
    var k :| j <= k < j + 6 && RevOf(t[k]) != RevOf(s[k]);
    assert Revs(a)[k - pos - 1] == RevOf(s[k]) && Revs(b)[k - pos - 1] == RevOf(t[k]);
  }

  lemma RevsSame(a: string, b: string, i: nat)
    requires i + 6 <= |a| == |b| && forall k :: 0 <= k < |a| && (k < i || i + 6 <= k) ==> a[k] == b[k]
    ensures SameOutside(Revs(a), Revs(b), i)
  {
    hide RevOf;
    var v, w := Revs(a), Revs(b);
    forall k | 0 <= k < i ensures v[k] == w[k] {}
    forall k | i + 6 <= k < |v| ensures v[k] == w[k] {}
    assert v[..i] == w[..i] && v[i + 6..] == w[i + 6..];
  }

  lemma LastOneAt(t: string, pos: nat)
    requires pos < |t| && t[pos] == ONE && forall k :: pos < k < |t| ==> t[k] != ONE
    ensures LastOne(t) == pos
  {
  }

  lemma SameLastOne(s: string, j: nat, c: char)
    requires 0 <= LastOne(s) < j < |s| && c != ONE
    ensures LastOne(s[j := c]) == LastOne(s)
  {
    var t, p := s[j := c], LastOne(s);
    assert t[p] == ONE;
  }

  lemma RevsUpdate(s: string, j: nat, c: char)
    requires j < |s|
    ensures |Revs(s)| == |s| && Revs(s)[j] == RevOf(s[j]) && Revs(s[j := c]) == Revs(s)[j := RevOf(c)]
  {
  }
}

/** The loops of the codec. */
module Bech32 {
  import opened M = Bech32Model

  method PolyModLoop(v: seq<Word>) returns (c: Word)
    ensures c == PolyMod(v)
  {
    hide Step, X, BitSet;
    c := 1;
    for i := 0 to |v|
      invariant Fold(c, v[i..]) == PolyMod(v)
    {
      FoldOne(c, v[i..]);
      assert v[i..][1..] == v[i + 1..];
      StepByBits(c, v[i]);
      var c0 := Lead(c);
      c := X(Up(c), v[i]);
      if BitSet(c0, 1) { c := X(c, 0x3b6a_57b2); }
      if BitSet(c0, 2) { c := X(c, 0x2650_8e6d); }
      if BitSet(c0, 4) { c := X(c, 0x1ea1_19fa); }
      if BitSet(c0, 8) { c := X(c, 0x3d42_33dd); }
      if BitSet(c0, 16) { c := X(c, 0x2a14_62b3); }
    }
  }

  /** Adds a constant if the bit is set. */
  function AddIf(c: Word, c0: Word, bit: Word, k: Word): Word { if BitSet(c0, bit) then X(c, k) else c }

  lemma AddIfIs(c: Word, c0: Word, bit: Word, k: Word)
    ensures AddIf(c, c0, bit, k) == X(c, Pick(c0, bit, k))
  {
    hide X, BitSet;
    XorFacts(c, 0);
  }

  lemma StepByBits(c: Word, v: Word)
    ensures var c0 := Lead(c);
            Step(c, v) == AddIf(AddIf(AddIf(AddIf(AddIf(X(Up(c), v), c0, 1, 0x3b6a_57b2), c0, 2, 0x2650_8e6d),
                                                  c0, 4, 0x1ea1_19fa), c0, 8, 0x3d42_33dd), c0, 16, 0x2a14_62b3)
  {
    hide X, Pick, AddIf, Up, Lead;
    var c0, u := Lead(c), X(Up(c), v);
    var p, q, r, s, t := Pick(c0, 1, 0x3b6a_57b2), Pick(c0, 2, 0x2650_8e6d), Pick(c0, 4, 0x1ea1_19fa),
                         Pick(c0, 8, 0x3d42_33dd), Pick(c0, 16, 0x2a14_62b3);
    AddIfIs(u, c0, 1, 0x3b6a_57b2);
    AddIfIs(X(u, p), c0, 2, 0x2650_8e6d);
    AddIfIs(X(X(u, p), q), c0, 4, 0x1ea1_19fa);
    AddIfIs(X(X(X(u, p), q), r), c0, 8, 0x3d42_33dd);
    AddIfIs(X(X(X(X(u, p), q), r), s), c0, 16, 0x2a14_62b3);
    XorAssoc(u, p, q);
    XorAssoc(u, X(p, q), r);
    XorAssoc(u, X(X(p, q), r), s);
    XorAssoc(u, X(X(X(p, q), r), s), t);
  }

  method Expand(hrp: string) returns (ret: seq<Word>)
    ensures ret == ExpandHrp(hrp)
  {
    hide WordOf;
    var a := new Word[2 * |hrp| + 1](i => 0);
    for i := 0 to |hrp|
      invariant a[|hrp|] == 0
      invariant forall k :: 0 <= k < i ==> a[k] == HighBits(hrp[k]) && a[k + |hrp| + 1] == LowBits(hrp[k])
    {
      a[i] := HighBits(hrp[i]);
      a[i + |hrp| + 1] := LowBits(hrp[i]);
    }
    ret := a[..];
  }

  method CreateChecksum(hrp: string, values: seq<Word>, e: Encoding) returns (ret: seq<Word>)
    ensures ret == Checksum(hrp, values, e)
  {
    hide PolyMod, Group;
    var enc := Expand(hrp);
    var p := PolyModLoop(enc + values + ZEROS);
    var mod := X(p, Constant(e));
    ret := [];
    for i := 0 to 6
      invariant ret == Groups(mod)[..i]
    {
      ret := ret + [Group(mod, i)];
    }
  }

  method Encode(hrp: string, values: seq<Word>, e: Encoding) returns (ret: string)
    ensures ret == Encoded(hrp, values, e)
  {
    hide Checksum, CharOf;
    if e == Invalid { return ""; }
    var checksum := CreateChecksum(hrp, values, e);
    var combined := values + checksum;
    ret := hrp + [ONE];
    for i := 0 to |combined|
      invariant Symbols(combined[..i]) && ret == hrp + [ONE] + Chars(combined[..i])
    {
      if combined[i] >= 32 { return ""; }
      ret := ret + [CharOf(combined[i])];
    }
    assert combined[..|combined|] == combined;
  }

  /** Whether the string is printable and not of mixed case. */
  method CheckCase(s: string) returns (ok: bool)
    ensures ok == WellCased(s)
  {
    var lower, upper := false, false;
    for i := 0 to |s|
      invariant forall k :: 0 <= k < i ==> Printable(s[k])
      invariant lower <==> exists k :: 0 <= k < i && IsLower(s[k])
      invariant upper <==> exists k :: 0 <= k < i && IsUpper(s[k])
    {
      if !Printable(s[i]) { return false; }
      if IsLower(s[i]) { lower := true; }
      if IsUpper(s[i]) { upper := true; }
    }
    ok := !(lower && upper);
  }

  method FindLastOne(s: string) returns (pos: int)
    ensures pos == LastOne(s)
  {
    pos := |s| - 1;
    while pos >= 0
      invariant -1 <= pos < |s| && LastOne(s) == LastOne(s[..pos + 1])
    {
      if s[pos] == ONE { return; }
      assert s[..pos + 1][..pos] == s[..pos];
      pos := pos - 1;
    }
  }

  method DecodeString(s: string) returns (d: Decoded)
    ensures d == Decode(s)
  {
    hide LastOne, RevOf, PolyMod, WellCased;
    var ok := CheckCase(s);
    if !ok { return REFUSED; }
    var pos := FindLastOne(s);
    if |s| > LIMIT || pos == -1 || pos == 0 || pos + 7 > |s| { return REFUSED; }
    var values: seq<Word> := [];
    for i := 0 to |s| - 1 - pos
      invariant values == Revs(s[pos + 1..][..i])
      invariant forall k :: pos < k < pos + 1 + i ==> RevOf(s[k]) != NONE
    {
      var rev := RevOf(s[i + pos + 1]);
      if rev == NONE { return REFUSED; }
      values := values + [rev];
    }
    assert s[pos + 1..][..|s| - 1 - pos] == s[pos + 1..];
    var hrp := "";
    for i := 0 to pos
      invariant hrp == LowerAll(s[..i])
    {
      hrp := hrp + [Lower(s[i])];
    }
    var enc := Expand(hrp);
    var check := PolyModLoop(enc + values);
    var e := if check == 1 then Bech32 else if check == 0x2bc8_30a3 then Bech32m else Invalid;
    if e == Invalid { return REFUSED; }
    return Decoded(e, hrp, values[..|values| - 6]);
  }
}
