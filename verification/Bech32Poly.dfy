/** The Bech32 checksum as a remainder of polynomials over GF(32), and what a valid string is (src/bech32.cpp; BIP 173,
    section "Bech32"). */
module Bech32Poly {
  import opened Bech32Model

  // ---------------------------------------------------------------- GF(32)

  /** A field element times a, modulo a^5 + a^3 + 1. */
  function TimesA(x: Word): Word { if x & 16 != 0 then (x << 1) ^ 41 else x << 1 }

  function OnBit(y: Word, bit: Word, x: Word): Word { if y & bit != 0 then x else 0 }

  /** The product in GF(32): the bits of the one select the multiples of the other by powers of a. */
  function Mul(x: Word, y: Word): Word {
    var x1 := TimesA(x);
    var x2 := TimesA(x1);
    var x3 := TimesA(x2);
    var x4 := TimesA(x3);
    OnBit(y, 1, x) ^ OnBit(y, 2, x1) ^ OnBit(y, 4, x2) ^ OnBit(y, 8, x3) ^ OnBit(y, 16, x4)
  }

  lemma MulExample()
    ensures Mul(5, 26) == 9
  {
  }

  lemma MulOne(x: Word)
    requires Symbol(x)
    ensures Mul(1, x) == x
  {
  }

  // ---------------------------------------------------------------- polynomials

  /** Coefficients, highest first. */
  type Poly = seq<Word>

  function Zeros(n: nat): (r: Poly)
    ensures |r| == n
  {
    seq(n, i => 0)
  }

  function Scale(x: Word, g: Poly): (r: Poly)
    ensures |r| == |g|
  {
    seq(|g|, i requires 0 <= i < |g| => Mul(g[i], x))
  }

  /** The product of `q` and a polynomial `g` that is not empty. */
  function Product(q: Poly, g: Poly): (r: Poly)
    requires g != []
    ensures |r| == |q| + |g| - 1
  {
    if q == [] then Zeros(|g| - 1)
    else Xor(Scale(q[0], g) + Zeros(|q| - 1), [0] + Product(q[1..], g))
  }

  /** x^6 + {29}x^5 + {22}x^4 + {20}x^3 + {21}x^2 + {29}x + {18}. */
  const GENERATOR: Poly := [1, 29, 22, 20, 21, 29, 18]

  /** `p` divided by the generator leaves `r`, with quotient `q`. */
  predicate Divides(p: Poly, q: Poly, r: Poly) {
    |r| == 6 && Symbols(q) && |p| == |q| + 6 && p == Xor(Product(q, GENERATOR), Zeros(|q|) + r)
  }

  lemma ReduceGroup(c0: Word, i: nat)
    requires Symbol(c0) && i < 6
    ensures Group(Reduce(c0), i) == Mul(GENERATOR[i + 1], c0)
  {
    hide Mul, Reduce;
    if i == 0 { Reduce0(c0); } else if i == 1 { Reduce1(c0); } else if i == 2 { Reduce2(c0); }
    else if i == 3 { Reduce3(c0); } else if i == 4 { Reduce4(c0); } else { Reduce5(c0); }
  }

  lemma Reduce0(c0: Word)
    requires Symbol(c0)
    ensures (Reduce(c0) >> 25) & 31 == Mul(29, c0)
  {
  }

  lemma Reduce1(c0: Word)
    requires Symbol(c0)
    ensures (Reduce(c0) >> 20) & 31 == Mul(22, c0)
  {
  }

  lemma Reduce2(c0: Word)
    requires Symbol(c0)
    ensures (Reduce(c0) >> 15) & 31 == Mul(20, c0)
  {
  }

  lemma Reduce3(c0: Word)
    requires Symbol(c0)
    ensures (Reduce(c0) >> 10) & 31 == Mul(21, c0)
  {
  }

  lemma Reduce4(c0: Word)
    requires Symbol(c0)
    ensures (Reduce(c0) >> 5) & 31 == Mul(29, c0)
  {
  }

  lemma Reduce5(c0: Word)
    requires Symbol(c0)
    ensures Reduce(c0) & 31 == Mul(18, c0)
  {
  }

  lemma GroupLinear(a: Word, b: Word, i: nat)
    requires i < 6
    ensures Group(X(a, b), i) == X(Group(a, i), Group(b, i))
  {
    hide X, Group;
    if i == 0 { Linear0(a, b); } else if i == 1 { Linear1(a, b); } else if i == 2 { Linear2(a, b); }
    else if i == 3 { Linear3(a, b); } else if i == 4 { Linear4(a, b); } else { Linear5(a, b); }
  }

  lemma Linear0(a: Word, b: Word)
    ensures Group(X(a, b), 0) == X(Group(a, 0), Group(b, 0))
  {
  }

  lemma Linear1(a: Word, b: Word)
    ensures Group(X(a, b), 1) == X(Group(a, 1), Group(b, 1))
  {
  }

  lemma Linear2(a: Word, b: Word)
    ensures Group(X(a, b), 2) == X(Group(a, 2), Group(b, 2))
  {
  }

  lemma Linear3(a: Word, b: Word)
    ensures Group(X(a, b), 3) == X(Group(a, 3), Group(b, 3))
  {
  }

  lemma Linear4(a: Word, b: Word)
    ensures Group(X(a, b), 4) == X(Group(a, 4), Group(b, 4))
  {
  }

  lemma Linear5(a: Word, b: Word)
    ensures Group(X(a, b), 5) == X(Group(a, 5), Group(b, 5))
  {
  }

  /** Shifting in a symbol moves every group one place up. */
  lemma GroupShift(c: Word, v: Word, i: nat)
    requires Small(c) && Symbol(v) && i < 6
    ensures Group(X(Up(c), v), i) == if i < 5 then Group(c, i + 1) else v
    ensures Lead(c) == Group(c, 0) && Symbol(Lead(c))
  {
    hide X, Up, Small, Symbol, Group, Lead;
    LeadGroup(c);
    if i == 0 { Shift0(c, v); } else if i == 1 { Shift1(c, v); } else if i == 2 { Shift2(c, v); }
    else if i == 3 { Shift3(c, v); } else if i == 4 { Shift4(c, v); } else { Shift5(c, v); }
  }

  lemma LeadGroup(c: Word)
    requires Small(c)
    ensures Lead(c) == Group(c, 0) && Symbol(Lead(c))
  {
  }

  lemma Shift0(c: Word, v: Word)
    requires Symbol(v)
    ensures Group(X(Up(c), v), 0) == Group(c, 1)
  {
  }

  lemma Shift1(c: Word, v: Word)
    requires Symbol(v)
    ensures Group(X(Up(c), v), 1) == Group(c, 2)
  {
  }

  lemma Shift2(c: Word, v: Word)
    requires Symbol(v)
    ensures Group(X(Up(c), v), 2) == Group(c, 3)
  {
  }

  lemma Shift3(c: Word, v: Word)
    requires Symbol(v)
    ensures Group(X(Up(c), v), 3) == Group(c, 4)
  {
  }

  lemma Shift4(c: Word, v: Word)
    requires Symbol(v)
    ensures Group(X(Up(c), v), 4) == Group(c, 5)
  {
  }

  lemma Shift5(c: Word, v: Word)
    requires Symbol(v)
    ensures Group(X(Up(c), v), 5) == v
  {
  }

  lemma StepGroup(c: Word, v: Word, i: nat)
    requires Small(c) && Symbol(v) && i < 6
    ensures (if i < 5 then Group(c, i + 1) else v) == X(Mul(GENERATOR[i + 1], Group(c, 0)), Group(Step(c, v), i))
  {
    hide X, Up, Lead, Reduce, Group, Mul;
    var c0, u := Lead(c), X(Up(c), v);
    GroupShift(c, v, i);
    GroupLinear(u, Reduce(c0), i);
    ReduceGroup(c0, i);
    XorFacts(Group(u, i), Group(Reduce(c0), i));
    XorFacts(Group(Reduce(c0), i), Group(Step(c, v), i));
  }

  /** One step divides: the leading group times the generator makes up for what the shift pushes out. */
  lemma StepDivides(c: Word, v: Word)
    requires Small(c) && Symbol(v)
    ensures Groups(c) + [v] == Xor(Scale(Group(c, 0), GENERATOR), [0] + Groups(Step(c, v)))
  {
    hide X, Step, Group, Mul;
    var a, b := Scale(Group(c, 0), GENERATOR), [0] + Groups(Step(c, v));
    forall i | 0 <= i < 7 ensures (Groups(c) + [v])[i] == X(a[i], b[i]) {
      if i == 0 {
        LeadGroup(c);
        MulOne(Group(c, 0));
        XorFacts(Group(c, 0), 0);
      } else {
        StepGroup(c, v, i - 1);
        GroupsAt(c, i);
        GroupsAt(Step(c, v), i - 1);
      }
    }
  }

  lemma GroupsAt(c: Word, i: nat)
    ensures i < 6 ==> Groups(c)[i] == Group(c, i)
  {
    hide Group;
  }

  lemma XorZeros(p: Poly)
    ensures Xor(Zeros(|p|), p) == p
  {
    hide X;
    forall i | 0 <= i < |p| ensures X(0, p[i]) == p[i] { XorFacts(p[i], 0); }
  }

  lemma XorAppend(a: Poly, b: Poly, c: Poly, d: Poly)
    requires |a| == |b| && |c| == |d|
    ensures Xor(a + c, b + d) == Xor(a, b) + Xor(c, d)
  {
    hide X;
  }

  lemma XorSeqAssoc(a: Poly, b: Poly, c: Poly)
    requires |a| == |b| == |c|
    ensures Xor(Xor(a, b), c) == Xor(a, Xor(b, c))
  {
    hide X;
    forall i | 0 <= i < |a| ensures X(X(a[i], b[i]), c[i]) == X(a[i], X(b[i], c[i])) { XorAssoc(a[i], b[i], c[i]); }
  }

  /** A division goes on for another coefficient of the quotient. */
  lemma DivisionGrows(head: Poly, x: Word, next: Poly, rest: Poly, q: Poly, r: Poly)
    requires |head| == 7 && |next| == 6 && Symbol(x) && head == Xor(Scale(x, GENERATOR), [0] + next)
    requires Divides(next + rest, q, r)
    ensures Divides(head + rest, [x] + q, r)
  {
    hide X, Mul, Product;
    var s, p, tail := Scale(x, GENERATOR), Product(q, GENERATOR), Zeros(|q|) + r;
    var s' := s + Zeros(|q|);
    ProductCons(x, q);
    XorAppend([0], [0], p, tail);
    XorZeros([0]);
    XorZeros(rest);
    assert Zeros(|q| + 1) + r == [0] + tail;
    assert [0] == Zeros(1);
    XorSeqAssoc(s', [0] + p, [0] + tail);
    assert Xor([0] + p, [0] + tail) == [0] + (next + rest) == ([0] + next) + rest;
    XorAppend(s, [0] + next, Zeros(|q|), rest);
  }

  lemma ProductCons(x: Word, q: Poly)
    ensures Product([x] + q, GENERATOR) == Xor(Scale(x, GENERATOR) + Zeros(|q|), [0] + Product(q, GENERATOR))
  {
    hide X, Mul;
    assert ([x] + q)[1..] == q;
  }

  lemma {:induction false} FoldDivides(c: Word, v: Poly) returns (q: Poly)
    requires Small(c) && Symbols(v)
    ensures Divides(Groups(c) + v, q, Groups(Fold(c, v)))
    decreases |v|
  {
    hide X, Mul, Step, Group, Divides, Small;
    if v == [] {
      q := [];
      NoDivision(c);
      assert Groups(c) + v == Groups(c);
    } else {
      var next := Step(c, v[0]);
      SymbolsSmall(v);
      StepSmall(c, v[0]);
      StepDivides(c, v[0]);
      LeadGroup(c);
      q := FoldDivides(next, v[1..]);
      DivisionGrows(Groups(c) + [v[0]], Group(c, 0), Groups(next), v[1..], q, Groups(Fold(c, v)));
      assert Groups(c) + [v[0]] + v[1..] == Groups(c) + v;
      q := [Group(c, 0)] + q;
    }
  }

  lemma NoDivision(c: Word)
    ensures Divides(Groups(c), [], Groups(c))
  {
    hide X, Mul, Group;
    XorZeros(Groups(c));
    assert Zeros(0) + Groups(c) == Groups(c);
  }

  /** The symbols with the implicit one in front, as a polynomial. */
  function Message(v: Poly): Poly { [0, 0, 0, 0, 0, 1] + v }

  /** The groups of the checksum state are the remainder of the message by the generator. */
  lemma PolyModIsRemainder(v: Poly) returns (q: Poly)
    requires Symbols(v)
    ensures Divides(Message(v), q, Groups(PolyMod(v)))
  {
    hide X, Mul, Step, Fold, Divides;
    GroupsOfOne();
    q := FoldDivides(1, v);
  }

  lemma GroupsOfOne()
    ensures Groups(1) == [0, 0, 0, 0, 0, 1]
  {
  }

  /** A polynomial has one remainder only. */
  lemma {:induction false} RemainderUnique(p: Poly, q1: Poly, r1: Poly, q2: Poly, r2: Poly)
    requires Divides(p, q1, r1) && Divides(p, q2, r2)
    ensures q1 == q2 && r1 == r2
    decreases |q1|
  {
    hide X, Mul, Product, Divides;
    DivisionSize(p, q1, r1);
    DivisionSize(p, q2, r2);
    if q1 == [] {
      NoQuotient(p, r1);
      NoQuotient(p, r2);
    } else {
      var t1 := DivisionShrinks(p, q1, r1);
      var t2 := DivisionShrinks(p, q2, r2);
      RemainderUnique(t1, q1[1..], r1, q2[1..], r2);
      assert q1 == [p[0]] + q1[1..] && q2 == [p[0]] + q2[1..];
    }
  }

  lemma DivisionSize(p: Poly, q: Poly, r: Poly)
    requires Divides(p, q, r)
    ensures |p| == |q| + 6 && |r| == 6
  {
    hide Product, X, Mul;
  }

  lemma NoQuotient(p: Poly, r: Poly)
    requires Divides(p, [], r)
    ensures p == r
  {
    hide X, Mul;
    XorZeros(r);
    assert Zeros(0) + r == r;
  }

  /** What is left to divide depends on the polynomial alone. */
  lemma DivisionShrinks(p: Poly, q: Poly, r: Poly) returns (rest: Poly)
    requires Divides(p, q, r) && q != []
    ensures q[0] == p[0] && rest == Left(p) && Divides(rest, q[1..], r)
  {
    hide X, Mul, Product;
    var x, t := q[0], q[1..];
    var s, m := Scale(x, GENERATOR) + Zeros(|t|), Product(t, GENERATOR);
    assert q == [x] + t;
    ProductCons(x, t);
    var tail := Zeros(|t|) + r;
    assert Zeros(|q|) + r == [0] + tail;
    XorSeqAssoc(s, [0] + m, [0] + tail);
    XorAppend([0], [0], m, tail);
    XorZeros([0]);
    assert [0] == Zeros(1);
    rest := Xor(m, tail);
    assert p == Xor(s, [0] + rest);
    MulOne(x);
    XorFacts(x, 0);
    LeftIs(p, s, rest);
  }

  /** The polynomial less its leading coefficient times the generator. */
  function Left(p: Poly): Poly
    requires |p| >= 7
  {
    Xor(Scale(p[0], GENERATOR) + Zeros(|p| - 7), p)[1..]
  }

  lemma LeftIs(p: Poly, s: Poly, rest: Poly)
    requires |p| >= 7 && |s| == |p| == |rest| + 1 && p == Xor(s, [0] + rest) && s == Scale(p[0], GENERATOR) + Zeros(|p| - 7)
    ensures Left(p) == rest
  {
    hide X, Mul;
    forall i | 0 <= i < |rest| ensures X(s[i + 1], p[i + 1]) == rest[i] {
      assert p[i + 1] == X(s[i + 1], ([0] + rest)[i + 1]);
      XorFacts(s[i + 1], rest[i]);
      XorFacts(s[i + 1], p[i + 1]);
    }
  }
}
