/** Powers of two and the value of a sequence of 32-bit limbs, lowest limb first. */
module Limbs {
  const B := 0x1_0000_0000

  type Limb = x: int | 0 <= x < B

  function Pow2(n: nat): (r: nat)
    ensures r > 0
  {
    if n == 0 then 1 else 2 * Pow2(n - 1)
  }

  /** B to the power `i`. */
  function P(i: nat): (r: nat)
    ensures r > 0
  {
    if i == 0 then 1 else B * P(i - 1)
  }

  lemma Mul3(a: int, b: int, c: int)
    ensures a * (b * c) == (a * b) * c
  {
  }

  lemma Distribute(a: int, b: int, c: int)
    ensures a * (b + c) == a * b + a * c && (b + c) * a == b * a + c * a
    ensures a * (b - c) == a * b - a * c && (b - c) * a == b * a - c * a
  {
  }

  lemma MulSwap(a: int, b: int, c: int)
    ensures a * (b * c) == b * (a * c)
  {
    Mul3(a, b, c);
    Mul3(b, a, c);
  }

  lemma MulLe(x: int, y: int, p: nat)
    requires x <= y
    ensures x * p <= y * p
  {
    Distribute(p, y, x);
  }

  lemma {:induction false} Pow2Add(m: nat, n: nat)
    ensures Pow2(m + n) == Pow2(m) * Pow2(n)
  {
    if m > 0 {
      Pow2Add(m - 1, n);
      Mul3(2, Pow2(m - 1), Pow2(n));
    }
  }

  lemma {:induction false} PAdd(m: nat, n: nat)
    ensures P(m + n) == P(m) * P(n)
  {
    if m > 0 {
      PAdd(m - 1, n);
      Mul3(B, P(m - 1), P(n));
    }
  }

  lemma Pow2Of32()
    ensures Pow2(32) == B
  {
    assert Pow2(8) == 256;
    Pow2Add(8, 8);
    Pow2Add(16, 16);
  }

  lemma {:induction false} PIsPow2(i: nat)
    ensures P(i) == Pow2(32 * i)
  {
    if i > 0 {
      PIsPow2(i - 1);
      Pow2Of32();
      Pow2Add(32, 32 * (i - 1));
    }
  }

  lemma {:induction false} Pow2Grows(m: nat, n: nat)
    requires m <= n
    ensures Pow2(m) <= Pow2(n)
  {
    if m < n {
      Pow2Grows(m, n - 1);
    }
  }

  /** The value of the `n` limbs from `k` on. */
  function Part(s: seq<Limb>, k: nat, n: nat): nat
    requires k + n <= |s|
  {
    if n == 0 then 0 else Part(s, k, n - 1) + s[k + n - 1] * P(n - 1)
  }

  /** The value of the whole sequence. */
  function Val(s: seq<Limb>): nat { Part(s, 0, |s|) }

  lemma {:induction false} PartBound(s: seq<Limb>, k: nat, n: nat)
    requires k + n <= |s|
    ensures Part(s, k, n) < P(n)
  {
    if n > 0 {
      PartBound(s, k, n - 1);
      var p, x := P(n - 1), s[k + n - 1];
      MulLe(x, B - 1, p);
      Distribute(p, B, 1);
    }
  }

  lemma {:induction false} PartSame(s: seq<Limb>, t: seq<Limb>, k: nat, n: nat)
    requires k + n <= |s| && k + n <= |t| && forall i :: k <= i < k + n ==> s[i] == t[i]
    ensures Part(s, k, n) == Part(t, k, n)
  {
    if n > 0 {
      PartSame(s, t, k, n - 1);
    }
  }

  /** The low `k` limbs and the `n` limbs above them. */
  lemma {:induction false} PartSplit(s: seq<Limb>, k: nat, n: nat)
    requires k + n <= |s|
    ensures Part(s, 0, k + n) == Part(s, 0, k) + P(k) * Part(s, k, n)
  {
    if n > 0 {
      PartSplit(s, k, n - 1);
      PAdd(k, n - 1);
      var x, p, q := s[k + n - 1], P(k), P(n - 1);
      Distribute(p, Part(s, k, n - 1), x * q);
      MulSwap(p, x, q);
    }
  }

  lemma {:induction false} PartZero(s: seq<Limb>, k: nat, n: nat)
    requires k + n <= |s| && forall i :: k <= i < k + n ==> s[i] == 0
    ensures Part(s, k, n) == 0
  {
    if n > 0 {
      PartZero(s, k, n - 1);
    }
  }

  /** A remainder in range is the remainder. */
  lemma ModUnique(x: int, q: int, m: nat, r: nat)
    requires m > 0 && x == q * m + r && r < m
    ensures x % m == r && x / m == q
  {
    var d := x / m - q;
    assert x == m * (x / m) + x % m;
    assert d * m == r - x % m by { Distribute(m, x / m, q); }
    if d >= 1 {
      MulLe(1, d, m);
      assert false;
    }
    if d <= -1 {
      MulLe(d, -1, m);
      assert false;
    }
  }

  function Times(a: nat, b: nat): nat {
    MulLe(0, a, b);
    a * b
  }

  /** Quotient and remainder, named so that proofs can treat them as opaque. */
  function Quot(x: nat, d: nat): nat
    requires d > 0
  {
    x / d
  }

  function Rem(x: nat, d: nat): nat
    requires d > 0
  {
    x % d
  }

  lemma QuotRem(x: nat, d: nat)
    requires d > 0
    ensures x == Quot(x, d) * d + Rem(x, d) && Rem(x, d) < d
  {
  }

  lemma RemOfTimes(a: nat, b: nat, m: nat)
    requires m > 0
    ensures Rem(Times(a, b), m) == a * b % m
  {
  }

  lemma QuotRemIs(x: nat, q: nat, d: nat, r: nat)
    requires d > 0 && x == q * d + r && r < d
    ensures Quot(x, d) == q && Rem(x, d) == r
  {
    ModUnique(x, q, d, r);
  }

  /** A limb and its carry hold the whole sum. */
  lemma CarryStep(n: nat, p: nat)
    ensures (n % B) * p + (n / B) * (B * p) == n * p
  {
    Mul3(n / B, B, p);
    assert n == (n / B) * B + n % B;
    Distribute(p, (n / B) * B, n % B);
  }

  // ---------------------------------------------------------------- bitwise or on naturals

  function Or(x: nat, y: nat): nat {
    if x == 0 && y == 0 then 0 else (if x % 2 == 1 || y % 2 == 1 then 1 else 0) + 2 * Or(x / 2, y / 2)
  }

  /** Or-ing a multiple of 2^n with something below 2^n adds them. */
  lemma OrStep(h: nat, y: nat)
    ensures Or(2 * h, y) == 2 * Or(h, y / 2) + y % 2
  {
    assert 2 * h / 2 == h;
  }

  lemma {:induction false} OrDisjoint(q: nat, n: nat, y: nat)
    requires y < Pow2(n)
    ensures Or(q * Pow2(n), y) == q * Pow2(n) + y
    decreases n
  {
    hide Or;
    if n == 0 {
      OrZero(q);
    } else {
      MulSwap(q, 2, Pow2(n - 1));
      OrDisjoint(q, n - 1, y / 2);
      OrStep(q * Pow2(n - 1), y);
    }
  }

  lemma {:induction false} OrZero(x: nat)
    ensures Or(x, 0) == x
  {
    if x > 0 {
      OrZero(x / 2);
    }
  }

  lemma {:induction false} OrCommutes(x: nat, y: nat)
    ensures Or(x, y) == Or(y, x)
  {
    if x != 0 || y != 0 {
      OrCommutes(x / 2, y / 2);
    }
  }
}
