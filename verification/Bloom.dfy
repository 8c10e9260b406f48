/** Bloom filters and the rolling pair of them (src/bloom.cpp). The sizing formulas are left to the caller: a
    filter has some number of bits and of hash functions. */
module BloomModel {
  import opened Limbs

  type Key = nat

  /** `hash` gives the hash of a key under a hash number and a tweak. */
  datatype Filter = Filter(hash: (nat, nat, Key) -> nat, hashFuncs: nat, tweak: nat, bits: seq<bool>,
                           isFull: bool, isEmpty: bool)

  predicate HasBits(f: Filter) { |f.bits| > 0 }

  /** A filter without bits can be asked only when it is marked full. */
  predicate Usable(f: Filter) { HasBits(f) || f.isFull }

  function Index(f: Filter, i: nat, key: Key): (r: nat)
    requires HasBits(f)
    ensures r < |f.bits|
  {
    f.hash(i, f.tweak, key) % |f.bits|
  }

  /** The bits with those of the first `n` hash functions set. */
  function Marked(f: Filter, key: Key, n: nat): (r: seq<bool>)
    requires HasBits(f)
    ensures |r| == |f.bits|
  {
    if n == 0 then f.bits else Marked(f, key, n - 1)[Index(f, n - 1, key) := true]
  }

  function Inserted(f: Filter, key: Key): (r: Filter)
    requires Usable(f)
    ensures Usable(r) && (HasBits(f) ==> HasBits(r))
  {
    if f.isFull then f else f.(bits := Marked(f, key, f.hashFuncs), isEmpty := false)
  }

  function Cleared(f: Filter): Filter { f.(bits := seq(|f.bits|, i => false), isFull := false, isEmpty := true) }

  /** The flags a received filter gets. */
  function Updated(f: Filter): Filter { f.(isFull := AllBits(f, true), isEmpty := AllBits(f, false)) }

  predicate AllBits(f: Filter, b: bool) { forall i :: 0 <= i < |f.bits| ==> f.bits[i] == b }

  predicate Contains(f: Filter, key: Key)
    requires Usable(f)
  {
    f.isFull || (!f.isEmpty && forall i :: 0 <= i < f.hashFuncs ==> f.bits[Index(f, i, key)])
  }

  /** The flags only save work: for a filter without them no answer changes, but for one with no hash
      function and no bit set, which then reports nothing instead of everything. */
  lemma UpdateKeepsAnswers(f: Filter, key: Key)
    requires HasBits(f) && !f.isFull && !f.isEmpty
    ensures (Contains(Updated(f), key) <==> Contains(f, key)) <==> f.hashFuncs > 0 || !AllBits(f, false)
  {
    assert forall i: nat :: Index(Updated(f), i, key) == Index(f, i, key);
    var first := f.bits[0];
    assert !(AllBits(f, true) && AllBits(f, false));
    if f.hashFuncs > 0 && AllBits(f, false) { assert !f.bits[Index(f, 0, key)]; }
  }

  lemma {:induction false} MarkedKeeps(f: Filter, key: Key, n: nat)
    requires HasBits(f)
    ensures forall j :: 0 <= j < |f.bits| && f.bits[j] ==> Marked(f, key, n)[j]
    ensures forall i :: 0 <= i < n ==> Marked(f, key, n)[Index(f, i, key)]
  {
    if n > 0 {
      MarkedKeeps(f, key, n - 1);
    }
  }

  /** Insertion makes the key present and loses none. */
  lemma InsertKeeps(f: Filter, key: Key, other: Key)
    requires Usable(f)
    ensures Contains(Inserted(f, key), key)
    ensures Contains(f, other) ==> Contains(Inserted(f, key), other)
  {
    if !f.isFull {
      MarkedKeeps(f, key, f.hashFuncs);
      assert forall i, k :: Index(Inserted(f, key), i, k) == Index(f, i, k);
    }
  }

  // ---------------------------------------------------------------- the rolling pair

  datatype Rolling = Rolling(b1: Filter, b2: Filter, elements: nat, insertions: nat)

  predicate Ready(r: Rolling) { HasBits(r.b1) && HasBits(r.b2) && r.elements > 0 }

  function Rolled(r: Rolling, key: Key): (s: Rolling)
    requires Ready(r)
    ensures Ready(s) && s.elements == r.elements
  {
    var b1 := if r.insertions == 0 then Cleared(r.b1) else r.b1;
    var b2 := if r.insertions == r.elements then Cleared(r.b2) else r.b2;
    var next := r.insertions + 1;
    Rolling(Inserted(b1, key), Inserted(b2, key), r.elements, if next == 2 * r.elements then 0 else next)
  }

  predicate Present(r: Rolling, key: Key)
    requires Ready(r)
  {
    if r.insertions < r.elements then Contains(r.b2, key) else Contains(r.b1, key)
  }

  /** The pair after a sequence of insertions into a fresh one. */
  function After(r: Rolling, keys: seq<Key>): (s: Rolling)
    requires Ready(r)
    ensures Ready(s) && s.elements == r.elements
  {
    if keys == [] then r else Rolled(After(r, keys[..|keys| - 1]), keys[|keys| - 1])
  }

  /** The filter reports the last `n` keys. */
  ghost predicate HoldsLast(f: Filter, keys: seq<Key>, n: int)
    requires Usable(f)
  {
    forall i :: 0 <= i < |keys| && |keys| - n <= i ==> Contains(f, keys[i])
  }

  lemma HoldsMore(f: Filter, keys: seq<Key>, n: int, key: Key)
    requires Usable(f) && HoldsLast(f, keys, n)
    ensures HoldsLast(Inserted(f, key), keys + [key], n + 1)
  {
    var all := keys + [key];
    forall i | 0 <= i < |all| && |all| - (n + 1) <= i ensures Contains(Inserted(f, key), all[i]) {
      InsertKeeps(f, key, all[i]);
      if i < |keys| { assert all[i] == keys[i]; }
    }
  }

  lemma HoldsNone(f: Filter, keys: seq<Key>, n: int)
    requires Usable(f) && n <= 0
    ensures HoldsLast(f, keys, n)
  {
  }

  lemma HoldsFewer(f: Filter, keys: seq<Key>, n: int, m: int)
    requires Usable(f) && HoldsLast(f, keys, n) && (m <= n || |keys| <= n)
    ensures HoldsLast(f, keys, m)
  {
  }

  /** How many of the latest keys each filter is sure to hold after `t` insertions of a cycle. */
  function Sure1(t: nat): int { t }

  function Sure2(t: nat, n: nat): int { if t < n then t + n else t - n }

  ghost predicate Tracks(r: Rolling, keys: seq<Key>) {
    && Ready(r) && r.insertions < 2 * r.elements
    && HoldsLast(r.b1, keys, Sure1(r.insertions)) && HoldsLast(r.b2, keys, Sure2(r.insertions, r.elements))
  }

  lemma RollTracks(r: Rolling, keys: seq<Key>, key: Key)
    requires Tracks(r, keys)
    ensures Tracks(Rolled(r, key), keys + [key])
  {
    hide HoldsLast, Inserted;
    var t, n := r.insertions, r.elements;
    var b1 := if t == 0 then Cleared(r.b1) else r.b1;
    var b2 := if t == n then Cleared(r.b2) else r.b2;
    if t == 0 { HoldsNone(b1, keys, 0); }
    if t == n { HoldsNone(b2, keys, 0); }
    HoldsMore(b1, keys, t, key);
    HoldsMore(b2, keys, Sure2(t, n), key);
    var s := Rolled(r, key);
    HoldsFewer(s.b1, keys + [key], t + 1, Sure1(s.insertions));
    HoldsFewer(s.b2, keys + [key], Sure2(t, n) + 1, Sure2(s.insertions, n));
  }

  lemma {:induction false} AfterTracks(r: Rolling, keys: seq<Key>)
    requires Ready(r) && r.insertions == 0
    ensures Tracks(After(r, keys), keys)
  {
    hide HoldsLast, Rolled;
    if keys == [] {
      EmptyTracks(r);
    } else {
      var front, key := keys[..|keys| - 1], keys[|keys| - 1];
      AfterTracks(r, front);
      RollTracks(After(r, front), front, key);
      assert keys == front + [key];
    }
  }

  lemma EmptyTracks(r: Rolling)
    requires Ready(r) && r.insertions == 0
    ensures Tracks(r, [])
  {
  }

  /** After every sequence of insertions the pair reports each of the last `elements` keys, across all clears and
      wraps of the counter. */
  lemma LastElementsPresent(r: Rolling, keys: seq<Key>, i: nat)
    requires Ready(r) && r.insertions == 0 && i < |keys| && |keys| - r.elements <= i
    ensures Present(After(r, keys), keys[i])
  {
    AfterTracks(r, keys);
  }

  // ---------------------------------------------------------------- which keys count

  /** A hash of the key under one of the hash numbers gives this bit. */
  predicate Hits(f: Filter, key: Key, j: nat)
    requires HasBits(f)
  {
    exists i: nat :: i < f.hashFuncs && f.hash(i, f.tweak, key) % |f.bits| == j
  }

  lemma {:induction false} MarkedIff(f: Filter, key: Key, n: nat, j: nat)
    requires HasBits(f) && j < |f.bits|
    ensures Marked(f, key, n)[j] <==> f.bits[j] || exists i: nat :: i < n && Index(f, i, key) == j
  {
    hide Index;
    if n > 0 {
      MarkedIff(f, key, n - 1, j);
      if Marked(f, key, n)[j] && !f.bits[j] && Index(f, n - 1, key) != j {
        var i: nat :| i < n - 1 && Index(f, i, key) == j;
        assert i < n;
      }
    }
  }

  /** Insertion into a filter that is not full sets just the bits that the hashes of the key give. */
  lemma InsertSets(f: Filter, key: Key, j: nat)
    requires HasBits(f) && !f.isFull && j < |f.bits|
    ensures |Inserted(f, key).bits| == |f.bits| && (Inserted(f, key).bits[j] <==> f.bits[j] || Hits(f, key, j))
  {
    hide Marked;
    MarkedIff(f, key, f.hashFuncs, j);
    forall i: nat ensures Index(f, i, key) == f.hash(i, f.tweak, key) % |f.bits| {}
  }

  /** The filter after a sequence of insertions. */
  function InsertAll(f: Filter, keys: seq<Key>): (r: Filter)
    requires HasBits(f)
    ensures HasBits(r) && |r.bits| == |f.bits|
  {
    if keys == [] then f
    else
      var front := InsertAll(f, keys[..|keys| - 1]);
      Inserted(front, keys[|keys| - 1])
  }

  predicate Blank(f: Filter) { HasBits(f) && !f.isFull && f.isEmpty && AllBits(f, false) }

  predicate HitByAny(f: Filter, keys: seq<Key>, j: nat)
    requires HasBits(f)
  {
    exists i :: 0 <= i < |keys| && Hits(f, keys[i], j)
  }

  lemma {:induction false} InsertAllSets(f: Filter, keys: seq<Key>, j: nat)
    requires Blank(f) && j < |f.bits|
    ensures var r := InsertAll(f, keys);
            && r == f.(bits := r.bits, isEmpty := keys == [])
            && (r.bits[j] <==> HitByAny(f, keys, j))
  {
    hide Hits, Inserted;
    if keys != [] {
      var front, key := keys[..|keys| - 1], keys[|keys| - 1];
      InsertAllSets(f, front, j);
      var g := InsertAll(f, front);
      InsertSets(g, key, j);
      SameHits(f, g, key, j);
      InsertFlags(g, key);
      assert keys == front + [key];
      assert HitByAny(f, keys, j) <==> HitByAny(f, front, j) || Hits(f, key, j) by {
        if HitByAny(f, front, j) {
          var i :| 0 <= i < |front| && Hits(f, front[i], j);
          assert Hits(f, keys[i], j);
        }
        if HitByAny(f, keys, j) && !Hits(f, key, j) {
          var i :| 0 <= i < |keys| && Hits(f, keys[i], j);
          assert Hits(f, front[i], j);
        }
      }
    }
  }

  lemma SameHits(f: Filter, g: Filter, key: Key, j: nat)
    requires HasBits(f) && g == f.(bits := g.bits, isEmpty := g.isEmpty) && |g.bits| == |f.bits|
    ensures Hits(f, key, j) <==> Hits(g, key, j)
  {
  }

  lemma InsertFlags(f: Filter, key: Key)
    requires HasBits(f) && !f.isFull
    ensures var r := Inserted(f, key); r == f.(bits := r.bits, isEmpty := false)
  {
  }

  /** A filter that was blank reports a key just when some key was inserted and each of its bits is one of theirs. */
  lemma ContainsIff(f: Filter, keys: seq<Key>, key: Key)
    requires Blank(f)
    ensures Contains(InsertAll(f, keys), key) <==>
            keys != [] && forall i: nat :: i < f.hashFuncs ==> HitByAny(f, keys, f.hash(i, f.tweak, key) % |f.bits|)
  {
    hide HitByAny, Blank;
    BlankHasBits(f);
    var r := InsertAll(f, keys);
    InsertAllSets(f, keys, 0);
    forall i: nat ensures Index(r, i, key) == f.hash(i, f.tweak, key) % |f.bits| {}
    forall i: nat ensures r.bits[Index(r, i, key)] <==> HitByAny(f, keys, Index(r, i, key)) {
      InsertAllSets(f, keys, Index(r, i, key));
    }
  }

  lemma BlankHasBits(f: Filter)
    requires Blank(f)
    ensures HasBits(f) && !f.isFull
  {
  }

  function Last(keys: seq<Key>, n: nat): seq<Key> { if n <= |keys| then keys[|keys| - n..] else keys }

  lemma LastGrows(f: Filter, keys: seq<Key>, n: nat, key: Key)
    requires HasBits(f)
    ensures Inserted(InsertAll(f, Last(keys, n)), key) == InsertAll(f, Last(keys + [key], n + 1))
  {
    hide Inserted;
    var all := Last(keys, n) + [key];
    assert Last(keys + [key], n + 1) == all;
    assert all[..|all| - 1] == Last(keys, n);
  }

  /** How many keys the filters have taken since they were last cleared. */
  function Since1(t: nat, n: nat): nat { if t == 0 then 2 * n else t }

  function Since2(t: nat, n: nat): nat { if t <= n then t + n else t - n }

  ghost predicate Exact(f: Filter, r: Rolling, keys: seq<Key>) {
    && Blank(f) && r.insertions < 2 * r.elements
    && r.b1 == InsertAll(f, Last(keys, Since1(r.insertions, r.elements)))
    && r.b2 == InsertAll(f, Last(keys, Since2(r.insertions, r.elements)))
  }

  lemma ClearedIs(f: Filter, keys: seq<Key>)
    requires Blank(f)
    ensures Cleared(InsertAll(f, keys)) == f == InsertAll(f, [])
  {
    InsertAllSets(f, keys, 0);
    assert f.bits == seq(|f.bits|, i => false);
  }

  lemma RollExact(f: Filter, r: Rolling, keys: seq<Key>, key: Key)
    requires Ready(r) && Exact(f, r, keys)
    ensures Exact(f, Rolled(r, key), keys + [key])
  {
    hide InsertAll, Inserted, Cleared, Blank, Last;
    var t, n := r.insertions, r.elements;
    BlankHasBits(f);
    ClearedIs(f, Last(keys, Since1(t, n)));
    ClearedIs(f, Last(keys, Since2(t, n)));
    LastNone(keys);
    LastGrows(f, keys, if t == 0 then 0 else t, key);
    LastGrows(f, keys, if t == n then 0 else Since2(t, n), key);
  }

  lemma LastNone(keys: seq<Key>)
    ensures Last(keys, 0) == []
  {
  }

  lemma {:induction false} AfterExact(f: Filter, r: Rolling, keys: seq<Key>) returns (rounds: nat)
    requires Ready(r) && r.insertions == 0 && Blank(f) && r.b1 == r.b2 == f
    ensures Exact(f, After(r, keys), keys) && |keys| == 2 * r.elements * rounds + After(r, keys).insertions
  {
    hide InsertAll, Inserted, Blank, Last, Exact, Rolled;
    rounds := 0;
    if keys == [] {
      StartExact(f, r);
    } else {
      var front, key := keys[..|keys| - 1], keys[|keys| - 1];
      rounds := AfterExact(f, r, front);
      var was := After(r, front);
      RollExact(f, was, front, key);
      RollCounts(was, key);
      assert keys == front + [key];
      if was.insertions + 1 == 2 * r.elements {
        Distribute(2 * r.elements, rounds, 1);
        rounds := rounds + 1;
      }
    }
  }

  lemma RollCounts(r: Rolling, key: Key)
    requires Ready(r)
    ensures Rolled(r, key).insertions == if r.insertions + 1 == 2 * r.elements then 0 else r.insertions + 1
  {
  }

  lemma StartExact(f: Filter, r: Rolling)
    requires Ready(r) && r.insertions == 0 && Blank(f) && r.b1 == r.b2 == f
    ensures Exact(f, r, [])
  {
  }

  lemma KeysThatCount(n: nat, rounds: nat, t: nat)
    requires n > 0 && t < 2 * n
    ensures n + (2 * n * rounds + t) % n == if t < n then n + t else t
  {
    var size := 2 * n * rounds + t;
    Mul3(n, 2, rounds);
    assert 2 * n == n * 2;
    MulSwap(n, 2 * rounds, 1);
    if t < n {
      ModUnique(size, 2 * rounds, n, t);
    } else {
      Distribute(n, 2 * rounds, 1);
      ModUnique(size, 2 * rounds + 1, n, t - n);
    }
  }

  /** After every sequence of insertions into two blank filters, the pair answers as a single blank filter that took the
      last n + (count mod n) keys; older ones no longer count. */
  lemma OldKeysForgotten(r: Rolling, keys: seq<Key>, key: Key)
    requires Ready(r) && r.insertions == 0 && Blank(r.b1) && r.b1 == r.b2
    ensures var recent := Last(keys, r.elements + |keys| % r.elements);
            Present(After(r, keys), key) <==> Contains(InsertAll(r.b1, recent), key)
  {
    hide InsertAll, Blank, Last, After, Contains;
    var rounds := AfterExact(r.b1, r, keys);
    KeysThatCount(r.elements, rounds, After(r, keys).insertions);
  }
}

/** The filter objects. */
module Bloom {
  import opened M = BloomModel

  class BloomFilter {
    const hash: (nat, nat, Key) -> nat
    const hashFuncs: nat
    const vData: array<bool>
    var isFull: bool
    var isEmpty: bool
    var tweak: nat

    ghost function Value(): Filter
      reads this, vData
    {
      Filter(hash, hashFuncs, tweak, vData[..], isFull, isEmpty)
    }

    constructor (hash: (nat, nat, Key) -> nat, hashFuncs: nat, nBits: nat, tweak: nat)
      ensures fresh(vData) && vData.Length == nBits
      ensures Value() == Filter(hash, hashFuncs, tweak, seq(nBits, i => false), false, true)
    {
      this.hash, this.hashFuncs, this.tweak := hash, hashFuncs, tweak;
      vData := new bool[nBits](i => false);
      isFull, isEmpty := false, true;
      new;
      assert vData[..] == seq(nBits, i => false);
    }

    method Insert(key: Key)
      requires Usable(Value())
      modifies this, vData
      ensures Value() == Inserted(old(Value()), key)
    {
      ghost var f := Value();
      if isFull { return; }
      for i := 0 to hashFuncs
        invariant vData[..] == Marked(f, key, i)
        invariant isFull == f.isFull && isEmpty == f.isEmpty && tweak == f.tweak
      {
        var nIndex := hash(i, tweak, key) % vData.Length;
        vData[nIndex] := true;
      }
      isEmpty := false;
    }

    method ContainsKey(key: Key) returns (r: bool)
      requires Usable(Value())
      ensures r == Contains(Value(), key)
    {
      if isFull { return true; }
      if isEmpty { return false; }
      for i := 0 to hashFuncs
        invariant forall j :: 0 <= j < i ==> vData[Index(Value(), j, key)]
      {
        var nIndex := hash(i, tweak, key) % vData.Length;
        assert nIndex == Index(Value(), i, key);
        if !vData[nIndex] { return false; }
      }
      return true;
    }

    method Clear()
      modifies this, vData
      ensures Value() == Cleared(old(Value()))
      ensures isEmpty && !isFull && forall j :: 0 <= j < vData.Length ==> !vData[j]
    {
      for i := 0 to vData.Length
        invariant forall j :: 0 <= j < i ==> !vData[j]
        invariant tweak == old(tweak)
      {
        vData[i] := false;
      }
      isFull, isEmpty := false, true;
    }

    method UpdateEmptyFull()
      modifies this
      ensures Value() == Updated(old(Value())) && vData[..] == old(vData[..])
      ensures isFull <==> forall j :: 0 <= j < vData.Length ==> vData[j]
      ensures isEmpty <==> forall j :: 0 <= j < vData.Length ==> !vData[j]
    {
      var full, empty := true, true;
      for i := 0 to vData.Length
        invariant full == forall j :: 0 <= j < i ==> vData[j]
        invariant empty == forall j :: 0 <= j < i ==> !vData[j]
        invariant unchanged(this)
      {
        full := full && vData[i];
        empty := empty && !vData[i];
      }
      isFull, isEmpty := full, empty;
    }

    method Reset(newTweak: nat)
      modifies this, vData
      ensures Value() == Cleared(old(Value())).(tweak := newTweak)
    {
      Clear();
      tweak := newTweak;
    }
  }

  class RollingBloomFilter {
    const b1: BloomFilter
    const b2: BloomFilter
    const nBloomSize: nat
    var nInsertions: nat

    ghost function Value(): Rolling
      reads this, b1, b2, b1.vData, b2.vData
    {
      Rolling(b1.Value(), b2.Value(), nBloomSize / 2, nInsertions)
    }

    ghost predicate Valid()
    {
      b1.vData.Length > 0 && b2.vData.Length > 0 && b1 != b2 && b1.vData != b2.vData && nBloomSize > 0 && nBloomSize % 2 == 0
    }

    constructor (hash: (nat, nat, Key) -> nat, hashFuncs: nat, nBits: nat, nElements: nat, newTweak: nat)
      requires nBits > 0 && nElements > 0
      ensures Valid() && Ready(Value()) && Value().elements == nElements && Value().insertions == 0
      ensures Value().b1 == Value().b2 == Filter(hash, hashFuncs, newTweak, seq(nBits, i => false), false, true)
      ensures fresh(b1) && fresh(b2) && fresh(b1.vData) && fresh(b2.vData)
    {
      b1 := new BloomFilter(hash, hashFuncs, nBits, newTweak);
      b2 := new BloomFilter(hash, hashFuncs, nBits, newTweak);
      nBloomSize := nElements * 2;
      nInsertions := 0;
    }

    method Insert(key: Key)
      requires Valid()
      modifies this, b1, b2, b1.vData, b2.vData
      ensures Value() == Rolled(old(Value()), key)
    {
      if nInsertions == 0 {
        b1.Clear();
      } else if nInsertions == nBloomSize / 2 {
        b2.Clear();
      }
      b1.Insert(key);
      b2.Insert(key);
      nInsertions := nInsertions + 1;
      if nInsertions == nBloomSize { nInsertions := 0; }
    }

    method ContainsKey(key: Key) returns (r: bool)
      requires Valid()
      ensures r == Present(Value(), key)
    {
      if nInsertions < nBloomSize / 2 {
        r := b2.ContainsKey(key);
      } else {
        r := b1.ContainsKey(key);
      }
    }

    method Reset(newTweak: nat)
      requires Valid()
      modifies this, b1, b2, b1.vData, b2.vData
      ensures Ready(Value()) && Value().insertions == 0 && Value().elements == old(Value()).elements
      ensures Value().b1 == Cleared(old(Value()).b1).(tweak := newTweak)
      ensures Value().b2 == Cleared(old(Value()).b2).(tweak := newTweak)
    {
      b1.Reset(newTweak);
      b2.Reset(newTweak);
      nInsertions := 0;
    }
  }
}
