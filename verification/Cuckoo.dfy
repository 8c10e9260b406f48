/** The cuckoo cache (src/cuckoocache.h): eight-way displacement insertion with garbage flags and epochs.

    A slot is live when its collection flag is clear. The meaning of a cache is the set of its live
    elements, each with its epoch flag. */
module CuckooModel {
  import opened Limbs
  import opened Options

  type Element = nat

  /** A live element and whether it belongs to the current epoch. */
  datatype Entry = Entry(element: Element, current: bool)

  datatype Cache = Cache(
    hash: (Element, nat) -> nat,
    table: seq<Element>,
    garbage: seq<bool>,
    epoch: seq<bool>,
    counter: nat,
    epochSize: nat,
    depthLimit: nat)

  const WAYS := 8

  predicate Shape(c: Cache) { |c.table| == |c.garbage| == |c.epoch| > 0 && c.epochSize > 0 && c.depthLimit > 0 }

  // ---------------------------------------------------------------- operations

  /** The k-th hash slot of an element. */
  function Loc(c: Cache, e: Element, k: nat): (i: nat)
    requires Shape(c)
    ensures i < |c.table|
  {
    c.hash(e, k) % |c.table|
  }

  /** The first way from `k` on whose slot holds the element, or 8. */
  function FirstHit(c: Cache, e: Element, k: nat): (r: nat)
    requires Shape(c) && k <= WAYS
    ensures k <= r <= WAYS
    ensures r < WAYS ==> c.table[Loc(c, e, r)] == e
    ensures forall j :: k <= j < r ==> c.table[Loc(c, e, j)] != e
    decreases WAYS - k
  {
    if k == WAYS || c.table[Loc(c, e, k)] == e then k else FirstHit(c, e, k + 1)
  }

  /** The first way from `k` on whose slot may be overwritten, or 8. */
  function FirstFree(c: Cache, e: Element, k: nat): (r: nat)
    requires Shape(c) && k <= WAYS
    ensures k <= r <= WAYS
    ensures r < WAYS ==> c.garbage[Loc(c, e, r)]
    ensures forall j :: k <= j < r ==> !c.garbage[Loc(c, e, j)]
    decreases WAYS - k
  {
    if k == WAYS || c.garbage[Loc(c, e, k)] then k else FirstFree(c, e, k + 1)
  }

  /** The first way from `k` on that leads to slot `loc`, or 8. */
  function WayTo(c: Cache, e: Element, loc: int, k: nat): (r: nat)
    requires Shape(c) && k <= WAYS
    ensures k <= r <= WAYS
    ensures r < WAYS ==> Loc(c, e, r) == loc
    ensures forall j :: k <= j < r ==> Loc(c, e, j) != loc
    decreases WAYS - k
  {
    if k == WAYS || Loc(c, e, k) == loc then k else WayTo(c, e, loc, k + 1)
  }

  function Put(c: Cache, i: nat, e: Element, current: bool): Cache
    requires Shape(c) && i < |c.table|
  {
    c.(table := c.table[i := e], garbage := c.garbage[i := false], epoch := c.epoch[i := current])
  }

  function Current(c: Cache, n: nat): nat
    requires Shape(c) && n <= |c.table|
  {
    if n == 0 then 0 else Current(c, n - 1) + if c.epoch[n - 1] && !c.garbage[n - 1] then 1 else 0
  }

  function Max(a: nat, b: nat): nat { if a < b then b else a }

  /** A change of epoch: the old epoch becomes garbage and the current one becomes old. */
  function Aged(c: Cache): Cache
    requires Shape(c)
  {
    c.(garbage := seq(|c.table|, i requires 0 <= i < |c.table| => c.garbage[i] || !c.epoch[i]),
       epoch := seq(|c.table|, i => false),
       counter := c.epochSize)
  }

  function EpochChecked(c: Cache): (r: Cache)
    requires Shape(c)
    ensures Shape(r) && r.hash == c.hash && r.table == c.table && r.depthLimit == c.depthLimit && r.epochSize == c.epochSize
  {
    if c.counter != 0 then c.(counter := c.counter - 1)
    else
      var used := Current(c, |c.table|);
      if used >= c.epochSize then Aged(c)
      else c.(counter := Max(1, Max(c.epochSize / 16, c.epochSize - used)))
  }

  /** The displacement loop with `e` in hand; the second result is what it had to drop. */
  function Displaced(c: Cache, e: Element, lastLoc: int, lastEpoch: bool, depth: nat): (Cache, Option<Entry>)
    requires Shape(c) && depth <= c.depthLimit
    decreases c.depthLimit - depth
  {
    if depth == c.depthLimit then (c, Some(Entry(e, lastEpoch)))
    else
      var k := FirstFree(c, e, 0);
      if k < WAYS then (Put(c, Loc(c, e, k), e, lastEpoch), None)
      else
        var loc := Loc(c, e, (1 + WayTo(c, e, lastLoc, 0)) % WAYS);
        Displaced(c.(table := c.table[loc := e], epoch := c.epoch[loc := lastEpoch]),
                  c.table[loc], loc, c.epoch[loc], depth + 1)
  }

  function Inserted(c: Cache, e: Element): (Cache, Option<Entry>)
    requires Shape(c)
  {
    var c1 := EpochChecked(c);
    var k := FirstHit(c1, e, 0);
    if k < WAYS then (Put(c1, Loc(c1, e, k), e, true), None) else Displaced(c1, e, -1, true, 0)
  }

  predicate Contains(c: Cache, e: Element)
    requires Shape(c)
  {
    FirstHit(c, e, 0) < WAYS
  }

  function Erased(c: Cache, e: Element): Cache
    requires Shape(c)
  {
    var k := FirstHit(c, e, 0);
    if k < WAYS then c.(garbage := c.garbage[Loc(c, e, k) := true]) else c
  }

  /** The exponent of the largest power of two that is at most `n`. */
  function Log2(n: nat): (r: nat)
    requires n > 0
    ensures Pow2(r) <= n < 2 * Pow2(r)
  {
    if n == 1 then 0 else 1 + Log2(n / 2)
  }

  /** 45 percent of the slots, computed in 32 bits. */
  function EpochSize(size: nat): nat { Max(1, (45 * size) % 0x1_0000_0000 / 100) }

  /** The epoch size is 45 percent of the slots just when the product fits in 32 bits. */
  lemma EpochSizeIff(size: nat)
    ensures EpochSize(size) == Max(1, 45 * size / 100) <==> 45 * size < 0x1_0000_0000
  {
    var p := 45 * size;
    if p >= 0x1_0000_0000 {
      assert p % 0x1_0000_0000 <= p - 0x1_0000_0000;
      assert (p - 0x1_0000_0000) / 100 < p / 100;
    }
  }

  lemma Pow2Of26()
    ensures Pow2(26) == 67108864 && Pow2(27) == 134217728
  {
    assert Pow2(13) == 8192;
    Pow2Add(13, 13);
  }

  /** A request for 2^27 slots gets epochs of 17448304 elements in place of 60397977. */
  lemma EpochSizeWraps(hash: (Element, nat) -> nat)
    ensures SetUp(hash, Pow2(27)).epochSize == 17448304 && 45 * Pow2(27) / 100 == 60397977
  {
    Pow2Of26();
    assert Log2(Pow2(27)) == 27 by { Log2Is(Pow2(27), 27); }
  }

  lemma {:induction false} Log2Is(n: nat, k: nat)
    requires Pow2(k) <= n < 2 * Pow2(k)
    ensures Log2(n) == k
  {
    if k > 0 { Log2Is(n / 2, k - 1); }
  }

  lemma {:induction false} Pow2Monotone(a: nat, b: nat)
    requires a <= b
    ensures Pow2(a) <= Pow2(b)
    decreases b - a
  {
    if a < b { Pow2Monotone(a + 1, b); }
  }

  /** A cache is set up with epochs of 45 percent of its slots just when fewer than 2^27 slots are requested. */
  lemma SetUpEpochIff(hash: (Element, nat) -> nat, newSize: nat)
    ensures var c := SetUp(hash, newSize);
            c.epochSize == Max(1, 45 * |c.table| / 100) <==> newSize < Pow2(27)
  {
    var depth := Log2(Max(2, newSize));
    Pow2Of26();
    EpochSizeIff(Pow2(depth));
    if depth <= 26 { Pow2Monotone(depth, 26); } else { Pow2Monotone(27, depth); }
  }

  function SetUp(hash: (Element, nat) -> nat, newSize: nat): (c: Cache)
    ensures Shape(c)
  {
    var depth := Log2(Max(2, newSize));
    assert depth > 0;
    var size := Pow2(depth);
    Cache(hash, seq(size, i => 0), seq(size, i => true), seq(size, i => false), EpochSize(size), EpochSize(size), depth)
  }

  // ---------------------------------------------------------------- meaning and invariant

  /** The live elements with their epochs. */
  function Live(c: Cache): set<Entry>
    requires Shape(c)
  {
    set i | 0 <= i < |c.table| && !c.garbage[i] :: Entry(c.table[i], c.epoch[i])
  }

  function Without(s: set<Entry>, e: Element): set<Entry> { set x | x in s && x.element != e }

  /** Every live element is what a search over its own eight slots finds first. */
  ghost predicate Findable(c: Cache)
    requires Shape(c)
  {
    forall i :: 0 <= i < |c.table| && !c.garbage[i] ==> FoundAt(c, c.table[i], i)
  }

  predicate FoundAt(c: Cache, e: Element, i: nat)
    requires Shape(c)
  {
    FirstHit(c, e, 0) < WAYS && Loc(c, e, FirstHit(c, e, 0)) == i
  }

  /** No live slot other than `loc` holds this element. */
  ghost predicate NotLive(c: Cache, e: Element, loc: int)
    requires Shape(c)
  {
    forall i :: 0 <= i < |c.table| && !c.garbage[i] && i != loc ==> c.table[i] != e
  }

  /** Live entries name each element once. */
  lemma LiveUnique(c: Cache, x: Entry, y: Entry)
    requires Shape(c) && Findable(c) && x in Live(c) && y in Live(c) && x.element == y.element
    ensures x == y
  {
    var i :| 0 <= i < |c.table| && !c.garbage[i] && Entry(c.table[i], c.epoch[i]) == x;
    var j :| 0 <= j < |c.table| && !c.garbage[j] && Entry(c.table[j], c.epoch[j]) == y;
    assert FoundAt(c, c.table[i], i) && FoundAt(c, c.table[j], j);
  }

  /** `contains` finds every live element. */
  lemma LiveIsFound(c: Cache, x: Entry)
    requires Shape(c) && Findable(c) && x in Live(c)
    ensures Contains(c, x.element)
  {
    var i :| 0 <= i < |c.table| && !c.garbage[i] && Entry(c.table[i], c.epoch[i]) == x;
    assert FoundAt(c, c.table[i], i);
  }

  // ---------------------------------------------------------------- one write to a slot

  lemma HitIs(c: Cache, e: Element, k: nat)
    requires Shape(c) && k < WAYS && c.table[Loc(c, e, k)] == e
    requires forall j :: 0 <= j < k ==> c.table[Loc(c, e, j)] != e
    ensures FirstHit(c, e, 0) == k
  {
  }

  /** Writing an element to one of its slots, where nothing live or earlier equals it, keeps all findable. */
  lemma PutFindable(c: Cache, e: Element, k: nat, current: bool)
    requires Shape(c) && Findable(c) && k < WAYS && NotLive(c, e, Loc(c, e, k))
    requires forall j :: 0 <= j < k ==> Loc(c, e, j) != Loc(c, e, k) && c.table[Loc(c, e, j)] != e
    ensures Findable(Put(c, Loc(c, e, k), e, current))
  {
    var loc := Loc(c, e, k);
    var c' := Put(c, loc, e, current);
    assert forall x, j :: Loc(c', x, j) == Loc(c, x, j);
    HitIs(c', e, k);
    forall i | 0 <= i < |c'.table| && !c'.garbage[i] ensures FoundAt(c', c'.table[i], i) {
      if i != loc {
        var y := c.table[i];
        assert FoundAt(c, y, i);
        HitIs(c', y, FirstHit(c, y, 0));
      }
    }
  }

  function Slot(c: Cache, loc: nat): set<Entry>
    requires Shape(c) && loc < |c.table|
  {
    if c.garbage[loc] then {} else {Entry(c.table[loc], c.epoch[loc])}
  }

  lemma PutLive(c: Cache, loc: nat, e: Element, current: bool)
    requires Shape(c) && Findable(c) && loc < |c.table|
    ensures Live(Put(c, loc, e, current)) == Live(c) - Slot(c, loc) + {Entry(e, current)}
  {
    var c' := Put(c, loc, e, current);
    forall x | x in Live(c) - Slot(c, loc) ensures x in Live(c') {
      var i :| 0 <= i < |c.table| && !c.garbage[i] && Entry(c.table[i], c.epoch[i]) == x;
      assert i != loc;
      assert !c'.garbage[i] && Entry(c'.table[i], c'.epoch[i]) == x;
    }
    assert !c'.garbage[loc] && Entry(c'.table[loc], c'.epoch[loc]) == Entry(e, current);
    forall x | x in Live(c') ensures x in Live(c) - Slot(c, loc) + {Entry(e, current)} {
      var i :| 0 <= i < |c'.table| && !c'.garbage[i] && Entry(c'.table[i], c'.epoch[i]) == x;
      if i != loc {
        assert !c.garbage[i] && Entry(c.table[i], c.epoch[i]) == x;
        assert FoundAt(c, c.table[i], i);
        if x in Slot(c, loc) {
          assert FoundAt(c, c.table[loc], loc);
        }
      }
    }
  }

  // ---------------------------------------------------------------- insertion

  lemma NotLiveEntry(c: Cache, e: Element)
    requires Shape(c) && NotLive(c, e, -1)
    ensures forall b :: Entry(e, b) !in Live(c)
  {
  }

  function Swapped(c: Cache, loc: nat, e: Element, current: bool): Cache
    requires Shape(c) && loc < |c.table|
  {
    c.(table := c.table[loc := e], epoch := c.epoch[loc := current])
  }

  lemma PlaceStep(c: Cache, e: Element, current: bool)
    requires Shape(c) && Findable(c) && NotLive(c, e, -1) && FirstFree(c, e, 0) < WAYS
    ensures var c' := Put(c, Loc(c, e, FirstFree(c, e, 0)), e, current);
            Findable(c') && Live(c') == Live(c) + {Entry(e, current)}
  {
    var k := FirstFree(c, e, 0);
    PutFindable(c, e, k, current);
    PutLive(c, Loc(c, e, k), e, current);
  }

  lemma SwapStep(c: Cache, e: Element, current: bool, way: nat)
    requires Shape(c) && Findable(c) && NotLive(c, e, -1) && FirstFree(c, e, 0) == WAYS && way < WAYS
    ensures var loc := Loc(c, e, way);
            var c' := Swapped(c, loc, e, current);
            && Findable(c') && NotLive(c', c.table[loc], -1)
            && Live(c') + {Entry(c.table[loc], c.epoch[loc])} == Live(c) + {Entry(e, current)}
  {
    var loc := Loc(c, e, way);
    WayExists(c, e, loc, way);
    PutFindable(c, e, WayTo(c, e, loc, 0), current);
    PutLive(c, loc, e, current);
    assert Swapped(c, loc, e, current) == Put(c, loc, e, current);
    SwappedOut(c, loc, e, current);
    assert Entry(c.table[loc], c.epoch[loc]) in Live(c);
  }

  /** `c'` holds the live elements of `c` and the entry that was in hand, except for the one dropped. */
  ghost predicate Conserves(c: Cache, hand: Entry, c': Cache, d: Option<Entry>)
    requires Shape(c)
  {
    && Shape(c') && Findable(c')
    && Live(c') + Dropped(d) == Live(c) + {hand} && Live(c') !! Dropped(d)
    && c'.hash == c.hash && c'.counter == c.counter && c'.epochSize == c.epochSize
  }

  /** The loop conserves the live elements together with the one in hand. */
  lemma {:induction false} DisplaceConserves(c: Cache, e: Element, lastLoc: int, lastEpoch: bool, depth: nat)
    requires Shape(c) && Findable(c) && depth <= c.depthLimit && NotLive(c, e, -1)
    ensures var (c', d) := Displaced(c, e, lastLoc, lastEpoch, depth);
            Conserves(c, Entry(e, lastEpoch), c', d)
    decreases c.depthLimit - depth
  {
    hide Findable, NotLive, Live, FirstFree, WayTo, Loc;
    if depth == c.depthLimit {
      NotLiveEntry(c, e);
    } else if FirstFree(c, e, 0) < WAYS {
      PlaceStep(c, e, lastEpoch);
    } else {
      var way := (1 + WayTo(c, e, lastLoc, 0)) % WAYS;
      var loc := Loc(c, e, way);
      SwapStep(c, e, lastEpoch, way);
      DisplaceConserves(Swapped(c, loc, e, lastEpoch), c.table[loc], loc, c.epoch[loc], depth + 1);
    }
  }

  function Dropped(d: Option<Entry>): set<Entry> { if d.Some? then {d.value} else {} }

  lemma WayExists(c: Cache, e: Element, loc: nat, way: nat)
    requires Shape(c) && way < WAYS && Loc(c, e, way) == loc
    ensures WayTo(c, e, loc, 0) <= way
  {
  }

  /** The element swapped out of a live slot is live nowhere else. */
  lemma SwappedOut(c: Cache, loc: nat, e: Element, current: bool)
    requires Shape(c) && Findable(c) && loc < |c.table| && !c.garbage[loc] && NotLive(c, e, -1)
    ensures NotLive(Put(c, loc, e, current), c.table[loc], -1)
  {
    assert FoundAt(c, c.table[loc], loc);
    forall i | 0 <= i < |c.table| && !c.garbage[i] && i != loc ensures c.table[i] != c.table[loc] {
      assert FoundAt(c, c.table[i], i);
    }
  }

  lemma AgedFindable(c: Cache)
    requires Shape(c) && Findable(c)
    ensures Findable(EpochChecked(c))
  {
    var c' := EpochChecked(c);
    forall i | 0 <= i < |c'.table| && !c'.garbage[i] ensures FoundAt(c', c'.table[i], i) {
      assert FoundAt(c, c.table[i], i);
      assert forall x, j :: Loc(c', x, j) == Loc(c, x, j);
      HitIs(c', c.table[i], FirstHit(c, c.table[i], 0));
    }
  }

  /** An epoch check keeps every live element of the current epoch: when it ages the cache they become
      the old epoch, and only the elements of the old epoch are given up. */
  lemma EpochCheckMeaning(c: Cache)
    requires Shape(c)
    ensures var aging := c.counter == 0 && Current(c, |c.table|) >= c.epochSize;
            && (!aging ==> Live(EpochChecked(c)) == Live(c))
            && (aging ==> Live(EpochChecked(c)) == set x | x in Live(c) && x.current :: Entry(x.element, false))
  {
    var c' := EpochChecked(c);
    if c.counter == 0 && Current(c, |c.table|) >= c.epochSize {
      var kept := set x | x in Live(c) && x.current :: Entry(x.element, false);
      forall y | y in kept ensures y in Live(c') {
        var x :| x in Live(c) && x.current && Entry(x.element, false) == y;
        var i :| 0 <= i < |c.table| && !c.garbage[i] && Entry(c.table[i], c.epoch[i]) == x;
        assert !c'.garbage[i] && Entry(c'.table[i], c'.epoch[i]) == y;
      }
      forall y | y in Live(c') ensures y in kept {
        var i :| 0 <= i < |c'.table| && !c'.garbage[i] && Entry(c'.table[i], c'.epoch[i]) == y;
        assert Entry(c.table[i], c.epoch[i]) in Live(c);
      }
    }
  }

  lemma NoHitNotLive(c: Cache, e: Element)
    requires Shape(c) && Findable(c) && FirstHit(c, e, 0) == WAYS
    ensures NotLive(c, e, -1)
  {
    forall i | 0 <= i < |c.table| && !c.garbage[i] ensures c.table[i] != e {
      assert FoundAt(c, c.table[i], i);
    }
  }

  /** Apart from what the epoch check ages out, `insert` conserves the live elements: the old ones, plus the
      new or revived one in the current epoch, minus at most one that was dropped. */
  lemma InsertConserves(c: Cache, e: Element)
    requires Shape(c) && Findable(c)
    ensures var (c', d) := Inserted(c, e);
            && Shape(c') && Findable(c')
            && Live(c') + Dropped(d) == Without(Live(EpochChecked(c)), e) + {Entry(e, true)}
            && Live(c') !! Dropped(d)
  {
    var c1 := EpochChecked(c);
    AgedFindable(c);
    var k := FirstHit(c1, e, 0);
    if k < WAYS {
      RevivePut(c1, e);
    } else {
      NoHitNotLive(c1, e);
      DisplaceConserves(c1, e, -1, true, 0);
      NotLiveEntry(c1, e);
      assert Without(Live(c1), e) == Live(c1);
    }
  }

  lemma RevivePut(c: Cache, e: Element)
    requires Shape(c) && Findable(c) && FirstHit(c, e, 0) < WAYS
    ensures var c' := Put(c, Loc(c, e, FirstHit(c, e, 0)), e, true);
            Findable(c') && Live(c') == Without(Live(c), e) + {Entry(e, true)}
  {
    var k := FirstHit(c, e, 0);
    var loc := Loc(c, e, k);
    forall i | 0 <= i < |c.table| && !c.garbage[i] && i != loc ensures c.table[i] != e {
      assert FoundAt(c, c.table[i], i);
    }
    PutFindable(c, e, k, true);
    PutLive(c, loc, e, true);
    forall x | x in Live(c) && x.element == e ensures x in Slot(c, loc) {
    }
    assert Live(c) - Slot(c, loc) == Without(Live(c), e);
  }

  /** Erasing removes the element from the live ones and nothing else. */
  lemma EraseMeaning(c: Cache, e: Element)
    requires Shape(c) && Findable(c)
    ensures Shape(Erased(c, e)) && Findable(Erased(c, e)) && Live(Erased(c, e)) == Without(Live(c), e)
  {
    var c' := Erased(c, e);
    assert forall x, j :: Loc(c', x, j) == Loc(c, x, j);
    forall i | 0 <= i < |c'.table| && !c'.garbage[i] ensures FoundAt(c', c'.table[i], i) {
      assert FoundAt(c, c.table[i], i);
      HitIs(c', c.table[i], FirstHit(c, c.table[i], 0));
    }
    EraseLive(c, e);
  }

  lemma EraseLive(c: Cache, e: Element)
    requires Shape(c) && Findable(c)
    ensures Live(Erased(c, e)) == Without(Live(c), e)
  {
    var c' := Erased(c, e);
    forall x | x in Live(c') ensures x in Without(Live(c), e) {
      var i :| 0 <= i < |c'.table| && !c'.garbage[i] && Entry(c'.table[i], c'.epoch[i]) == x;
      assert FoundAt(c, c.table[i], i);
      assert Entry(c.table[i], c.epoch[i]) in Live(c);
    }
    forall x | x in Without(Live(c), e) ensures x in Live(c') {
      var i :| 0 <= i < |c.table| && !c.garbage[i] && Entry(c.table[i], c.epoch[i]) == x;
      assert !c'.garbage[i] && Entry(c'.table[i], c'.epoch[i]) == x;
    }
  }

  // ---------------------------------------------------------------- the epoch bound

  function Bit(b: bool): nat { if b then 1 else 0 }

  /** Changing one slot changes the count of live current-epoch slots by that slot. */
  lemma {:induction false} CountWrite(c: Cache, c': Cache, loc: nat, n: nat)
    requires Shape(c) && Shape(c') && |c.table| == |c'.table| && loc < |c.table| && n <= |c.table|
    requires c'.garbage == c.garbage[loc := c'.garbage[loc]] && c'.epoch == c.epoch[loc := c'.epoch[loc]]
    ensures Current(c', n) == Current(c, n)
              + if loc < n then Bit(c'.epoch[loc] && !c'.garbage[loc]) - Bit(c.epoch[loc] && !c.garbage[loc]) else 0
  {
    if n > 0 {
      CountWrite(c, c', loc, n - 1);
    }
  }

  function Used(c: Cache): nat
    requires Shape(c)
  {
    Current(c, |c.table|)
  }

  lemma {:induction false} DisplaceCount(c: Cache, e: Element, lastLoc: int, lastEpoch: bool, depth: nat)
    requires Shape(c) && depth <= c.depthLimit
    ensures var (c', d) := Displaced(c, e, lastLoc, lastEpoch, depth);
            && Shape(c') && Used(c') <= Used(c) + Bit(lastEpoch)
            && c'.counter == c.counter && c'.epochSize == c.epochSize
    decreases c.depthLimit - depth
  {
    hide FirstFree, WayTo, Loc;
    if depth < c.depthLimit {
      var k := FirstFree(c, e, 0);
      if k < WAYS {
        var loc := Loc(c, e, k);
        CountWrite(c, Put(c, loc, e, lastEpoch), loc, |c.table|);
      } else {
        var loc := Loc(c, e, (1 + WayTo(c, e, lastLoc, 0)) % WAYS);
        var c1 := Swapped(c, loc, e, lastEpoch);
        NoFree(c, e, (1 + WayTo(c, e, lastLoc, 0)) % WAYS);
        CountWrite(c, c1, loc, |c.table|);
        DisplaceCount(c1, c.table[loc], loc, c.epoch[loc], depth + 1);
      }
    }
  }

  lemma NoFree(c: Cache, e: Element, way: nat)
    requires Shape(c) && FirstFree(c, e, 0) == WAYS && way < WAYS
    ensures !c.garbage[Loc(c, e, way)]
  {
  }

  /** The slack of the heuristic counter. */
  function Slack(c: Cache): nat { Max(1, c.epochSize / 16) }

  /** The countdown never runs past the point where the current epoch could exceed its size by the slack. */
  predicate Bounded(c: Cache)
    requires Shape(c)
  {
    Used(c) + c.counter <= c.epochSize + Slack(c)
  }

  lemma {:induction false} AgedCount(c: Cache, n: nat)
    requires Shape(c) && n <= |c.table|
    ensures Current(Aged(c), n) == 0
  {
    if n > 0 {
      AgedCount(c, n - 1);
    }
  }

  lemma {:induction false} CounterOnly(c: Cache, c': Cache, n: nat)
    requires Shape(c) && Shape(c') && c'.epoch == c.epoch && c'.garbage == c.garbage && n <= |c.table|
    ensures Current(c', n) == Current(c, n)
  {
    if n > 0 {
      CounterOnly(c, c', n - 1);
    }
  }

  /** After an epoch check there is room for one more current element. */
  lemma EpochCheckBound(c: Cache)
    requires Shape(c) && Bounded(c)
    ensures Used(EpochChecked(c)) + 1 + EpochChecked(c).counter <= c.epochSize + Slack(c)
  {
    var c' := EpochChecked(c);
    if c.counter == 0 && Used(c) >= c.epochSize {
      AgedCount(c, |c.table|);
    } else {
      CounterOnly(c, c', |c.table|);
    }
  }

  lemma InsertBound(c: Cache, e: Element)
    requires Shape(c) && Bounded(c)
    ensures Shape(Inserted(c, e).0) && Bounded(Inserted(c, e).0)
  {
    EpochCheckBound(c);
    var c1 := EpochChecked(c);
    var k := FirstHit(c1, e, 0);
    if k < WAYS {
      var loc := Loc(c1, e, k);
      CountWrite(c1, Put(c1, loc, e, true), loc, |c1.table|);
    } else {
      DisplaceCount(c1, e, -1, true, 0);
    }
  }

  lemma EraseBound(c: Cache, e: Element)
    requires Shape(c) && Bounded(c)
    ensures Shape(Erased(c, e)) && Bounded(Erased(c, e))
  {
    var k := FirstHit(c, e, 0);
    if k < WAYS {
      CountWrite(c, Erased(c, e), Loc(c, e, k), |c.table|);
    }
  }

  // ---------------------------------------------------------------- runs

  datatype Op = Insert(e: Element) | Query(e: Element) | QueryErase(e: Element)

  function Step(c: Cache, op: Op): Cache
    requires Shape(c)
  {
    match op
    case Insert(e) => Inserted(c, e).0
    case Query(_) => c
    case QueryErase(e) => Erased(c, e)
  }

  ghost predicate Sound(c: Cache) { Shape(c) && Bounded(c) && Findable(c) }

  lemma StepSound(c: Cache, op: Op)
    requires Sound(c)
    ensures Sound(Step(c, op))
  {
    match op
    case Insert(e) =>
      InsertConserves(c, e);
      InsertBound(c, e);
    case Query(_) =>
    case QueryErase(e) =>
      EraseMeaning(c, e);
      EraseBound(c, e);
  }

  lemma {:induction false} ErasedHits(c: Cache, e: Element, f: Element, k: nat)
    requires Shape(c) && k <= WAYS
    ensures FirstHit(Erased(c, e), f, k) == FirstHit(c, f, k)
    decreases WAYS - k
  {
    if k < WAYS { ErasedHits(c, e, f, k + 1); }
  }

  /** What was erased is found until its slot is needed: erasing changes the answer for no element. */
  lemma ErasedIsStillFound(c: Cache, e: Element, f: Element)
    requires Shape(c)
    ensures Shape(Erased(c, e)) && (Contains(Erased(c, e), f) <==> Contains(c, f))
  {
    ErasedHits(c, e, f, 0);
  }

  lemma SetUpSound(hash: (Element, nat) -> nat, newSize: nat)
    ensures Sound(SetUp(hash, newSize)) && Live(SetUp(hash, newSize)) == {}
  {
    var c := SetUp(hash, newSize);
    EmptyCount(c, |c.table|);
  }

  lemma {:induction false} EmptyCount(c: Cache, n: nat)
    requires Shape(c) && n <= |c.table| && forall i :: 0 <= i < |c.table| ==> c.garbage[i]
    ensures Current(c, n) == 0
  {
    if n > 0 {
      EmptyCount(c, n - 1);
    }
  }

  /** The cache after a run. */
  function After(c: Cache, ops: seq<Op>): (r: Cache)
    requires Sound(c)
    ensures Sound(r)
    decreases |ops|
  {
    if ops == [] then c
    else
      StepSound(c, ops[0]);
      After(Step(c, ops[0]), ops[1..])
  }

  function AfterSetUp(hash: (Element, nat) -> nat, newSize: nat, ops: seq<Op>): (r: Cache)
    ensures Sound(r)
  {
    SetUpSound(hash, newSize);
    After(SetUp(hash, newSize), ops)
  }

  /** In every run after `setup`: live elements are found, each is live once, and the live elements of the
      current epoch never exceed the epoch size by more than a sixteenth (or one). */
  lemma EveryRun(hash: (Element, nat) -> nat, newSize: nat, ops: seq<Op>)
    ensures var c := AfterSetUp(hash, newSize, ops);
            && (forall x :: x in Live(c) ==> Contains(c, x.element))
            && (forall x, y :: x in Live(c) && y in Live(c) && x.element == y.element ==> x == y)
            && Used(c) <= c.epochSize + Max(1, c.epochSize / 16)
  {
    var c := AfterSetUp(hash, newSize, ops);
    forall x | x in Live(c) ensures Contains(c, x.element) {
      LiveIsFound(c, x);
    }
    forall x, y | x in Live(c) && y in Live(c) && x.element == y.element ensures x == y {
      LiveUnique(c, x, y);
    }
  }
}

/** The cache object, with its three arrays. */
module Cuckoo {
  import opened Limbs
  import opened Options
  import opened M = CuckooModel

  class CuckooCache {
    const hash: (Element, nat) -> nat
    var table: array<Element>
    var garbage: array<bool>
    var epoch: array<bool>
    var counter: nat
    var epochSize: nat
    var depthLimit: nat

    ghost predicate Valid()
      reads this
    {
      && garbage != epoch && table.Length == garbage.Length == epoch.Length > 0
      && epochSize > 0 && depthLimit > 0
    }

    ghost function Value(): (c: Cache)
      requires Valid()
      reads this, table, garbage, epoch
      ensures Shape(c)
    {
      Cache(hash, table[..], garbage[..], epoch[..], counter, epochSize, depthLimit)
    }

    constructor (hash: (Element, nat) -> nat, newSize: nat)
      ensures Valid() && Value() == SetUp(hash, newSize)
      ensures fresh(table) && fresh(garbage) && fresh(epoch)
    {
      var depth := Log2(Max(2, newSize));
      var size := Pow2(depth);
      this.hash := hash;
      table := new Element[size](i => 0);
      garbage := new bool[size](i => true);
      epoch := new bool[size](i => false);
      epochSize := EpochSize(size);
      counter := EpochSize(size);
      depthLimit := depth;
      new;
      assert table[..] == seq(size, i => 0);
      assert garbage[..] == seq(size, i => true);
      assert epoch[..] == seq(size, i => false);
    }

    method ComputeHashes(e: Element) returns (locs: seq<nat>)
      requires Valid()
      ensures |locs| == WAYS && forall k :: 0 <= k < WAYS ==> locs[k] == Loc(Value(), e, k)
    {
      locs := [];
      for k := 0 to WAYS
        invariant |locs| == k && forall j :: 0 <= j < k ==> locs[j] == Loc(Value(), e, j)
      {
        locs := locs + [hash(e, k) % table.Length];
      }
    }

    method CountCurrent() returns (n: nat)
      requires Valid()
      ensures n == Used(Value())
    {
      n := 0;
      for i := 0 to table.Length
        invariant n == Current(Value(), i)
      {
        if epoch[i] && !garbage[i] { n := n + 1; }
      }
    }

    method AgeAll()
      requires Valid()
      modifies garbage, epoch
      ensures table.Length == old(table.Length)
      ensures garbage[..] == Aged(old(Value())).garbage && epoch[..] == Aged(old(Value())).epoch
    {
      for i := 0 to table.Length
        invariant forall j :: 0 <= j < i ==> epoch[j] == false && garbage[j] == (old(garbage[j]) || !old(epoch[j]))
        invariant forall j :: i <= j < table.Length ==> epoch[j] == old(epoch[j]) && garbage[j] == old(garbage[j])
      {
        if epoch[i] { epoch[i] := false; } else { garbage[i] := true; }
      }
    }

    method EpochCheck()
      requires Valid()
      modifies this`counter, garbage, epoch
      ensures Valid() && Value() == EpochChecked(old(Value()))
    {
      if counter != 0 {
        counter := counter - 1;
        return;
      }
      var used := CountCurrent();
      if used >= epochSize {
        AgeAll();
        counter := epochSize;
      } else {
        counter := Max(1, Max(epochSize / 16, epochSize - used));
      }
    }

    method FindHit(e: Element, locs: seq<nat>) returns (k: nat)
      requires Valid() && |locs| == WAYS && forall j :: 0 <= j < WAYS ==> locs[j] == Loc(Value(), e, j)
      ensures k == FirstHit(Value(), e, 0)
    {
      k := 0;
      while k < WAYS
        invariant k <= WAYS && FirstHit(Value(), e, 0) == FirstHit(Value(), e, k)
      {
        if table[locs[k]] == e { return; }
        k := k + 1;
      }
    }

    method FindFree(e: Element, locs: seq<nat>) returns (k: nat)
      requires Valid() && |locs| == WAYS && forall j :: 0 <= j < WAYS ==> locs[j] == Loc(Value(), e, j)
      ensures k == FirstFree(Value(), e, 0)
    {
      k := 0;
      while k < WAYS
        invariant k <= WAYS && FirstFree(Value(), e, 0) == FirstFree(Value(), e, k)
      {
        if garbage[locs[k]] { return; }
        k := k + 1;
      }
    }

    method FindWay(e: Element, locs: seq<nat>, loc: int) returns (k: nat)
      requires Valid() && |locs| == WAYS && forall j :: 0 <= j < WAYS ==> locs[j] == Loc(Value(), e, j)
      ensures k == WayTo(Value(), e, loc, 0)
    {
      k := 0;
      while k < WAYS
        invariant k <= WAYS && WayTo(Value(), e, loc, 0) == WayTo(Value(), e, loc, k)
      {
        if locs[k] == loc { return; }
        k := k + 1;
      }
    }

    method PutAt(i: nat, e: Element, current: bool)
      requires Valid() && i < table.Length
      modifies table, garbage, epoch
      ensures Valid() && Value() == Put(old(Value()), i, e, current)
    {
      table[i] := e;
      garbage[i] := false;
      epoch[i] := current;
    }

    method SwapAt(i: nat, e: Element, current: bool) returns (outElement: Element, outEpoch: bool)
      requires Valid() && i < table.Length
      modifies table, epoch
      ensures Valid() && Value() == Swapped(old(Value()), i, e, current)
      ensures outElement == old(table[i]) && outEpoch == old(epoch[i])
    {
      outElement, outEpoch := table[i], epoch[i];
      table[i] := e;
      epoch[i] := current;
    }

    /** One round of the displacement loop with `e` in hand: either it is placed, or it swaps places. */
    method DisplaceOnce(e: Element, lastLoc: int, lastEpoch: bool) returns (placed: bool, e': Element, loc: nat, epoch': bool)
      requires Valid()
      modifies table, garbage, epoch
      ensures Valid()
      ensures placed == (FirstFree(old(Value()), e, 0) < WAYS)
      ensures placed ==> Value() == Put(old(Value()), Loc(old(Value()), e, FirstFree(old(Value()), e, 0)), e, lastEpoch)
      ensures !placed ==>
                && loc == Loc(old(Value()), e, (1 + WayTo(old(Value()), e, lastLoc, 0)) % WAYS)
                && Value() == Swapped(old(Value()), loc, e, lastEpoch)
                && e' == old(Value()).table[loc] && epoch' == old(Value()).epoch[loc]
    {
      var locs := ComputeHashes(e);
      var k := FindFree(e, locs);
      if k < WAYS {
        PutAt(locs[k], e, lastEpoch);
        return true, e, 0, lastEpoch;
      }
      var way := FindWay(e, locs, lastLoc);
      loc := locs[(1 + way) % WAYS];
      e', epoch' := SwapAt(loc, e, lastEpoch);
      placed := false;
    }

    method Displace(e0: Element) returns (dropped: Option<Entry>)
      requires Valid()
      modifies table, garbage, epoch
      ensures Valid() && (Value(), dropped) == Displaced(old(Value()), e0, -1, true, 0)
    {
      hide FirstFree, WayTo, Loc, Value;
      var e, lastLoc: int, lastEpoch := e0, -1, true;
      ghost var c0 := Value();
      ValueFields();
      for depth := 0 to depthLimit
        invariant Valid() && Value().depthLimit == depthLimit
        invariant Displaced(Value(), e, lastLoc, lastEpoch, depth) == Displaced(c0, e0, -1, true, 0)
      {
        var placed, e', loc, epoch' := DisplaceOnce(e, lastLoc, lastEpoch);
        if placed {
          return None;
        }
        e, lastLoc, lastEpoch := e', loc, epoch';
      }
      return Some(Entry(e, lastEpoch));
    }

    lemma ValueFields()
      requires Valid()
      ensures Value().depthLimit == depthLimit && |Value().table| == table.Length
    {
    }

    /** Inserts an element; `dropped` is the entry that found no place, if any. */
    method Insert(e: Element) returns (dropped: Option<Entry>)
      requires Valid()
      modifies this`counter, table, garbage, epoch
      ensures Valid() && (Value(), dropped) == Inserted(old(Value()), e)
    {
      EpochCheck();
      var locs := ComputeHashes(e);
      var k := FindHit(e, locs);
      if k < WAYS {
        PutAt(locs[k], e, true);
        return None;
      }
      dropped := Displace(e);
    }

    method ContainsElement(e: Element, erase: bool) returns (found: bool)
      requires Valid()
      modifies garbage
      ensures Valid() && found == Contains(old(Value()), e)
      ensures Value() == if erase then Erased(old(Value()), e) else old(Value())
    {
      var locs := ComputeHashes(e);
      var k := FindHit(e, locs);
      if k < WAYS {
        if erase { garbage[locs[k]] := true; }
        return true;
      }
      return false;
    }
  }
}
