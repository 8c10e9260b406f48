/** When an insertion into the cuckoo cache drops an element, and which one (src/cuckoocache.h). */
module CuckooInsert {
  import opened Limbs
  import opened Options
  import opened CuckooModel

  /** A stop of the displacement: the entry in hand, the way it takes and the slot there. */
  datatype Stop = Stop(hand: Entry, way: nat, loc: nat)

  /** The cache with the entries put in the slots of the stops, one after the other. */
  function Written(c: Cache, stops: seq<Stop>): (r: Cache)
    requires Shape(c) && forall i :: 0 <= i < |stops| ==> stops[i].loc < |c.table|
    ensures Shape(r) && r.garbage == c.garbage && r.hash == c.hash && |r.table| == |c.table|
    decreases |stops|
  {
    if stops == [] then c
    else
      var s := stops[0];
      Written(c.(table := c.table[s.loc := s.hand.element], epoch := c.epoch[s.loc := s.hand.current]), stops[1..])
  }

  /** The slot the k-th hash of an element leads to. */
  function At(c: Cache, e: Element, k: nat): (i: nat)
    requires Shape(c)
    ensures i < |c.table|
  {
    c.hash(e, k) % |c.table|
  }

  predicate NoSlotFree(c: Cache, e: Element)
    requires Shape(c)
  {
    forall k :: 0 <= k < 8 ==> !c.garbage[At(c, e, k)]
  }

  /** The entry in hand at the i-th stop, or after the last. */
  function HandAt(stops: seq<Stop>, last: Entry, i: nat): Entry
    requires i <= |stops|
  {
    if i < |stops| then stops[i].hand else last
  }

  /** A chain of displacements that starts with an entry in hand: each finds none of its eight slots free, takes the way
      after the one that leads to the slot just left, and is exchanged for what is in the slot there. */
  ghost predicate Chain(c: Cache, first: Entry, lastLoc: int, stops: seq<Stop>, last: Entry)
    requires Shape(c)
  {
    HandAt(stops, last, 0) == first && Blocked(c, stops) && InTurn(c, lastLoc, stops) && Exchanged(c, stops, last)
  }

  ghost predicate Blocked(c: Cache, stops: seq<Stop>)
    requires Shape(c)
  {
    forall i :: 0 <= i < |stops| ==>
      NoSlotFree(c, stops[i].hand.element) && stops[i].way < 8 && stops[i].loc == At(c, stops[i].hand.element, stops[i].way)
  }

  ghost predicate InTurn(c: Cache, lastLoc: int, stops: seq<Stop>)
    requires Shape(c)
  {
    forall i :: 0 <= i < |stops| ==> WayAfter(c, stops[i].hand.element, LeftAt(stops, lastLoc, i), stops[i].way)
  }

  /** The slot that was left just before the i-th stop. */
  function LeftAt(stops: seq<Stop>, lastLoc: int, i: nat): int
    requires i < |stops|
  {
    if i == 0 then lastLoc else stops[i - 1].loc
  }

  ghost predicate Exchanged(c: Cache, stops: seq<Stop>, last: Entry)
    requires Shape(c) && Blocked(c, stops)
  {
    forall i :: 0 <= i < |stops| ==> ExchangedAt(c, stops, last, i)
  }

  ghost predicate ExchangedAt(c: Cache, stops: seq<Stop>, last: Entry, i: nat)
    requires Shape(c) && i < |stops| && forall j :: 0 <= j < |stops| ==> stops[j].loc < |c.table|
  {
    var before := Written(c, stops[..i]);
    HandAt(stops, last, i + 1) == Entry(before.table[stops[i].loc], before.epoch[stops[i].loc])
  }

  /** The way after the first that leads to `loc`, cyclically; the second way when none does. */
  predicate WayAfter(c: Cache, e: Element, loc: int, way: nat)
    requires Shape(c)
  {
    || (way == 1 && forall k :: 0 <= k < 8 ==> At(c, e, k) != loc)
    || exists k :: 0 <= k < 8 && At(c, e, k) == loc && way == (k + 1) % 8
                   && forall j :: 0 <= j < k ==> At(c, e, j) != loc
  }

  /** The entry is put in the first free of its eight slots. */
  ghost predicate PlacedFirstFree(c: Cache, hand: Entry, r: Cache)
    requires Shape(c)
  {
    exists k :: 0 <= k < 8 && FreeFrom(c, hand.element, k) && r == Put(c, At(c, hand.element, k), hand.element, hand.current)
  }

  predicate FreeFrom(c: Cache, e: Element, k: nat)
    requires Shape(c)
  {
    c.garbage[At(c, e, k)] && forall j :: 0 <= j < k ==> !c.garbage[At(c, e, j)]
  }

  lemma WayIs(c: Cache, e: Element, lastLoc: int)
    requires Shape(c)
    ensures WayAfter(c, e, lastLoc, (1 + WayTo(c, e, lastLoc, 0)) % WAYS)
  {
    hide WayTo;
    var k := WayTo(c, e, lastLoc, 0);
    forall j | 0 <= j < k ensures At(c, e, j) != lastLoc { assert Loc(c, e, j) != lastLoc; }
    if k < WAYS { assert At(c, e, k) == lastLoc; }
  }

  lemma FreeIs(c: Cache, e: Element)
    requires Shape(c)
    ensures var k := FirstFree(c, e, 0); if k < WAYS then FreeFrom(c, e, k) else NoSlotFree(c, e)
  {
    hide FirstFree;
    var k := FirstFree(c, e, 0);
    forall j | 0 <= j < k ensures !c.garbage[At(c, e, j)] { assert !c.garbage[Loc(c, e, j)]; }
  }

  lemma WrittenCons(c: Cache, stop: Stop, rest: seq<Stop>)
    requires Shape(c) && stop.loc < |c.table| && forall i :: 0 <= i < |rest| ==> rest[i].loc < |c.table|
    ensures Written(c, [stop] + rest) == Written(Written(c, [stop]), rest)
  {
    assert ([stop] + rest)[1..] == rest && [stop][1..] == [];
  }

  lemma BlockedGrows(c: Cache, stop: Stop, stops: seq<Stop>)
    requires Shape(c) && NoSlotFree(c, stop.hand.element) && stop.way < 8 && stop.loc == At(c, stop.hand.element, stop.way)
    requires Blocked(Written(c, [stop]), stops)
    ensures Blocked(c, [stop] + stops)
  {
    hide Written;
    var all, c1 := [stop] + stops, Written(c, [stop]);
    forall i | 0 <= i < |all|
      ensures NoSlotFree(c, all[i].hand.element) && all[i].way < 8 && all[i].loc == At(c, all[i].hand.element, all[i].way)
    {
      if i > 0 { SameSlots(c, c1, stops[i - 1].hand.element); }
    }
  }

  lemma SameSlots(c: Cache, c1: Cache, e: Element)
    requires Shape(c) && Shape(c1) && c1.hash == c.hash && |c1.table| == |c.table| && c1.garbage == c.garbage
    ensures (NoSlotFree(c, e) <==> NoSlotFree(c1, e)) && forall k: nat :: At(c, e, k) == At(c1, e, k)
  {
    hide At;
    forall k: nat ensures At(c, e, k) == At(c1, e, k) { SameAt(c, c1, e, k); }
  }

  lemma SameAt(c: Cache, c1: Cache, e: Element, k: nat)
    requires Shape(c) && Shape(c1) && c1.hash == c.hash && |c1.table| == |c.table|
    ensures At(c, e, k) == At(c1, e, k)
  {
  }

  lemma InTurnGrows(c: Cache, stop: Stop, lastLoc: int, stops: seq<Stop>)
    requires Shape(c) && stop.loc < |c.table| && WayAfter(c, stop.hand.element, lastLoc, stop.way)
    requires InTurn(Written(c, [stop]), stop.loc, stops)
    ensures InTurn(c, lastLoc, [stop] + stops)
  {
    hide Written, WayAfter;
    var all, c1 := [stop] + stops, Written(c, [stop]);
    forall i | 0 <= i < |all|
      ensures WayAfter(c, all[i].hand.element, LeftAt(all, lastLoc, i), all[i].way)
    {
      if i > 0 { SameWay(c, c1, stops[i - 1].hand.element, LeftAt(stops, stop.loc, i - 1), stops[i - 1].way); }
    }
  }

  lemma ExchangedGrows(c: Cache, stop: Stop, stops: seq<Stop>, last: Entry)
    requires Shape(c) && stop.loc < |c.table| && Blocked(Written(c, [stop]), stops) && Blocked(c, [stop] + stops)
    requires Exchanged(Written(c, [stop]), stops, last)
    requires HandAt(stops, last, 0) == Entry(c.table[stop.loc], c.epoch[stop.loc])
    ensures Exchanged(c, [stop] + stops, last)
  {
    hide NoSlotFree, At, Written, ExchangedAt;
    var all, c1 := [stop] + stops, Written(c, [stop]);
    forall i | 0 <= i < |all| ensures ExchangedAt(c, all, last, i) {
      if i == 0 { ExchangedHere(c, stop, stops, last); } else {
        assert ExchangedAt(c1, stops, last, i - 1);
        ExchangedLater(c, stop, stops, last, i - 1);
      }
    }
  }

  lemma ExchangedHere(c: Cache, stop: Stop, stops: seq<Stop>, last: Entry)
    requires Shape(c) && stop.loc < |c.table| && forall j :: 0 <= j < |stops| ==> stops[j].loc < |c.table|
    requires HandAt(stops, last, 0) == Entry(c.table[stop.loc], c.epoch[stop.loc])
    ensures ExchangedAt(c, [stop] + stops, last, 0)
  {
    hide Written;
    NothingWritten(c);
    assert ([stop] + stops)[..0] == [];
  }

  lemma ExchangedLater(c: Cache, stop: Stop, stops: seq<Stop>, last: Entry, i: nat)
    requires Shape(c) && stop.loc < |c.table| && i < |stops| && forall j :: 0 <= j < |stops| ==> stops[j].loc < |c.table|
    requires ExchangedAt(Written(c, [stop]), stops, last, i)
    ensures ExchangedAt(c, [stop] + stops, last, i + 1)
  {
    hide Written;
    var all := [stop] + stops;
    SamePrefix(stop, stops, i);
    WrittenCons(c, stop, stops[..i]);
    assert HandAt(all, last, i + 2) == HandAt(stops, last, i + 1) && all[i + 1] == stops[i];
  }

  lemma SamePrefix(stop: Stop, stops: seq<Stop>, i: nat)
    requires i < |stops|
    ensures ([stop] + stops)[..i + 1] == [stop] + stops[..i]
  {
  }

  lemma NothingWritten(c: Cache)
    requires Shape(c)
    ensures Written(c, []) == c
  {
  }

  lemma ChainGrows(c: Cache, stop: Stop, lastLoc: int, stops: seq<Stop>, last: Entry)
    requires Shape(c) && NoSlotFree(c, stop.hand.element) && stop.way < 8
    requires stop.loc == At(c, stop.hand.element, stop.way) && WayAfter(c, stop.hand.element, lastLoc, stop.way)
    requires Chain(Written(c, [stop]), Entry(c.table[stop.loc], c.epoch[stop.loc]), stop.loc, stops, last)
    ensures Chain(c, stop.hand, lastLoc, [stop] + stops, last)
    ensures Written(c, [stop] + stops) == Written(Written(c, [stop]), stops)
  {
    hide NoSlotFree, At, Written, WayAfter, InTurn, Exchanged;
    BlockedGrows(c, stop, stops);
    InTurnGrows(c, stop, lastLoc, stops);
    ExchangedGrows(c, stop, stops, last);
    WrittenCons(c, stop, stops);
  }

  lemma SameWay(c: Cache, c1: Cache, e: Element, loc: int, way: nat)
    requires Shape(c) && Shape(c1) && c1.hash == c.hash && |c1.table| == |c.table|
    ensures WayAfter(c, e, loc, way) <==> WayAfter(c1, e, loc, way)
  {
    hide At;
    forall k: nat ensures At(c, e, k) == At(c1, e, k) { SameAt(c, c1, e, k); }
  }

  // ---------------------------------------------------------------- the whole insertion

  /** What the displacement loop with an entry in hand leaves: it went along a chain; either that has as many stops as the
      depth allows and the entry after the last is dropped, or it is shorter and that entry found a free slot. */
  ghost predicate Outcome(c: Cache, first: Entry, lastLoc: int, most: nat, stops: seq<Stop>, last: Entry, r: Cache, d: Option<Entry>)
    requires Shape(c)
  {
    && Chain(c, first, lastLoc, stops, last)
    && if d.Some? then d.value == last && |stops| == most && r == Written(c, stops)
       else |stops| < most && PlacedFirstFree(Written(c, stops), last, r)
  }

  lemma {:induction false} DisplaceOutcome(c: Cache, e: Element, lastLoc: int, lastEpoch: bool, depth: nat)
    returns (stops: seq<Stop>, last: Entry)
    requires Shape(c) && depth <= c.depthLimit
    ensures var (r, d) := Displaced(c, e, lastLoc, lastEpoch, depth);
            Outcome(c, Entry(e, lastEpoch), lastLoc, c.depthLimit - depth, stops, last, r, d)
    decreases c.depthLimit - depth
  {
    hide FirstFree, WayTo, WayAfter, Chain, NoSlotFree, FreeFrom;
    stops, last := [], Entry(e, lastEpoch);
    EmptyChain(c, last, lastLoc);
    if depth < c.depthLimit {
      var k := FirstFree(c, e, 0);
      FreeIs(c, e);
      if k < WAYS {
        assert FreeFrom(c, e, k);
      } else {
        var way := (1 + WayTo(c, e, lastLoc, 0)) % WAYS;
        var stop := Stop(last, way, Loc(c, e, way));
        WayIs(c, e, lastLoc);
        var c1 := Written(c, [stop]);
        OneStop(c, stop);
        stops, last := DisplaceOutcome(c1, c.table[stop.loc], stop.loc, c.epoch[stop.loc], depth + 1);
        ChainGrows(c, stop, lastLoc, stops, last);
        stops := [stop] + stops;
      }
    }
  }

  lemma EmptyChain(c: Cache, first: Entry, lastLoc: int)
    requires Shape(c)
    ensures Chain(c, first, lastLoc, [], first)
  {
  }

  lemma OneStop(c: Cache, stop: Stop)
    requires Shape(c) && stop.loc < |c.table|
    ensures Written(c, [stop]) == c.(table := c.table[stop.loc := stop.hand.element], epoch := c.epoch[stop.loc := stop.hand.current])
  {
    assert [stop][1..] == [];
  }

  /** An insertion revives an element that is in one of its slots. Otherwise it goes along a chain from the new element,
      the first displacement being from its second slot, and drops something only after as many displacements as the
      depth limit allows: the entry that comes after the last. */
  lemma InsertOutcome(c: Cache, e: Element) returns (stops: seq<Stop>, last: Entry)
    requires Shape(c)
    ensures var c1 := EpochChecked(c); var (r, d) := Inserted(c, e);
            if exists k :: 0 <= k < 8 && c1.table[At(c1, e, k)] == e
            then d.None? && Revived(c1, e, r)
            else Outcome(c1, Entry(e, true), -1, c.depthLimit, stops, last, r, d)
    ensures stops != [] ==> stops[0].way == 1
  {
    hide Displaced, Outcome, FirstHit;
    var c1 := EpochChecked(c);
    stops, last := [], Entry(e, true);
    HitIff(c1, e);
    if FirstHit(c1, e, 0) == WAYS {
      stops, last := DisplaceOutcome(c1, e, -1, true, 0);
      FirstWay(c1, Entry(e, true), c.depthLimit, stops, last, Inserted(c, e).0, Inserted(c, e).1);
    }
  }

  /** The element's first slot that holds it is live again and of the current epoch; nothing else changes. */
  ghost predicate Revived(c: Cache, e: Element, r: Cache)
    requires Shape(c)
  {
    exists k :: 0 <= k < 8 && HeldFirst(c, e, k) && r == Put(c, At(c, e, k), e, true)
  }

  predicate HeldFirst(c: Cache, e: Element, k: nat)
    requires Shape(c)
  {
    c.table[At(c, e, k)] == e && forall j :: 0 <= j < k ==> c.table[At(c, e, j)] != e
  }

  lemma HitIff(c: Cache, e: Element)
    requires Shape(c)
    ensures var k := FirstHit(c, e, 0);
            && (k < WAYS <==> exists j :: 0 <= j < 8 && c.table[At(c, e, j)] == e)
            && (k < WAYS ==> HeldFirst(c, e, k))
  {
    hide FirstHit;
    var k := FirstHit(c, e, 0);
    forall j | 0 <= j < k ensures c.table[At(c, e, j)] != e { assert c.table[Loc(c, e, j)] != e; }
    if k < WAYS { assert c.table[At(c, e, k)] == e; }
  }

  /** A look-up compares the element with the eight slots, whether they are live or not. */
  lemma ContainsIff(c: Cache, e: Element)
    requires Shape(c)
    ensures Contains(c, e) <==> exists j :: 0 <= j < 8 && c.table[At(c, e, j)] == e
  {
    hide FirstHit;
    HitIff(c, e);
  }

  lemma FirstWay(c: Cache, first: Entry, most: nat, stops: seq<Stop>, last: Entry, r: Cache, d: Option<Entry>)
    requires Shape(c) && Outcome(c, first, -1, most, stops, last, r, d)
    ensures stops != [] ==> stops[0].way == 1
  {
    hide At, WayAfter, Written, NoSlotFree, PlacedFirstFree, Exchanged, Blocked;
    if stops != [] {
      assert InTurn(c, -1, stops);
      assert WayAfter(c, stops[0].hand.element, LeftAt(stops, -1, 0), stops[0].way);
      NoWayToNowhere(c, stops[0].hand.element, stops[0].way);
    }
  }

  lemma NoWayToNowhere(c: Cache, e: Element, way: nat)
    requires Shape(c) && WayAfter(c, e, -1, way)
    ensures way == 1
  {
    hide At;
  }

  /** While one of its eight slots is free after the epoch check, or holds it, inserting an element drops nothing and
      the element is live, current and found. */
  lemma FreeSlotStores(c: Cache, e: Element, k: nat)
    requires Shape(c) && Findable(c) && k < 8
    requires var c1 := EpochChecked(c); var i := At(c1, e, k); c1.garbage[i] || c1.table[i] == e
    ensures var (r, d) := Inserted(c, e); d.None? && Shape(r) && Entry(e, true) in Live(r) && Contains(r, e)
  {
    hide Displaced, FirstHit, FirstFree, Findable, Live, Contains;
    var c1 := EpochChecked(c);
    var (r, d) := Inserted(c, e);
    var stops, last := InsertOutcome(c, e);
    InsertConserves(c, e);
    if !(exists j :: 0 <= j < 8 && c1.table[At(c1, e, j)] == e) {
      NoStop(c1, e, k, c.depthLimit, stops, last, r, d);
    }
    LiveIsFound(r, Entry(e, true));
  }

  lemma NoStop(c: Cache, e: Element, k: nat, most: nat, stops: seq<Stop>, last: Entry, r: Cache, d: Option<Entry>)
    requires Shape(c) && k < 8 && c.garbage[At(c, e, k)] && most > 0
    requires Outcome(c, Entry(e, true), -1, most, stops, last, r, d)
    ensures d.None?
  {
    hide At, WayAfter, Written, PlacedFirstFree, Exchanged, InTurn;
    if stops != [] { assert false; }
  }

  /** The first element inserted into a cache that was just set up is found. */
  lemma FirstIsStored(hash: (Element, nat) -> nat, newSize: nat, e: Element)
    ensures Shape(Inserted(SetUp(hash, newSize), e).0) && Contains(Inserted(SetUp(hash, newSize), e).0, e)
  {
    hide Inserted;
    var c := SetUp(hash, newSize);
    SetUpSound(hash, newSize);
    FreeSlotStores(c, e, 0);
  }

  lemma {:induction false} AfterNext(c: Cache, ops: seq<Op>, op: Op)
    requires Sound(c)
    ensures After(c, ops + [op]) == Step(After(c, ops), op)
    decreases |ops|
  {
    hide Step, Sound;
    SoundShape(c);
    if ops == [] {
      assert (ops + [op])[1..] == [];
      StepSound(c, op);
    } else {
      assert (ops + [op])[1..] == ops[1..] + [op];
      StepSound(c, ops[0]);
      AfterNext(Step(c, ops[0]), ops[1..], op);
      SoundShape(After(c, ops));
    }
  }

  lemma SoundShape(c: Cache)
    requires Sound(c)
    ensures Shape(c) && Findable(c)
  {
  }

  /** In every run, inserting an element stores it and drops nothing while one of its slots is free after the epoch check. */
  lemma RunStores(hash: (Element, nat) -> nat, newSize: nat, ops: seq<Op>, e: Element, k: nat)
    requires var c := EpochChecked(AfterSetUp(hash, newSize, ops)); k < 8 && Shape(c) && c.garbage[At(c, e, k)]
    ensures var r := AfterSetUp(hash, newSize, ops + [Insert(e)]);
            Shape(r) && Entry(e, true) in Live(r) && Contains(r, e)
  {
    hide After, Inserted, Live, Contains, SetUp, EpochChecked, Sound;
    var c := AfterSetUp(hash, newSize, ops);
    SetUpSound(hash, newSize);
    AfterNext(SetUp(hash, newSize), ops, Insert(e));
    SoundShape(c);
    FreeSlotStores(c, e, k);
  }

  /** A cache has as many slots as the largest power of two up to the request, at least two, and that many displacements
      at most in an insertion as its exponent. */
  lemma SetUpSize(hash: (Element, nat) -> nat, newSize: nat)
    ensures var c := SetUp(hash, newSize);
            && |c.table| == Pow2(c.depthLimit) && |c.table| >= 2 && |c.table| <= Max(2, newSize) < 2 * |c.table|
            && c.counter == c.epochSize && c.hash == hash
            && Shape(c) && forall i :: 0 <= i < |c.table| ==> c.garbage[i] && !c.epoch[i]
  {
  }

  /** The countdown: one less until it is over; then a scan, after which the next one is due when the epoch could be full,
      after a sixteenth of it at the earliest, or after a whole epoch when this one was. */
  lemma Countdown(c: Cache)
    requires Shape(c)
    ensures var n, used := EpochChecked(c).counter, Current(c, |c.table|);
            if c.counter > 0 then n == c.counter - 1
            else if used >= c.epochSize then n == c.epochSize
            else n >= 1 && n >= c.epochSize / 16 && n >= c.epochSize - used && (n == 1 || n == c.epochSize / 16 || n == c.epochSize - used)
  {
  }
}
