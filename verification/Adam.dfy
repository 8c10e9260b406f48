/** The ADAM masternode registry (src/adam.cpp): collateral delegations with a bounded undo history. */
module Delegations {
  import opened Options

  type PubKey = int

  /** A delegation names a masternode key; `body` stands for its other fields. */
  datatype Delegation = Delegation(key: PubKey, body: nat)

  /** A delegation with the height from which its key was in force. */
  datatype Held = Held(first: int, del: Delegation)

  /** What the three maps hold for one collateral outpoint. */
  datatype Slot = Slot(del: Option<Delegation>, first: Option<int>, hist: seq<Held>)

  datatype Rec = Rec(del: Delegation, height: int)

  const DEPTH := 16
  const ABSENT := Slot(None, None, [])

  function Min(a: int, b: int): int { if a < b then a else b }

  function Capped(hist: seq<Held>): seq<Held> { if |hist| > DEPTH then hist[1..] else hist }

  function Recorded(s: Slot, r: Rec): Slot {
    if s.del.None? then Slot(Some(r.del), Some(r.height), s.hist)
    else if s.del.value.key != r.del.key then
      var first := if s.first.Some? then s.first.value else 1;
      Slot(Some(r.del), Some(r.height), Capped(s.hist + [Held(first, s.del.value)]))
    else
      Slot(Some(r.del), Some(if s.first.Some? then Min(s.first.value, r.height) else r.height), s.hist)
  }

  function Reverted(s: Slot, key: PubKey, height: int): Slot {
    if s.del.None? || s.del.value.key != key then s
    else
      var first := if s.first.Some? then s.first.value else height;
      if first < height then s
      else if s.hist != [] then
        var last := s.hist[|s.hist| - 1];
        Slot(Some(last.del), Some(last.first), s.hist[..|s.hist| - 1])
      else Slot(None, None, [])
  }

  function Forward(s: Slot, recs: seq<Rec>): Slot
    decreases |recs|
  {
    if recs == [] then s else Forward(Recorded(s, recs[0]), recs[1..])
  }

  /** Reverts the records, the last one first. */
  function Backward(s: Slot, recs: seq<Rec>): Slot
    decreases |recs|
  {
    if recs == [] then s
    else Reverted(Backward(s, recs[1..]), recs[0].del.key, recs[0].height)
  }

  function KeyChanges(s: Slot, recs: seq<Rec>): nat
    decreases |recs|
  {
    if recs == [] then 0
    else
      (if s.del.Some? && s.del.value.key != recs[0].del.key then 1 else 0) + KeyChanges(Recorded(s, recs[0]), recs[1..])
  }

  // ---------------------------------------------------------------- an unbounded stack machine

  /** The delegation in force on top of all earlier ones. */
  datatype Stack = Nil | Cons(top: Held, below: Stack)

  function Size(t: Stack): nat { if t.Nil? then 0 else 1 + Size(t.below) }

  function Push(t: Stack, r: Rec): Stack {
    if t.Nil? || t.top.del.key != r.del.key then Cons(Held(r.height, r.del), t)
    else Cons(Held(Min(t.top.first, r.height), r.del), t.below)
  }

  function Undo(t: Stack, key: PubKey, height: int): Stack {
    if t.Cons? && t.top.del.key == key && t.top.first >= height then t.below else t
  }

  function PushAll(t: Stack, recs: seq<Rec>): Stack
    decreases |recs|
  {
    if recs == [] then t else PushAll(Push(t, recs[0]), recs[1..])
  }

  function UndoAll(t: Stack, recs: seq<Rec>): Stack
    decreases |recs|
  {
    if recs == [] then t else Undo(UndoAll(t, recs[1..]), recs[0].del.key, recs[0].height)
  }

  /** Equal but for the body of the topmost delegation. */
  predicate Same(a: Stack, b: Stack) {
    a == b || (a.Cons? && b.Cons? && a.below == b.below && a.top.first == b.top.first && a.top.del.key == b.top.del.key)
  }

  /** The topmost two delegations have different keys. */
  predicate Changed(t: Stack) { t.Cons? && t.below.Cons? ==> t.top.del.key != t.below.top.del.key }

  ghost predicate Ascending(recs: seq<Rec>) {
    forall i, j :: 0 <= i < j < |recs| ==> recs[i].height <= recs[j].height
  }

  ghost predicate From(recs: seq<Rec>, height: int) { forall i :: 0 <= i < |recs| ==> recs[i].height >= height }

  lemma TailOf(recs: seq<Rec>)
    requires recs != [] && Ascending(recs)
    ensures Ascending(recs[1..]) && From(recs[1..], recs[0].height)
  {
  }

  /** Undoing records at heights not below the top's gives the stack back, or the stack without its top;
      above the top's height it always gives the stack back. */
  lemma {:induction false} UndoRestoresStack(t: Stack, recs: seq<Rec>)
    requires Ascending(recs) && (t.Cons? ==> From(recs, t.top.first)) && Changed(t)
    ensures var u := UndoAll(PushAll(t, recs), recs);
            Same(u, t) || (t.Cons? && Same(u, t.below) && !From(recs, t.top.first + 1))
    decreases |recs|
  {
    if recs != [] {
      var r, rest := recs[0], recs[1..];
      TailOf(recs);
      UndoRestoresStack(Push(t, r), rest);
      StackStep(t, recs, UndoAll(PushAll(Push(t, r), rest), rest));
    }
  }

  lemma StackStep(t: Stack, recs: seq<Rec>, v: Stack)
    requires recs != [] && (t.Cons? ==> From(recs, t.top.first)) && Changed(t)
    requires var t1 := Push(t, recs[0]);
             Same(v, t1) || (Same(v, t1.below) && !From(recs[1..], t1.top.first + 1))
    ensures var u := Undo(v, recs[0].del.key, recs[0].height);
            Same(u, t) || (t.Cons? && Same(u, t.below) && !From(recs, t.top.first + 1))
  {
    if t.Cons? && From(recs, t.top.first + 1) {
      FromTail(recs, t.top.first + 1);
    }
    if t.Cons? {
      assert recs[0].height >= t.top.first;
    }
  }

  lemma FromTail(recs: seq<Rec>, height: int)
    requires recs != [] && From(recs, height)
    ensures From(recs[1..], height) && recs[0].height >= height
  {
  }

  // ---------------------------------------------------------------- the slot shows the top of the stack

  /** The topmost `n` entries, oldest first. */
  function Recent(t: Stack, n: nat): (r: seq<Held>)
    requires n <= Size(t)
    ensures |r| == n
  {
    if n == 0 then [] else Recent(t.below, n - 1) + [t.top]
  }

  /** The slot shows the topmost `v` entries of the stack, and nothing when `v` is 0. */
  predicate Shows(s: Slot, t: Stack, v: nat) {
    && v <= Size(t) && v <= DEPTH + 1
    && (v == 0 ==> s == ABSENT)
    && (v > 0 ==> s == Slot(Some(t.top.del), Some(t.top.first), Recent(t.below, v - 1)))
  }

  lemma {:induction false} RecentDrop(t: Stack, n: nat)
    requires n < Size(t)
    ensures Recent(t, n + 1)[1..] == Recent(t, n)
  {
    if n > 0 {
      RecentDrop(t.below, n - 1);
      var below := Recent(t.below, n);
      assert (below + [t.top])[1..] == below[1..] + [t.top];
    }
  }

  lemma RecordShows(s: Slot, t: Stack, v: nat, r: Rec) returns (w: nat)
    requires Shows(s, t, v) && (v == 0 ==> t.Nil?)
    ensures Shows(Recorded(s, r), Push(t, r), w)
    ensures Push(t, r).Cons? && Size(Push(t, r)) >= Size(t)
    ensures w == Min(v + Size(Push(t, r)) - Size(t), DEPTH + 1) && w > 0
    ensures t.Cons? ==> Size(Push(t, r)) - Size(t) == if s.del.Some? && s.del.value.key != r.del.key then 1 else 0
  {
    w := Min(v + Size(Push(t, r)) - Size(t), DEPTH + 1);
    if v > DEPTH {
      RecentDrop(t, DEPTH);
    }
  }

  lemma RevertShows(s: Slot, t: Stack, v: nat, key: PubKey, height: int) returns (w: nat)
    requires Shows(s, t, v)
    ensures Shows(Reverted(s, key, height), Undo(t, key, height), w)
    ensures w == Max0(v - (Size(t) - Size(Undo(t, key, height))))
    ensures Size(Undo(t, key, height)) <= Size(t)
  {
    w := Max0(v - (Size(t) - Size(Undo(t, key, height))));
    if v > 1 {
      var older := Recent(t.below.below, v - 2);
      assert (older + [t.below.top])[..v - 2] == older;
    }
  }

  function Max0(a: int): nat { if a < 0 then 0 else a }

  lemma {:induction false} ForwardShows(s: Slot, t: Stack, v: nat, recs: seq<Rec>) returns (w: nat)
    requires Shows(s, t, v) && (v == 0 ==> t.Nil?) && v <= DEPTH + 1
    ensures Shows(Forward(s, recs), PushAll(t, recs), w)
    ensures Size(PushAll(t, recs)) >= Size(t) && w == Min(v + Size(PushAll(t, recs)) - Size(t), DEPTH + 1)
    ensures t.Cons? ==> Size(PushAll(t, recs)) - Size(t) == KeyChanges(s, recs)
    decreases |recs|
  {
    hide Shows, Recorded, Push, Size;
    if recs == [] {
      w := v;
    } else {
      var w1 := RecordShows(s, t, v, recs[0]);
      w := ForwardShows(Recorded(s, recs[0]), Push(t, recs[0]), w1, recs[1..]);
    }
  }

  lemma {:induction false} BackwardShows(s: Slot, t: Stack, v: nat, recs: seq<Rec>) returns (w: nat)
    requires Shows(s, t, v)
    ensures Shows(Backward(s, recs), UndoAll(t, recs), w)
    ensures Size(UndoAll(t, recs)) <= Size(t) && w == Max0(v - (Size(t) - Size(UndoAll(t, recs))))
    decreases |recs|
  {
    hide Shows, Reverted, Undo, Size;
    if recs == [] {
      w := v;
    } else {
      var w1 := BackwardShows(s, t, v, recs[1..]);
      w := RevertShows(Backward(s, recs[1..]), UndoAll(t, recs[1..]), w1, recs[0].del.key, recs[0].height);
    }
  }

  // ---------------------------------------------------------------- the delegation theorems

  function Piled(hist: seq<Held>): (t: Stack)
    ensures Size(t) == |hist|
  {
    if hist == [] then Nil else Cons(hist[|hist| - 1], Piled(hist[..|hist| - 1]))
  }

  /** The stack that a slot shows in full. */
  function StackOf(s: Slot): Stack
    requires s.del.Some? ==> s.first.Some?
  {
    if s.del.None? then Nil else Cons(Held(s.first.value, s.del.value), Piled(s.hist))
  }

  lemma {:induction false} PiledShown(hist: seq<Held>)
    ensures Recent(Piled(hist), |hist|) == hist
  {
    if hist != [] {
      PiledShown(hist[..|hist| - 1]);
      assert hist == hist[..|hist| - 1] + [hist[|hist| - 1]];
    }
  }

  /** Neighbouring delegations have different keys. */
  predicate Alternates(t: Stack) { t.Cons? ==> Changed(t) && Alternates(t.below) }

  /** Every slot that records and reverts can produce: both maps agree, the history is capped, and
      neighbouring delegations have different keys. */
  predicate WellFormed(s: Slot) {
    && (s.del.Some? <==> s.first.Some?) && (s.del.None? ==> s.hist == []) && |s.hist| <= DEPTH
    && Alternates(StackOf(s))
  }

  lemma {:induction false} DroppedAlternates(hist: seq<Held>)
    requires hist != [] && Alternates(Piled(hist))
    ensures Alternates(Piled(hist[1..]))
    ensures |hist| > 1 ==> Piled(hist[1..]).top == Piled(hist).top
  {
    if |hist| > 1 {
      var front := hist[..|hist| - 1];
      DroppedAlternates(front);
      assert hist[1..][..|hist| - 2] == front[1..];
    }
  }

  lemma PileUp(hist: seq<Held>, x: Held)
    ensures Piled(hist + [x]) == Cons(x, Piled(hist))
  {
    assert (hist + [x])[..|hist|] == hist;
  }

  lemma RecordWellFormed(s: Slot, r: Rec)
    requires WellFormed(s)
    ensures WellFormed(Recorded(s, r))
  {
    hide Piled;
    if s.del.Some? && s.del.value.key != r.del.key {
      var hist := s.hist + [Held(s.first.value, s.del.value)];
      PileUp(s.hist, Held(s.first.value, s.del.value));
      DroppedAlternates(hist);
    } else if s.del.None? {
      PiledEmpty();
    }
  }

  lemma PiledEmpty()
    ensures Piled([]) == Nil
  {
  }

  lemma RevertWellFormed(s: Slot, key: PubKey, height: int)
    requires WellFormed(s)
    ensures WellFormed(Reverted(s, key, height))
  {
  }

  /** One record and its revert restore key and first height just when the outpoint had no delegation,
      or the key changed, or the height lies above the first height. */
  lemma UndoOneIff(s: Slot, r: Rec)
    requires WellFormed(s)
    ensures var u := Reverted(Recorded(s, r), r.del.key, r.height);
            SameHolder(u, s) <==> s.del.None? || s.del.value.key != r.del.key || s.first.value < r.height
  {
    var s1 := Recorded(s, r);
    if s.del.Some? && s.del.value.key != r.del.key {
      assert s1.hist[|s1.hist| - 1] == Held(s.first.value, s.del.value);
    }
  }

  predicate SameHolder(a: Slot, b: Slot) {
    && a.first == b.first
    && (a.del.Some? <==> b.del.Some?) && (a.del.Some? ==> a.del.value.key == b.del.value.key)
  }

  /** The last `n` entries of the history, or all of it if it is shorter. */
  function Latest(hist: seq<Held>, n: nat): seq<Held> {
    if n == 0 || hist == [] then [] else Latest(hist[..|hist| - 1], n - 1) + [hist[|hist| - 1]]
  }

  lemma {:induction false} LatestIsSuffix(hist: seq<Held>, n: nat) returns (older: seq<Held>)
    ensures hist == older + Latest(hist, n) && |Latest(hist, n)| == if |hist| < n then |hist| else n
  {
    if n == 0 || hist == [] {
      older := hist;
    } else {
      var front := hist[..|hist| - 1];
      older := LatestIsSuffix(front, n - 1);
      assert hist == front + [hist[|hist| - 1]];
    }
  }

  /** What undoing `n` key changes leaves. The key and its first height come back just when there was none to
      begin with or the key changed at most 16 times, and what remains of the history is its most recent
      part. After more changes the delegation is gone. */
  predicate UndoneTo(s: Slot, u: Slot, n: nat) {
    && (SameHolder(u, s) <==> s.del.None? || n <= DEPTH)
    && (s.del.None? || n > DEPTH ==> u == ABSENT)
    && (s.del.Some? && n <= DEPTH ==> u.hist == Latest(s.hist, DEPTH - n))
  }

  /** Reverting a run of records in reverse order, for all runs at non-decreasing heights above the first height. */
  lemma UndoRestores(s: Slot, recs: seq<Rec>)
    requires WellFormed(s) && Ascending(recs) && (s.first.Some? ==> From(recs, s.first.value + 1))
    ensures UndoneTo(s, Backward(Forward(s, recs), recs), KeyChanges(s, recs))
  {
    hide Forward, Backward, KeyChanges, PushAll, UndoAll, Ascending, From, Shows, Same, Alternates, StackOf, UndoneTo, Size;
    var t := StackOf(s);
    StackShown(s, recs);
    var w := ForwardShows(s, t, Size(t), recs);
    var top := PushAll(t, recs);
    var x := BackwardShows(Forward(s, recs), top, w, recs);
    UndoRestoresStack(t, recs);
    ShownAtEnd(s, Backward(Forward(s, recs), recs), UndoAll(top, recs), x, Size(top) - Size(t));
    AbsentIsAbsent(s, Backward(Forward(s, recs), recs), Size(top) - Size(t), KeyChanges(s, recs));
  }

  /** `n` records, each at the next height and for the next key. */
  function Handovers(n: nat, from: nat): (r: seq<Rec>)
    ensures |r| == n && forall i :: 0 <= i < n ==> r[i] == Rec(Delegation(from + 1 + i, 0), from + 1 + i)
  {
    if n == 0 then [] else [Rec(Delegation(from + 1, 0), from + 1)] + Handovers(n - 1, from + 1)
  }

  lemma {:induction false} HandoversChange(s: Slot, n: nat, from: nat)
    requires s.del.Some? && s.del.value.key == from
    ensures KeyChanges(s, Handovers(n, from)) == n
    decreases n
  {
    if n > 0 {
      var recs := Handovers(n, from);
      assert recs[1..] == Handovers(n - 1, from + 1);
      HandoversChange(Recorded(s, recs[0]), n - 1, from + 1);
    }
  }

  /** A delegation recorded at height 0 and handed over `n` times comes back just for `n` up to 16; after 17 it is gone. */
  lemma HandoverLimit(n: nat)
    ensures var s, recs := Slot(Some(Delegation(0, 0)), Some(0), []), Handovers(n, 0);
            var u := Backward(Forward(s, recs), recs);
            (SameHolder(u, s) <==> n <= 16) && (n >= 17 ==> u == ABSENT)
  {
    var s, recs := Slot(Some(Delegation(0, 0)), Some(0), []), Handovers(n, 0);
    HandoversChange(s, n, 0);
    UndoRestores(s, recs);
  }

  lemma StackShown(s: Slot, recs: seq<Rec>)
    requires WellFormed(s) && (s.first.Some? ==> From(recs, s.first.value + 1))
    ensures var t := StackOf(s);
            && Shows(s, t, Size(t)) && Size(t) <= DEPTH + 1 && (t.Nil? <==> s.del.None?) && (t.Nil? <==> Size(t) == 0)
            && Changed(t) && (t.Cons? ==> From(recs, t.top.first) && From(recs, t.top.first + 1))
  {
    PiledShown(s.hist);
  }

  lemma ShownAtEnd(s: Slot, u: Slot, b: Stack, x: nat, n: nat)
    requires WellFormed(s) && Same(b, StackOf(s)) && Shows(u, b, x)
    requires x == Max0(Min(Size(StackOf(s)) + n, DEPTH + 1) - (Size(StackOf(s)) + n - Size(b)))
    ensures UndoneTo(s, u, n)
  {
    hide Alternates, Piled, Recent, Latest;
    if s.del.Some? && x > 0 {
      RecentIsLatest(s.hist, x - 1);
      LatestOfAll(s.hist, DEPTH - n);
    }
  }

  lemma {:induction false} RecentIsLatest(hist: seq<Held>, n: nat)
    requires n <= |hist|
    ensures Recent(Piled(hist), n) == Latest(hist, n)
  {
    if n > 0 {
      RecentIsLatest(hist[..|hist| - 1], n - 1);
    }
  }

  lemma {:induction false} LatestOfAll(hist: seq<Held>, n: nat)
    ensures |hist| <= n ==> Latest(hist, n) == Latest(hist, |hist|)
  {
    if hist != [] && n > 0 {
      LatestOfAll(hist[..|hist| - 1], n - 1);
    }
  }

  lemma AbsentIsAbsent(s: Slot, u: Slot, n: nat, m: nat)
    requires UndoneTo(s, u, n) && (s.del.Some? ==> n == m)
    ensures UndoneTo(s, u, m)
  {
  }
}

/** Masternode pings: which key owns which collateral, and at which heights it was seen. */
module Pings {
  type PubKey = int
  type OutPoint = nat

  datatype Registry = Registry(last: map<PubKey, int>, heights: map<PubKey, set<int>>, collateral: map<PubKey, OutPoint>)

  const KEEP := 64
  const PRUNE_DEPTH := 5760
  const WINDOW := 2880
  const EMPTY := Registry(map[], map[], map[])

  /** The other keys on this collateral, which a registration evicts. */
  function Evicted(r: Registry, key: PubKey, o: OutPoint): set<PubKey> {
    set k | k in r.collateral && r.collateral[k] == o && k != key
  }

  function HeightsOf(m: map<PubKey, set<int>>, key: PubKey): set<int> { if key in m then m[key] else {} }

  function PrunedBelow(hs: set<int>, cutoff: int): set<int> { set h | h in hs && h >= cutoff }

  /** The key's heights after a ping: old ones go only when there are more than 64. */
  function Stored(hs: set<int>, height: int): set<int> {
    var all := hs + {height};
    if |all| > KEEP then PrunedBelow(all, height - PRUNE_DEPTH) else all
  }

  function Registered(r: Registry, key: PubKey, o: OutPoint, height: int): Registry {
    var gone := Evicted(r, key, o);
    var hs := Stored(HeightsOf(r.heights, key), height);
    Registry((r.last - gone)[key := Largest(hs)], (r.heights - gone)[key := hs], (r.collateral - gone)[key := o])
  }

  lemma {:induction false} HasLargest(hs: set<int>)
    requires hs != {}
    ensures exists x :: x in hs && forall y :: y in hs ==> y <= x
  {
    SomeHeight(hs);
    var x :| x in hs;
    if hs != {x} {
      assert hs == (hs - {x}) + {x};
      HasLargest(hs - {x});
      var z :| z in hs - {x} && forall y :: y in hs - {x} ==> y <= z;
      var w := if x < z then z else x;
      assert w in hs && forall y :: y in hs ==> y <= w;
    }
  }

  lemma SomeHeight(hs: set<int>)
    ensures hs == {} || exists x :: x in hs
  {
    if forall x :: x !in hs { assert hs == {}; }
  }

  function Largest(hs: set<int>): (x: int)
    ensures hs != {} ==> x in hs && forall y :: y in hs ==> y <= x
  {
    if hs == {} then 0
    else
      HasLargest(hs);
      var x :| x in hs && forall y :: y in hs ==> y <= x;
      x
  }

  ghost predicate SeenIn(hs: set<int>, query: int, window: int) {
    exists h :: h in hs && h <= query && query - h <= window
  }

  /** The activity query: the latest height up to the query height, then the last active height. */
  predicate Active(r: Registry, key: PubKey, query: int, window: int) {
    || (key in r.heights && exists h :: h in r.heights[key] && h <= query && query - h <= window)
    || (key in r.last && r.last[key] <= query && query - r.last[key] <= window)
  }

  // ---------------------------------------------------------------- the invariant

  /** One collateral has one key; the three maps have the same keys; the last height is the largest. */
  ghost predicate Sound(r: Registry) {
    && r.last.Keys == r.heights.Keys == r.collateral.Keys
    && (forall a, b :: a in r.collateral && b in r.collateral && r.collateral[a] == r.collateral[b] ==> a == b)
    && (forall k :: k in r.heights ==> r.heights[k] != {} && r.last[k] == Largest(r.heights[k]))
  }

  lemma StoredKeeps(hs: set<int>, height: int)
    ensures height in Stored(hs, height) && Stored(hs, height) <= hs + {height}
    ensures forall h :: h in hs && h !in Stored(hs, height) ==> h < height - PRUNE_DEPTH
  {
  }

  lemma RegisterSound(r: Registry, key: PubKey, o: OutPoint, height: int)
    requires Sound(r)
    ensures Sound(Registered(r, key, o, height))
    ensures forall k :: k in Registered(r, key, o, height).collateral && Registered(r, key, o, height).collateral[k] == o ==> k == key
  {
    StoredKeeps(HeightsOf(r.heights, key), height);
    var r' := Registered(r, key, o, height);
    var gone := Evicted(r, key, o);
    forall k | k in r'.collateral && r'.collateral[k] == o ensures k == key {
      assert k != key ==> k in r.collateral && k !in gone;
    }
  }

  /** What a registration changes: the other keys on the collateral are gone, the key's heights are those from 5760
      below on, once there are more than 64, and every other key stays as it was. */
  lemma RegisterExact(r: Registry, key: PubKey, o: OutPoint, height: int, k: PubKey)
    requires Sound(r)
    ensures var s := Registered(r, key, o, height);
            && key in s.collateral && s.collateral[key] == o && key in s.heights && (k in s.collateral <==> k in s.heights)
            && (forall h :: h in s.heights[key] <==>
                  && (h == height || (key in r.heights && h in r.heights[key]))
                  && (|HeightsOf(r.heights, key) + {height}| <= 64 || h >= height - 5760))
            && (k != key ==> (k in s.collateral <==> k in r.collateral && r.collateral[k] != o))
            && (k != key && k in s.collateral ==>
                  s.collateral[k] == r.collateral[k] && s.heights[k] == r.heights[k] && s.last[k] == r.last[k])
  {
    RegisterSound(r, key, o, height);
  }

  // ---------------------------------------------------------------- the unpruned history

  /** Every height of each key since its last eviction. */
  type History = map<PubKey, set<int>>

  function Logged(full: History, gone: set<PubKey>, key: PubKey, height: int): History {
    (full - gone)[key := HeightsOf(full, key) + {height}]
  }

  /** The stored heights are the full history less some far below its largest height. */
  ghost predicate Covers(r: Registry, full: History) {
    && full.Keys == r.heights.Keys
    && forall k :: k in full ==> CoversKey(r.heights[k], full[k])
  }

  ghost predicate CoversKey(kept: set<int>, full: set<int>) {
    && kept != {} && kept <= full && Largest(kept) == Largest(full)
    && forall h :: h in full && h !in kept ==> h < Largest(full) - PRUNE_DEPTH
  }

  lemma LargestIs(hs: set<int>, x: int)
    requires x in hs && forall y :: y in hs ==> y <= x
    ensures Largest(hs) == x
  {
  }

  lemma StoredCovers(kept: set<int>, full: set<int>, height: int)
    requires kept == full == {} || CoversKey(kept, full)
    ensures CoversKey(Stored(kept, height), full + {height})
  {
    var s, f := Stored(kept, height), full + {height};
    StoredKeeps(kept, height);
    var top := if full == {} || Largest(full) < height then height else Largest(full);
    LargestIs(f, top);
    if top == height {
      LargestIs(s, height);
    } else {
      assert top in kept;
      assert top in s;
      LargestIs(s, top);
    }
  }

  lemma RegisterCovers(r: Registry, full: History, key: PubKey, o: OutPoint, height: int)
    requires Sound(r) && Covers(r, full)
    ensures Covers(Registered(r, key, o, height), Logged(full, Evicted(r, key, o), key, height))
  {
    var r' := Registered(r, key, o, height);
    var full' := Logged(full, Evicted(r, key, o), key, height);
    StoredCovers(HeightsOf(r.heights, key), HeightsOf(full, key), height);
    forall k | k in full' ensures CoversKey(r'.heights[k], full'[k]) {
      if k != key {
        assert CoversKey(r.heights[k], full[k]);
      }
    }
  }

  // ---------------------------------------------------------------- runs of registrations

  datatype Ping = Ping(key: PubKey, collateral: OutPoint, height: int)

  /** The registry and the full history after a run of accepted pings. */
  function After(pings: seq<Ping>): (Registry, History) {
    if pings == [] then (EMPTY, map[])
    else
      var (r, full) := After(pings[..|pings| - 1]);
      var p := pings[|pings| - 1];
      (Registered(r, p.key, p.collateral, p.height), Logged(full, Evicted(r, p.key, p.collateral), p.key, p.height))
  }

  lemma {:induction false} RunSound(pings: seq<Ping>)
    ensures Sound(After(pings).0) && Covers(After(pings).0, After(pings).1)
  {
    if pings != [] {
      var front, p := pings[..|pings| - 1], pings[|pings| - 1];
      RunSound(front);
      var (r, full) := After(front);
      RegisterSound(r, p.key, p.collateral, p.height);
      RegisterCovers(r, full, p.key, p.collateral, p.height);
    }
  }

  lemma QueryUnpruned(kept: set<int>, full: set<int>, query: int, window: int)
    requires CoversKey(kept, full) && window <= WINDOW && query >= Largest(full) - WINDOW
    ensures SeenIn(kept, query, window) <==> SeenIn(full, query, window)
  {
    if SeenIn(full, query, window) {
      var h :| h in full && h <= query && query - h <= window;
      assert h in kept;
    }
  }

  /** In every run of pings the registry is sound, and an activity query with a window of at most 2880 blocks
      at a height within 2880 of the key's largest registered height answers as the full history would. */
  lemma QueriesIgnorePruning(pings: seq<Ping>, key: PubKey, query: int, window: int)
    requires window <= WINDOW
    requires key in After(pings).1 ==> query >= Largest(After(pings).1[key]) - WINDOW
    ensures var (r, full) := After(pings);
            Sound(r) && (Active(r, key, query, window) <==> key in full && SeenIn(full[key], query, window))
  {
    RunSound(pings);
    var (r, full) := After(pings);
    if key in full {
      assert CoversKey(r.heights[key], full[key]);
      QueryUnpruned(r.heights[key], full[key], query, window);
      assert r.last[key] in r.heights[key];
    }
  }
}

/** The registry object with its maps. */
module Adam {
  import opened D = Delegations
  import opened P = Pings
  import opened Options
  import Sets

  class AdamRegistry {
    var delegations: map<OutPoint, Delegation>
    var firstHeight: map<OutPoint, int>
    var history: map<OutPoint, seq<Held>>
    var lastActive: map<D.PubKey, int>
    var activeHeights: map<D.PubKey, set<int>>
    var collateral: map<D.PubKey, OutPoint>

    ghost function SlotAt(o: OutPoint): Slot
      reads this
    {
      Slot(if o in delegations then Some(delegations[o]) else None,
           if o in firstHeight then Some(firstHeight[o]) else None,
           if o in history then history[o] else [])
    }

    ghost function Registry(): P.Registry
      reads this
    {
      P.Registry(lastActive, activeHeights, collateral)
    }

    constructor ()
      ensures Registry() == P.EMPTY && forall o :: SlotAt(o) == ABSENT
    {
      delegations, firstHeight, history := map[], map[], map[];
      lastActive, activeHeights, collateral := map[], map[], map[];
    }

    method RecordCollateralDelegationWithHistory(o: OutPoint, newDel: Delegation, nHeight: int)
      modifies `delegations, `firstHeight, `history
      ensures SlotAt(o) == Recorded(old(SlotAt(o)), Rec(newDel, nHeight))
      ensures forall p :: p != o ==> SlotAt(p) == old(SlotAt(p))
    {
      if o in delegations {
        if delegations[o].key != newDel.key {
          var prevFirstHeight := if o in firstHeight then firstHeight[o] else 1;
          var hist := (if o in history then history[o] else []) + [Held(prevFirstHeight, delegations[o])];
          if |hist| > DEPTH { hist := hist[1..]; }
          history := history[o := hist];
          firstHeight := firstHeight[o := nHeight];
        } else {
          firstHeight := firstHeight[o := if o in firstHeight then D.Min(firstHeight[o], nHeight) else nHeight];
        }
      } else {
        firstHeight := firstHeight[o := nHeight];
      }
      delegations := delegations[o := newDel];
    }

    method RevertOnChainCollateralDelegation(o: OutPoint, key: D.PubKey, nDisconnectedHeight: int)
      returns (restoredOldKey: Option<D.PubKey>)
      modifies `delegations, `firstHeight, `history
      ensures SlotAt(o) == Reverted(old(SlotAt(o)), key, nDisconnectedHeight)
      ensures forall p :: p != o ==> SlotAt(p) == old(SlotAt(p))
      ensures restoredOldKey.Some? <==> |SlotAt(o).hist| < |old(SlotAt(o)).hist|
      ensures restoredOldKey.Some? ==> SlotAt(o).del.Some? && restoredOldKey.value == SlotAt(o).del.value.key
    {
      restoredOldKey := None;
      if o in delegations && delegations[o].key == key {
        var first := if o in firstHeight then firstHeight[o] else nDisconnectedHeight;
        if first >= nDisconnectedHeight {
          if o in history && history[o] != [] {
            var hist := history[o];
            var back := hist[|hist| - 1];
            delegations := delegations[o := back.del];
            restoredOldKey := Some(back.del.key);
            history := if |hist| == 1 then history - {o} else history[o := hist[..|hist| - 1]];
            firstHeight := firstHeight[o := back.first];
          } else {
            delegations := delegations - {o};
            firstHeight := firstHeight - {o};
          }
        }
      }
    }

    /** Drops the other keys on this collateral. */
    method EvictOthers(key: D.PubKey, o: OutPoint)
      modifies `lastActive, `activeHeights, `collateral
      ensures var gone := Evicted(old(Registry()), key, o);
              Registry() == P.Registry(old(lastActive) - gone, old(activeHeights) - gone, old(collateral) - gone)
    {
      var todo := collateral.Keys;
      ghost var was, gone := collateral, Evicted(Registry(), key, o);
      while todo != {}
        invariant todo <= was.Keys
        invariant collateral == was - (gone - todo)
        invariant lastActive == old(lastActive) - (gone - todo) && activeHeights == old(activeHeights) - (gone - todo)
        decreases |todo|
      {
        var k := Sets.Smallest(todo);
        if collateral[k] == o && k != key {
          TakeOne(was, gone, todo, k);
          TakeOne(old(lastActive), gone, todo, k);
          TakeOne(old(activeHeights), gone, todo, k);
          lastActive := lastActive - {k};
          activeHeights := activeHeights - {k};
          collateral := collateral - {k};
        } else {
          assert gone - (todo - {k}) == gone - todo;
        }
        todo := todo - {k};
      }
      assert gone - {} == gone;
    }

    static lemma TakeOne<V>(m: map<D.PubKey, V>, gone: set<D.PubKey>, todo: set<D.PubKey>, k: D.PubKey)
      requires k in gone && k in todo
      ensures m - (gone - todo) - {k} == m - (gone - (todo - {k}))
    {
      assert gone - (todo - {k}) == (gone - todo) + {k};
    }

    /** Erases the smallest heights while they lie below the cutoff and are not the only ones. */
    static method PruneHeights(hs0: set<int>, cutoff: int) returns (hs: set<int>)
      requires exists h :: h in hs0 && h >= cutoff
      ensures hs == PrunedBelow(hs0, cutoff)
    {
      hs := hs0;
      while hs != {} && |hs| > 1
        invariant PrunedBelow(hs, cutoff) == PrunedBelow(hs0, cutoff) && hs <= hs0
        decreases |hs|
      {
        var h := Sets.Smallest(hs);
        if h >= cutoff { break; }
        hs := hs - {h};
      }
      if |hs| <= 1 {
        var h :| h in hs0 && h >= cutoff;
        assert h in PrunedBelow(hs0, cutoff);
        OneHeight(hs, h);
      }
    }

    static lemma OneHeight(hs: set<int>, h: int)
      requires h in hs && |hs| <= 1
      ensures hs == {h}
    {
      assert |hs - {h}| == 0;
      assert hs == (hs - {h}) + {h};
    }

    /** The part of a registration that concerns the keys and their heights. */
    method RegisterHeight(key: D.PubKey, o: OutPoint, nHeight: int)
      modifies `lastActive, `activeHeights, `collateral
      ensures Registry() == Registered(old(Registry()), key, o, nHeight)
    {
      EvictOthers(key, o);
      var heights := (if key in activeHeights then activeHeights[key] else {}) + {nHeight};
      if |heights| > KEEP {
        assert nHeight in heights && nHeight >= nHeight - PRUNE_DEPTH;
        heights := PruneHeights(heights, nHeight - PRUNE_DEPTH);
      }
      activeHeights := activeHeights[key := heights];
      lastActive := lastActive[key := Largest(heights)];
      collateral := collateral[key := o];
    }

    /** Registers a ping that passed the collateral and authorisation checks; `del` is its inline
        delegation when that was verified too. */
    method RegisterOnChainMasternodePing(key: D.PubKey, o: OutPoint, nHeight: int, authorised: bool, del: Option<Delegation>)
      returns (ok: bool)
      modifies this
      ensures ok == authorised
      ensures !ok ==> Registry() == old(Registry()) && forall p :: SlotAt(p) == old(SlotAt(p))
      ensures ok ==> Registry() == Registered(old(Registry()), key, o, nHeight)
      ensures ok && del.Some? ==> SlotAt(o) == Recorded(old(SlotAt(o)), Rec(del.value, nHeight))
      ensures forall p :: p != o || del.None? ==> SlotAt(p) == old(SlotAt(p))
    {
      hide Registered, Recorded;
      if !authorised { return false; }
      if del.Some? {
        RecordCollateralDelegationWithHistory(o, del.value, nHeight);
      }
      RegisterHeight(key, o, nHeight);
      return true;
    }

    /** The latest stored height up to the query height, as the ordered set's upper bound finds it. */
    static method LatestUpTo(hs: set<int>, query: int) returns (found: bool, h: int)
      ensures found <==> exists x :: x in hs && x <= query
      ensures found ==> h in hs && h <= query && forall x :: x in hs && x <= query ==> x <= h
    {
      found, h := false, 0;
      var todo := hs;
      while todo != {}
        invariant todo <= hs
        invariant found ==> h in hs && h <= query && h !in todo
        invariant forall x :: x in hs && x !in todo ==> x <= query && found && x <= h
        invariant forall x, y :: x in todo && y in hs && y !in todo ==> y < x
        decreases |todo|
      {
        var x := Sets.Smallest(todo);
        if x > query { break; }
        found, h := true, x;
        todo := todo - {x};
      }
    }

    method IsMasternodeActiveAtHeight(key: D.PubKey, keyValid: bool, query: int, window: int) returns (active: bool)
      ensures active == (keyValid && Active(Registry(), key, query, window))
    {
      if !keyValid { return false; }
      if key in activeHeights {
        var found, h := LatestUpTo(activeHeights[key], query);
        if found && query - h <= window { return true; }
      }
      if key in lastActive {
        var h := lastActive[key];
        if h <= query && query - h <= window { return true; }
      }
      return false;
    }
  }
}
