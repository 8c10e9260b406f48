/** Saving and loading the address manager (src/addrman.h): what a saved manager looks like after it is loaded. */
module AddrManStream {
  import opened Options
  import opened Sets
  import opened AddrManModel

  /** What the stream keeps of an entry. */
  datatype Record = Record(service: Service, nServices: Services, nTime: nat, source: NetAddr, nLastSuccess: int, nAttempts: int)

  datatype Token = Num(n: int) | Rec(r: Record)

  const CURRENT_VERSION := 1
  const KEY_SIZE := 32
  const BIT30 := 0x4000_0000

  function Toggle30(n: int): int { if n / BIT30 % 2 == 1 then n - BIT30 else n + BIT30 }

  function ToRecord(i: Info): Record { Record(i.service, i.nServices, i.nTime, i.source, i.nLastSuccess, i.nAttempts) }

  /** A loaded entry: in no table yet, and with the fields that live in memory only at their initial values. */
  function FromRecord(r: Record, pos: int): Info {
    Info(r.service, r.nServices, r.nTime, r.source, 0, 0, r.nLastSuccess, r.nAttempts, 0, false, pos)
  }

  // ---------------------------------------------------------------- saving

  function Ascending(ids: set<int>): seq<int>
    decreases |ids|
  {
    if ids == {} then [] else [Smallest(ids)] + Ascending(ids - {Smallest(ids)})
  }

  function Referenced(m: Infos): set<int> { set id | id in m && m[id].nRefCount != 0 }

  function NewOrder(m: Infos): seq<int> { Ascending(Referenced(m)) }

  function TriedOrder(m: Infos): seq<int> { Ascending(TriedIds(m)) }

  /** The place of an id in an order. */
  function Rank(order: seq<int>, id: int): nat {
    if order == [] || order[0] == id then 0 else 1 + Rank(order[1..], id)
  }

  function Records(m: Infos, order: seq<int>): seq<Token>
    requires Known(m, order)
  {
    seq(|order|, i requires 0 <= i < |order| => Rec(ToRecord(m[order[i]])))
  }

  /** The indexes of a bucket from position `i` on. */
  function BucketFrom(t: Table, order: seq<int>, b: int, i: nat): seq<Token>
    requires i <= BUCKET_SIZE
    decreases BUCKET_SIZE - i
  {
    if i == BUCKET_SIZE then []
    else (if Slot(b, i) in t then [Num(Rank(order, t[Slot(b, i)]))] else []) + BucketFrom(t, order, b, i + 1)
  }

  function BucketsFrom(t: Table, order: seq<int>, b: nat): seq<Token>
    requires b <= NEW_BUCKETS
    decreases NEW_BUCKETS - b
  {
    if b == NEW_BUCKETS then []
    else [Num(|BucketFrom(t, order, b, 0)|)] + BucketFrom(t, order, b, 0) + BucketsFrom(t, order, b + 1)
  }

  function Dump(key: int, s: State): seq<Token> {
    OrderFacts(s.mapInfo);
    [Num(CURRENT_VERSION), Num(KEY_SIZE), Num(key), Num(s.nNew), Num(s.nTried), Num(Toggle30(NEW_BUCKETS))]
    + (Records(s.mapInfo, NewOrder(s.mapInfo))
       + (Records(s.mapInfo, TriedOrder(s.mapInfo)) + BucketsFrom(s.newTab, NewOrder(s.mapInfo), 0)))
  }

  /** A saved manager starts with version 1, 32 for the size of the key, the key, both counts and the number of buckets
      with bit 30 flipped. */
  lemma DumpHeader(key: int, s: State)
    ensures Dump(key, s)[..6] == [Num(1), Num(32), Num(key), Num(s.nNew), Num(s.nTried), Num(0x4000_0400)]
  {
    hide Records, BucketsFrom;
  }

  /** Bit 30 of a count that fits in 31 bits is flipped, and flipping it twice changes nothing. */
  lemma ToggleIs(n: nat)
    requires n < 0x8000_0000
    ensures Toggle30(n) == if n < 0x4000_0000 then n + 0x4000_0000 else n - 0x4000_0000
    ensures Toggle30(Toggle30(n)) == n
  {
  }

  // ---------------------------------------------------------------- loading

  /** What the header says about the table of new addresses. */
  datatype Format = Format(version: int, buckets: int)

  predicate Usable(f: Format) { f.version == CURRENT_VERSION && f.buckets == NEW_BUCKETS }

  function WithNew(env: Env, f: Format, s: State, n: int, r: Record): (t: State)
    ensures t.nNew == s.nNew
  {
    var i := FromRecord(r, |s.vRandom|);
    var t := s.(mapInfo := s.mapInfo[n := i], mapAddr := s.mapAddr[r.service.ip := n], vRandom := s.vRandom + [n]);
    var slot := NewSlot(env, r.service, r.source);
    if !Usable(f) && slot !in s.newTab then AddRef(t, slot, n) else t
  }

  function LoadNew(env: Env, f: Format, s: State, n: int, toks: seq<Token>): Option<(State, seq<Token>)>
    decreases s.nNew - n
  {
    if n >= s.nNew then Some((s, toks))
    else if toks == [] || !toks[0].Rec? then None
    else LoadNew(env, f, WithNew(env, f, s, n, toks[0].r), n + 1, toks[1..])
  }

  /** A tried entry takes its slot, or is lost when the slot is taken. */
  function WithTried(env: Env, s: State, r: Record): State {
    var id := s.nIdCount;
    var slot := TriedSlot(env, r.service);
    if slot in s.tried then s.(nTried := s.nTried - 1)
    else
      s.(mapInfo := s.mapInfo[id := FromRecord(r, |s.vRandom|).(fInTried := true)],
         mapAddr := s.mapAddr[r.service.ip := id], vRandom := s.vRandom + [id], tried := s.tried[slot := id], nIdCount := id + 1)
  }

  function LoadTried(env: Env, s: State, left: int, toks: seq<Token>): Option<(State, seq<Token>)>
    decreases left
  {
    if left <= 0 then Some((s, toks))
    else if toks == [] || !toks[0].Rec? then None
    else LoadTried(env, WithTried(env, s, toks[0].r), left - 1, toks[1..])
  }

  /** One index of a bucket: the entry gets a reference if its position there is free. */
  function WithIndex(env: Env, f: Format, s: State, b: int, idx: int): State {
    if 0 <= idx < s.nNew && idx in s.mapInfo && Usable(f) && 0 <= b < NEW_BUCKETS then
      var slot := Slot(b, env.newPos(b, s.mapInfo[idx].service));
      if slot !in s.newTab && s.mapInfo[idx].nRefCount < MAX_REFS then AddRef(s, slot, idx) else s
    else s
  }

  function LoadBucket(env: Env, f: Format, s: State, b: int, left: int, toks: seq<Token>): Option<(State, seq<Token>)>
    decreases left
  {
    if left <= 0 then Some((s, toks))
    else if toks == [] || !toks[0].Num? then None
    else LoadBucket(env, f, WithIndex(env, f, s, b, toks[0].n), b, left - 1, toks[1..])
  }

  function LoadBuckets(env: Env, f: Format, s: State, b: int, toks: seq<Token>): Option<(State, seq<Token>)>
    decreases f.buckets - b
  {
    if b >= f.buckets then Some((s, toks))
    else if toks == [] || !toks[0].Num? then None
    else
      var r := LoadBucket(env, f, s, b, toks[0].n, toks[1..]);
      if r.None? then None else LoadBuckets(env, f, r.value.0, b + 1, r.value.1)
  }

  /** Deletes the entries in no table, in the order of the ids; None is a failed assertion. */
  function Prune(s: State, ids: set<int>): Option<State>
    decreases |ids|
  {
    if ids == {} then Some(s)
    else
      var id := Smallest(ids);
      if id in s.mapInfo && !s.mapInfo[id].fInTried && s.mapInfo[id].nRefCount == 0 then
        if CanDelete(s, id) then Prune(Delete(s, id), ids - {id}) else None
      else Prune(s, ids - {id})
  }

  /** What a stream leaves in the tables before pruning, with its key. None is an exception; a negative number of new
      entries counts as one. */
  function LoadTables(envOf: int -> Env, collisions: set<int>, toks: seq<Token>): Option<(int, State)> {
    if |toks| < 6 || (exists i :: 0 <= i < 6 && !toks[i].Num?) || toks[1].n != KEY_SIZE || toks[3].n < 0 then None
    else
      var (key, nNew, nTried) := (toks[2].n, toks[3].n, toks[4].n);
      var env := envOf(key);
      var f := FormatOf(toks[0].n, toks[5].n);
      var a := LoadNew(env, f, Blank(nNew, nTried, collisions), 0, toks[6..]);
      if a.None? then None
      else
        var b := LoadTried(env, a.value.0.(nIdCount := nNew), nTried, a.value.1);
        if b.None? then None
        else
          var c := LoadBuckets(env, f, b.value.0, 0, b.value.1);
          if c.None? then None else Some((key, c.value.0))
  }

  function FormatOf(version: int, buckets: int): Format {
    Format(version, if version != 0 then Toggle30(buckets) else buckets)
  }

  /** A cleared manager with the counters of a header. */
  function Blank(nNew: int, nTried: int, collisions: set<int>): State {
    State(0, map[], map[], [], nTried, map[], nNew, map[], 1, collisions)
  }

  /** Loads a stream into a manager. Its queue of collisions is what it was before: clearing the manager does not
      empty it. */
  function Load(envOf: int -> Env, collisions: set<int>, toks: seq<Token>): Option<(int, State)> {
    var c := LoadTables(envOf, collisions, toks);
    if c.None? then None
    else
      var d := Prune(c.value.1, c.value.1.mapInfo.Keys);
      if d.None? then None else Some((c.value.0, d.value))
  }

  // ---------------------------------------------------------------- orders and ranks

  lemma {:induction false} AscendingFacts(ids: set<int>)
    ensures |Ascending(ids)| == |ids|
    ensures forall i :: 0 <= i < |Ascending(ids)| ==> Ascending(ids)[i] in ids
    ensures forall id :: id in ids ==> id in Ascending(ids)
    ensures Distinct(Ascending(ids))
    decreases |ids|
  {
    if ids != {} {
      var x := Smallest(ids);
      var rest := Ascending(ids - {x});
      AscendingFacts(ids - {x});
      forall id | id in ids ensures id in [x] + rest {
        if id != x { assert id in rest; }
      }
      assert Ascending(ids) == [x] + rest;
    }
  }

  lemma OrderFacts(m: Infos)
    ensures forall i :: 0 <= i < |NewOrder(m)| ==> NewOrder(m)[i] in m && m[NewOrder(m)[i]].nRefCount != 0
    ensures forall i :: 0 <= i < |TriedOrder(m)| ==> TriedOrder(m)[i] in m && m[TriedOrder(m)[i]].fInTried
  {
    hide Ascending;
    AscendingFacts(Referenced(m));
    AscendingFacts(TriedIds(m));
  }

  ghost predicate Distinct(order: seq<int>) { forall i, j :: 0 <= i < j < |order| ==> order[i] != order[j] }

  lemma {:induction false} RankIs(order: seq<int>, i: nat)
    requires Distinct(order) && i < |order|
    ensures Rank(order, order[i]) == i
  {
    if i > 0 {
      assert order[0] != order[i] && order[1..][i - 1] == order[i];
      RankIs(order[1..], i - 1);
    }
  }

  lemma {:induction false} RankOf(order: seq<int>, id: int)
    requires id in order
    ensures Rank(order, id) < |order| && order[Rank(order, id)] == id
  {
    if order[0] != id {
      RankOf(order[1..], id);
    }
  }

  lemma ReferencedAreNew(m: Infos, t: Table)
    requires RefsOk(m, t, {})
    ensures Referenced(m) == NewIds(m)
  {
    assert forall id :: id in m ==> (m[id].nRefCount != 0 <==> !m[id].fInTried);
  }

  /** Under the consistency check the saved orders are exactly the new and the tried ids. */
  lemma OrdersOk(env: Env, s: State)
    requires Inv(env, s)
    ensures |NewOrder(s.mapInfo)| == s.nNew && |TriedOrder(s.mapInfo)| == s.nTried
    ensures Distinct(NewOrder(s.mapInfo)) && Distinct(TriedOrder(s.mapInfo))
    ensures forall i :: 0 <= i < s.nNew ==> NewOrder(s.mapInfo)[i] in s.mapInfo && !s.mapInfo[NewOrder(s.mapInfo)[i]].fInTried
    ensures forall i :: 0 <= i < s.nTried ==> TriedOrder(s.mapInfo)[i] in s.mapInfo && s.mapInfo[TriedOrder(s.mapInfo)[i]].fInTried
    ensures forall id :: id in s.mapInfo && !s.mapInfo[id].fInTried ==> id in NewOrder(s.mapInfo)
    ensures forall id :: id in s.mapInfo && s.mapInfo[id].fInTried ==> id in TriedOrder(s.mapInfo)
  {
    hide Ascending, Distinct, IdsOk, RandomOk, AddrOk, NewOk, TriedOk, RefsOk;
    AscendingFacts(Referenced(s.mapInfo));
    AscendingFacts(TriedIds(s.mapInfo));
    ReferencedAreNew(s.mapInfo, s.newTab);
    assert NewIds(s.mapInfo) - {} == NewIds(s.mapInfo);
  }

  // ---------------------------------------------------------------- the entries

  predicate Known(m: Infos, order: seq<int>) { forall i :: 0 <= i < |order| ==> order[i] in m }

  /** The entries of an order, loaded one after the other on top of `base`. */
  function Loaded(m: Infos, order: seq<int>, k: nat, base: Infos, offset: nat, tried: bool): Infos
    requires Known(m, order) && k <= |order|
  {
    if k == 0 then base
    else
      var id := offset + k - 1;
      Loaded(m, order, k - 1, base, offset, tried)[id := FromRecord(ToRecord(m[order[k - 1]]), id).(fInTried := tried)]
  }

  function Addrs(m: Infos, order: seq<int>, k: nat, base: map<NetAddr, int>, offset: nat): map<NetAddr, int>
    requires Known(m, order) && k <= |order|
  {
    if k == 0 then base else Addrs(m, order, k - 1, base, offset)[m[order[k - 1]].service.ip := offset + k - 1]
  }

  function Slots(env: Env, m: Infos, order: seq<int>, k: nat, offset: nat): Table
    requires Known(m, order) && k <= |order|
  {
    if k == 0 then map[]
    else Slots(env, m, order, k - 1, offset)[TriedSlot(env, m[order[k - 1]].service) := offset + k - 1]
  }

  function Upto(n: nat): seq<int> { seq(n, i => i) }

  lemma {:induction false} LoadedFacts(m: Infos, order: seq<int>, k: nat, base: Infos, offset: nat, tried: bool)
    requires Known(m, order) && k <= |order| && forall id :: id in base ==> id < offset
    ensures var l := Loaded(m, order, k, base, offset, tried);
            && (forall id :: id in l <==> id in base || offset <= id < offset + k)
            && (forall id :: id in base ==> l[id] == base[id])
            && (forall j :: 0 <= j < k ==>
                  l[offset + j] == FromRecord(ToRecord(m[order[j]]), offset + j).(fInTried := tried))
  {
    hide ToRecord, FromRecord;
    if k > 0 {
      LoadedFacts(m, order, k - 1, base, offset, tried);
    }
  }

  function Ips(m: Infos, order: seq<int>, k: nat): set<NetAddr>
    requires Known(m, order) && k <= |order|
  {
    set j | 0 <= j < k :: m[order[j]].service.ip
  }

  lemma {:induction false} AddrsKeys(m: Infos, order: seq<int>, k: nat, base: map<NetAddr, int>, offset: nat)
    requires Known(m, order) && k <= |order|
    ensures Addrs(m, order, k, base, offset).Keys == base.Keys + Ips(m, order, k)
  {
    if k > 0 {
      AddrsKeys(m, order, k - 1, base, offset);
      assert Ips(m, order, k) == Ips(m, order, k - 1) + {m[order[k - 1]].service.ip};
    }
  }

  lemma {:induction false} AddrsFacts(m: Infos, order: seq<int>, k: nat, base: map<NetAddr, int>, offset: nat)
    requires Known(m, order) && k <= |order|
    requires forall i, j :: 0 <= i < j < |order| ==> m[order[i]].service.ip != m[order[j]].service.ip
    requires forall i :: 0 <= i < |order| ==> m[order[i]].service.ip !in base
    ensures var a := Addrs(m, order, k, base, offset);
            && (forall ip :: ip in base ==> ip in a && a[ip] == base[ip])
            && (forall j :: 0 <= j < k ==> m[order[j]].service.ip in a && a[m[order[j]].service.ip] == offset + j)
  {
    if k > 0 {
      AddrsFacts(m, order, k - 1, base, offset);
    }
  }

  lemma {:induction false} SlotsFacts(env: Env, m: Infos, order: seq<int>, k: nat, offset: nat)
    requires Known(m, order) && k <= |order|
    requires forall i, j :: 0 <= i < j < |order| ==> TriedSlot(env, m[order[i]].service) != TriedSlot(env, m[order[j]].service)
    ensures var t := Slots(env, m, order, k, offset);
            && (forall j :: 0 <= j < k ==>
                  TriedSlot(env, m[order[j]].service) in t && t[TriedSlot(env, m[order[j]].service)] == offset + j)
            && (forall j :: k <= j < |order| ==> TriedSlot(env, m[order[j]].service) !in t)
  {
    hide TriedSlot;
    if k > 0 {
      SlotsFacts(env, m, order, k - 1, offset);
    }
  }

  /** The state once `k` new entries are loaded. */
  function NewStage(s: State, collisions: set<int>, k: nat): State
    requires Known(s.mapInfo, NewOrder(s.mapInfo)) && k <= |NewOrder(s.mapInfo)|
  {
    var (m, o) := (s.mapInfo, NewOrder(s.mapInfo));
    State(0, Loaded(m, o, k, map[], 0, false), Addrs(m, o, k, map[], 0), Upto(k), s.nTried, map[], s.nNew, map[], 1, collisions)
  }

  /** The state once all new and `k` tried entries are loaded. */
  function TriedStage(env: Env, s: State, collisions: set<int>, k: nat): State
    requires Known(s.mapInfo, NewOrder(s.mapInfo)) && Known(s.mapInfo, TriedOrder(s.mapInfo)) && k <= |TriedOrder(s.mapInfo)|
  {
    var (m, o) := (s.mapInfo, TriedOrder(s.mapInfo));
    var n := |NewOrder(m)|;
    var a := NewStage(s, collisions, n);
    State(n + k, Loaded(m, o, k, a.mapInfo, n, true), Addrs(m, o, k, a.mapAddr, n), Upto(n + k), s.nTried,
          Slots(env, m, o, k, n), s.nNew, map[], 1, collisions)
  }

  lemma {:induction false} LoadNewIs(env: Env, f: Format, s: State, collisions: set<int>, k: nat, rest: seq<Token>)
    requires Usable(f) && Known(s.mapInfo, NewOrder(s.mapInfo)) && k <= |NewOrder(s.mapInfo)| == s.nNew
    ensures LoadNew(env, f, NewStage(s, collisions, k), k, Records(s.mapInfo, NewOrder(s.mapInfo))[k..] + rest)
              == Some((NewStage(s, collisions, s.nNew), rest))
    decreases s.nNew - k
  {
    hide NewOrder, FromRecord, ToRecord;
    var o := NewOrder(s.mapInfo);
    var toks := Records(s.mapInfo, o)[k..] + rest;
    if k == s.nNew {
      assert toks == rest;
    } else {
      var r := ToRecord(s.mapInfo[o[k]]);
      assert toks[0] == Rec(r);
      assert toks[1..] == Records(s.mapInfo, o)[k + 1..] + rest;
      assert Upto(k) + [k] == Upto(k + 1);
      NewStep(env, f, s, collisions, k);
      LoadNewIs(env, f, s, collisions, k + 1, rest);
    }
  }

  lemma NewStep(env: Env, f: Format, s: State, collisions: set<int>, k: nat)
    requires Usable(f) && Known(s.mapInfo, NewOrder(s.mapInfo)) && k < |NewOrder(s.mapInfo)|
    ensures WithNew(env, f, NewStage(s, collisions, k), k, ToRecord(s.mapInfo[NewOrder(s.mapInfo)[k]]))
              == NewStage(s, collisions, k + 1)
  {
    hide NewOrder;
    assert Upto(k) + [k] == Upto(k + 1);
  }

  lemma TriedDistinct(env: Env, s: State)
    requires Inv(env, s) && Known(s.mapInfo, TriedOrder(s.mapInfo))
    ensures var o := TriedOrder(s.mapInfo);
            forall i, j :: 0 <= i < j < |o| ==> TriedSlot(env, s.mapInfo[o[i]].service) != TriedSlot(env, s.mapInfo[o[j]].service)
  {
    hide TriedOrder, IdsOk, RandomOk, AddrOk, NewOk, RefsOk, CountsOk, TriedSlot, NewOrder;
    OrdersOk(env, s);
  }

  lemma {:induction false} LoadTriedIs(env: Env, s: State, collisions: set<int>, k: nat, rest: seq<Token>)
    requires Inv(env, s) && Known(s.mapInfo, NewOrder(s.mapInfo)) && Known(s.mapInfo, TriedOrder(s.mapInfo))
    requires k <= |TriedOrder(s.mapInfo)| == s.nTried
    ensures LoadTried(env, TriedStage(env, s, collisions, k), s.nTried - k, Records(s.mapInfo, TriedOrder(s.mapInfo))[k..] + rest)
              == Some((TriedStage(env, s, collisions, s.nTried), rest))
    decreases s.nTried - k
  {
    hide TriedOrder, NewOrder, FromRecord, ToRecord, Check;
    var o := TriedOrder(s.mapInfo);
    var toks := Records(s.mapInfo, o)[k..] + rest;
    if k == s.nTried {
      assert toks == rest;
    } else {
      var r := ToRecord(s.mapInfo[o[k]]);
      assert toks[0] == Rec(r);
      assert toks[1..] == Records(s.mapInfo, o)[k + 1..] + rest;
      TriedStep(env, s, collisions, k);
      LoadTriedIs(env, s, collisions, k + 1, rest);
    }
  }

  lemma TriedStep(env: Env, s: State, collisions: set<int>, k: nat)
    requires Inv(env, s) && Known(s.mapInfo, NewOrder(s.mapInfo)) && Known(s.mapInfo, TriedOrder(s.mapInfo))
    requires k < |TriedOrder(s.mapInfo)|
    ensures WithTried(env, TriedStage(env, s, collisions, k), ToRecord(s.mapInfo[TriedOrder(s.mapInfo)[k]]))
              == TriedStage(env, s, collisions, k + 1)
  {
    hide TriedOrder, NewOrder, Check, TriedSlot;
    var n := |NewOrder(s.mapInfo)|;
    TriedDistinct(env, s);
    SlotsFacts(env, s.mapInfo, TriedOrder(s.mapInfo), k, n);
    assert Upto(n + k) + [n + k] == Upto(n + k + 1);
  }

  // ---------------------------------------------------------------- the new table

  /** The slots saved before position `i` of bucket `b`. */
  function Done(t: Table, b: int, i: int): set<Slot> {
    set x | x in t && (x.bucket < b || (x.bucket == b && x.pos < i))
  }

  /** `r` is the loaded state `base` with the references of the slots in `done`. */
  ghost predicate Filled(s: State, base: State, r: State, done: set<Slot>) {
    && r == base.(mapInfo := r.mapInfo, newTab := r.newTab)
    && FilledTable(s, r.newTab, done)
    && FilledRefs(s, base.mapInfo, r.mapInfo, done)
  }

  ghost predicate FilledTable(s: State, t: Table, done: set<Slot>) {
    && t.Keys == done && done <= s.newTab.Keys
    && forall x :: x in done ==> t[x] == Rank(NewOrder(s.mapInfo), s.newTab[x])
  }

  ghost predicate FilledRefs(s: State, base: Infos, m: Infos, done: set<Slot>) {
    && m.Keys == base.Keys
    && (forall j :: 0 <= j < |NewOrder(s.mapInfo)| ==> j in m && m[j] == base[j].(nRefCount := RefsIn(s, j, done)))
    && (forall j :: j in m && j >= |NewOrder(s.mapInfo)| ==> m[j] == base[j])
  }

  function RefsIn(s: State, j: nat, done: set<Slot>): nat
    requires j < |NewOrder(s.mapInfo)|
  {
    |SlotsOf(s.newTab, NewOrder(s.mapInfo)[j]) * done|
  }

  lemma RefsGrow(s: State, j: nat, done: set<Slot>, x: Slot)
    requires j < |NewOrder(s.mapInfo)| && x in s.newTab && x !in done
    ensures RefsIn(s, j, done + {x}) == RefsIn(s, j, done) + if s.newTab[x] == NewOrder(s.mapInfo)[j] then 1 else 0
  {
    hide NewOrder;
    var slots := SlotsOf(s.newTab, NewOrder(s.mapInfo)[j]);
    if s.newTab[x] == NewOrder(s.mapInfo)[j] {
      assert slots * (done + {x}) == slots * done + {x};
    } else {
      assert slots * (done + {x}) == slots * done;
    }
  }

  lemma RefsBelow(s: State, j: nat, done: set<Slot>, x: Slot)
    requires j < |NewOrder(s.mapInfo)| && x in s.newTab && x !in done && s.newTab[x] == NewOrder(s.mapInfo)[j]
    ensures RefsIn(s, j, done) < |SlotsOf(s.newTab, NewOrder(s.mapInfo)[j])|
  {
    hide NewOrder;
    var slots := SlotsOf(s.newTab, NewOrder(s.mapInfo)[j]);
    SubsetSize(slots * done, slots - {x});
  }

  lemma RefsFill(s: State, base: Infos, m: Infos, done: set<Slot>, x: Slot, j: nat)
    requires FilledRefs(s, base, m, done) && x in s.newTab && x !in done && Distinct(NewOrder(s.mapInfo))
    requires j < |NewOrder(s.mapInfo)| && NewOrder(s.mapInfo)[j] == s.newTab[x]
    ensures FilledRefs(s, base, m[j := m[j].(nRefCount := m[j].nRefCount + 1)], done + {x})
  {
    hide NewOrder, RefsIn;
    forall k | 0 <= k < |NewOrder(s.mapInfo)|
      ensures RefsIn(s, k, done + {x}) == RefsIn(s, k, done) + if k == j then 1 else 0
    {
      RefsGrow(s, k, done, x);
    }
  }

  /** What loading needs to know about the entry of a saved slot. */
  lemma SlotEntry(env: Env, s: State, x: Slot)
    requires Inv(env, s) && x in s.newTab
    ensures var o := NewOrder(s.mapInfo);
            && Distinct(o) && s.newTab[x] in o && |o| == s.nNew && |SlotsOf(s.newTab, s.newTab[x])| <= MAX_REFS
            && s.newTab[x] in s.mapInfo && InNewPlace(env, x, s.mapInfo[s.newTab[x]].service)
  {
    hide NewOrder, TriedOrder, IdsOk, RandomOk, AddrOk, TriedOk, CountsOk;
    OrdersOk(env, s);
    var id := s.newTab[x];
    assert id in s.mapInfo && !s.mapInfo[id].fInTried;
    assert id in NewOrder(s.mapInfo);
  }

  lemma BaseEntry(env: Env, s: State, collisions: set<int>, j: nat)
    requires Inv(env, s) && Known(s.mapInfo, NewOrder(s.mapInfo)) && Known(s.mapInfo, TriedOrder(s.mapInfo)) && j < |NewOrder(s.mapInfo)|
    ensures var b := TriedStage(env, s, collisions, |TriedOrder(s.mapInfo)|).mapInfo;
            j in b && b[j] == FromRecord(ToRecord(s.mapInfo[NewOrder(s.mapInfo)[j]]), j)
  {
    hide NewOrder, TriedOrder, Check, FromRecord, ToRecord;
    var n := |NewOrder(s.mapInfo)|;
    LoadedFacts(s.mapInfo, NewOrder(s.mapInfo), n, map[], 0, false);
    LoadedFacts(s.mapInfo, TriedOrder(s.mapInfo), |TriedOrder(s.mapInfo)|, NewStage(s, collisions, n).mapInfo, n, true);
    NotTried(ToRecord(s.mapInfo[NewOrder(s.mapInfo)[j]]), j);
  }

  lemma NotTried(r: Record, pos: int)
    ensures FromRecord(r, pos).(fInTried := false) == FromRecord(r, pos)
  {
  }

  /** Loading the index of a slot restores the reference that the slot held. */
  lemma IndexStep(env: Env, f: Format, s: State, collisions: set<int>, r: State, done: set<Slot>, x: Slot)
    requires Inv(env, s) && Usable(f) && Known(s.mapInfo, NewOrder(s.mapInfo)) && Known(s.mapInfo, TriedOrder(s.mapInfo))
    requires Filled(s, TriedStage(env, s, collisions, |TriedOrder(s.mapInfo)|), r, done)
    requires x in s.newTab && x !in done
    ensures Filled(s, TriedStage(env, s, collisions, |TriedOrder(s.mapInfo)|),
                   WithIndex(env, f, r, x.bucket, Rank(NewOrder(s.mapInfo), s.newTab[x])), done + {x})
  {
    hide Check, NewOrder, TriedOrder, RefsIn, FilledRefs, FilledTable, Distinct, SlotsOf, Rank, TriedStage;
    var o := NewOrder(s.mapInfo);
    SlotEntry(env, s, x);
    RankOf(o, s.newTab[x]);
    var j := Rank(o, s.newTab[x]);
    BaseEntry(env, s, collisions, j);
    EntryIs(s, TriedStage(env, s, collisions, |TriedOrder(s.mapInfo)|).mapInfo, r.mapInfo, done, j);
    RefsBelow(s, j, done, x);
    TableFill(s, r.newTab, done, x);
    RefsFill(s, TriedStage(env, s, collisions, |TriedOrder(s.mapInfo)|).mapInfo, r.mapInfo, done, x, j);
    StageCounts(env, s, collisions);
  }

  lemma StageCounts(env: Env, s: State, collisions: set<int>)
    requires Known(s.mapInfo, NewOrder(s.mapInfo)) && Known(s.mapInfo, TriedOrder(s.mapInfo))
    ensures TriedStage(env, s, collisions, |TriedOrder(s.mapInfo)|).nNew == s.nNew
    ensures TriedStage(env, s, collisions, |TriedOrder(s.mapInfo)|).newTab == map[]
  {
  }

  lemma EntryIs(s: State, base: Infos, m: Infos, done: set<Slot>, j: nat)
    requires FilledRefs(s, base, m, done) && j < |NewOrder(s.mapInfo)|
    ensures j in m && j in base && m[j] == base[j].(nRefCount := RefsIn(s, j, done))
  {
  }

  lemma TableFill(s: State, t: Table, done: set<Slot>, x: Slot)
    requires FilledTable(s, t, done) && x in s.newTab && x !in done
    ensures x !in t && FilledTable(s, t[x := Rank(NewOrder(s.mapInfo), s.newTab[x])], done + {x})
  {
    hide NewOrder, Rank;
  }

  /** The state with all entries loaded and no references yet. */
  function Entries(env: Env, s: State, collisions: set<int>): State
    requires Known(s.mapInfo, NewOrder(s.mapInfo)) && Known(s.mapInfo, TriedOrder(s.mapInfo))
  {
    TriedStage(env, s, collisions, |TriedOrder(s.mapInfo)|)
  }

  lemma DoneStep(env: Env, t: Table, m: Infos, b: int, i: nat)
    requires i < BUCKET_SIZE
    ensures Slot(b, i) in t ==> Done(t, b, i + 1) == Done(t, b, i) + {Slot(b, i)} && Slot(b, i) !in Done(t, b, i)
    ensures Slot(b, i) !in t ==> Done(t, b, i + 1) == Done(t, b, i)
  {
    forall x | x in Done(t, b, i + 1) ensures x in Done(t, b, i) || x == Slot(b, i) {
    }
  }

  lemma DoneBounds(env: Env, m: Infos, t: Table, b: int)
    requires NewOk(env, m, t)
    ensures Done(t, b, BUCKET_SIZE) == Done(t, b + 1, 0) && Done(t, 0, 0) == {} && Done(t, NEW_BUCKETS, 0) == t.Keys
  {
    assert forall x :: x in t ==> 0 <= x.bucket < NEW_BUCKETS && 0 <= x.pos < BUCKET_SIZE;
  }

  /** Loading the rest of a bucket restores its references. */
  lemma {:induction false} BucketIs(env: Env, f: Format, s: State, collisions: set<int>, r: State, b: int, i: nat, rest: seq<Token>)
    returns (r': State)
    requires Inv(env, s) && Usable(f) && Known(s.mapInfo, NewOrder(s.mapInfo)) && Known(s.mapInfo, TriedOrder(s.mapInfo))
    requires i <= BUCKET_SIZE && Filled(s, Entries(env, s, collisions), r, Done(s.newTab, b, i))
    ensures Filled(s, Entries(env, s, collisions), r', Done(s.newTab, b, BUCKET_SIZE))
    ensures var toks := BucketFrom(s.newTab, NewOrder(s.mapInfo), b, i);
            LoadBucket(env, f, r, b, |toks|, toks + rest) == Some((r', rest))
    decreases BUCKET_SIZE - i
  {
    hide Check, NewOrder, TriedOrder, Filled, Done, Rank, TriedStage, WithIndex;
    var o := NewOrder(s.mapInfo);
    var toks := BucketFrom(s.newTab, o, b, i);
    if i == BUCKET_SIZE {
      r' := r;
      assert toks + rest == rest;
    } else {
      DoneStep(env, s.newTab, s.mapInfo, b, i);
      var tail := BucketFrom(s.newTab, o, b, i + 1);
      if Slot(b, i) in s.newTab {
        var x := Slot(b, i);
        IndexStep(env, f, s, collisions, r, Done(s.newTab, b, i), x);
        var r1 := WithIndex(env, f, r, b, Rank(o, s.newTab[x]));
        r' := BucketIs(env, f, s, collisions, r1, b, i + 1, rest);
        assert toks + rest == [Num(Rank(o, s.newTab[x]))] + (tail + rest);
      } else {
        r' := BucketIs(env, f, s, collisions, r, b, i + 1, rest);
        assert toks == tail;
      }
    }
  }

  lemma NoBuckets(env: Env, f: Format, r: State, t: Table, o: seq<int>)
    requires Usable(f)
    ensures LoadBuckets(env, f, r, NEW_BUCKETS, BucketsFrom(t, o, NEW_BUCKETS)) == Some((r, []))
  {
  }

  lemma OneBucket(env: Env, f: Format, r: State, t: Table, o: seq<int>, b: nat)
    requires Usable(f) && b < NEW_BUCKETS
    ensures var toks, rest := BucketFrom(t, o, b, 0), BucketsFrom(t, o, b + 1);
            var one := LoadBucket(env, f, r, b, |toks|, toks + rest);
            LoadBuckets(env, f, r, b, BucketsFrom(t, o, b)) == if one.None? then None else LoadBuckets(env, f, one.value.0, b + 1, one.value.1)
  {
    hide LoadBucket, BucketFrom;
    var toks, rest := BucketFrom(t, o, b, 0), BucketsFrom(t, o, b + 1);
    var all := BucketsFrom(t, o, b);
    assert all == [Num(|toks|)] + (toks + rest);
    assert all[1..] == toks + rest;
  }

  lemma {:induction false} BucketsAre(env: Env, f: Format, s: State, collisions: set<int>, r: State, b: nat) returns (r': State)
    requires Inv(env, s) && Usable(f) && Known(s.mapInfo, NewOrder(s.mapInfo)) && Known(s.mapInfo, TriedOrder(s.mapInfo))
    requires b <= NEW_BUCKETS && Filled(s, Entries(env, s, collisions), r, Done(s.newTab, b, 0))
    ensures Filled(s, Entries(env, s, collisions), r', s.newTab.Keys)
    ensures LoadBuckets(env, f, r, b, BucketsFrom(s.newTab, NewOrder(s.mapInfo), b)) == Some((r', []))
    decreases NEW_BUCKETS - b
  {
    hide Check, NewOrder, TriedOrder, Filled, Done, TriedStage, LoadBucket, BucketFrom, LoadBuckets, BucketsFrom;
    var o := NewOrder(s.mapInfo);
    NewIsOk(env, s);
    DoneBounds(env, s.mapInfo, s.newTab, b);
    if b == NEW_BUCKETS {
      r' := r;
      NoBuckets(env, f, r, s.newTab, o);
    } else {
      var toks, rest := BucketFrom(s.newTab, o, b, 0), BucketsFrom(s.newTab, o, b + 1);
      var r1 := BucketIs(env, f, s, collisions, r, b, 0, rest);
      r' := BucketsAre(env, f, s, collisions, r1, b + 1);
      OneBucket(env, f, r, s.newTab, o, b);
    }
  }

  lemma NewIsOk(env: Env, s: State)
    requires Inv(env, s)
    ensures NewOk(env, s.mapInfo, s.newTab)
  {
  }

  lemma {:induction false} PruneNone(s: State, ids: set<int>)
    requires forall id :: id in ids && id in s.mapInfo ==> s.mapInfo[id].fInTried || s.mapInfo[id].nRefCount != 0
    ensures Prune(s, ids) == Some(s)
    decreases |ids|
  {
    if ids != {} {
      PruneNone(s, ids - {Smallest(ids)});
    }
  }

  // ---------------------------------------------------------------- the round trip

  /** The id an entry gets by saving and loading: first the new ids in their order, then the tried ones. */
  function Renamed(m: Infos, id: int): nat {
    if id in m && m[id].fInTried then |NewOrder(m)| + Rank(TriedOrder(m), id) else Rank(NewOrder(m), id)
  }

  /** An entry with the fields that live in memory only reset. */
  function Reset(i: Info, pos: int): Info { i.(nLastTry := 0, nLastCountAttempt := 0, nRandomPos := pos) }

  ghost predicate SameTable(m: Infos, t: Table, u: Table) {
    u.Keys == t.Keys && forall x :: x in t ==> u[x] == Renamed(m, t[x])
  }

  /** `r` is `s` up to the renaming of ids and the memory-only fields: same entries, address index, tables,
      reference counts and counters. */
  ghost predicate Restores(s: State, r: State) {
    && r.nNew == s.nNew && r.nTried == s.nTried && r.nIdCount == s.nNew + s.nTried
    && (forall id :: id in r.mapInfo <==> 0 <= id < r.nIdCount) && r.nIdCount >= 0 && r.vRandom == Upto(r.nIdCount)
    && (forall id :: id in s.mapInfo ==>
          Renamed(s.mapInfo, id) in r.mapInfo && r.mapInfo[Renamed(s.mapInfo, id)] == Reset(s.mapInfo[id], Renamed(s.mapInfo, id)))
    && r.mapAddr.Keys == s.mapAddr.Keys
    && (forall ip :: ip in s.mapAddr ==> r.mapAddr[ip] == Renamed(s.mapInfo, s.mapAddr[ip]))
    && SameTable(s.mapInfo, s.newTab, r.newTab) && SameTable(s.mapInfo, s.tried, r.tried)
  }

  lemma KnownOrders(m: Infos)
    ensures Known(m, NewOrder(m)) && Known(m, TriedOrder(m))
  {
    hide NewOrder, TriedOrder;
    OrderFacts(m);
  }

  /** Loading what was saved succeeds and gives the filled state. */
  lemma LoadIs(envOf: int -> Env, key: int, s: State, collisions: set<int>) returns (r: State)
    requires Inv(envOf(key), s)
    ensures Known(s.mapInfo, NewOrder(s.mapInfo)) && Known(s.mapInfo, TriedOrder(s.mapInfo))
    ensures Filled(s, Entries(envOf(key), s, collisions), r, s.newTab.Keys)
    ensures Load(envOf, collisions, Dump(key, s)) ==
              if Prune(r, r.mapInfo.Keys).Some? then Some((key, Prune(r, r.mapInfo.Keys).value)) else None
  {
    hide Check, NewOrder, TriedOrder, Filled, Records, BucketsFrom, LoadNew, LoadTried, LoadBuckets, Prune, Known, Loaded, Addrs, Slots;
    var env, f := envOf(key), Format(CURRENT_VERSION, NEW_BUCKETS);
    KnownOrders(s.mapInfo);
    OrdersOk(env, s);
    var news, trieds := Records(s.mapInfo, NewOrder(s.mapInfo)), Records(s.mapInfo, TriedOrder(s.mapInfo));
    var buckets := BucketsFrom(s.newTab, NewOrder(s.mapInfo), 0);
    var toks := Dump(key, s);
    assert toks[6..] == news[0..] + (trieds + buckets);
    assert trieds[0..] + buckets == trieds + buckets;
    LoadNewIs(env, f, s, collisions, 0, trieds + buckets);
    LoadTriedIs(env, s, collisions, 0, buckets);
    StartStages(env, s, collisions);
    StartFilled(env, s, collisions);
    r := BucketsAre(env, f, s, collisions, Entries(env, s, collisions), 0);
  }

  lemma StartStages(env: Env, s: State, collisions: set<int>)
    requires Known(s.mapInfo, NewOrder(s.mapInfo)) && Known(s.mapInfo, TriedOrder(s.mapInfo)) && |NewOrder(s.mapInfo)| == s.nNew
    ensures NewStage(s, collisions, 0) == State(0, map[], map[], [], s.nTried, map[], s.nNew, map[], 1, collisions)
    ensures NewStage(s, collisions, s.nNew).(nIdCount := s.nNew) == TriedStage(env, s, collisions, 0)
  {
    hide NewOrder, TriedOrder;
    assert Upto(0) == [];
  }

  lemma StartFilled(env: Env, s: State, collisions: set<int>)
    requires Inv(env, s) && Known(s.mapInfo, NewOrder(s.mapInfo)) && Known(s.mapInfo, TriedOrder(s.mapInfo))
    ensures Filled(s, Entries(env, s, collisions), Entries(env, s, collisions), Done(s.newTab, 0, 0))
  {
    hide Check, NewOrder, TriedOrder, TriedStage, FromRecord, ToRecord;
    NewIsOk(env, s);
    DoneBounds(env, s.mapInfo, s.newTab, 0);
    StageCounts(env, s, collisions);
    forall j | 0 <= j < |NewOrder(s.mapInfo)|
      ensures var b := Entries(env, s, collisions).mapInfo; j in b && b[j] == b[j].(nRefCount := RefsIn(s, j, {}))
    {
      BaseEntry(env, s, collisions, j);
      NoRefs(ToRecord(s.mapInfo[NewOrder(s.mapInfo)[j]]), j);
      assert SlotsOf(s.newTab, NewOrder(s.mapInfo)[j]) * {} == {};
    }
  }

  lemma NoRefs(r: Record, pos: int)
    ensures FromRecord(r, pos).(nRefCount := 0) == FromRecord(r, pos)
  {
  }

  /** The id that a loaded entry had when it was saved. */
  function Original(m: Infos, j: nat): int
    requires j < |NewOrder(m)| + |TriedOrder(m)|
  {
    if j < |NewOrder(m)| then NewOrder(m)[j] else TriedOrder(m)[j - |NewOrder(m)|]
  }

  /** Renaming is a bijection between the saved and the loaded ids. */
  lemma RenamedBack(env: Env, s: State, j: nat)
    requires Inv(env, s) && j < s.nNew + s.nTried
    ensures |NewOrder(s.mapInfo)| == s.nNew && |TriedOrder(s.mapInfo)| == s.nTried
    ensures Original(s.mapInfo, j) in s.mapInfo && Renamed(s.mapInfo, Original(s.mapInfo, j)) == j
    ensures s.mapInfo[Original(s.mapInfo, j)].fInTried <==> j >= s.nNew
  {
    hide Check, NewOrder, TriedOrder, Distinct, Rank;
    OrdersOk(env, s);
    if j < s.nNew { RankIs(NewOrder(s.mapInfo), j); } else { RankIs(TriedOrder(s.mapInfo), j - s.nNew); }
  }

  lemma RenamedBounds(env: Env, s: State, id: int)
    requires Inv(env, s) && id in s.mapInfo
    ensures |NewOrder(s.mapInfo)| == s.nNew && |TriedOrder(s.mapInfo)| == s.nTried
    ensures Renamed(s.mapInfo, id) < s.nNew + s.nTried && Original(s.mapInfo, Renamed(s.mapInfo, id)) == id
    ensures Renamed(s.mapInfo, id) < s.nNew <==> !s.mapInfo[id].fInTried
  {
    hide Check, NewOrder, TriedOrder, Distinct, Rank;
    OrdersOk(env, s);
    if s.mapInfo[id].fInTried { RankOf(TriedOrder(s.mapInfo), id); } else { RankOf(NewOrder(s.mapInfo), id); }
  }

  lemma TriedEntry(env: Env, s: State, collisions: set<int>, k: nat)
    requires Known(s.mapInfo, NewOrder(s.mapInfo)) && Known(s.mapInfo, TriedOrder(s.mapInfo)) && k < |TriedOrder(s.mapInfo)|
    ensures var (b, n) := (Entries(env, s, collisions).mapInfo, |NewOrder(s.mapInfo)|);
            n + k in b && b[n + k] == FromRecord(ToRecord(s.mapInfo[TriedOrder(s.mapInfo)[k]]), n + k).(fInTried := true)
  {
    hide NewOrder, TriedOrder, FromRecord, ToRecord;
    var n := |NewOrder(s.mapInfo)|;
    LoadedFacts(s.mapInfo, NewOrder(s.mapInfo), n, map[], 0, false);
    LoadedFacts(s.mapInfo, TriedOrder(s.mapInfo), |TriedOrder(s.mapInfo)|, NewStage(s, collisions, n).mapInfo, n, true);
  }

  lemma EntryKeys(env: Env, s: State, collisions: set<int>)
    requires Known(s.mapInfo, NewOrder(s.mapInfo)) && Known(s.mapInfo, TriedOrder(s.mapInfo))
    ensures forall id :: id in Entries(env, s, collisions).mapInfo <==> 0 <= id < |NewOrder(s.mapInfo)| + |TriedOrder(s.mapInfo)|
  {
    hide NewOrder, TriedOrder, FromRecord, ToRecord;
    var n := |NewOrder(s.mapInfo)|;
    LoadedFacts(s.mapInfo, NewOrder(s.mapInfo), n, map[], 0, false);
    LoadedFacts(s.mapInfo, TriedOrder(s.mapInfo), |TriedOrder(s.mapInfo)|, NewStage(s, collisions, n).mapInfo, n, true);
  }

  lemma RefCountIs(env: Env, s: State, id: int)
    requires Inv(env, s) && id in s.mapInfo
    ensures s.mapInfo[id].nRefCount == |SlotsOf(s.newTab, id)| && (s.mapInfo[id].nRefCount == 0 <==> s.mapInfo[id].fInTried)
  {
    hide IdsOk, RandomOk, AddrOk, NewOk, TriedOk, CountsOk;
  }

  lemma ResetNew(i: Info, pos: int)
    requires !i.fInTried
    ensures FromRecord(ToRecord(i), pos).(nRefCount := i.nRefCount) == Reset(i, pos)
  {
  }

  lemma ResetTried(i: Info, pos: int)
    requires i.fInTried && i.nRefCount == 0
    ensures FromRecord(ToRecord(i), pos).(fInTried := true) == Reset(i, pos)
  {
  }

  lemma LoadedNewEntry(env: Env, s: State, collisions: set<int>, m: Infos, j: nat)
    requires Inv(env, s) && Known(s.mapInfo, NewOrder(s.mapInfo)) && Known(s.mapInfo, TriedOrder(s.mapInfo))
    requires FilledRefs(s, Entries(env, s, collisions).mapInfo, m, s.newTab.Keys) && j < |NewOrder(s.mapInfo)|
    requires !s.mapInfo[NewOrder(s.mapInfo)[j]].fInTried
    ensures j in m && m[j] == Reset(s.mapInfo[NewOrder(s.mapInfo)[j]], j)
  {
    hide Check, NewOrder, TriedOrder, TriedStage, FromRecord, ToRecord, SlotsOf, Reset, FilledRefs;
    var id := NewOrder(s.mapInfo)[j];
    RefCountIs(env, s, id);
    BaseEntry(env, s, collisions, j);
    EntryIs(s, Entries(env, s, collisions).mapInfo, m, s.newTab.Keys, j);
    AllSlots(s.newTab, id);
    ResetNew(s.mapInfo[id], j);
  }

  lemma LoadedTriedEntry(env: Env, s: State, collisions: set<int>, m: Infos, k: nat, id: int)
    requires Known(s.mapInfo, NewOrder(s.mapInfo)) && Known(s.mapInfo, TriedOrder(s.mapInfo))
    requires k < |TriedOrder(s.mapInfo)| && id == TriedOrder(s.mapInfo)[k] && id in s.mapInfo
    requires s.mapInfo[id].fInTried && s.mapInfo[id].nRefCount == 0
    requires FilledRefs(s, Entries(env, s, collisions).mapInfo, m, s.newTab.Keys)
    ensures var j := |NewOrder(s.mapInfo)| + k; j in m && m[j] == Reset(s.mapInfo[id], j)
  {
    hide Check, NewOrder, TriedOrder, TriedStage, FromRecord, ToRecord, SlotsOf, Reset, RefsIn;
    var j := |NewOrder(s.mapInfo)| + k;
    TriedEntry(env, s, collisions, k);
    assert j in m.Keys;
    ResetTried(s.mapInfo[id], j);
  }

  /** Every loaded entry is the saved one, reference count included. */
  lemma LoadedEntry(env: Env, s: State, collisions: set<int>, r: State, j: nat)
    requires Inv(env, s) && Known(s.mapInfo, NewOrder(s.mapInfo)) && Known(s.mapInfo, TriedOrder(s.mapInfo))
    requires FilledRefs(s, Entries(env, s, collisions).mapInfo, r.mapInfo, s.newTab.Keys) && j < s.nNew + s.nTried
    ensures |NewOrder(s.mapInfo)| == s.nNew && |TriedOrder(s.mapInfo)| == s.nTried
    ensures j in r.mapInfo && Original(s.mapInfo, j) in s.mapInfo && r.mapInfo[j] == Reset(s.mapInfo[Original(s.mapInfo, j)], j)
  {
    hide Check, NewOrder, TriedOrder, TriedStage, FromRecord, ToRecord, SlotsOf, Renamed, Reset, FilledRefs, Entries;
    RenamedBack(env, s, j);
    if j < s.nNew {
      LoadedNewEntry(env, s, collisions, r.mapInfo, j);
    } else {
      var id := TriedOrder(s.mapInfo)[j - s.nNew];
      RefCountIs(env, s, id);
      LoadedTriedEntry(env, s, collisions, r.mapInfo, j - s.nNew, id);
    }
  }

  lemma AllSlots(t: Table, id: int)
    ensures SlotsOf(t, id) * t.Keys == SlotsOf(t, id)
  {
  }

  lemma AddrsDistinct(env: Env, s: State)
    requires Inv(env, s) && Known(s.mapInfo, NewOrder(s.mapInfo)) && Known(s.mapInfo, TriedOrder(s.mapInfo))
    ensures var (m, o, t) := (s.mapInfo, NewOrder(s.mapInfo), TriedOrder(s.mapInfo));
            && (forall i, j :: 0 <= i < j < |o| ==> m[o[i]].service.ip != m[o[j]].service.ip)
            && (forall i, j :: 0 <= i < j < |t| ==> m[t[i]].service.ip != m[t[j]].service.ip)
            && (forall i, j :: 0 <= i < |o| && 0 <= j < |t| ==> m[o[i]].service.ip != m[t[j]].service.ip)
  {
    hide NewOrder, TriedOrder, IdsOk, RandomOk, NewOk, TriedOk, RefsOk, CountsOk, AddrOk;
    OrdersOk(env, s);
    forall x, y | x in s.mapInfo && y in s.mapInfo && x != y ensures s.mapInfo[x].service.ip != s.mapInfo[y].service.ip {
      IpIn(s.mapInfo, s.mapAddr, x);
      IpIn(s.mapInfo, s.mapAddr, y);
    }
  }

  /** The loaded address index is the saved one, renamed. */
  lemma LoadedAddrs(env: Env, s: State, collisions: set<int>)
    requires Inv(env, s) && Known(s.mapInfo, NewOrder(s.mapInfo)) && Known(s.mapInfo, TriedOrder(s.mapInfo))
    ensures var a := Entries(env, s, collisions).mapAddr;
            && a.Keys == s.mapAddr.Keys
            && forall ip :: ip in s.mapAddr ==> a[ip] == Renamed(s.mapInfo, s.mapAddr[ip])
  {
    hide NewOrder, TriedOrder, Check, Addrs, Loaded, Slots, Ips, Renamed;
    var (m, o, t) := (s.mapInfo, NewOrder(s.mapInfo), TriedOrder(s.mapInfo));
    var n := |o|;
    var base := Addrs(m, o, n, map[], 0);
    var a := Addrs(m, t, |t|, base, n);
    AddrsDistinct(env, s);
    AddrsFacts(m, o, n, map[], 0);
    AddrsKeys(m, o, n, map[], 0);
    NotInBase(m, o, t, base);
    AddrsFacts(m, t, |t|, base, n);
    AddrsKeys(m, t, |t|, base, n);
    forall ip | ip in s.mapAddr ensures ip in a && a[ip] == Renamed(m, s.mapAddr[ip]) {
      AddrOfIp(env, s, ip);
      RenamedBounds(env, s, s.mapAddr[ip]);
      OriginalIs(m, s.mapAddr[ip]);
    }
    forall ip | ip in a ensures ip in s.mapAddr {
      IpsKnown(env, s, o, n, ip);
      IpsKnown(env, s, t, |t|, ip);
    }
  }

  lemma NotInBase(m: Infos, o: seq<int>, t: seq<int>, base: map<NetAddr, int>)
    requires Known(m, o) && Known(m, t) && base.Keys == {} + Ips(m, o, |o|)
    requires forall i, j :: 0 <= i < |o| && 0 <= j < |t| ==> m[o[i]].service.ip != m[t[j]].service.ip
    ensures forall i :: 0 <= i < |t| ==> m[t[i]].service.ip !in base
  {
  }

  lemma AddrOfIp(env: Env, s: State, ip: NetAddr)
    requires Inv(env, s) && ip in s.mapAddr
    ensures s.mapAddr[ip] in s.mapInfo && s.mapInfo[s.mapAddr[ip]].service.ip == ip
  {
    hide IdsOk, RandomOk, NewOk, TriedOk, RefsOk, CountsOk;
  }

  lemma IpsKnown(env: Env, s: State, order: seq<int>, k: nat, ip: NetAddr)
    requires Inv(env, s) && Known(s.mapInfo, order) && k <= |order|
    ensures ip in Ips(s.mapInfo, order, k) ==> ip in s.mapAddr
  {
    hide IdsOk, RandomOk, NewOk, TriedOk, RefsOk, CountsOk;
    if ip in Ips(s.mapInfo, order, k) {
      var j :| 0 <= j < k && s.mapInfo[order[j]].service.ip == ip;
      IpIn(s.mapInfo, s.mapAddr, order[j]);
    }
  }

  lemma IpIn(m: Infos, a: map<NetAddr, int>, id: int)
    requires AddrOk(m, a) && id in m
    ensures m[id].service.ip in a && a[m[id].service.ip] == id
  {
  }

  /** Where an id is found in the saved orders. */
  lemma OriginalIs(m: Infos, id: int)
    requires id in m && Renamed(m, id) < |NewOrder(m)| + |TriedOrder(m)| && Original(m, Renamed(m, id)) == id
    ensures var j := Renamed(m, id);
            if j < |NewOrder(m)| then NewOrder(m)[j] == id else TriedOrder(m)[j - |NewOrder(m)|] == id
  {
  }

  /** The loaded tried table is the saved one, renamed. */
  lemma LoadedTried(env: Env, s: State, collisions: set<int>)
    requires Inv(env, s) && Known(s.mapInfo, NewOrder(s.mapInfo)) && Known(s.mapInfo, TriedOrder(s.mapInfo))
    ensures SameTable(s.mapInfo, s.tried, Entries(env, s, collisions).tried)
  {
    hide NewOrder, TriedOrder, Check, Addrs, Loaded, Slots, TriedSlot, Renamed;
    var (m, t) := (s.mapInfo, TriedOrder(s.mapInfo));
    var n := |NewOrder(m)|;
    var u := Slots(env, m, t, |t|, n);
    TriedDistinct(env, s);
    SlotsFacts(env, m, t, |t|, n);
    forall x | x in s.tried ensures x in u && u[x] == Renamed(m, s.tried[x]) {
      TriedAt(env, s, x);
      RenamedBounds(env, s, s.tried[x]);
      OriginalIs(m, s.tried[x]);
    }
    forall x | x in u ensures x in s.tried {
      var j := SlotOwner(env, m, t, |t|, n, x);
      OrdersOk(env, s);
      TriedHas(env, s, t[j]);
    }
  }

  lemma SlotOwner(env: Env, m: Infos, order: seq<int>, k: nat, offset: nat, x: Slot) returns (j: nat)
    requires Known(m, order) && k <= |order| && x in Slots(env, m, order, k, offset)
    ensures j < k && TriedSlot(env, m[order[j]].service) == x
  {
    if x == TriedSlot(env, m[order[k - 1]].service) {
      j := k - 1;
    } else {
      j := SlotOwner(env, m, order, k - 1, offset, x);
    }
  }

  lemma TriedAt(env: Env, s: State, x: Slot)
    requires Inv(env, s) && x in s.tried
    ensures s.tried[x] in s.mapInfo && s.mapInfo[s.tried[x]].fInTried && x == TriedSlot(env, s.mapInfo[s.tried[x]].service)
  {
    hide IdsOk, RandomOk, AddrOk, NewOk, RefsOk, CountsOk;
  }

  lemma TriedHas(env: Env, s: State, id: int)
    requires Inv(env, s) && id in s.mapInfo && s.mapInfo[id].fInTried
    ensures TriedSlot(env, s.mapInfo[id].service) in s.tried
  {
    hide IdsOk, RandomOk, AddrOk, NewOk, RefsOk, CountsOk;
  }

  lemma LoadedTable(env: Env, s: State, t: Table)
    requires Inv(env, s) && FilledTable(s, t, s.newTab.Keys)
    ensures SameTable(s.mapInfo, s.newTab, t)
  {
    hide NewOrder, IdsOk, RandomOk, AddrOk, TriedOk, RefsOk, CountsOk, Rank;
  }

  /** Nothing is left in no table, so nothing is pruned. */
  lemma NothingPruned(env: Env, s: State, collisions: set<int>, r: State)
    requires Inv(env, s) && Known(s.mapInfo, NewOrder(s.mapInfo)) && Known(s.mapInfo, TriedOrder(s.mapInfo))
    requires FilledRefs(s, Entries(env, s, collisions).mapInfo, r.mapInfo, s.newTab.Keys)
    ensures Prune(r, r.mapInfo.Keys) == Some(r)
    ensures forall id :: id in r.mapInfo <==> 0 <= id < s.nNew + s.nTried
  {
    hide Check, NewOrder, TriedOrder, TriedStage, Original, FilledRefs;
    OrdersOk(env, s);
    FilledKeys(env, s, collisions, r.mapInfo);
    forall j | j in r.mapInfo ensures r.mapInfo[j].fInTried || r.mapInfo[j].nRefCount != 0 {
      LoadedEntry(env, s, collisions, r, j);
      RefCountIs(env, s, Original(s.mapInfo, j));
    }
    PruneNone(r, r.mapInfo.Keys);
  }

  lemma FilledKeys(env: Env, s: State, collisions: set<int>, m: Infos)
    requires Known(s.mapInfo, NewOrder(s.mapInfo)) && Known(s.mapInfo, TriedOrder(s.mapInfo))
    requires FilledRefs(s, Entries(env, s, collisions).mapInfo, m, s.newTab.Keys)
    ensures forall id :: id in m <==> 0 <= id < |NewOrder(s.mapInfo)| + |TriedOrder(s.mapInfo)|
  {
    hide NewOrder, TriedOrder, TriedStage;
    EntryKeys(env, s, collisions);
    assert forall id :: id in m <==> id in Entries(env, s, collisions).mapInfo;
  }

  /** Loading a saved manager restores it: the load succeeds under the same key, no address is lost, and the result
      is the saved state up to the renaming of ids and the memory-only fields. */
  lemma RoundTrip(envOf: int -> Env, key: int, s: State, collisions: set<int>)
    requires Inv(envOf(key), s)
    ensures Load(envOf, collisions, Dump(key, s)).Some?
    ensures var (k, r) := Load(envOf, collisions, Dump(key, s)).value;
            k == key && Restores(s, r) && r.nLastGood == 1 && r.collisions == collisions
  {
    hide Check, NewOrder, TriedOrder, Load, Dump, Loaded, Addrs, Slots, FilledRefs, FilledTable, Known, Renamed, SameTable, Prune, Reset;
    var env := envOf(key);
    var r := LoadIs(envOf, key, s, collisions);
    OrdersOk(env, s);
    NothingPruned(env, s, collisions, r);
    LoadedAddrs(env, s, collisions);
    LoadedTried(env, s, collisions);
    LoadedTable(env, s, r.newTab);
    forall id | id in s.mapInfo
      ensures Renamed(s.mapInfo, id) in r.mapInfo && r.mapInfo[Renamed(s.mapInfo, id)] == Reset(s.mapInfo[id], Renamed(s.mapInfo, id))
    {
      RenamedBounds(env, s, id);
      LoadedEntry(env, s, collisions, r, Renamed(s.mapInfo, id));
    }
  }

  // ---------------------------------------------------------------- the loaded manager passes the check

  /** Every loaded id is the renaming of a saved one. */
  ghost predicate Onto(m: Infos, n: Infos) { forall j :: j in n ==> exists id :: id in m && Renamed(m, id) == j }

  ghost predicate OneToOne(m: Infos) {
    forall x, y :: x in m && y in m && Renamed(m, x) == Renamed(m, y) ==> x == y
  }

  lemma RenamedIsBijection(env: Env, s: State, r: State)
    requires Inv(env, s) && Restores(s, r)
    ensures OneToOne(s.mapInfo) && Onto(s.mapInfo, r.mapInfo)
  {
    hide Check, NewOrder, TriedOrder, Renamed, Original, SameTable, Reset;
    OrdersOk(env, s);
    forall x, y | x in s.mapInfo && y in s.mapInfo && Renamed(s.mapInfo, x) == Renamed(s.mapInfo, y) ensures x == y {
      RenamedBounds(env, s, x);
      RenamedBounds(env, s, y);
    }
    forall j | j in r.mapInfo ensures exists id :: id in s.mapInfo && Renamed(s.mapInfo, id) == j {
      RenamedBack(env, s, j);
    }
  }

  /** The entries of `n` are those of `m`, renamed and reset. */
  ghost predicate Image(m: Infos, n: Infos) {
    && OneToOne(m) && Onto(m, n)
    && forall id :: id in m ==> Renamed(m, id) in n && n[Renamed(m, id)] == Reset(m[id], Renamed(m, id))
  }

  lemma AddrImage(m: Infos, n: Infos, a: map<NetAddr, int>, b: map<NetAddr, int>)
    requires AddrOk(m, a) && Image(m, n) && b.Keys == a.Keys && forall ip :: ip in a ==> b[ip] == Renamed(m, a[ip])
    ensures AddrOk(n, b)
  {
    hide Renamed;
    forall j | j in n ensures n[j].service.ip in b && b[n[j].service.ip] == j {
      var id :| id in m && Renamed(m, id) == j;
    }
  }

  lemma NewImage(env: Env, m: Infos, n: Infos, t: Table, u: Table)
    requires NewOk(env, m, t) && Image(m, n) && SameTable(m, t, u)
    ensures NewOk(env, n, u)
  {
    hide Renamed;
  }

  lemma TriedImage(env: Env, m: Infos, n: Infos, t: Table, u: Table)
    requires TriedOk(env, m, t) && Image(m, n) && SameTable(m, t, u)
    ensures TriedOk(env, n, u)
  {
    hide Renamed, TriedSlot;
    forall j | j in n && n[j].fInTried
      ensures TriedSlot(env, n[j].service) in u && u[TriedSlot(env, n[j].service)] == j
    {
      var id :| id in m && Renamed(m, id) == j;
    }
  }

  lemma SlotsImage(m: Infos, t: Table, u: Table, id: int)
    requires OneToOne(m) && SameTable(m, t, u) && id in m && forall x :: x in t ==> t[x] in m
    ensures SlotsOf(u, Renamed(m, id)) == SlotsOf(t, id)
  {
    hide Renamed;
  }

  lemma RefsImage(m: Infos, n: Infos, t: Table, u: Table)
    requires RefsOk(m, t, {}) && Image(m, n) && SameTable(m, t, u) && forall x :: x in t ==> t[x] in m
    ensures RefsOk(n, u, {})
  {
    hide Renamed, SlotsOf, SameTable;
    forall j | j in n
      ensures n[j].nRefCount == |SlotsOf(u, j)| <= MAX_REFS && (n[j].nRefCount == 0 <==> n[j].fInTried)
    {
      var id :| id in m && Renamed(m, id) == j;
      SlotsImage(m, t, u, id);
    }
  }

  function Range(a: int, b: int): (r: set<int>)
    requires a <= b
    ensures |r| == b - a && forall i :: i in r <==> a <= i < b
    decreases b - a
  {
    if a == b then {} else Range(a, b - 1) + {b - 1}
  }

  lemma CountsImage(env: Env, s: State, r: State)
    requires Inv(env, s) && Restores(s, r)
    ensures CountsOk(r.mapInfo, Counts(r.nTried, r.nNew, {}, 0, |r.vRandom|))
  {
    hide Check, NewOrder, TriedOrder, Renamed, SameTable, Original;
    OrdersOk(env, s);
    forall j | j in r.mapInfo ensures r.mapInfo[j].fInTried <==> j >= s.nNew {
      RenamedBack(env, s, j);
      assert r.mapInfo[j] == Reset(s.mapInfo[Original(s.mapInfo, j)], j);
    }
    assert NewIds(r.mapInfo) - {} == Range(0, s.nNew);
    assert TriedIds(r.mapInfo) == Range(s.nNew, s.nNew + s.nTried);
  }

  lemma RandomImage(env: Env, s: State, r: State)
    requires Inv(env, s) && Restores(s, r)
    ensures RandomOk(r.mapInfo, r.vRandom) && IdsOk(r.mapInfo, r.nIdCount)
  {
    hide Check, NewOrder, TriedOrder, Renamed, SameTable, Original;
    forall j | j in r.mapInfo ensures r.mapInfo[j].nRandomPos == j {
      RenamedBack(env, s, j);
      assert r.mapInfo[j] == Reset(s.mapInfo[Original(s.mapInfo, j)], j);
    }
  }

  /** A restored manager passes the consistency check, the clauses about times included. */
  lemma RestoredPasses(env: Env, s: State, r: State)
    requires Inv(env, s) && Restores(s, r)
    ensures Inv(env, r) && (Clocked(s.mapInfo) ==> Clocked(r.mapInfo))
  {
    hide NewOrder, TriedOrder, Renamed, SameTable, Reset, IdsOk, RandomOk, AddrOk, NewOk, TriedOk, RefsOk, CountsOk, OneToOne, Onto, Clocked;
    RenamedIsBijection(env, s, r);
    RandomImage(env, s, r);
    CountsImage(env, s, r);
    AddrImage(s.mapInfo, r.mapInfo, s.mapAddr, r.mapAddr);
    NewImage(env, s.mapInfo, r.mapInfo, s.newTab, r.newTab);
    TriedImage(env, s.mapInfo, r.mapInfo, s.tried, r.tried);
    NewKnown(env, s.mapInfo, s.newTab);
    RefsImage(s.mapInfo, r.mapInfo, s.newTab, r.newTab);
    if Clocked(s.mapInfo) { ClockImage(s.mapInfo, r.mapInfo); }
  }

  lemma NewKnown(env: Env, m: Infos, t: Table)
    requires NewOk(env, m, t)
    ensures forall x :: x in t ==> t[x] in m
  {
  }

  lemma ClockImage(m: Infos, n: Infos)
    requires Clocked(m) && Image(m, n)
    ensures Clocked(n)
  {
    hide Renamed;
    forall j | j in n
      ensures n[j].nLastTry >= 0 && n[j].nLastSuccess >= 0 && (n[j].fInTried ==> n[j].nLastSuccess > 0)
    {
      var id :| id in m && Renamed(m, id) == j;
    }
  }

  // ---------------------------------------------------------------- the loops

  lemma AscendingStep(ids: set<int>, some: set<int>)
    requires ids != {}
    ensures var x := Smallest(ids);
            && (x in some ==> Ascending(some * ids) == [x] + Ascending(some * (ids - {x})))
            && (x !in some ==> some * ids == some * (ids - {x}))
  {
    var x := Smallest(ids);
    if x in some {
      assert x in some * ids;
      assert Smallest(some * ids) == x;
      assert some * ids - {x} == some * (ids - {x});
    }
  }

  /** Writes the entries of the given ids in ascending order. The assertion in the loop is the source's: the number
      written never reaches the counter before another entry is. */
  method WriteEntries(m: Infos, some: set<int>, count: int, toks0: seq<Token>) returns (toks: seq<Token>, ids: map<int, int>)
    requires some <= m.Keys && count == |Ascending(some)|
    ensures Known(m, Ascending(some)) && toks == toks0 + Records(m, Ascending(some))
    ensures forall id :: id in some ==> id in ids && ids[id] == Rank(Ascending(some), id)
  {
    hide Ascending, Rank, Records, Distinct;
    AscendingFacts(some);
    ghost var order := [];
    toks, ids := toks0, map[];
    var nIds: nat := 0;
    var todo := m.Keys;
    assert some * todo == some;
    NoRecords(m);
    while todo != {}
      invariant todo <= m.Keys && nIds == |order| && order + Ascending(some * todo) == Ascending(some)
      invariant Known(m, order) && toks == toks0 + Records(m, order)
      invariant forall id :: id in some && id !in todo ==> id in ids && ids[id] == Rank(Ascending(some), id)
      decreases |todo|
    {
      var id := Smallest(todo);
      AscendingStep(todo, some);
      ids := ids[id := nIds];
      if id in some {
        NextRecord(m, order, id, Ascending(some * (todo - {id})));
        RankIs(Ascending(some), nIds);
        assert nIds != count;
        toks := toks + [Rec(ToRecord(m[id]))];
        order := order + [id];
        nIds := nIds + 1;
      }
      todo := todo - {id};
    }
    EmptyAscending(some);
    assert order == Ascending(some);
  }

  lemma NoRecords(m: Infos)
    ensures Records(m, []) == []
  {
  }

  lemma NextRecord(m: Infos, order: seq<int>, id: int, rest: seq<int>)
    requires Known(m, order) && id in m
    ensures Known(m, order + [id]) && Records(m, order + [id]) == Records(m, order) + [Rec(ToRecord(m[id]))]
    ensures order + ([id] + rest) == order + [id] + rest && (order + ([id] + rest))[|order|] == id
  {
  }

  lemma EmptyAscending(some: set<int>)
    ensures Ascending(some * {}) == []
  {
    assert some * {} == {};
  }

  method WriteBucket(t: Table, ghost order: seq<int>, ids: map<int, int>, b: int) returns (toks: seq<Token>)
    requires forall x :: x in t ==> t[x] in ids && ids[t[x]] == Rank(order, t[x])
    ensures toks == BucketFrom(t, order, b, 0)
  {
    hide BucketFrom, Rank;
    toks := [];
    for i := 0 to BUCKET_SIZE
      invariant toks + BucketFrom(t, order, b, i) == BucketFrom(t, order, b, 0)
    {
      BucketStep(t, order, b, i, toks);
      if Slot(b, i) in t {
        toks := toks + [Num(ids[t[Slot(b, i)]])];
      }
    }
    BucketEnd(t, order, b);
  }

  lemma BucketStep(t: Table, order: seq<int>, b: int, i: nat, toks: seq<Token>)
    requires i < BUCKET_SIZE
    ensures var rest := BucketFrom(t, order, b, i + 1);
            toks + BucketFrom(t, order, b, i) ==
              if Slot(b, i) in t then toks + [Num(Rank(order, t[Slot(b, i)]))] + rest else toks + rest
  {
    hide Rank;
    var rest := BucketFrom(t, order, b, i + 1);
    if Slot(b, i) in t {
      assert toks + ([Num(Rank(order, t[Slot(b, i)]))] + rest) == toks + [Num(Rank(order, t[Slot(b, i)]))] + rest;
    } else {
      assert [] + rest == rest;
    }
  }

  lemma BucketEnd(t: Table, order: seq<int>, b: int)
    ensures BucketFrom(t, order, b, BUCKET_SIZE) == []
  {
  }

  lemma BucketsStep(t: Table, order: seq<int>, b: nat, toks: seq<Token>)
    requires b < NEW_BUCKETS
    ensures var bucket := BucketFrom(t, order, b, 0);
            toks + BucketsFrom(t, order, b) == toks + [Num(|bucket|)] + bucket + BucketsFrom(t, order, b + 1)
  {
    hide BucketFrom;
    var bucket, rest := BucketFrom(t, order, b, 0), BucketsFrom(t, order, b + 1);
    assert toks + ([Num(|bucket|)] + bucket + rest) == toks + [Num(|bucket|)] + bucket + rest;
  }

  lemma BucketsEnd(t: Table, order: seq<int>)
    ensures BucketsFrom(t, order, NEW_BUCKETS) == []
  {
  }

  method Serialize(ghost env: Env, key: int, s: State) returns (toks: seq<Token>)
    requires Inv(env, s)
    ensures toks == Dump(key, s)
  {
    hide Check, BucketFrom, BucketsFrom, Records, Rank, Ascending, Referenced;
    ghost var head := [Num(CURRENT_VERSION), Num(KEY_SIZE), Num(key), Num(s.nNew), Num(s.nTried), Num(Toggle30(NEW_BUCKETS))];
    toks := [Num(CURRENT_VERSION), Num(KEY_SIZE), Num(key), Num(s.nNew), Num(s.nTried), Num(Toggle30(NEW_BUCKETS))];
    ghost var o, o2 := Ascending(Referenced(s.mapInfo)), Ascending(TriedIds(s.mapInfo));
    var ids, ids2;
    ReferencedKnown(s.mapInfo);
    OrdersFit(env, s);
    toks, ids := WriteEntries(s.mapInfo, Referenced(s.mapInfo), s.nNew, toks);
    toks, ids2 := WriteEntries(s.mapInfo, TriedIds(s.mapInfo), s.nTried, toks);
    ghost var sofar := toks;
    NewHaveRanks(env, s);
    RanksKnown(s.newTab, Referenced(s.mapInfo), o, ids);
    for b := 0 to NEW_BUCKETS
      invariant toks + BucketsFrom(s.newTab, o, b) == sofar + BucketsFrom(s.newTab, o, 0)
    {
      BucketsStep(s.newTab, o, b, toks);
      var bucket := WriteBucket(s.newTab, o, ids, b);
      toks := toks + [Num(|bucket|)] + bucket;
    }
    BucketsEnd(s.newTab, o);
    Regroup(head, Records(s.mapInfo, o), Records(s.mapInfo, o2), BucketsFrom(s.newTab, o, 0));
  }

  lemma OrdersFit(env: Env, s: State)
    requires Inv(env, s)
    ensures |Ascending(Referenced(s.mapInfo))| == s.nNew && |Ascending(TriedIds(s.mapInfo))| == s.nTried
  {
    hide Inv, Ascending;
    OrdersOk(env, s);
  }

  lemma Regroup(a: seq<Token>, b: seq<Token>, c: seq<Token>, d: seq<Token>)
    ensures a + b + c + d == a + (b + (c + d))
  {
  }

  lemma ReferencedKnown(m: Infos)
    ensures Referenced(m) <= m.Keys
  {
  }

  lemma RanksKnown(t: Table, some: set<int>, order: seq<int>, ids: map<int, int>)
    requires forall x :: x in t ==> t[x] in some
    requires forall id :: id in some ==> id in ids && ids[id] == Rank(order, id)
    ensures forall x :: x in t ==> t[x] in ids && ids[t[x]] == Rank(order, t[x])
  {
    hide Rank;
    forall x | x in t ensures t[x] in ids && ids[t[x]] == Rank(order, t[x]) {
      var id := t[x];
      assert id in some;
      assert id in ids && ids[id] == Rank(order, id);
    }
  }

  lemma NewHaveRanks(env: Env, s: State)
    requires Inv(env, s)
    ensures forall x :: x in s.newTab ==> s.newTab[x] in Referenced(s.mapInfo)
  {
    hide IdsOk, RandomOk, AddrOk, TriedOk, CountsOk;
    ReferencedAreNew(s.mapInfo, s.newTab);
  }

  method ReadEntries(env: Env, f: Format, s0: State, toks0: seq<Token>) returns (r: Option<(State, seq<Token>)>)
    ensures r == LoadNew(env, f, s0, 0, toks0)
  {
    hide WithNew;
    var s, toks, n := s0, toks0, 0;
    while n < s.nNew
      invariant LoadNew(env, f, s, n, toks) == LoadNew(env, f, s0, 0, toks0)
      decreases s.nNew - n
    {
      if toks == [] || !toks[0].Rec? { return None; }
      s, n, toks := WithNew(env, f, s, n, toks[0].r), n + 1, toks[1..];
    }
    return Some((s, toks));
  }

  method ReadTried(env: Env, s0: State, nTried: int, toks0: seq<Token>) returns (r: Option<(State, seq<Token>)>)
    ensures r == LoadTried(env, s0, nTried, toks0)
  {
    hide WithTried;
    var s, toks, n := s0, toks0, 0;
    while n < nTried
      invariant LoadTried(env, s, nTried - n, toks) == LoadTried(env, s0, nTried, toks0)
    {
      if toks == [] || !toks[0].Rec? { return None; }
      s, n, toks := WithTried(env, s, toks[0].r), n + 1, toks[1..];
    }
    return Some((s, toks));
  }

  method ReadBuckets(env: Env, f: Format, s0: State, toks0: seq<Token>) returns (r: Option<(State, seq<Token>)>)
    ensures r == LoadBuckets(env, f, s0, 0, toks0)
  {
    hide WithIndex;
    var s, toks, b := s0, toks0, 0;
    while b < f.buckets
      invariant LoadBuckets(env, f, s, b, toks) == LoadBuckets(env, f, s0, 0, toks0)
    {
      if toks == [] || !toks[0].Num? { return None; }
      var nSize, n := toks[0].n, 0;
      toks := toks[1..];
      ghost var bucket := LoadBucket(env, f, s, b, nSize, toks);
      while n < nSize
        invariant LoadBucket(env, f, s, b, nSize - n, toks) == bucket
      {
        if toks == [] || !toks[0].Num? { return None; }
        s, n, toks := WithIndex(env, f, s, b, toks[0].n), n + 1, toks[1..];
      }
      b := b + 1;
    }
    return Some((s, toks));
  }

  method PruneLoop(s0: State) returns (r: Option<State>)
    ensures r == Prune(s0, s0.mapInfo.Keys)
  {
    hide CanDelete, Delete;
    var s, todo := s0, s0.mapInfo.Keys;
    while todo != {}
      invariant Prune(s, todo) == Prune(s0, s0.mapInfo.Keys)
      decreases |todo|
    {
      var id := Smallest(todo);
      if id in s.mapInfo && !s.mapInfo[id].fInTried && s.mapInfo[id].nRefCount == 0 {
        if !CanDelete(s, id) { return None; }
        s := Delete(s, id);
      }
      todo := todo - {id};
    }
    return Some(s);
  }

  method Unserialize(envOf: int -> Env, collisions: set<int>, toks: seq<Token>) returns (r: Option<(int, State)>)
    ensures r == Load(envOf, collisions, toks)
  {
    hide LoadNew, LoadTried, LoadBuckets, Prune;
    if |toks| < 6 || (exists i :: 0 <= i < 6 && !toks[i].Num?) || toks[1].n != KEY_SIZE || toks[3].n < 0 { return None; }
    var key, nNew, nTried, nUBuckets := toks[2].n, toks[3].n, toks[4].n, toks[5].n;
    if toks[0].n != 0 { nUBuckets := Toggle30(nUBuckets); }
    var env, f := envOf(key), Format(toks[0].n, nUBuckets);
    var a := ReadEntries(env, f, State(0, map[], map[], [], nTried, map[], nNew, map[], 1, collisions), toks[6..]);
    if a.None? { return None; }
    var b := ReadTried(env, a.value.0.(nIdCount := nNew), nTried, a.value.1);
    if b.None? { return None; }
    var c := ReadBuckets(env, f, b.value.0, b.value.1);
    if c.None? { return None; }
    var d := PruneLoop(c.value.0);
    if d.None? { return None; }
    return Some((key, d.value));
  }
}
