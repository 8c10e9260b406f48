/** The consistency check of the address manager (src/addrman.cpp) as it runs, and what it decides. */
module AddrManCheck {
  import opened Sets
  import opened AddrManModel
  import opened AddrManStream

  /** The index lookup yields 0 for an address it does not know. */
  function Lookup(a: map<NetAddr, int>, ip: NetAddr): int { if ip in a then a[ip] else 0 }

  predicate EntryPasses(s: State, id: int)
    requires id in s.mapInfo
  {
    var i := s.mapInfo[id];
    && (if i.fInTried then i.nLastSuccess != 0 && i.nRefCount == 0 else 1 <= i.nRefCount <= MAX_REFS)
    && Lookup(s.mapAddr, i.service.ip) == id
    && 0 <= i.nRandomPos < |s.vRandom| && s.vRandom[i.nRandomPos] == id
    && i.nLastTry >= 0 && i.nLastSuccess >= 0
  }

  /** Every slot lies in the table. */
  predicate InTable(t: Table, buckets: int) {
    forall x :: x in t ==> 0 <= x.bucket < buckets && 0 <= x.pos < BUCKET_SIZE
  }

  /** Every new slot holds an untried id at its position, and every untried id is in as many slots as it counts. */
  predicate NewPasses(env: Env, m: Infos, t: Table) {
    NewOk(env, m, t) && forall id :: id in m && !m[id].fInTried ==> |SlotsOf(t, id)| == m[id].nRefCount
  }

  /** What the check accepts. */
  ghost predicate Passes(env: Env, s: State, keyIsNull: bool) {
    && |s.vRandom| == s.nTried + s.nNew
    && (forall id :: id in s.mapInfo ==> EntryPasses(s, id))
    && |TriedIds(s.mapInfo)| == s.nTried && |NewIds(s.mapInfo)| == s.nNew
    && TriedOk(env, s.mapInfo, s.tried) && NewPasses(env, s.mapInfo, s.newTab)
    && !keyIsNull
  }

  /** The invariant of the manager implies everything the check asks for. */
  lemma InvPasses(env: Env, s: State)
    requires Inv(env, s) && Clocked(s.mapInfo)
    ensures Passes(env, s, false)
  {
    assert NewIds(s.mapInfo) - {} == NewIds(s.mapInfo);
  }

  /** What the check does not look at: ids are below the counter, the index knows no other addresses, and id 0 is
      found under its own address. */
  predicate Unseen(s: State) {
    && IdsOk(s.mapInfo, s.nIdCount)
    && (forall ip :: ip in s.mapAddr ==> s.mapAddr[ip] in s.mapInfo && s.mapInfo[s.mapAddr[ip]].service.ip == ip)
    && (0 in s.mapInfo ==> s.mapInfo[0].service.ip in s.mapAddr)
  }

  /** A state has the invariant just when the check accepts it and the three things the check does not look at hold. */
  lemma PassesIsInv(env: Env, s: State)
    ensures Inv(env, s) && Clocked(s.mapInfo) <==> Passes(env, s, false) && Unseen(s)
  {
    hide Inv, Passes, Unseen, Clocked;
    if Inv(env, s) && Clocked(s.mapInfo) {
      InvPasses(env, s);
      InvUnseen(env, s);
    }
    if Passes(env, s, false) && Unseen(s) { PassedIsInv(env, s); }
  }

  lemma InvUnseen(env: Env, s: State)
    requires Inv(env, s)
    ensures Unseen(s)
  {
    hide TriedOk, NewOk, CountsOk, RandomOk, RefsOk;
  }

  lemma PassedIsInv(env: Env, s: State)
    requires Passes(env, s, false) && Unseen(s)
    ensures Inv(env, s) && Clocked(s.mapInfo)
  {
    hide TriedOk, NewOk, SlotsOf, CountsOk, RandomOk, RefsOk;
    assert AddrOk(s.mapInfo, s.mapAddr) by {
      forall id | id in s.mapInfo ensures s.mapInfo[id].service.ip in s.mapAddr { assert EntryPasses(s, id); }
      assert forall id :: id in s.mapInfo ==> EntryPasses(s, id);
    }
    PassCounts(s);
    PassRefs(env, s);
    PassRandom(s);
  }

  /** One entry with id 0 in its new slot, the id counter and the index left open. */
  function Lone(env: Env, nIdCount: int, index: map<NetAddr, int>): State {
    var a := Service(1, 2);
    State(nIdCount, map[0 := Info(a, {}, 3, 4, 0, 0, 0, 0, 1, false, 0)], index, [0], 0, map[],
          1, map[Slot(0, env.newPos(0, a)) := 0], 1, {})
  }

  lemma LonePasses(env: Env, nIdCount: int, index: map<NetAddr, int>)
    requires Lookup(index, 1) == 0
    ensures Passes(env, Lone(env, nIdCount, index), false)
  {
    var s := Lone(env, nIdCount, index);
    assert TriedIds(s.mapInfo) == {} && NewIds(s.mapInfo) == {0};
    assert SlotsOf(s.newTab, 0) == {Slot(0, env.newPos(0, Service(1, 2)))};
  }

  /** Each of the three is missed: the check accepts a state whose entry 0 is not indexed, one with a stale index
      entry, and one whose id counter is too low. */
  lemma CheckMisses(env: Env)
    ensures Passes(env, Lone(env, 1, map[]), false) && !Inv(env, Lone(env, 1, map[]))
    ensures Passes(env, Lone(env, 1, map[1 := 0, 5 := 9]), false) && !Inv(env, Lone(env, 1, map[1 := 0, 5 := 9]))
    ensures Passes(env, Lone(env, 0, map[1 := 0]), false) && !Inv(env, Lone(env, 0, map[1 := 0]))
    ensures Inv(env, Lone(env, 1, map[1 := 0]))
  {
    hide Passes, Inv;
    LonePasses(env, 1, map[]);
    LonePasses(env, 1, map[1 := 0, 5 := 9]);
    LonePasses(env, 0, map[1 := 0]);
    LonePasses(env, 1, map[1 := 0]);
    PassesIsInv(env, Lone(env, 1, map[]));
    PassesIsInv(env, Lone(env, 1, map[1 := 0, 5 := 9]));
    assert 5 in Lone(env, 1, map[1 := 0, 5 := 9]).mapAddr;
    PassesIsInv(env, Lone(env, 0, map[1 := 0]));
    PassesIsInv(env, Lone(env, 1, map[1 := 0]));
  }

  lemma PassCounts(s: State)
    requires |TriedIds(s.mapInfo)| == s.nTried && |NewIds(s.mapInfo)| == s.nNew && |s.vRandom| == s.nTried + s.nNew
    ensures CountsOk(s.mapInfo, Counts(s.nTried, s.nNew, {}, 0, |s.vRandom|))
  {
    assert NewIds(s.mapInfo) - {} == NewIds(s.mapInfo);
  }

  lemma PassRefs(env: Env, s: State)
    requires (forall id :: id in s.mapInfo ==> EntryPasses(s, id)) && NewPasses(env, s.mapInfo, s.newTab)
    ensures RefsOk(s.mapInfo, s.newTab, {})
  {
    forall id | id in s.mapInfo && s.mapInfo[id].fInTried ensures SlotsOf(s.newTab, id) == {} {
    }
    assert forall id :: id in s.mapInfo ==> EntryPasses(s, id);
  }

  /** Distinct positions for as many ids as there are positions: the two are inverse. */
  lemma PassRandom(s: State)
    requires (forall id :: id in s.mapInfo ==> EntryPasses(s, id)) && |s.vRandom| == s.nTried + s.nNew
    requires |TriedIds(s.mapInfo)| == s.nTried && |NewIds(s.mapInfo)| == s.nNew
    ensures RandomOk(s.mapInfo, s.vRandom)
  {
    hide EntryPasses;
    PositionsFit(s);
    AllIds(s.mapInfo);
    var taken := set id | id in s.mapInfo.Keys :: s.mapInfo[id].nRandomPos;
    ImageSize(s.mapInfo, s.mapInfo.Keys, s.vRandom);
    forall i | 0 <= i < |s.vRandom| ensures s.vRandom[i] in s.mapInfo && s.mapInfo[s.vRandom[i]].nRandomPos == i {
      Pigeonhole(taken, |s.vRandom|, i);
    }
  }

  lemma PositionsFit(s: State)
    requires forall id :: id in s.mapInfo ==> EntryPasses(s, id)
    ensures forall id :: id in s.mapInfo ==>
              0 <= s.mapInfo[id].nRandomPos < |s.vRandom| && s.vRandom[s.mapInfo[id].nRandomPos] == id
  {
  }

  lemma AllIds(m: Infos)
    ensures |m.Keys| == |TriedIds(m)| + |NewIds(m)|
  {
    assert m.Keys == TriedIds(m) + NewIds(m);
  }

  lemma {:induction false} ImageSize(m: Infos, ids: set<int>, v: seq<int>)
    requires ids <= m.Keys && forall id :: id in ids ==> 0 <= m[id].nRandomPos < |v| && v[m[id].nRandomPos] == id
    ensures |set id | id in ids :: m[id].nRandomPos| == |ids|
  {
    if ids != {} {
      var x := Smallest(ids);
      var rest := set id | id in ids - {x} :: m[id].nRandomPos;
      ImageSize(m, ids - {x}, v);
      assert m[x].nRandomPos !in rest;
      assert (set id | id in ids :: m[id].nRandomPos) == rest + {m[x].nRandomPos};
    }
  }

  lemma Pigeonhole(taken: set<int>, n: nat, i: nat)
    requires |taken| == n && i < n && forall p :: p in taken ==> 0 <= p < n
    ensures i in taken
  {
    if i !in taken {
      SubsetSize(taken, Range(0, n) - {i});
    }
  }

  // ---------------------------------------------------------------- the loops

  /** The first loop: the entries one by one, collecting the tried ids and the reference counts of the others. */
  method CheckEntries(s: State) returns (ok: bool, setTried: set<int>, mapNew: map<int, int>)
    ensures ok <==> forall id :: id in s.mapInfo ==> EntryPasses(s, id)
    ensures ok ==> setTried == TriedIds(s.mapInfo) && mapNew.Keys == NewIds(s.mapInfo)
    ensures ok ==> forall id :: id in mapNew ==> mapNew[id] == s.mapInfo[id].nRefCount
  {
    hide EntryPasses;
    setTried, mapNew := {}, map[];
    var todo := s.mapInfo.Keys;
    while todo != {}
      invariant todo <= s.mapInfo.Keys
      invariant forall id :: id in s.mapInfo && id !in todo ==> EntryPasses(s, id)
      invariant setTried == TriedIds(s.mapInfo) - todo && mapNew.Keys == NewIds(s.mapInfo) - todo
      invariant forall id :: id in mapNew ==> mapNew[id] == s.mapInfo[id].nRefCount
      decreases |todo|
    {
      var n := Smallest(todo);
      var entryOk := CheckEntry(s, n);
      if !entryOk { return false, {}, map[]; }
      if s.mapInfo[n].fInTried { setTried := setTried + {n}; } else { mapNew := mapNew[n := s.mapInfo[n].nRefCount]; }
      todo := todo - {n};
    }
    ok := true;
  }

  method CheckEntry(s: State, n: int) returns (ok: bool)
    requires n in s.mapInfo
    ensures ok <==> EntryPasses(s, n)
  {
    var info := s.mapInfo[n];
    if info.fInTried {
      if info.nLastSuccess == 0 { return false; }
      if info.nRefCount != 0 { return false; }
    } else {
      if info.nRefCount < 0 || info.nRefCount > MAX_REFS { return false; }
      if info.nRefCount == 0 { return false; }
    }
    if Lookup(s.mapAddr, info.service.ip) != n { return false; }
    if info.nRandomPos < 0 || info.nRandomPos >= |s.vRandom| || s.vRandom[info.nRandomPos] != n { return false; }
    return info.nLastTry >= 0 && info.nLastSuccess >= 0;
  }

  predicate TriedSlotPasses(env: Env, m: Infos, t: Table, x: Slot)
    requires x in t
  {
    t[x] in m && m[t[x]].fInTried && x == TriedSlot(env, m[t[x]].service)
  }

  /** The second loop, over the tried table. */
  method CheckTriedTable(env: Env, m: Infos, t: Table, setTried0: set<int>) returns (ok: bool)
    requires InTable(t, TRIED_BUCKETS) && setTried0 == TriedIds(m)
    ensures ok <==> TriedOk(env, m, t)
  {
    hide TriedSlot;
    var setTried := setTried0;
    for n := 0 to TRIED_BUCKETS
      invariant forall x :: x in Done(t, n, 0) ==> TriedSlotPasses(env, m, t, x)
      invariant setTried == TriedIds(m) - set x | x in Done(t, n, 0) :: t[x]
    {
      for i := 0 to BUCKET_SIZE
        invariant forall x :: x in Done(t, n, i) ==> TriedSlotPasses(env, m, t, x)
        invariant setTried == TriedIds(m) - set x | x in Done(t, n, i) :: t[x]
      {
        DoneStep(env, t, m, n, i);
        if Slot(n, i) in t {
          var x := Slot(n, i);
          if t[x] !in setTried || TriedSlot(env, m[t[x]].service) != x { return false; }
          setTried := setTried - {t[x]};
        }
      }
      RowDone(t, n, TRIED_BUCKETS);
    }
    AllDone(t, TRIED_BUCKETS);
    ok := setTried == {};
    if ok {
      forall id | id in m && m[id].fInTried ensures TriedSlot(env, m[id].service) in t && t[TriedSlot(env, m[id].service)] == id {
        assert id in TriedIds(m) && id !in setTried;
        assert id in set x | x in Done(t, TRIED_BUCKETS, 0) :: t[x];
        var x :| x in t && t[x] == id;
        assert TriedSlotPasses(env, m, t, x);
      }
      assert forall x :: x in t ==> TriedSlotPasses(env, m, t, x);
    } else {
      SomeMember(setTried);
      var id :| id in setTried;
      assert forall x :: x in t ==> t[x] != id;
    }
  }

  lemma RowDone(t: Table, b: int, buckets: int)
    requires InTable(t, buckets)
    ensures Done(t, b, BUCKET_SIZE) == Done(t, b + 1, 0)
  {
  }

  lemma AllDone(t: Table, buckets: int)
    requires InTable(t, buckets)
    ensures Done(t, buckets, 0) == t.Keys && Done(t, 0, 0) == {}
  {
  }

  /** The references of an id that the slots seen so far do not account for. */
  function Left(m: Infos, t: Table, done: set<Slot>, id: int): int
    requires id in m
  {
    m[id].nRefCount - |SlotsOf(t, id) * done|
  }

  /** `left` counts down the references of the untried ids. */
  ghost predicate Counting(m: Infos, t: Table, done: set<Slot>, left: map<int, int>) {
    && (forall id :: id in left ==> id in NewIds(m) && left[id] == Left(m, t, done, id) > 0)
    && (forall id :: id in NewIds(m) ==> Left(m, t, done, id) >= 0 && (Left(m, t, done, id) > 0 ==> id in left))
  }

  lemma LeftStep(m: Infos, t: Table, done: set<Slot>, id: int, x: Slot)
    requires id in m && x in t && x !in done
    ensures Left(m, t, done + {x}, id) == Left(m, t, done, id) - if t[x] == id then 1 else 0
  {
    var slots := SlotsOf(t, id);
    if t[x] == id {
      assert slots * (done + {x}) == slots * done + {x};
    } else {
      assert slots * (done + {x}) == slots * done;
    }
  }

  lemma CountDown(m: Infos, t: Table, done: set<Slot>, left: map<int, int>, x: Slot)
    requires Counting(m, t, done, left) && x in t && x !in done && t[x] in left
    ensures var id := t[x];
            Counting(m, t, done + {x}, if left[id] == 1 then left - {id} else left[id := left[id] - 1])
  {
    hide Left, NewIds;
    NewIdsKnown(m);
    forall id | id in NewIds(m) ensures Left(m, t, done + {x}, id) == Left(m, t, done, id) - if t[x] == id then 1 else 0 {
      LeftStep(m, t, done, id, x);
    }
  }

  lemma NewIdsKnown(m: Infos)
    ensures forall id :: id in NewIds(m) <==> id in m && !m[id].fInTried
  {
  }

  /** A slot too many, or one of an id that is not new. */
  lemma TooMany(env: Env, m: Infos, t: Table, done: set<Slot>, left: map<int, int>, x: Slot)
    requires Counting(m, t, done, left) && x in t && x !in done && t[x] !in left
    ensures !NewPasses(env, m, t)
  {
    if NewPasses(env, m, t) {
      var id := t[x];
      assert id in NewIds(m);
      LeftStep(m, t, done, id, x);
      SubsetSize(SlotsOf(t, id) * (done + {x}), SlotsOf(t, id));
      assert false;
    }
  }

  predicate NewSlotPasses(env: Env, m: Infos, t: Table, x: Slot)
    requires x in t
  {
    t[x] in m && !m[t[x]].fInTried && InNewPlace(env, x, m[t[x]].service)
  }

  lemma StartCounting(m: Infos, t: Table, left: map<int, int>)
    requires left.Keys == NewIds(m) && forall id :: id in left ==> left[id] == m[id].nRefCount > 0
    ensures Counting(m, t, {}, left)
  {
    forall id | id in m ensures Left(m, t, {}, id) == m[id].nRefCount {
      assert SlotsOf(t, id) * {} == {};
    }
  }

  lemma AllSeen(m: Infos, t: Table, id: int)
    requires id in m
    ensures Left(m, t, t.Keys, id) == m[id].nRefCount - |SlotsOf(t, id)|
  {
    assert SlotsOf(t, id) * t.Keys == SlotsOf(t, id);
  }

  /** Once all slots are seen, nothing is left exactly when every count is the number of slots. */
  lemma EndCounting(env: Env, m: Infos, t: Table, left: map<int, int>)
    requires Counting(m, t, t.Keys, left) && NewOk(env, m, t)
    ensures left == map[] <==> NewPasses(env, m, t)
  {
    hide Left, SlotsOf, NewIds, NewOk;
    NewIdsKnown(m);
    forall id | id in m ensures Left(m, t, t.Keys, id) == m[id].nRefCount - |SlotsOf(t, id)| {
      AllSeen(m, t, id);
    }
    if NewPasses(env, m, t) {
      forall id ensures id !in left {
        if id in left { assert false; }
      }
      assert left == map[];
    } else {
      var id :| id in m && !m[id].fInTried && |SlotsOf(t, id)| != m[id].nRefCount;
      assert id in NewIds(m) && id in left;
    }
  }

  /** The third loop, over the new table. */
  method CheckNewTable(env: Env, m: Infos, t: Table, mapNew0: map<int, int>) returns (ok: bool)
    requires InTable(t, NEW_BUCKETS) && mapNew0.Keys == NewIds(m)
    requires forall id :: id in mapNew0 ==> mapNew0[id] == m[id].nRefCount > 0
    ensures ok <==> NewPasses(env, m, t)
  {
    hide Counting, NewPasses, Done, NewSlotPasses;
    var mapNew := mapNew0;
    AllDone(t, NEW_BUCKETS);
    StartCounting(m, t, mapNew);
    for n := 0 to NEW_BUCKETS
      invariant forall x :: x in t && x in Done(t, n, 0) ==> NewSlotPasses(env, m, t, x)
      invariant Counting(m, t, Done(t, n, 0), mapNew)
    {
      for i := 0 to BUCKET_SIZE
        invariant forall x :: x in t && x in Done(t, n, i) ==> NewSlotPasses(env, m, t, x)
        invariant Counting(m, t, Done(t, n, i), mapNew)
      {
        DoneStep(env, t, m, n, i);
        if Slot(n, i) in t {
          var x := Slot(n, i);
          if t[x] !in mapNew {
            TooMany(env, m, t, Done(t, n, i), mapNew, x);
            return false;
          }
          CountedIsNew(m, t, Done(t, n, i), mapNew, t[x]);
          if env.newPos(n, m[t[x]].service) != i {
            Misplaced(env, m, t, x);
            return false;
          }
          PlacedPasses(env, m, t, x);
          CountDown(m, t, Done(t, n, i), mapNew, x);
          mapNew := if mapNew[t[x]] == 1 then mapNew - {t[x]} else mapNew[t[x] := mapNew[t[x]] - 1];
        }
      }
      RowDone(t, n, NEW_BUCKETS);
    }
    AllPlaced(env, m, t);
    EndCounting(env, m, t, mapNew);
    ok := mapNew == map[];
  }

  lemma CountedIsNew(m: Infos, t: Table, done: set<Slot>, left: map<int, int>, id: int)
    requires Counting(m, t, done, left) && id in left
    ensures id in m && !m[id].fInTried
  {
  }

  lemma Misplaced(env: Env, m: Infos, t: Table, x: Slot)
    requires x in t && t[x] in m && 0 <= x.bucket < NEW_BUCKETS && env.newPos(x.bucket, m[t[x]].service) != x.pos
    ensures !NewPasses(env, m, t)
  {
  }

  lemma PlacedPasses(env: Env, m: Infos, t: Table, x: Slot)
    requires x in t && t[x] in m && !m[t[x]].fInTried
    requires 0 <= x.bucket < NEW_BUCKETS && env.newPos(x.bucket, m[t[x]].service) == x.pos
    ensures NewSlotPasses(env, m, t, x)
  {
  }

  lemma AllPlaced(env: Env, m: Infos, t: Table)
    requires forall x :: x in t && x in Done(t, NEW_BUCKETS, 0) ==> NewSlotPasses(env, m, t, x)
    requires Done(t, NEW_BUCKETS, 0) == t.Keys
    ensures NewOk(env, m, t)
  {
    assert forall x :: x in t ==> NewSlotPasses(env, m, t, x);
  }

  /** The check: it finds an error exactly when the state does not pass. */
  method Check_(env: Env, s: State, keyIsNull: bool) returns (ok: bool)
    requires InTable(s.tried, TRIED_BUCKETS) && InTable(s.newTab, NEW_BUCKETS)
    ensures ok <==> Passes(env, s, keyIsNull)
  {
    hide TriedOk, NewPasses, EntryPasses, TriedIds, NewIds, InTable;
    if |s.vRandom| != s.nTried + s.nNew { return false; }
    var entriesOk, setTried, mapNew := CheckEntries(s);
    if !entriesOk { return false; }
    if |setTried| != s.nTried || |mapNew.Keys| != s.nNew { return false; }
    EntriesReferenced(s, mapNew);
    var triedOk := CheckTriedTable(env, s.mapInfo, s.tried, setTried);
    if !triedOk { return false; }
    var newOk := CheckNewTable(env, s.mapInfo, s.newTab, mapNew);
    ok := newOk && !keyIsNull;
  }

  lemma EntriesReferenced(s: State, left: map<int, int>)
    requires (forall id :: id in s.mapInfo ==> EntryPasses(s, id)) && left.Keys == NewIds(s.mapInfo)
    requires forall id :: id in left ==> left[id] == s.mapInfo[id].nRefCount
    ensures forall id :: id in left ==> id in s.mapInfo && left[id] == s.mapInfo[id].nRefCount > 0
  {
    forall id | id in left ensures id in s.mapInfo && s.mapInfo[id].nRefCount > 0 {
      assert id in NewIds(s.mapInfo);
      assert EntryPasses(s, id);
    }
  }

  lemma InvInTable(env: Env, s: State)
    requires Inv(env, s)
    ensures InTable(s.tried, TRIED_BUCKETS) && InTable(s.newTab, NEW_BUCKETS)
  {
    hide IdsOk, AddrOk, RandomOk, RefsOk, CountsOk;
  }

  /** Whatever is done to a fresh manager, its slots lie in the tables and the check finds no error. */
  lemma EveryRunIsAccepted(env: Env, ops: seq<Op>)
    requires forall i :: 0 <= i < |ops| ==> InTime(ops[i])
    ensures Inv(env, EMPTY) && Passes(env, Run(env, EMPTY, ops), false)
    ensures InTable(Run(env, EMPTY, ops).tried, TRIED_BUCKETS) && InTable(Run(env, EMPTY, ops).newTab, NEW_BUCKETS)
  {
    hide Inv, Passes, Clocked, InTable;
    InvInTable(env, Run(env, EMPTY, ops)) by { EveryRunPasses(env, ops); }
    EveryRunPasses(env, ops);
    InvPasses(env, Run(env, EMPTY, ops));
  }
}
