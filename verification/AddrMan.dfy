/** The address manager as the source keeps it: tables are fixed arrays with -1 in empty
    cells, everything is updated in place (src/addrman.h, src/addrman.cpp). Each method is
    proved against the function of the same name in `AddrManModel`, and the asserts of the
    source are asserts here. Random numbers and the clock are parameters. */
module AddrMan {
  import opened Sets
  import opened M = AddrManModel

  /** The occupied cells of a bucket array. */
  ghost function Cells(a: array2<int>): Table
    reads a
  {
    map b, p | 0 <= b < a.Length0 && 0 <= p < a.Length1 && a[b, p] != -1
      :: Slot(b, p) := if 0 <= b < a.Length0 && 0 <= p < a.Length1 then a[b, p] else -1
  }

  lemma CellAt(a: array2<int>, b: int, p: int)
    requires 0 <= b < a.Length0 && 0 <= p < a.Length1
    ensures Slot(b, p) in Cells(a) <==> a[b, p] != -1
    ensures Slot(b, p) in Cells(a) ==> Cells(a)[Slot(b, p)] == a[b, p]
  {
  }

  method SetCell(a: array2<int>, b: int, p: int, x: int)
    requires 0 <= b < a.Length0 && 0 <= p < a.Length1
    modifies a
    ensures a[b, p] == x
    ensures Cells(a) == if x == -1 then old(Cells(a)) - {Slot(b, p)} else old(Cells(a))[Slot(b, p) := x]
  {
    a[b, p] := x;
  }

  class AddrMan {
    const env: Env
    var nIdCount: int
    var mapInfo: Infos
    var mapAddr: map<NetAddr, int>
    var vRandom: seq<int>
    var nTried: int
    const vvTried: array2<int>
    var nNew: int
    const vvNew: array2<int>
    var nLastGood: int
    var collisions: set<int>

    ghost predicate Shape() {
      && vvNew.Length0 == NEW_BUCKETS && vvNew.Length1 == BUCKET_SIZE
      && vvTried.Length0 == TRIED_BUCKETS && vvTried.Length1 == BUCKET_SIZE && vvNew != vvTried
    }

    ghost function Value(): State
      reads this, vvNew, vvTried
    {
      State(nIdCount, mapInfo, mapAddr, vRandom, nTried, Cells(vvTried), nNew, Cells(vvNew), nLastGood, collisions)
    }

    /** Clear, on a new object. */
    constructor (env: Env)
      ensures Shape() && this.env == env && fresh(vvNew) && fresh(vvTried)
      ensures Value() == State(0, map[], map[], [], 0, map[], 0, map[], 1, {})
      ensures M.Inv(env, Value())
    {
      this.env := env;
      nIdCount, mapInfo, mapAddr, vRandom, nTried, nNew, nLastGood, collisions := 0, map[], map[], [], 0, 0, 1, {};
      vvNew := new int[NEW_BUCKETS, BUCKET_SIZE]((i, j) => -1);
      vvTried := new int[TRIED_BUCKETS, BUCKET_SIZE]((i, j) => -1);
      new;
      assert NewIds(map[]) == {} && TriedIds(map[]) == {};
    }

    method Create(addr: Address, source: NetAddr) returns (nId: int)
      requires Shape()
      modifies this
      ensures Value() == M.Create(old(Value()), addr, source) && nId == old(nIdCount)
    {
      nId := nIdCount;
      nIdCount := nIdCount + 1;
      mapInfo := mapInfo[nId := Info(addr.service, addr.nServices, addr.nTime, source, 0, 0, 0, 0, 0, false, -1)];
      mapAddr := mapAddr[addr.service.ip := nId];
      mapInfo := mapInfo[nId := mapInfo[nId].(nRandomPos := |vRandom|)];
      vRandom := vRandom + [nId];
    }

    method SwapRandom(i: int, j: int)
      requires Shape() && 0 <= i < |vRandom| && 0 <= j < |vRandom|
      requires vRandom[i] in mapInfo && vRandom[j] in mapInfo
      modifies this
      ensures Value() == M.SwapRandom(old(Value()), i, j)
    {
      if i == j { return; }
      var a, b := vRandom[i], vRandom[j];
      mapInfo := mapInfo[a := mapInfo[a].(nRandomPos := j)];
      mapInfo := mapInfo[b := mapInfo[b].(nRandomPos := i)];
      vRandom := vRandom[i := b];
      vRandom := vRandom[j := a];
    }

    method Delete(nId: int, ghost limbo: set<int>, ghost extra: int)
      requires Shape() && Check(env, Value(), limbo, extra) && nId in limbo && CanDelete(Value(), nId)
      modifies this
      ensures Value() == M.Delete(old(Value()), nId)
    {
      hide Check, RandomOk, Cells;
      InLimbo(env, Value(), nId, limbo, extra);
      assert nId in mapInfo;
      assert !mapInfo[nId].fInTried;
      assert mapInfo[nId].nRefCount == 0;
      SwapToEnd(Value(), nId);
      SwapRandom(mapInfo[nId].nRandomPos, |vRandom| - 1);
      vRandom := vRandom[..|vRandom| - 1];
      mapAddr := mapAddr - {mapInfo[nId].service.ip};
      mapInfo := mapInfo - {nId};
      nNew := nNew - 1;
    }

    /** Steps on one cell and the entry it names. */
    method DropRefCell(b: NewBucket, p: Position)
      requires Shape() && vvNew[b, p] != -1 && vvNew[b, p] in mapInfo
      modifies this, vvNew
      ensures Slot(b, p) in old(Value()).newTab && old(Value()).newTab[Slot(b, p)] == old(vvNew[b, p])
      ensures Value() == DropRef(old(Value()), Slot(b, p)) && vvNew[b, p] == -1
    {
      CellAt(vvNew, b, p);
      var nId := vvNew[b, p];
      mapInfo := mapInfo[nId := mapInfo[nId].(nRefCount := mapInfo[nId].nRefCount - 1)];
      SetCell(vvNew, b, p, -1);
    }

    method AddRefCell(b: NewBucket, p: Position, nId: int)
      requires Shape() && nId != -1 && nId in mapInfo
      modifies this, vvNew
      ensures Value() == AddRef(old(Value()), Slot(b, p), nId)
    {
      mapInfo := mapInfo[nId := mapInfo[nId].(nRefCount := mapInfo[nId].nRefCount + 1)];
      SetCell(vvNew, b, p, nId);
    }

    method UntryCell(b: TriedBucket, p: Position)
      requires Shape() && vvTried[b, p] != -1 && vvTried[b, p] in mapInfo
      modifies this, vvTried
      ensures Slot(b, p) in old(Value()).tried && old(Value()).tried[Slot(b, p)] == old(vvTried[b, p])
      ensures Value() == Untry(old(Value()), Slot(b, p)) && vvTried[b, p] == -1
    {
      CellAt(vvTried, b, p);
      var nId := vvTried[b, p];
      mapInfo := mapInfo[nId := mapInfo[nId].(fInTried := false)];
      SetCell(vvTried, b, p, -1);
      nTried := nTried - 1;
    }

    method TryCell(b: TriedBucket, p: Position, nId: int)
      requires Shape() && nId != -1 && nId in mapInfo
      modifies this, vvTried
      ensures Value() == Try(old(Value()), Slot(b, p), nId)
    {
      SetCell(vvTried, b, p, nId);
      nTried := nTried + 1;
      mapInfo := mapInfo[nId := mapInfo[nId].(fInTried := true)];
    }

    method ClearNew(b: NewBucket, p: Position, ghost limbo: set<int>, ghost extra: int)
      requires Shape() && Check(env, Value(), limbo, extra)
      modifies this, vvNew
      ensures Value() == M.ClearNew(env, old(Value()), Slot(b, p), limbo, extra)
      ensures vvNew[b, p] == -1
    {
      hide IdsOk, AddrOk, RandomOk, NewOk, TriedOk, RefsOk, CountsOk, M.Delete, CanDelete, Cells;
      CellAt(vvNew, b, p);
      if vvNew[b, p] != -1 {
        var nId := vvNew[b, p];
        ghost var slot, s := Slot(b, p), Value();
        SlotKnown(env, s, slot, limbo, extra);
        DropRefKeeps(env, s, slot, limbo, extra);
        assert mapInfo[nId].nRefCount > 0;
        DropRefCell(b, p);
        if mapInfo[nId].nRefCount == 0 {
          DeleteKeeps(env, Value(), nId, limbo + {nId}, extra + 1);
          Delete(nId, limbo + {nId}, extra + 1);
        }
      }
    }

    /** MakeTried's loop: the id leaves every new bucket it is in. */
    method LeaveNew(nId: int)
      requires Shape() && M.Inv(env, Value()) && nId in mapInfo && !mapInfo[nId].fInTried
      modifies this, vvNew
      ensures Value() == DropAll(old(Value()), nId)
    {
      hide M.Inv, Cells, Left, DropRef, DropAll;
      ghost var s := Value();
      LeftStart(env, s, nId);
      for bucket := 0 to NEW_BUCKETS
        invariant Shape() && Value() == Left(s, nId, bucket) && nId in mapInfo
      {
        var pos := env.newPos(bucket, mapInfo[nId].service);
        LeftStep(env, s, nId, bucket);
        CellAt(vvNew, bucket, pos);
        if vvNew[bucket, pos] == nId {
          DropRefCell(bucket, pos);
        }
      }
      LeftEnd(env, s, nId);
      nNew := nNew - 1;
    }

    /** MakeTried's eviction of the id in a tried cell, which goes back to the new table. */
    method EvictFrom(b: TriedBucket, p: Position, ghost limbo: set<int>)
      requires Shape() && Check(env, Value(), limbo, 0) && vvTried[b, p] != -1
      modifies this, vvNew, vvTried
      ensures Slot(b, p) in old(Value()).tried && Value() == Evict(env, old(Value()), Slot(b, p), limbo)
      ensures vvTried[b, p] == -1
    {
      hide IdsOk, AddrOk, RandomOk, NewOk, TriedOk, RefsOk, CountsOk, Cells, M.ClearNew;
      ghost var s, slot := Value(), Slot(b, p);
      CellAt(vvTried, b, p);
      var nIdEvict := vvTried[b, p];
      SlotKnown(env, s, slot, limbo, 0);
      assert nIdEvict in mapInfo;
      UntryKeeps(env, s, slot, limbo, 0);
      UntryCell(b, p);
      var ub := env.newBucket(mapInfo[nIdEvict].service, mapInfo[nIdEvict].source);
      var up := env.newPos(ub, mapInfo[nIdEvict].service);
      ClearNew(ub, up, limbo + {nIdEvict}, 0);
      assert vvNew[ub, up] == -1;
      InLimbo(env, Value(), nIdEvict, limbo + {nIdEvict}, 0);
      assert mapInfo[nIdEvict].nRefCount == 0;
      AddRefCell(ub, up, nIdEvict);
      nNew := nNew + 1;
    }

    method MakeTried(nId: int)
      requires Shape() && M.Inv(env, Value()) && nId in mapInfo && !mapInfo[nId].fInTried
      modifies this, vvNew, vvTried
      ensures Value() == M.MakeTried(env, old(Value()), nId)
    {
      hide IdsOk, AddrOk, RandomOk, NewOk, TriedOk, RefsOk, CountsOk, Cells, Evict;
      IdIsNat(env, Value(), nId);
      DropAllKeeps(env, Value(), nId);
      LeaveNew(nId);
      assert mapInfo[nId].nRefCount == 0;
      var b := env.triedBucket(mapInfo[nId].service);
      var p := env.triedPos(b, mapInfo[nId].service);
      CellAt(vvTried, b, p);
      if vvTried[b, p] != -1 {
        EvictFrom(b, p, {nId});
      }
      assert vvTried[b, p] == -1;
      InLimbo(env, Value(), nId, {nId}, 0);
      TryCell(b, p, nId);
    }

    method Find(ip: NetAddr) returns (nId: int)
      ensures nId == M.Find(Value(), ip)
    {
      if ip in mapAddr && mapAddr[ip] in mapInfo { return mapAddr[ip]; }
      return -1;
    }

    /** Good_'s search for a new bucket that holds the id, from a random start. */
    method FindBucket(nId: int, nRnd: NewBucket) returns (nUBucket: int)
      requires Shape() && M.Inv(env, Value()) && nId in mapInfo
      ensures nUBucket == -1 <==> SlotsOf(Value().newTab, nId) == {}
      ensures nUBucket != -1 ==> 0 <= nUBucket < NEW_BUCKETS && vvNew[nUBucket, env.newPos(nUBucket, mapInfo[nId].service)] == nId
    {
      hide IdsOk, AddrOk, RandomOk, TriedOk, RefsOk, CountsOk;
      IdIsNat(env, Value(), nId);
      ghost var t := Value().newTab;
      for n := 0 to NEW_BUCKETS
        invariant forall k :: 0 <= k < n ==> !HoldsAt(k, nRnd, nId)
      {
        var nB: NewBucket := (n + nRnd) % NEW_BUCKETS;
        var nBpos := env.newPos(nB, mapInfo[nId].service);
        CellAt(vvNew, nB, nBpos);
        if vvNew[nB, nBpos] == nId {
          assert Slot(nB, nBpos) in SlotsOf(t, nId);
          return nB;
        }
      }
      forall x | x in t ensures t[x] != nId {
        ModShift(x.bucket, nRnd);
        assert !HoldsAt((x.bucket - nRnd) % NEW_BUCKETS, nRnd, nId);
        CellAt(vvNew, x.bucket, x.pos);
      }
      return -1;
    }

    ghost predicate HoldsAt(n: int, nRnd: int, nId: int)
      requires Shape() && nId in mapInfo
      reads this, vvNew
    {
      var nB: NewBucket := (n + nRnd) % NEW_BUCKETS;
      vvNew[nB, env.newPos(nB, mapInfo[nId].service)] == nId
    }

    method Good_(addr: Service, testBeforeEvict: bool, nTime: int, nRnd: NewBucket)
      requires Shape() && M.Inv(env, Value())
      modifies this, vvNew, vvTried
      ensures Value() == Good(env, old(Value()), addr, testBeforeEvict, nTime)
    {
      hide IdsOk, AddrOk, RandomOk, NewOk, TriedOk, RefsOk, CountsOk, Cells, Promote;
      nLastGood := nTime;
      var nId := Find(addr.ip);
      if nId !in mapInfo { return; }
      if mapInfo[nId].service != addr { return; }
      PromoteFound(nId, testBeforeEvict, nTime, nRnd);
    }

    /** Good_ once it has found the exact entry. */
    method PromoteFound(nId: int, testBeforeEvict: bool, nTime: int, nRnd: NewBucket)
      requires Shape() && M.Inv(env, Value()) && nId in mapInfo
      modifies this, vvNew, vvTried
      ensures Value() == Promote(env, old(Value()), nId, testBeforeEvict, nTime)
    {
      hide Check, Cells, M.MakeTried, SlotsOf;
      TouchKeeps(env, Value(), nId, mapInfo[nId].(nLastSuccess := nTime, nLastTry := nTime, nAttempts := 0), {}, 0);
      mapInfo := mapInfo[nId := mapInfo[nId].(nLastSuccess := nTime, nLastTry := nTime, nAttempts := 0)];
      if mapInfo[nId].fInTried { return; }
      var nUBucket := FindBucket(nId, nRnd);
      if nUBucket == -1 { return; }
      var b := env.triedBucket(mapInfo[nId].service);
      var p := env.triedPos(b, mapInfo[nId].service);
      CellAt(vvTried, b, p);
      if testBeforeEvict && vvTried[b, p] != -1 {
        if |collisions| < COLLISION_LIMIT { collisions := collisions + {nId}; }
      } else {
        MakeTried(nId);
      }
    }

    /** Add_'s last part, on the cell its source picks. */
    method PlaceIn(nId: int, b: NewBucket, p: Position, now: int, ghost created: bool)
      requires Shape() && Placeable(env, Value(), nId, Slot(b, p), created)
      modifies this, vvNew
      ensures Value() == Place(env, old(Value()), nId, Slot(b, p), now, created)
    {
      hide IdsOk, AddrOk, RandomOk, NewOk, TriedOk, RefsOk, CountsOk, Cells, M.ClearNew, M.Delete;
      ghost var s, slot := Value(), Slot(b, p);
      PlaceableRefs(env, s, nId, slot, created);
      PlaceableIds(env, s, nId, slot, created);
      CellAt(vvNew, b, p);
      if vvNew[b, p] != nId {
        var fInsert := vvNew[b, p] == -1;
        if !fInsert {
          var existing := mapInfo[vvNew[b, p]];
          if IsTerrible(existing, now) || (existing.nRefCount > 1 && mapInfo[nId].nRefCount == 0) { fInsert := true; }
        }
        if fInsert {
          ghost var limbo: set<int> := if created then {nId} else {};
          ClearNew(b, p, limbo, if created then 1 else 0);
          AddRefCell(b, p, nId);
        } else if mapInfo[nId].nRefCount == 0 {
          InLimbo(env, s, nId, {nId}, 1);
          Delete(nId, {nId}, 1);
        }
      }
    }

    method Add_(addr: Address, source: NetAddr, penalty: int, now: int, rnd: nat) returns (fNew: bool)
      requires Shape() && M.Inv(env, Value())
      modifies this, vvNew
      ensures (Value(), fNew) == Add(env, old(Value()), addr, source, penalty, now, rnd)
    {
      hide Check, Cells, Place, Placeable, AddKnown;
      if !env.routable(addr.service.ip) { return false; }
      var nId := Find(addr.service.ip);
      var nTimePenalty := penalty;
      if addr.service.ip == source { nTimePenalty := 0; }
      fNew := nId !in mapInfo;
      if fNew {
        FindMiss(env, Value(), addr.service.ip);
        AddUnseen(addr, source, nTimePenalty, now);
      } else {
        Revisit(nId, addr, source, nTimePenalty, now, rnd);
      }
    }

    /** The part of Add_ for a known address. */
    method Revisit(nId: int, addr: Address, source: NetAddr, nTimePenalty: int, now: int, rnd: nat)
      requires Shape() && M.Inv(env, Value()) && nId in mapInfo
      modifies this, vvNew
      ensures Value() == AddKnown(env, old(Value()), nId, addr, source, nTimePenalty, now, rnd)
    {
      hide Check, Cells, Place, Placeable;
      var info := RefreshInfo(mapInfo[nId], addr, nTimePenalty, now);
      ghost var s := Value();
      RefsBounded(env, s, nId);
      mapInfo := mapInfo[nId := info];
      if addr.nTime == 0 || (info.nTime != 0 && addr.nTime <= info.nTime) { return; }
      if info.fInTried { return; }
      if info.nRefCount == MAX_REFS { return; }
      var nFactor := ChanceFactor(info.nRefCount);
      if nFactor > 1 && rnd % nFactor != 0 { return; }
      RefreshedPlaceable(env, s, nId, info, NewSlot(env, info.service, source));
      PlaceAtSource(nId, source, now, false);
    }

    /** The part of Add_ for an unknown address. */
    method AddUnseen(addr: Address, source: NetAddr, nTimePenalty: int, now: int)
      requires Shape() && M.Inv(env, Value()) && addr.service.ip !in mapAddr
      modifies this, vvNew
      ensures Value() == Place(env, Introduce(env, old(Value()), addr, source, nTimePenalty), old(nIdCount),
                               NewSlot(env, addr.service, source), now, true)
    {
      hide Check, Cells, Place, Placeable;
      ghost var s := Value();
      var nId := Create(addr, source);
      mapInfo := mapInfo[nId := mapInfo[nId].(nTime := Max0(addr.nTime - nTimePenalty))];
      nNew := nNew + 1;
      assert Value() == Introduce(env, s, addr, source, nTimePenalty);
      PlaceAtSource(nId, source, now, true);
    }

    /** Each reference makes the next one twice as unlikely. */
    static method ChanceFactor(nRefCount: int) returns (nFactor: int)
      requires nRefCount >= 0
      ensures nFactor == Factor(nRefCount)
    {
      nFactor := 1;
      for n := 0 to nRefCount
        invariant nFactor == Factor(n)
      {
        nFactor := nFactor * 2;
      }
    }

    method PlaceAtSource(nId: int, source: NetAddr, now: int, ghost created: bool)
      requires Shape() && nId in mapInfo
      requires Placeable(env, Value(), nId, NewSlot(env, mapInfo[nId].service, source), created)
      modifies this, vvNew
      ensures Value() == Place(env, old(Value()), nId, NewSlot(env, old(mapInfo[nId].service), source), now, created)
    {
      var nUBucket := env.newBucket(mapInfo[nId].service, source);
      PlaceIn(nId, nUBucket, env.newPos(nUBucket, mapInfo[nId].service), now, created);
    }

    /** Add_'s update of an address it already knows. */
    static method RefreshInfo(info: Info, addr: Address, penalty: int, now: int) returns (r: Info)
      ensures r == Refresh(info, addr, penalty, now)
    {
      r := info;
      var fCurrentlyOnline := now - addr.nTime < 24 * 60 * 60;
      var nUpdateInterval := if fCurrentlyOnline then 60 * 60 else 24 * 60 * 60;
      if addr.nTime != 0 && (r.nTime == 0 || r.nTime < addr.nTime - nUpdateInterval - penalty) {
        r := r.(nTime := Max0(addr.nTime - penalty));
      }
      r := r.(nServices := r.nServices + addr.nServices);
    }

    method Attempt_(addr: Service, countFailure: bool, nTime: int)
      requires Shape() && M.Inv(env, Value())
      modifies this
      ensures Value() == Attempt(env, old(Value()), addr, countFailure, nTime)
    {
      hide Check, Cells;
      IdsAreNat(env, Value());
      var nId := Find(addr.ip);
      if nId !in mapInfo { return; }
      var info := mapInfo[nId];
      if info.service != addr { return; }
      info := info.(nLastTry := nTime);
      if countFailure && info.nLastCountAttempt < nLastGood {
        info := info.(nLastCountAttempt := nTime, nAttempts := info.nAttempts + 1);
      }
      mapInfo := mapInfo[nId := info];
    }

    method Connected_(addr: Service, nTime: nat)
      requires Shape() && M.Inv(env, Value())
      modifies this
      ensures Value() == Connected(env, old(Value()), addr, nTime)
    {
      hide Check, Cells;
      IdsAreNat(env, Value());
      var nId := Find(addr.ip);
      if nId !in mapInfo { return; }
      if mapInfo[nId].service != addr { return; }
      if nTime - mapInfo[nId].nTime > 20 * 60 {
        mapInfo := mapInfo[nId := mapInfo[nId].(nTime := nTime)];
      }
    }

    method SetServices_(addr: Service, nServices: Services)
      requires Shape() && M.Inv(env, Value())
      modifies this
      ensures Value() == SetServices(env, old(Value()), addr, nServices)
    {
      hide Check, Cells;
      IdsAreNat(env, Value());
      var nId := Find(addr.ip);
      if nId !in mapInfo { return; }
      if mapInfo[nId].service != addr { return; }
      mapInfo := mapInfo[nId := mapInfo[nId].(nServices := nServices)];
    }

    method SwapWithLater(n: nat, rnd: nat)
      requires Shape() && M.Inv(env, Value()) && n < |vRandom|
      modifies this
      ensures Value() == ShuffleStep(env, old(Value()), n, rnd)
    {
      hide Check, Cells;
      var nRndPos := rnd % (|vRandom| - n) + n;
      RandomKnown(env, Value());
      SwapRandom(n, nRndPos);
    }

    method GetAddr_(rnd: nat -> nat, now: int) returns (vAddr: seq<Address>)
      requires Shape() && M.Inv(env, Value())
      modifies this
      ensures var r := GetAddr(env, old(Value()), rnd, now); Value() == r.0 && vAddr == r.1
    {
      hide Check, Cells, IsTerrible, ShuffleStep, Reordered;
      vAddr := [];
      ghost var s := Value();
      var nNodes := MaxAddr(|vRandom|);
      var n := 0;
      while n < |vRandom|
        invariant Shape() && M.Inv(env, Value()) && n <= |vRandom|
        invariant Shuffle(env, s, 0, nNodes, [], rnd, now) == Shuffle(env, Value(), n, nNodes, vAddr, rnd, now)
      {
        if |vAddr| >= nNodes { break; }
        SwapWithLater(n, rnd(n));
        assert vRandom[n] in mapInfo;
        var ai := mapInfo[vRandom[n]];
        if !IsTerrible(ai, now) { vAddr := vAddr + [AddressOf(ai)]; }
        n := n + 1;
      }
    }

    method ResolveCollisions_(now: int, nRnd: NewBucket)
      requires Shape() && M.Inv(env, Value())
      modifies this, vvNew, vvTried
      ensures Value() == Resolve(env, old(Value()), now)
    {
      hide IdsOk, AddrOk, RandomOk, NewOk, TriedOk, RefsOk, CountsOk, Cells, Good;
      ghost var s := Value();
      var todo := collisions;
      while todo != {}
        invariant Shape() && M.Inv(env, Value())
        invariant ResolveFrom(env, s, s.collisions, now) == ResolveFrom(env, Value(), todo, now)
        decreases todo
      {
        var idNew := Smallest(todo);
        var erase := ResolveCollision(idNew, now, nRnd);
        if erase { collisions := collisions - {idNew}; }
        todo := todo - {idNew};
      }
    }

    method ResolveCollision(idNew: int, now: int, nRnd: NewBucket) returns (erase: bool)
      requires Shape() && M.Inv(env, Value())
      modifies this, vvNew, vvTried
      ensures (Value(), erase) == ResolveOne(env, old(Value()), idNew, now)
    {
      hide Check, Cells, Good;
      erase := false;
      if idNew !in mapInfo {
        erase := true;
      } else {
        var info := mapInfo[idNew];
        var b := env.triedBucket(info.service);
        var p := env.triedPos(b, info.service);
        CellAt(vvTried, b, p);
        SlotKnown(env, Value(), Slot(b, p), {}, 0);
        if !env.valid(info.service.ip) {
          erase := true;
        } else if vvTried[b, p] != -1 {
          var infoOld := mapInfo[vvTried[b, p]];
          if now - infoOld.nLastSuccess < 4 * (60 * 60) {
            erase := true;
          } else if now - infoOld.nLastTry < 4 * (60 * 60) {
            if now - infoOld.nLastTry > 60 {
              Good_(info.service, false, now, nRnd);
              erase := true;
            }
          }
        } else {
          Good_(info.service, false, now, nRnd);
          erase := true;
        }
      }
    }
  }

  lemma IdsAreNat(env: Env, s: State)
    requires M.Inv(env, s)
    ensures -1 !in s.mapInfo
  {
  }

  lemma RandomKnown(env: Env, s: State)
    requires M.Inv(env, s)
    ensures forall i :: 0 <= i < |s.vRandom| ==> s.vRandom[i] in s.mapInfo
  {
  }

  lemma ModShift(b: NewBucket, r: NewBucket)
    ensures ((b - r) % NEW_BUCKETS + r) % NEW_BUCKETS == b
  {
  }

  lemma RefsBounded(env: Env, s: State, id: int)
    requires M.Inv(env, s) && id in s.mapInfo
    ensures 0 <= s.mapInfo[id].nRefCount <= MAX_REFS
  {
  }

  lemma FindMiss(env: Env, s: State, ip: NetAddr)
    requires M.Inv(env, s)
    ensures M.Find(s, ip) in s.mapInfo <==> ip in s.mapAddr
  {
  }

  lemma IdIsNat(env: Env, s: State, id: int)
    requires M.Inv(env, s) && id in s.mapInfo
    ensures id >= 0
  {
  }

  lemma PlaceableIds(env: Env, s: State, id: int, slot: Slot, created: bool)
    requires Placeable(env, s, id, slot, created)
    ensures id >= 0 && (slot in SlotsOf(s.newTab, id) <==> slot in s.newTab && s.newTab[slot] == id)
    ensures slot !in SlotsOf(s.newTab, id) ==>
      var t := M.ClearNew(env, s, slot, if created then {id} else {}, if created then 1 else 0);
      id in t.mapInfo
  {
  }

  lemma SlotKnown(env: Env, s: State, slot: Slot, limbo: set<int>, extra: int)
    requires Check(env, s, limbo, extra)
    ensures slot in s.newTab ==> s.newTab[slot] in s.mapInfo
    ensures slot in s.tried ==> s.tried[slot] in s.mapInfo && s.mapInfo[s.tried[slot]].fInTried
  {
  }

  /** The new table once an id has left the buckets below `b`. */
  ghost function LeftTable(t: Table, id: int, b: int): Table {
    t - (set x | x in t && t[x] == id && x.bucket < b)
  }

  ghost function Left(s: State, id: int, b: int): State
    requires id in s.mapInfo
  {
    var t := LeftTable(s.newTab, id, b);
    SetInfo(s, id, s.mapInfo[id].(nRefCount := |SlotsOf(t, id)|)).(newTab := t)
  }

  lemma LeftStart(env: Env, s: State, id: int)
    requires M.Inv(env, s) && id in s.mapInfo
    ensures Left(s, id, 0) == s && id >= 0
  {
    hide RandomOk, AddrOk, TriedOk, CountsOk;
    assert forall x :: x in s.newTab ==> x.bucket >= 0;
    assert LeftTable(s.newTab, id, 0) == s.newTab;
    assert s.mapInfo[id := s.mapInfo[id]] == s.mapInfo;
  }

  lemma LeftTableStep(env: Env, m: Infos, t: Table, id: int, b: NewBucket)
    requires NewOk(env, m, t) && id in m
    ensures var slot, l := Slot(b, env.newPos(b, m[id].service)), LeftTable(t, id, b);
            && (slot in l && l[slot] == id ==> LeftTable(t, id, b + 1) == l - {slot})
            && (!(slot in l && l[slot] == id) ==> LeftTable(t, id, b + 1) == l)
  {
    assert forall x :: x in t && t[x] == id && x.bucket == b ==> x == Slot(b, env.newPos(b, m[id].service));
  }

  /** One turn of the loop drops the reference in this bucket, if the id has one there. */
  lemma LeftStep(env: Env, s: State, id: int, b: NewBucket)
    requires M.Inv(env, s) && id in s.mapInfo
    ensures var slot, l := Slot(b, env.newPos(b, s.mapInfo[id].service)), Left(s, id, b);
            && id in l.mapInfo && id in Left(s, id, b + 1).mapInfo && l.mapInfo[id].service == s.mapInfo[id].service
            && (slot in l.newTab && l.newTab[slot] == id ==> Left(s, id, b + 1) == DropRef(l, slot))
            && (!(slot in l.newTab && l.newTab[slot] == id) ==> Left(s, id, b + 1) == l)
  {
    hide NewOk, RandomOk, AddrOk, TriedOk, CountsOk, RefsOk, IdsOk, LeftTable, SlotsOf;
    var slot, t := Slot(b, env.newPos(b, s.mapInfo[id].service)), LeftTable(s.newTab, id, b);
    LeftTableStep(env, s.mapInfo, s.newTab, id, b);
    if slot in t && t[slot] == id {
      RefRemove(t, slot);
      assert Left(s, id, b + 1).mapInfo == DropRef(Left(s, id, b), slot).mapInfo;
    }
  }

  lemma LeftEnd(env: Env, s: State, id: int)
    requires M.Inv(env, s) && id in s.mapInfo
    ensures var r := Left(s, id, NEW_BUCKETS); r.(nNew := r.nNew - 1) == DropAll(s, id) && id in r.mapInfo
  {
    hide RandomOk, AddrOk, TriedOk, CountsOk, RefsOk, IdsOk;
    var t := LeftTable(s.newTab, id, NEW_BUCKETS);
    assert forall x :: x in s.newTab ==> x.bucket < NEW_BUCKETS;
    assert SlotsOf(t, id) == {};
    assert t == DropAll(s, id).newTab;
  }
}
