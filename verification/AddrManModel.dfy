/** The stochastic address manager: its tables, reference counts and indexes
    (src/addrman.h, src/addrman.cpp).

    `State` holds the fields of the manager as values. The bucket tables are maps
    from occupied slots to ids. The keyed hashes that place an address are an
    `Env`, fixed while the secret key is. */
module AddrManModel {
  import opened Sets

  const NEW_BUCKETS := 1024
  const TRIED_BUCKETS := 256
  const BUCKET_SIZE := 64
  const MAX_REFS := 8
  const COLLISION_LIMIT := 10

  type NewBucket = b: int | 0 <= b < 1024
  type TriedBucket = b: int | 0 <= b < 256
  type Position = p: int | 0 <= p < 64

  type NetAddr = nat

  /** Service bits, as the set of their positions. */
  type Services = set<nat>

  datatype Service = Service(ip: NetAddr, port: nat)
  datatype Address = Address(service: Service, nServices: Services, nTime: nat)
  datatype Slot = Slot(bucket: int, pos: int)

  datatype Info = Info(
    service: Service, nServices: Services, nTime: nat, source: NetAddr,
    nLastTry: int, nLastCountAttempt: int, nLastSuccess: int, nAttempts: int,
    nRefCount: int, fInTried: bool, nRandomPos: int)

  /** The keyed placement hashes and the address predicates of the network layer. */
  datatype Env = Env(
    triedBucket: Service -> TriedBucket,
    newBucket: (Service, NetAddr) -> NewBucket,
    newPos: (NewBucket, Service) -> Position,
    triedPos: (TriedBucket, Service) -> Position,
    routable: NetAddr -> bool,
    valid: NetAddr -> bool)

  type Infos = map<int, Info>
  type Table = map<Slot, int>

  datatype State = State(
    nIdCount: int, mapInfo: Infos, mapAddr: map<NetAddr, int>, vRandom: seq<int>,
    nTried: int, tried: Table, nNew: int, newTab: Table,
    nLastGood: int, collisions: set<int>)

  // ---------------------------------------------------------------- placement

  function TriedSlot(env: Env, a: Service): Slot {
    var b := env.triedBucket(a);
    Slot(b, env.triedPos(b, a))
  }

  function NewSlot(env: Env, a: Service, source: NetAddr): Slot {
    var b := env.newBucket(a, source);
    Slot(b, env.newPos(b, a))
  }

  predicate InNewPlace(env: Env, s: Slot, a: Service) {
    0 <= s.bucket < NEW_BUCKETS && s.pos == env.newPos(s.bucket, a)
  }

  function SlotsOf(t: Table, id: int): set<Slot> { set s | s in t && t[s] == id }

  function NewIds(m: Infos): set<int> { set id | id in m && !m[id].fInTried }
  function TriedIds(m: Infos): set<int> { set id | id in m && m[id].fInTried }

  datatype Counts = Counts(nTried: int, nNew: int, limbo: set<int>, extra: int, size: int)

  // ---------------------------------------------------------------- the consistency check

  predicate IdsOk(m: Infos, count: int) {
    0 <= count && forall id :: id in m ==> 0 <= id < count
  }

  /** nRandomPos and vRandom are inverse. */
  predicate RandomOk(m: Infos, v: seq<int>) {
    && (forall id :: id in m ==> 0 <= m[id].nRandomPos < |v| && v[m[id].nRandomPos] == id)
    && (forall i :: 0 <= i < |v| ==> v[i] in m && m[v[i]].nRandomPos == i)
  }

  predicate AddrOk(m: Infos, a: map<NetAddr, int>) {
    && (forall id :: id in m ==> m[id].service.ip in a && a[m[id].service.ip] == id)
    && (forall ip :: ip in a ==> a[ip] in m && m[a[ip]].service.ip == ip)
  }

  /** Every new slot holds an untried id at the position that bucket gives it. */
  predicate NewOk(env: Env, m: Infos, t: Table) {
    forall s :: s in t ==> t[s] in m && !m[t[s]].fInTried && InNewPlace(env, s, m[t[s]].service)
  }

  /** Every tried slot holds a tried id in its own slot, and every tried id is there. */
  predicate TriedOk(env: Env, m: Infos, t: Table) {
    && (forall s :: s in t ==> t[s] in m && m[t[s]].fInTried && s == TriedSlot(env, m[t[s]].service))
    && (forall id :: id in m && m[id].fInTried ==>
          TriedSlot(env, m[id].service) in t && t[TriedSlot(env, m[id].service)] == id)
  }

  /** The reference count is the number of new slots; only tried ids and ids in `limbo` have none. */
  predicate RefsOk(m: Infos, t: Table, limbo: set<int>) {
    forall id :: id in m ==>
      && m[id].nRefCount == |SlotsOf(t, id)| <= MAX_REFS
      && (m[id].nRefCount == 0 <==> m[id].fInTried || id in limbo)
  }

  /** nTried and nNew are exact, up to the ids in `limbo` and `extra`. */
  predicate CountsOk(m: Infos, c: Counts) {
    && c.limbo <= NewIds(m)
    && c.nTried == |TriedIds(m)|
    && c.nNew == |NewIds(m) - c.limbo| + c.extra
    && c.size == c.nTried + c.nNew - c.extra + |c.limbo|
  }

  /** The check while an operation runs: ids in `limbo` are in neither table and nNew
      counts `extra` more ids than the new table has. */
  predicate Check(env: Env, s: State, limbo: set<int>, extra: int) {
    && IdsOk(s.mapInfo, s.nIdCount) && RandomOk(s.mapInfo, s.vRandom) && AddrOk(s.mapInfo, s.mapAddr)
    && NewOk(env, s.mapInfo, s.newTab) && TriedOk(env, s.mapInfo, s.tried)
    && RefsOk(s.mapInfo, s.newTab, limbo)
    && CountsOk(s.mapInfo, Counts(s.nTried, s.nNew, limbo, extra, |s.vRandom|))
  }

  /** The structural conditions of the consistency check, between operations. */
  predicate Inv(env: Env, s: State) { Check(env, s, {}, 0) }

  // ---------------------------------------------------------------- small steps

  function SetInfo(s: State, id: int, i: Info): State { s.(mapInfo := s.mapInfo[id := i]) }

  function Create(s: State, addr: Address, source: NetAddr): State {
    var id := s.nIdCount;
    s.(nIdCount := id + 1,
       mapInfo := s.mapInfo[id := Info(addr.service, addr.nServices, addr.nTime, source, 0, 0, 0, 0, 0, false, |s.vRandom|)],
       mapAddr := s.mapAddr[addr.service.ip := id],
       vRandom := s.vRandom + [id])
  }

  function SwapRandom(s: State, i: int, j: int): State
    requires 0 <= i < |s.vRandom| && 0 <= j < |s.vRandom|
    requires s.vRandom[i] in s.mapInfo && s.vRandom[j] in s.mapInfo
  {
    if i == j then s
    else
      var a, b := s.vRandom[i], s.vRandom[j];
      var m := s.mapInfo[a := s.mapInfo[a].(nRandomPos := j)];
      s.(mapInfo := m[b := m[b].(nRandomPos := i)], vRandom := s.vRandom[i := b][j := a])
  }

  predicate CanDelete(s: State, id: int) {
    id in s.mapInfo && 0 <= s.mapInfo[id].nRandomPos < |s.vRandom| && RandomOk(s.mapInfo, s.vRandom)
  }

  function Delete(s: State, id: int): State
    requires CanDelete(s, id)
  {
    PopLast(SwapRandom(s, s.mapInfo[id].nRandomPos, |s.vRandom| - 1), id)
  }

  /** The end of Delete, once the id is last in vRandom. */
  function PopLast(s: State, id: int): State
    requires s.vRandom != [] && id in s.mapInfo
  {
    s.(vRandom := s.vRandom[..|s.vRandom| - 1], mapAddr := s.mapAddr - {s.mapInfo[id].service.ip},
       mapInfo := s.mapInfo - {id}, nNew := s.nNew - 1)
  }

  function AddRef(s: State, slot: Slot, id: int): State
    requires id in s.mapInfo
  {
    SetInfo(s, id, s.mapInfo[id].(nRefCount := s.mapInfo[id].nRefCount + 1)).(newTab := s.newTab[slot := id])
  }

  function DropRef(s: State, slot: Slot): State
    requires slot in s.newTab && s.newTab[slot] in s.mapInfo
  {
    var id := s.newTab[slot];
    SetInfo(s, id, s.mapInfo[id].(nRefCount := s.mapInfo[id].nRefCount - 1)).(newTab := s.newTab - {slot})
  }

  // ---------------------------------------------------------------- each clause under each kind of change

  lemma RefUpdate(t: Table, slot: Slot, id: int)
    requires slot !in t
    ensures |SlotsOf(t[slot := id], id)| == |SlotsOf(t, id)| + 1
    ensures forall k :: k != id ==> SlotsOf(t[slot := id], k) == SlotsOf(t, k)
  {
    assert SlotsOf(t[slot := id], id) == SlotsOf(t, id) + {slot};
    forall k | k != id ensures SlotsOf(t[slot := id], k) == SlotsOf(t, k) {}
  }

  lemma RefRemove(t: Table, slot: Slot)
    requires slot in t
    ensures |SlotsOf(t - {slot}, t[slot])| == |SlotsOf(t, t[slot])| - 1
    ensures forall k :: k != t[slot] ==> SlotsOf(t - {slot}, k) == SlotsOf(t, k)
  {
    var u := t - {slot};
    assert SlotsOf(u, t[slot]) == SlotsOf(t, t[slot]) - {slot};
    forall k | k != t[slot] ensures SlotsOf(u, k) == SlotsOf(t, k) {}
  }

  /** What the clauses see of an entry. */
  predicate SamePlace(i: Info, j: Info) { i.service == j.service && i.fInTried == j.fInTried }
  predicate SameShape(i: Info, j: Info) {
    SamePlace(i, j) && i.nRefCount == j.nRefCount && i.nRandomPos == j.nRandomPos
  }

  lemma IndexTouch(m: Infos, id: int, i: Info, count: int, a: map<NetAddr, int>, v: seq<int>)
    requires IdsOk(m, count) && AddrOk(m, a) && RandomOk(m, v)
    requires id in m && m[id].service == i.service && m[id].nRandomPos == i.nRandomPos
    ensures IdsOk(m[id := i], count) && AddrOk(m[id := i], a) && RandomOk(m[id := i], v)
  {
  }

  lemma AddrTouch(m: Infos, id: int, i: Info, count: int, a: map<NetAddr, int>)
    requires IdsOk(m, count) && AddrOk(m, a) && id in m && m[id].service == i.service
    ensures IdsOk(m[id := i], count) && AddrOk(m[id := i], a)
  {
  }

  lemma TablesTouch(env: Env, m: Infos, id: int, i: Info, newTab: Table, tried: Table)
    requires NewOk(env, m, newTab) && TriedOk(env, m, tried) && id in m && SamePlace(m[id], i)
    ensures NewOk(env, m[id := i], newTab) && TriedOk(env, m[id := i], tried)
  {
  }

  lemma RefsTouch(m: Infos, t: Table, limbo: set<int>, id: int, i: Info)
    requires RefsOk(m, t, limbo) && id in m && m[id].nRefCount == i.nRefCount && m[id].fInTried == i.fInTried
    ensures RefsOk(m[id := i], t, limbo)
  {
  }

  lemma IdSetsTouch(m: Infos, id: int, i: Info)
    requires id in m && m[id].fInTried == i.fInTried
    ensures NewIds(m[id := i]) == NewIds(m) && TriedIds(m[id := i]) == TriedIds(m)
  {
  }

  lemma CountsTouch(m: Infos, c: Counts, id: int, i: Info)
    requires CountsOk(m, c) && id in m && m[id].fInTried == i.fInTried
    ensures CountsOk(m[id := i], c)
  {
    hide NewIds, TriedIds;
    IdSetsTouch(m, id, i);
  }

  lemma IndexPush(m: Infos, id: int, i: Info, a: map<NetAddr, int>, v: seq<int>)
    requires IdsOk(m, id) && AddrOk(m, a) && RandomOk(m, v) && i.service.ip !in a && i.nRandomPos == |v|
    ensures id !in m
    ensures IdsOk(m[id := i], id + 1) && AddrOk(m[id := i], a[i.service.ip := id]) && RandomOk(m[id := i], v + [id])
  {
  }

  lemma TablesPush(env: Env, m: Infos, id: int, i: Info, newTab: Table, tried: Table, limbo: set<int>)
    requires NewOk(env, m, newTab) && TriedOk(env, m, tried) && RefsOk(m, newTab, limbo)
    requires id !in m && !i.fInTried && i.nRefCount == 0
    ensures NewOk(env, m[id := i], newTab) && TriedOk(env, m[id := i], tried) && RefsOk(m[id := i], newTab, limbo + {id})
  {
    assert SlotsOf(newTab, id) == {};
  }

  lemma IdSetsPush(m: Infos, id: int, i: Info)
    requires id !in m && !i.fInTried
    ensures NewIds(m[id := i]) == NewIds(m) + {id} && TriedIds(m[id := i]) == TriedIds(m) && id !in NewIds(m)
  {
  }

  lemma CountsPush(m: Infos, c: Counts, id: int, i: Info)
    requires CountsOk(m, c) && id !in m && !i.fInTried
    ensures CountsOk(m[id := i], c.(limbo := c.limbo + {id}, size := c.size + 1))
  {
    hide NewIds, TriedIds;
    IdSetsPush(m, id, i);
    assert NewIds(m[id := i]) - (c.limbo + {id}) == NewIds(m) - c.limbo;
  }

  lemma RandomSwap(m: Infos, v: seq<int>, i: int, j: int)
    requires RandomOk(m, v) && 0 <= i < |v| && 0 <= j < |v| && i != j
    ensures v[i] != v[j]
    ensures var a, b := v[i], v[j];
            RandomOk(m[a := m[a].(nRandomPos := j)][b := m[b].(nRandomPos := i)], v[i := b][j := a])
  {
    assert m[v[i]].nRandomPos == i && m[v[j]].nRandomPos == j;
  }

  lemma IndexPop(m: Infos, id: int, count: int, a: map<NetAddr, int>, v: seq<int>)
    requires IdsOk(m, count) && AddrOk(m, a) && RandomOk(m, v) && id in m && v != [] && v[|v| - 1] == id
    ensures IdsOk(m - {id}, count) && AddrOk(m - {id}, a - {m[id].service.ip}) && RandomOk(m - {id}, v[..|v| - 1])
  {
    var n, b := m - {id}, a - {m[id].service.ip};
    assert forall k :: k in n <==> k in m && k != id;
  }

  lemma TablesPop(env: Env, m: Infos, id: int, newTab: Table, tried: Table, limbo: set<int>)
    requires NewOk(env, m, newTab) && TriedOk(env, m, tried) && RefsOk(m, newTab, limbo)
    requires id in m && !m[id].fInTried && id in limbo
    ensures NewOk(env, m - {id}, newTab) && TriedOk(env, m - {id}, tried) && RefsOk(m - {id}, newTab, limbo - {id})
  {
    var n := m - {id};
    assert forall k :: k in n <==> k in m && k != id;
    assert SlotsOf(newTab, id) == {};
    assert forall x :: x in newTab ==> x !in SlotsOf(newTab, id);
  }

  lemma IdSetsPop(m: Infos, id: int)
    requires id in NewIds(m)
    ensures NewIds(m - {id}) == NewIds(m) - {id} && TriedIds(m - {id}) == TriedIds(m)
  {
  }

  lemma CountsPop(m: Infos, c: Counts, id: int)
    requires CountsOk(m, c) && id in c.limbo
    ensures CountsOk(m - {id}, c.(nNew := c.nNew - 1, limbo := c.limbo - {id}, extra := c.extra - 1, size := c.size - 1))
  {
    hide NewIds, TriedIds;
    IdSetsPop(m, id);
    assert NewIds(m - {id}) - (c.limbo - {id}) == NewIds(m) - c.limbo;
  }

  lemma RefsDrop(m: Infos, t: Table, slot: Slot, limbo: set<int>)
    requires RefsOk(m, t, limbo) && slot in t && t[slot] in m && !m[t[slot]].fInTried
    ensures t[slot] !in limbo && m[t[slot]].nRefCount > 0
    ensures var id := t[slot];
            var n := m[id := m[id].(nRefCount := m[id].nRefCount - 1)];
            RefsOk(n, t - {slot}, if n[id].nRefCount > 0 then limbo else limbo + {id})
  {
    assert slot in SlotsOf(t, t[slot]);
    RefRemove(t, slot);
  }

  lemma RefsAdd(m: Infos, t: Table, slot: Slot, id: int, limbo: set<int>)
    requires RefsOk(m, t, limbo) && slot !in t && id in m && !m[id].fInTried && m[id].nRefCount < MAX_REFS
    ensures RefsOk(m[id := m[id].(nRefCount := m[id].nRefCount + 1)], t[slot := id], limbo - {id})
  {
    RefUpdate(t, slot, id);
  }

  lemma RefsDropAll(m: Infos, t: Table, id: int, limbo: set<int>)
    requires RefsOk(m, t, limbo) && id in m && !m[id].fInTried && id !in limbo
    ensures RefsOk(m[id := m[id].(nRefCount := 0)], t - SlotsOf(t, id), limbo + {id})
  {
    var u := t - SlotsOf(t, id);
    assert SlotsOf(u, id) == {};
    forall k | k != id ensures SlotsOf(u, k) == SlotsOf(t, k) {}
  }

  /** An id that loses its last reference, or gets its first one. */
  lemma CountsLimbo(m: Infos, c: Counts, id: int)
    requires CountsOk(m, c) && id in NewIds(m)
    ensures id !in c.limbo ==> CountsOk(m, c.(limbo := c.limbo + {id}, extra := c.extra + 1))
    ensures id in c.limbo ==> CountsOk(m, c.(limbo := c.limbo - {id}, extra := c.extra - 1))
  {
    hide NewIds, TriedIds;
    if id in c.limbo { SplitOut(NewIds(m), c.limbo - {id}, id); } else { SplitOut(NewIds(m), c.limbo, id); }
    assert id in c.limbo ==> c.limbo - {id} + {id} == c.limbo;
  }

  lemma SplitOut(all: set<int>, part: set<int>, id: int)
    requires id in all && id !in part
    ensures |all - part| == |all - (part + {id})| + 1 && |part + {id}| == |part| + 1
  {
    assert all - part == (all - (part + {id})) + {id};
  }

  /** A tried id that leaves its slot. */
  lemma TablesUntry(env: Env, m: Infos, slot: Slot, i: Info, newTab: Table, tried: Table, limbo: set<int>)
    requires NewOk(env, m, newTab) && TriedOk(env, m, tried) && RefsOk(m, newTab, limbo)
    requires slot in tried && tried[slot] in m && i == m[tried[slot]].(fInTried := false)
    ensures var id := tried[slot];
            && NewOk(env, m[id := i], newTab) && TriedOk(env, m[id := i], tried - {slot})
            && RefsOk(m[id := i], newTab, limbo + {id})
  {
  }

  /** Flipping fInTried moves an id between the two id sets. */
  lemma IdSetsFlip(m: Infos, id: int, i: Info)
    requires id in m && m[id].fInTried != i.fInTried
    ensures i.fInTried ==>
      id in NewIds(m) && NewIds(m[id := i]) == NewIds(m) - {id} && TriedIds(m[id := i]) == TriedIds(m) + {id} && id !in TriedIds(m)
    ensures !i.fInTried ==>
      id in TriedIds(m) && NewIds(m[id := i]) == NewIds(m) + {id} && TriedIds(m[id := i]) == TriedIds(m) - {id} && id !in NewIds(m)
  {
  }

  lemma CountsUntry(m: Infos, c: Counts, id: int, i: Info)
    requires CountsOk(m, c) && id in m && m[id].fInTried && !i.fInTried
    ensures id !in c.limbo && CountsOk(m[id := i], c.(nTried := c.nTried - 1, limbo := c.limbo + {id}))
  {
    hide NewIds, TriedIds;
    IdSetsFlip(m, id, i);
    assert NewIds(m[id := i]) - (c.limbo + {id}) == NewIds(m) - c.limbo;
  }

  /** An id in limbo that enters its tried slot. */
  lemma TablesTry(env: Env, m: Infos, id: int, i: Info, newTab: Table, tried: Table, limbo: set<int>)
    requires NewOk(env, m, newTab) && TriedOk(env, m, tried) && RefsOk(m, newTab, limbo)
    requires id in m && id in limbo && i == m[id].(fInTried := true) && TriedSlot(env, i.service) !in tried
    ensures NewOk(env, m[id := i], newTab) && TriedOk(env, m[id := i], tried[TriedSlot(env, i.service) := id])
            && RefsOk(m[id := i], newTab, limbo - {id})
  {
    assert SlotsOf(newTab, id) == {};
    assert forall x :: x in newTab ==> x !in SlotsOf(newTab, id);
  }

  lemma CountsTry(m: Infos, c: Counts, id: int, i: Info)
    requires CountsOk(m, c) && id in c.limbo && id in m && !m[id].fInTried && i.fInTried
    ensures CountsOk(m[id := i], c.(nTried := c.nTried + 1, limbo := c.limbo - {id}))
  {
    hide NewIds, TriedIds;
    IdSetsFlip(m, id, i);
    assert NewIds(m[id := i]) - (c.limbo - {id}) == NewIds(m) - c.limbo;
  }

  // ---------------------------------------------------------------- small steps keep the check

  ghost function CountsOf(s: State, limbo: set<int>, extra: int): Counts {
    Counts(s.nTried, s.nNew, limbo, extra, |s.vRandom|)
  }

  lemma TouchKeeps(env: Env, s: State, id: int, i: Info, limbo: set<int>, extra: int)
    requires Check(env, s, limbo, extra) && id in s.mapInfo && SameShape(i, s.mapInfo[id])
    ensures Check(env, SetInfo(s, id, i), limbo, extra)
  {
    hide IdsOk, AddrOk, RandomOk, NewOk, TriedOk, RefsOk, CountsOk;
    IndexTouch(s.mapInfo, id, i, s.nIdCount, s.mapAddr, s.vRandom);
    TablesTouch(env, s.mapInfo, id, i, s.newTab, s.tried);
    RefsTouch(s.mapInfo, s.newTab, limbo, id, i);
    CountsTouch(s.mapInfo, CountsOf(s, limbo, extra), id, i);
  }

  lemma CreateKeeps(env: Env, s: State, addr: Address, source: NetAddr, limbo: set<int>, extra: int)
    requires Check(env, s, limbo, extra) && addr.service.ip !in s.mapAddr
    ensures Check(env, Create(s, addr, source), limbo + {s.nIdCount}, extra)
  {
    hide IdsOk, AddrOk, RandomOk, NewOk, TriedOk, RefsOk, CountsOk;
    var id := s.nIdCount;
    var i := Create(s, addr, source).mapInfo[id];
    IndexPush(s.mapInfo, id, i, s.mapAddr, s.vRandom);
    TablesPush(env, s.mapInfo, id, i, s.newTab, s.tried, limbo);
    CountsPush(s.mapInfo, CountsOf(s, limbo, extra), id, i);
  }

  lemma SwapKeeps(env: Env, s: State, i: int, j: int, limbo: set<int>, extra: int)
    requires Check(env, s, limbo, extra) && 0 <= i < |s.vRandom| && 0 <= j < |s.vRandom|
    requires s.vRandom[i] in s.mapInfo && s.vRandom[j] in s.mapInfo
    ensures Check(env, SwapRandom(s, i, j), limbo, extra)
  {
    hide IdsOk, AddrOk, RandomOk, NewOk, TriedOk, RefsOk, CountsOk;
    if i != j {
      var a, b := s.vRandom[i], s.vRandom[j];
      RandomSwap(s.mapInfo, s.vRandom, i, j);
      var x, y := s.mapInfo[a].(nRandomPos := j), s.mapInfo[b].(nRandomPos := i);
      var m := s.mapInfo[a := x];
      MoveKeeps(env, s, a, j, limbo, extra);
      MoveKeeps(env, s.(mapInfo := m), b, i, limbo, extra);
    }
  }

  /** Everything but vRandom's own clause survives a change of nRandomPos. */
  lemma MoveKeeps(env: Env, s: State, id: int, pos: int, limbo: set<int>, extra: int)
    requires id in s.mapInfo && CheckButRandom(env, s, limbo, extra)
    ensures CheckButRandom(env, SetInfo(s, id, s.mapInfo[id].(nRandomPos := pos)), limbo, extra)
  {
    hide IdsOk, AddrOk, NewOk, TriedOk, RefsOk, CountsOk;
    var i := s.mapInfo[id].(nRandomPos := pos);
    AddrTouch(s.mapInfo, id, i, s.nIdCount, s.mapAddr);
    TablesTouch(env, s.mapInfo, id, i, s.newTab, s.tried);
    RefsTouch(s.mapInfo, s.newTab, limbo, id, i);
    CountsTouch(s.mapInfo, CountsOf(s, limbo, extra), id, i);
  }

  ghost predicate CheckButRandom(env: Env, s: State, limbo: set<int>, extra: int) {
    && IdsOk(s.mapInfo, s.nIdCount) && AddrOk(s.mapInfo, s.mapAddr)
    && NewOk(env, s.mapInfo, s.newTab) && TriedOk(env, s.mapInfo, s.tried)
    && RefsOk(s.mapInfo, s.newTab, limbo) && CountsOk(s.mapInfo, CountsOf(s, limbo, extra))
  }

  /** Swapping an id to the end of vRandom. */
  lemma SwapToEnd(s: State, id: int)
    requires CanDelete(s, id)
    ensures s.vRandom[s.mapInfo[id].nRandomPos] in s.mapInfo && s.vRandom[|s.vRandom| - 1] in s.mapInfo
    ensures var t := SwapRandom(s, s.mapInfo[id].nRandomPos, |s.vRandom| - 1);
            |t.vRandom| == |s.vRandom| && t.vRandom[|s.vRandom| - 1] == id && id in t.mapInfo
  {
  }

  lemma InLimbo(env: Env, s: State, id: int, limbo: set<int>, extra: int)
    requires Check(env, s, limbo, extra) && id in limbo
    ensures CanDelete(s, id) && !s.mapInfo[id].fInTried && s.mapInfo[id].nRefCount == 0 && SlotsOf(s.newTab, id) == {}
  {
  }

  lemma LimboKnown(env: Env, s: State, limbo: set<int>, extra: int)
    requires Check(env, s, limbo, extra)
    ensures forall id :: id in limbo ==> id in s.mapInfo
  {
    hide IdsOk, AddrOk, RandomOk, NewOk, TriedOk, RefsOk;
  }

  lemma PopKeeps(env: Env, s: State, id: int, limbo: set<int>, extra: int)
    requires Check(env, s, limbo, extra) && id in limbo && id in s.mapInfo && s.vRandom != [] && s.vRandom[|s.vRandom| - 1] == id
    ensures Check(env, PopLast(s, id), limbo - {id}, extra - 1)
  {
    hide IdsOk, AddrOk, RandomOk, NewOk, TriedOk, RefsOk, CountsOk;
    InLimbo(env, s, id, limbo, extra);
    IndexPop(s.mapInfo, id, s.nIdCount, s.mapAddr, s.vRandom);
    TablesPop(env, s.mapInfo, id, s.newTab, s.tried, limbo);
    CountsPop(s.mapInfo, CountsOf(s, limbo, extra), id);
  }

  lemma DeleteKeeps(env: Env, s: State, id: int, limbo: set<int>, extra: int)
    requires Check(env, s, limbo, extra) && id in limbo
    ensures CanDelete(s, id) && Check(env, Delete(s, id), limbo - {id}, extra - 1)
  {
    hide Check, RandomOk, SwapRandom, PopLast;
    InLimbo(env, s, id, limbo, extra);
    SwapToEnd(s, id);
    SwapKeeps(env, s, s.mapInfo[id].nRandomPos, |s.vRandom| - 1, limbo, extra);
    PopKeeps(env, SwapRandom(s, s.mapInfo[id].nRandomPos, |s.vRandom| - 1), id, limbo, extra);
  }

  lemma TablesDrop(env: Env, m: Infos, slot: Slot, i: Info, newTab: Table, tried: Table)
    requires NewOk(env, m, newTab) && TriedOk(env, m, tried) && slot in newTab && newTab[slot] in m
    requires SamePlace(m[newTab[slot]], i)
    ensures !i.fInTried && newTab[slot] in NewIds(m[newTab[slot] := i])
    ensures NewOk(env, m[newTab[slot] := i], newTab - {slot}) && TriedOk(env, m[newTab[slot] := i], tried)
  {
    TablesTouch(env, m, newTab[slot], i, newTab, tried);
  }

  lemma DropRefKeeps(env: Env, s: State, slot: Slot, limbo: set<int>, extra: int)
    requires Check(env, s, limbo, extra) && slot in s.newTab && s.newTab[slot] in s.mapInfo
    ensures s.newTab[slot] !in limbo && s.mapInfo[s.newTab[slot]].nRefCount > 0
    ensures var id, r := s.newTab[slot], DropRef(s, slot);
            && (r.mapInfo[id].nRefCount > 0 ==> Check(env, r, limbo, extra))
            && (r.mapInfo[id].nRefCount == 0 ==> Check(env, r, limbo + {id}, extra + 1))
  {
    hide IdsOk, AddrOk, RandomOk, NewOk, TriedOk, RefsOk, CountsOk, NewIds;
    var id, m, n := s.newTab[slot], s.mapInfo, DropRef(s, slot).mapInfo;
    TablesDrop(env, m, slot, n[id], s.newTab, s.tried);
    RefsDrop(m, s.newTab, slot, limbo);
    IndexTouch(m, id, n[id], s.nIdCount, s.mapAddr, s.vRandom);
    CountsTouch(m, CountsOf(s, limbo, extra), id, n[id]);
    CountsLimbo(n, CountsOf(s, limbo, extra), id);
  }

  lemma TablesAdd(env: Env, m: Infos, slot: Slot, id: int, i: Info, newTab: Table, tried: Table)
    requires NewOk(env, m, newTab) && TriedOk(env, m, tried) && slot !in newTab && id in m && !i.fInTried
    requires SamePlace(m[id], i) && InNewPlace(env, slot, i.service)
    ensures id in NewIds(m[id := i])
    ensures NewOk(env, m[id := i], newTab[slot := id]) && TriedOk(env, m[id := i], tried)
  {
    TablesTouch(env, m, id, i, newTab, tried);
  }

  lemma AddRefKeeps(env: Env, s: State, slot: Slot, id: int, limbo: set<int>, extra: int)
    requires Check(env, s, limbo, extra) && slot !in s.newTab
    requires id in s.mapInfo && !s.mapInfo[id].fInTried && InNewPlace(env, slot, s.mapInfo[id].service)
    requires s.mapInfo[id].nRefCount < MAX_REFS
    ensures Check(env, AddRef(s, slot, id), limbo - {id}, if id in limbo then extra - 1 else extra)
  {
    hide IdsOk, AddrOk, RandomOk, NewOk, TriedOk, RefsOk, CountsOk, NewIds;
    var m, n := s.mapInfo, AddRef(s, slot, id).mapInfo;
    TablesAdd(env, m, slot, id, n[id], s.newTab, s.tried);
    RefsAdd(m, s.newTab, slot, id, limbo);
    IndexTouch(m, id, n[id], s.nIdCount, s.mapAddr, s.vRandom);
    CountsTouch(m, CountsOf(s, limbo, extra), id, n[id]);
    CountsLimbo(n, CountsOf(s, limbo, extra), id);
    assert id !in limbo ==> limbo - {id} == limbo;
  }

  // ---------------------------------------------------------------- moving between the tables

  /** MakeTried's first loop: the id leaves every new slot and the new count. */
  function DropAll(s: State, id: int): State
    requires id in s.mapInfo
  {
    SetInfo(s, id, s.mapInfo[id].(nRefCount := 0))
      .(newTab := s.newTab - SlotsOf(s.newTab, id), nNew := s.nNew - 1)
  }

  /** A tried id leaves its slot. */
  function Untry(s: State, slot: Slot): State
    requires slot in s.tried && s.tried[slot] in s.mapInfo
  {
    var id := s.tried[slot];
    SetInfo(s, id, s.mapInfo[id].(fInTried := false)).(tried := s.tried - {slot}, nTried := s.nTried - 1)
  }

  /** An id enters its tried slot. */
  function Try(s: State, slot: Slot, id: int): State
    requires id in s.mapInfo
  {
    SetInfo(s, id, s.mapInfo[id].(fInTried := true)).(tried := s.tried[slot := id], nTried := s.nTried + 1)
  }

  lemma TablesDropAll(env: Env, m: Infos, id: int, i: Info, newTab: Table, tried: Table)
    requires NewOk(env, m, newTab) && TriedOk(env, m, tried) && id in m && SamePlace(m[id], i) && !i.fInTried
    ensures id in NewIds(m[id := i])
    ensures var u := newTab - SlotsOf(newTab, id);
            NewOk(env, m[id := i], u) && TriedOk(env, m[id := i], tried) && SlotsOf(u, id) == {}
  {
    TablesTouch(env, m, id, i, newTab, tried);
  }

  lemma DropAllKeeps(env: Env, s: State, id: int)
    requires Inv(env, s) && id in s.mapInfo && !s.mapInfo[id].fInTried
    ensures Check(env, DropAll(s, id), {id}, 0) && SlotsOf(DropAll(s, id).newTab, id) == {}
  {
    hide IdsOk, AddrOk, RandomOk, NewOk, TriedOk, RefsOk, CountsOk, NewIds;
    var m, r := s.mapInfo, DropAll(s, id);
    TablesDropAll(env, m, id, r.mapInfo[id], s.newTab, s.tried);
    RefsDropAll(m, s.newTab, id, {});
    assert {} + {id} == {id};
    IndexTouch(m, id, r.mapInfo[id], s.nIdCount, s.mapAddr, s.vRandom);
    CountsTouch(m, CountsOf(s, {}, 0), id, r.mapInfo[id]);
    CountsLimbo(r.mapInfo, CountsOf(s, {}, 0), id);
    CountsShift(r.mapInfo, CountsOf(s, {id}, 1), -1);
  }

  lemma CountsShift(m: Infos, c: Counts, d: int)
    requires CountsOk(m, c)
    ensures CountsOk(m, c.(nNew := c.nNew + d, extra := c.extra + d))
  {
  }

  lemma UntryKeeps(env: Env, s: State, slot: Slot, limbo: set<int>, extra: int)
    requires Check(env, s, limbo, extra) && slot in s.tried && s.tried[slot] in s.mapInfo && s.mapInfo[s.tried[slot]].fInTried
    ensures s.tried[slot] !in limbo && Check(env, Untry(s, slot), limbo + {s.tried[slot]}, extra)
  {
    hide IdsOk, AddrOk, RandomOk, NewOk, TriedOk, RefsOk, CountsOk;
    var id, m, n := s.tried[slot], s.mapInfo, Untry(s, slot).mapInfo;
    TablesUntry(env, m, slot, n[id], s.newTab, s.tried, limbo);
    CountsUntry(m, CountsOf(s, limbo, extra), id, n[id]);
    IndexTouch(m, id, n[id], s.nIdCount, s.mapAddr, s.vRandom);
  }

  lemma TryKeeps(env: Env, s: State, id: int, limbo: set<int>, extra: int)
    requires Check(env, s, limbo, extra) && id in limbo && id in s.mapInfo && !s.mapInfo[id].fInTried
    requires TriedSlot(env, s.mapInfo[id].service) !in s.tried
    ensures Check(env, Try(s, TriedSlot(env, s.mapInfo[id].service), id), limbo - {id}, extra)
  {
    hide IdsOk, AddrOk, RandomOk, NewOk, TriedOk, RefsOk, CountsOk;
    var m, n := s.mapInfo, Try(s, TriedSlot(env, s.mapInfo[id].service), id).mapInfo;
    TablesTry(env, m, id, n[id], s.newTab, s.tried, limbo);
    IndexTouch(m, id, n[id], s.nIdCount, s.mapAddr, s.vRandom);
    CountsTry(m, CountsOf(s, limbo, extra), id, n[id]);
  }

  // ---------------------------------------------------------------- operations

  /** Equal up to the reference count and the place in vRandom. */
  predicate SameRecord(i: Info, j: Info) {
    i.(nRefCount := 0, nRandomPos := 0) == j.(nRefCount := 0, nRandomPos := 0)
  }

  /** The entries that survive from `m` to `n` are the same records. */
  predicate Survives(m: Infos, n: Infos) {
    forall id :: id in n ==> id in m && SameRecord(m[id], n[id])
  }

  lemma DeleteSurvives(s: State, id: int)
    requires CanDelete(s, id)
    ensures var r := Delete(s, id);
            Survives(s.mapInfo, r.mapInfo) && r.mapInfo.Keys == s.mapInfo.Keys - {id}
            && (forall k :: k in r.mapInfo ==> r.mapInfo[k].nRefCount == s.mapInfo[k].nRefCount)
            && r.newTab == s.newTab && r.tried == s.tried && r.collisions == s.collisions
  {
  }

  /** What emptying `slot` may do: an id that is gone had its only reference there, the other
      reference counts stay. */
  predicate Cleared(s: State, r: State, slot: Slot) {
    && Survives(s.mapInfo, r.mapInfo) && r.newTab == s.newTab - {slot} && r.tried == s.tried && r.collisions == s.collisions
    && (forall k :: k in s.mapInfo && k !in r.mapInfo ==> SlotsOf(s.newTab, k) == {slot})
    && (forall k :: k in r.mapInfo && slot !in SlotsOf(s.newTab, k) ==> r.mapInfo[k].nRefCount == s.mapInfo[k].nRefCount)
  }

  lemma DropRefClears(s: State, slot: Slot)
    requires slot in s.newTab && s.newTab[slot] in s.mapInfo
    ensures Cleared(s, DropRef(s, slot), slot)
  {
    assert slot in SlotsOf(s.newTab, s.newTab[slot]);
  }

  lemma DeleteClears(s: State, t: State, r: State, slot: Slot, id: int)
    requires Cleared(s, t, slot) && SlotsOf(s.newTab, id) == {slot} && t.mapInfo.Keys == s.mapInfo.Keys
    requires Survives(t.mapInfo, r.mapInfo) && r.mapInfo.Keys == t.mapInfo.Keys - {id}
    requires forall k :: k in r.mapInfo ==> r.mapInfo[k].nRefCount == t.mapInfo[k].nRefCount
    requires r.newTab == t.newTab && r.tried == t.tried && r.collisions == t.collisions
    ensures Cleared(s, r, slot)
  {
  }

  lemma NewKnown(env: Env, s: State, slot: Slot, limbo: set<int>, extra: int)
    requires Check(env, s, limbo, extra) && slot in s.newTab
    ensures s.newTab[slot] in s.mapInfo
  {
    hide IdsOk, AddrOk, RandomOk, TriedOk, RefsOk, CountsOk;
  }

  lemma ClearOccupied(env: Env, s: State, slot: Slot, limbo: set<int>, extra: int)
    requires Check(env, s, limbo, extra) && slot in s.newTab && s.newTab[slot] in s.mapInfo
    ensures var t, id := DropRef(s, slot), s.newTab[slot];
            && (t.mapInfo[id].nRefCount != 0 ==> Check(env, t, limbo, extra) && Cleared(s, t, slot))
            && (t.mapInfo[id].nRefCount == 0 ==>
                  CanDelete(t, id) && Check(env, Delete(t, id), limbo, extra) && Cleared(s, Delete(t, id), slot))
  {
    hide IdsOk, AddrOk, RandomOk, NewOk, TriedOk, CountsOk, Delete, Cleared;
    var t, id := DropRef(s, slot), s.newTab[slot];
    DropRefKeeps(env, s, slot, limbo, extra);
    DropRefClears(s, slot);
    if t.mapInfo[id].nRefCount == 0 {
      DeleteKeeps(env, t, id, limbo + {id}, extra + 1);
      assert limbo + {id} - {id} == limbo;
      DeleteSurvives(t, id);
      LoneSlot(s.newTab, id, slot);
      DeleteClears(s, t, Delete(t, id), slot, id);
    }
  }

  /** ClearNew: empty a slot of the new table, deleting its id when that was the last reference. */
  function ClearNew(env: Env, s: State, slot: Slot, ghost limbo: set<int>, ghost extra: int): (r: State)
    requires Check(env, s, limbo, extra)
    ensures Check(env, r, limbo, extra) && Cleared(s, r, slot)
  {
    if slot !in s.newTab then s
    else
      NewKnown(env, s, slot, limbo, extra);
      ClearOccupied(env, s, slot, limbo, extra);
      var t := DropRef(s, slot);
      if t.mapInfo[s.newTab[slot]].nRefCount != 0 then t else Delete(t, s.newTab[slot])
  }

  lemma LoneSlot(t: Table, id: int, slot: Slot)
    requires slot in SlotsOf(t, id) && |SlotsOf(t, id)| == 1
    ensures SlotsOf(t, id) == {slot}
  {
    assert |SlotsOf(t, id) - {slot}| == 0;
  }

  /** Like Survives, but an entry may also have changed tables; only ids in `moved` became tried. */
  predicate SurvivesMove(m: Infos, n: Infos, moved: set<int>) {
    forall id :: id in n ==>
      && id in m && SameRecord(m[id].(fInTried := false), n[id].(fInTried := false))
      && (n[id].fInTried ==> m[id].fInTried || id in moved)
  }

  /** The new slot of an entry by its own source. */
  function Home(env: Env, i: Info): Slot { NewSlot(env, i.service, i.source) }

  /** Every step of an eviction finds what it needs, and the last one restores the check. */
  lemma EvictKeeps(env: Env, s: State, slot: Slot, limbo: set<int>)
    requires Check(env, s, limbo, 0) && slot in s.tried
    ensures s.tried[slot] in s.mapInfo && s.tried[slot] !in limbo
    ensures var id, u := s.tried[slot], Untry(s, slot); var home := Home(env, u.mapInfo[id]);
            && Check(env, u, limbo + {id}, 0)
            && var w := ClearNew(env, u, home, limbo + {id}, 0);
               && Cleared(u, w, home) && id in w.mapInfo && w.mapInfo[id].nRefCount == 0
               && (forall k :: k in limbo ==> k in w.mapInfo)
               && Check(env, AddRef(w, home, id).(nNew := w.nNew + 1), limbo, 0)
  {
    hide IdsOk, AddrOk, RandomOk, NewOk, RefsOk, CountsOk, ClearNew;
    UntryKeeps(env, s, slot, limbo, 0);
    var id, u := s.tried[slot], Untry(s, slot);
    var home := Home(env, u.mapInfo[id]);
    var w := ClearNew(env, u, home, limbo + {id}, 0);
    InLimbo(env, w, id, limbo + {id}, 0);
    LimboKnown(env, w, limbo + {id}, 0);
    AddRefKeeps(env, w, home, id, limbo + {id}, 0);
    assert limbo + {id} - {id} == limbo;
    BumpNew(env, AddRef(w, home, id), limbo, -1);
  }

  lemma BumpNew(env: Env, s: State, limbo: set<int>, extra: int)
    requires Check(env, s, limbo, extra)
    ensures Check(env, s.(nNew := s.nNew + 1), limbo, extra + 1)
  {
    hide IdsOk, AddrOk, RandomOk, NewOk, RefsOk, TriedOk;
  }

  /** The tried id in `slot` goes back to the new table, pushing out whatever is in its way. */
  function Evict(env: Env, s: State, slot: Slot, ghost limbo: set<int>): (r: State)
    requires Check(env, s, limbo, 0) && slot in s.tried
    ensures Check(env, r, limbo, 0) && r.tried == s.tried - {slot} && r.collisions == s.collisions
    ensures forall k :: k in limbo ==> k in r.mapInfo && r.mapInfo[k].service == s.mapInfo[k].service
  {
    EvictKeeps(env, s, slot, limbo);
    var id := s.tried[slot];
    var u := Untry(s, slot);
    var home := Home(env, u.mapInfo[id]);
    var w := ClearNew(env, u, home, limbo + {id}, 0);
    AddRef(w, home, id).(nNew := w.nNew + 1)
  }

  /** What eviction does, from what ClearNew did in the middle of it. */
  lemma EvictSteps(s: State, slot: Slot, home: Slot, w: State, r: State)
    requires slot in s.tried && s.tried[slot] in s.mapInfo
    requires Survives(Untry(s, slot).mapInfo, w.mapInfo) && w.newTab == s.newTab - {home}
    requires s.tried[slot] in w.mapInfo && w.mapInfo[s.tried[slot]].nRefCount == 0
    requires r == AddRef(w, home, s.tried[slot]).(nNew := w.nNew + 1)
    ensures var id := s.tried[slot];
            && r.newTab == s.newTab[home := id] && r.mapInfo.Keys == w.mapInfo.Keys
            && id in r.mapInfo && !r.mapInfo[id].fInTried && r.mapInfo[id].nRefCount == 1
            && SurvivesMove(s.mapInfo, r.mapInfo, {})
  {
  }

  lemma EvictEffect(env: Env, s: State, slot: Slot, limbo: set<int>)
    requires Check(env, s, limbo, 0) && slot in s.tried && s.tried[slot] in s.mapInfo
    ensures var id, r := s.tried[slot], Evict(env, s, slot, limbo); var home := Home(env, s.mapInfo[id]);
            && r.newTab == s.newTab[home := id]
            && id in r.mapInfo && !r.mapInfo[id].fInTried && r.mapInfo[id].nRefCount == 1
            && SurvivesMove(s.mapInfo, r.mapInfo, {})
            && (forall k :: k in s.mapInfo && k !in r.mapInfo ==> SlotsOf(s.newTab, k) == {home})
  {
    hide RandomOk, AddrOk, NewOk, IdsOk, SurvivesMove;
    var id := s.tried[slot];
    UntryKeeps(env, s, slot, limbo, 0);
    var u := Untry(s, slot);
    var home := Home(env, u.mapInfo[id]);
    var w := ClearNew(env, u, home, limbo + {id}, 0);
    assert id in w.mapInfo && w.mapInfo[id].nRefCount == 0 by { assert id in limbo + {id}; }
    EvictSteps(s, slot, home, w, Evict(env, s, slot, limbo));
    assert u.mapInfo.Keys == s.mapInfo.Keys;
  }

  /** MakeTried: move an id from the new table to its tried slot. */
  function MakeTried(env: Env, s: State, id: int): (r: State)
    requires Inv(env, s) && id in s.mapInfo && !s.mapInfo[id].fInTried
    ensures Inv(env, r) && r.collisions == s.collisions
  {
    DropAllKeeps(env, s, id);
    var a := DropAll(s, id);
    var slot := TriedSlot(env, s.mapInfo[id].service);
    var b := if slot in a.tried then Evict(env, a, slot, {id}) else a;
    assert id in b.mapInfo && b.mapInfo[id].service == s.mapInfo[id].service;
    TryKeeps(env, b, id, {id}, 0);
    assert {id} - {id} == {};
    Try(b, slot, id)
  }

  /** What MakeTried does, from the state `b` after a possible eviction. */
  lemma TrySteps(s: State, id: int, slot: Slot, b: State, r: State)
    requires id in s.mapInfo && SurvivesMove(DropAll(s, id).mapInfo, b.mapInfo, {}) && id in b.mapInfo
    requires b.tried == s.tried - {slot} && r == Try(b, slot, id)
    ensures && id in r.mapInfo && r.mapInfo[id].fInTried && r.tried == s.tried[slot := id]
            && SurvivesMove(s.mapInfo, r.mapInfo, {id}) && r.newTab == b.newTab
            && r.mapInfo.Keys == b.mapInfo.Keys
            && forall k :: k in b.mapInfo && k != id ==> r.mapInfo[k] == b.mapInfo[k]
  {
  }

  /** Id `other` is back in the new table, in its home slot and nowhere else; an id that is gone
      had its only reference in that slot. */
  predicate SentBack(env: Env, s: State, r: State, other: int, base: Table) {
    && other in s.mapInfo && other in r.mapInfo && !r.mapInfo[other].fInTried && r.mapInfo[other].nRefCount == 1
    && var home := Home(env, s.mapInfo[other]);
       r.newTab == base[home := other]
       && forall k :: k in s.mapInfo && k !in r.mapInfo ==> SlotsOf(base, k) == {home}
  }

  /** The id ends up tried in its own slot. The tried id it finds there becomes new again with one
      reference, and at most one id is forgotten: the one whose only reference that costs. */
  lemma MakeTriedEffect(env: Env, s: State, id: int)
    requires Inv(env, s) && id in s.mapInfo && !s.mapInfo[id].fInTried
    ensures var r := MakeTried(env, s, id);
            var slot, base := TriedSlot(env, s.mapInfo[id].service), DropAll(s, id).newTab;
            && id in r.mapInfo && r.mapInfo[id].fInTried && r.tried == s.tried[slot := id]
            && SurvivesMove(s.mapInfo, r.mapInfo, {id})
            && (slot !in s.tried ==> r.newTab == base && r.mapInfo.Keys == s.mapInfo.Keys)
            && (slot in s.tried ==> SentBack(env, s, r, s.tried[slot], base))
  {
    hide RandomOk, AddrOk, NewOk, IdsOk, RefsOk, CountsOk, SurvivesMove;
    DropAllKeeps(env, s, id);
    var slot, a, r := TriedSlot(env, s.mapInfo[id].service), DropAll(s, id), MakeTried(env, s, id);
    if slot in a.tried {
      var b := Evict(env, a, slot, {id});
      EvictEffect(env, a, slot, {id});
      assert id in b.mapInfo;
      TrySteps(s, id, slot, b, r);
    } else {
      SurvivesSelf(a.mapInfo);
      assert s.tried - {slot} == s.tried;
      TrySteps(s, id, slot, a, r);
    }
  }

  lemma SurvivesSelf(m: Infos)
    ensures SurvivesMove(m, m, {})
  {
  }

  function Find(s: State, ip: NetAddr): (r: int)
    ensures r in s.mapInfo || r == -1
  {
    if ip in s.mapAddr && s.mapAddr[ip] in s.mapInfo then s.mapAddr[ip] else -1
  }

  /** Good_ on the entry it found. */
  function Promote(env: Env, s: State, id: int, testBeforeEvict: bool, nTime: int): (r: State)
    requires Inv(env, s) && id in s.mapInfo
    ensures Inv(env, r) && (testBeforeEvict || r.collisions == s.collisions)
  {
    var i := s.mapInfo[id].(nLastSuccess := nTime, nLastTry := nTime, nAttempts := 0);
    TouchKeeps(env, s, id, i, {}, 0);
    var t := SetInfo(s, id, i);
    if i.fInTried || SlotsOf(t.newTab, id) == {} then t
    else if testBeforeEvict && TriedSlot(env, i.service) in t.tried then
      if |t.collisions| < COLLISION_LIMIT then t.(collisions := t.collisions + {id}) else t
    else MakeTried(env, t, id)
  }

  function Good(env: Env, s: State, addr: Service, testBeforeEvict: bool, nTime: int): (r: State)
    requires Inv(env, s)
    ensures Inv(env, r) && (testBeforeEvict || r.collisions == s.collisions)
  {
    var s := s.(nLastGood := nTime);
    var id := Find(s, addr.ip);
    if id !in s.mapInfo || s.mapInfo[id].service != addr then s
    else Promote(env, s, id, testBeforeEvict, nTime)
  }

  predicate IsTerrible(i: Info, now: int) {
    if i.nLastTry != 0 && i.nLastTry >= now - 60 then false
    else
      || i.nTime > now + 600
      || i.nTime == 0 || now - i.nTime > 30 * 24 * 60 * 60
      || (i.nLastSuccess == 0 && i.nAttempts >= 3)
      || (now - i.nLastSuccess > 7 * 24 * 60 * 60 && i.nAttempts >= 10)
  }

  function Max0(x: int): nat { if x < 0 then 0 else x }

  /** What Place meets: an id that Create has just made, or one with a reference already. */
  predicate Placeable(env: Env, s: State, id: int, slot: Slot, created: bool) {
    && Check(env, s, if created then {id} else {}, if created then 1 else 0)
    && id in s.mapInfo && !s.mapInfo[id].fInTried && s.mapInfo[id].nRefCount < MAX_REFS
    && InNewPlace(env, slot, s.mapInfo[id].service)
  }

  lemma PlaceableRefs(env: Env, s: State, id: int, slot: Slot, created: bool)
    requires Placeable(env, s, id, slot, created)
    ensures s.mapInfo[id].nRefCount == 0 <==> created
    ensures slot in s.newTab ==> s.newTab[slot] in s.mapInfo
    ensures created ==> slot !in SlotsOf(s.newTab, id)
  {
  }

  /** Overwriting whatever is in the slot. */
  function Overwrite(env: Env, s: State, id: int, slot: Slot, ghost created: bool): (r: State)
    requires Placeable(env, s, id, slot, created) && slot !in SlotsOf(s.newTab, id)
    ensures Inv(env, r)
  {
    ghost var limbo: set<int> := if created then {id} else {};
    ghost var extra := if created then 1 else 0;
    var t := ClearNew(env, s, slot, limbo, extra);
    assert id in t.mapInfo && t.mapInfo[id].nRefCount == s.mapInfo[id].nRefCount;
    AddRefKeeps(env, t, slot, id, limbo, extra);
    assert limbo - {id} == {};
    AddRef(t, slot, id)
  }

  /** The end of Add_: give the id a reference in `slot`, or drop it when it has none and may not overwrite. */
  function Place(env: Env, s: State, id: int, slot: Slot, now: int, ghost created: bool): (r: State)
    requires Placeable(env, s, id, slot, created)
    ensures Inv(env, r)
  {
    PlaceableRefs(env, s, id, slot, created);
    if slot in s.newTab && s.newTab[slot] == id then s
    else if slot !in s.newTab || IsTerrible(s.mapInfo[s.newTab[slot]], now)
            || (s.mapInfo[s.newTab[slot]].nRefCount > 1 && s.mapInfo[id].nRefCount == 0)
    then Overwrite(env, s, id, slot, created)
    else if s.mapInfo[id].nRefCount == 0 then
      DeleteKeeps(env, s, id, {id}, 1);
      assert {id} - {id} == {};
      Delete(s, id)
    else s
  }

  /** Add_ for an address that is known under this id. */
  function AddKnown(env: Env, s: State, id: int, addr: Address, source: NetAddr, penalty: int, now: int, rnd: nat): (r: State)
    requires Inv(env, s) && id in s.mapInfo
    ensures Inv(env, r)
  {
    var i := Refresh(s.mapInfo[id], addr, penalty, now);
    TouchKeeps(env, s, id, i, {}, 0);
    var t := SetInfo(s, id, i);
    if addr.nTime == 0 || (i.nTime != 0 && addr.nTime <= i.nTime) || i.fInTried || i.nRefCount == MAX_REFS
       || (Factor(i.nRefCount) > 1 && rnd % Factor(i.nRefCount) != 0)
    then t
    else
      RefreshedPlaceable(env, s, id, i, NewSlot(env, i.service, source));
      Place(env, t, id, NewSlot(env, i.service, source), now, false)
  }

  /** Add_; the flag is true exactly when the address was routable and unknown, stored or not. */
  function Add(env: Env, s: State, addr: Address, source: NetAddr, penalty: int, now: int, rnd: nat): (r: (State, bool))
    requires Inv(env, s)
    ensures Inv(env, r.0)
    ensures r.1 <==> env.routable(addr.service.ip) && addr.service.ip !in s.mapAddr
  {
    if !env.routable(addr.service.ip) then (s, false)
    else
      var penalty := if addr.service.ip == source then 0 else penalty;
      var id := Find(s, addr.service.ip);
      if id in s.mapInfo then (AddKnown(env, s, id, addr, source, penalty, now, rnd), false)
      else
        var id := s.nIdCount;
        (Place(env, Introduce(env, s, addr, source, penalty), id, NewSlot(env, addr.service, source), now, true), true)
  }

  function Factor(n: int): nat
    ensures Factor(n) > 0
  {
    if n <= 0 then 1 else 2 * Factor(n - 1)
  }

  lemma RefreshedPlaceable(env: Env, s: State, id: int, i: Info, slot: Slot)
    requires Inv(env, s) && id in s.mapInfo && SameShape(i, s.mapInfo[id]) && !i.fInTried && i.nRefCount != MAX_REFS
    requires InNewPlace(env, slot, i.service)
    ensures Placeable(env, SetInfo(s, id, i), id, slot, false)
  {
    hide IdsOk, AddrOk, RandomOk, NewOk, TriedOk, CountsOk;
    TouchKeeps(env, s, id, i, {}, 0);
  }

  /** What Add_ learns about an address it already knows. */
  function Refresh(i: Info, addr: Address, penalty: int, now: int): (r: Info)
    ensures SameShape(r, i)
  {
    var interval := if now - addr.nTime < 24 * 60 * 60 then 60 * 60 else 24 * 60 * 60;
    var i := if addr.nTime != 0 && (i.nTime == 0 || i.nTime < addr.nTime - interval - penalty)
             then i.(nTime := Max0(addr.nTime - penalty)) else i;
    i.(nServices := i.nServices + addr.nServices)
  }

  /** Create, the time penalty, and the new count. */
  function Introduce(env: Env, s: State, addr: Address, source: NetAddr, penalty: int): (r: State)
    requires Inv(env, s) && addr.service.ip !in s.mapAddr
    ensures Placeable(env, r, s.nIdCount, NewSlot(env, addr.service, source), true)
    ensures r.mapInfo[s.nIdCount].service == addr.service
  {
    var id := s.nIdCount;
    CreateKeeps(env, s, addr, source, {}, 0);
    assert {} + {id} == {id};
    var t := Create(s, addr, source);
    var i := t.mapInfo[id].(nTime := Max0(addr.nTime - penalty));
    TouchKeeps(env, t, id, i, {id}, 0);
    var u := SetInfo(t, id, i);
    u.(nNew := u.nNew + 1)
  }

  /** The entry for exactly this address and port, or -1. */
  function Exact(s: State, addr: Service): (r: int)
    ensures r in s.mapInfo || r == -1
  {
    var id := Find(s, addr.ip);
    if id in s.mapInfo && s.mapInfo[id].service == addr then id else -1
  }

  function Attempt(env: Env, s: State, addr: Service, countFailure: bool, nTime: int): (r: State)
    requires Inv(env, s)
    ensures Inv(env, r)
  {
    var id := Exact(s, addr);
    if id !in s.mapInfo then s
    else
      var i := s.mapInfo[id].(nLastTry := nTime);
      var j := if countFailure && i.nLastCountAttempt < s.nLastGood
               then i.(nLastCountAttempt := nTime, nAttempts := i.nAttempts + 1) else i;
      TouchKeeps(env, s, id, j, {}, 0);
      SetInfo(s, id, j)
  }

  function Connected(env: Env, s: State, addr: Service, nTime: nat): (r: State)
    requires Inv(env, s)
    ensures Inv(env, r)
  {
    var id := Exact(s, addr);
    if id !in s.mapInfo || nTime - s.mapInfo[id].nTime <= 20 * 60 then s
    else
      TouchKeeps(env, s, id, s.mapInfo[id].(nTime := nTime), {}, 0);
      SetInfo(s, id, s.mapInfo[id].(nTime := nTime))
  }

  function SetServices(env: Env, s: State, addr: Service, nServices: Services): (r: State)
    requires Inv(env, s)
    ensures Inv(env, r)
  {
    var id := Exact(s, addr);
    if id !in s.mapInfo then s
    else
      TouchKeeps(env, s, id, s.mapInfo[id].(nServices := nServices), {}, 0);
      SetInfo(s, id, s.mapInfo[id].(nServices := nServices))
  }

  // ---------------------------------------------------------------- ResolveCollisions_

  /** What one collision does to the tables, and whether it is settled. */
  function ResolveOne(env: Env, s: State, id: int, now: int): (r: (State, bool))
    requires Inv(env, s)
    ensures Inv(env, r.0) && r.0.collisions == s.collisions
  {
    if id !in s.mapInfo then (s, true)
    else
      var i := s.mapInfo[id];
      var slot := TriedSlot(env, i.service);
      if !env.valid(i.service.ip) then (s, true)
      else if slot in s.tried then
        var old_ := s.mapInfo[s.tried[slot]];
        if now - old_.nLastSuccess < 4 * 60 * 60 then (s, true)
        else if now - old_.nLastTry < 4 * 60 * 60 && now - old_.nLastTry > 60
        then (Good(env, s, i.service, false, now), true)
        else (s, false)
      else (Good(env, s, i.service, false, now), true)
  }

  function ResolveFrom(env: Env, s: State, todo: set<int>, now: int): (r: State)
    requires Inv(env, s)
    ensures Inv(env, r)
    decreases todo
  {
    if todo == {} then s
    else
      var id := Smallest(todo);
      var (t, settled) := ResolveOne(env, s, id, now);
      ResolveFrom(env, if settled then t.(collisions := t.collisions - {id}) else t, todo - {id}, now)
  }

  function Resolve(env: Env, s: State, now: int): (r: State)
    requires Inv(env, s)
    ensures Inv(env, r)
  {
    ResolveFrom(env, s, s.collisions, now)
  }

  // ---------------------------------------------------------------- GetAddr_

  function AddressOf(i: Info): Address { Address(i.service, i.nServices, i.nTime) }

  function MaxAddr(size: nat): nat {
    var n := 23 * size / 100;
    if n > 2500 then 2500 else n
  }

  /** Equal but for the order of vRandom and the positions that mirror it. */
  predicate Reordered(s: State, t: State) {
    && t.mapInfo.Keys == s.mapInfo.Keys && multiset(t.vRandom) == multiset(s.vRandom)
    && (forall id :: id in s.mapInfo ==> SameRecord(s.mapInfo[id], t.mapInfo[id]))
    && t.(mapInfo := s.mapInfo, vRandom := s.vRandom) == s
  }

  predicate AllKnown(m: Infos, ids: seq<int>) { forall i :: 0 <= i < |ids| ==> ids[i] in m }

  lemma SwapReorders(s: State, i: int, j: int)
    requires 0 <= i <= j < |s.vRandom| && AllKnown(s.mapInfo, s.vRandom)
    ensures var t := SwapRandom(s, i, j); Reordered(s, t) && t.vRandom[..i] == s.vRandom[..i]
  {
    var t := SwapRandom(s, i, j);
    if i != j { MultisetSwap(s.vRandom, i, j); }
  }

  lemma MultisetSwap(v: seq<int>, i: int, j: int)
    requires 0 <= i < j < |v|
    ensures multiset(v[i := v[j]][j := v[i]]) == multiset(v)
  {
  }

  lemma ReorderedTransitive(s: State, t: State, u: State)
    requires Reordered(s, t) && Reordered(t, u)
    ensures Reordered(s, u)
  {
  }

  /** One turn of GetAddr_'s loop. */
  function ShuffleStep(env: Env, s: State, n: nat, rnd: nat): (t: State)
    requires Inv(env, s) && n < |s.vRandom|
    ensures Inv(env, t) && Reordered(s, t) && |t.vRandom| == |s.vRandom| && t.vRandom[..n] == s.vRandom[..n]
    ensures AllKnown(t.mapInfo, t.vRandom)
  {
    var j := rnd % (|s.vRandom| - n) + n;
    assert AllKnown(s.mapInfo, s.vRandom);
    SwapKeeps(env, s, n, j, {}, 0);
    SwapReorders(s, n, j);
    SwapRandom(s, n, j)
  }

  /** GetAddr_'s loop from position `n`: shuffle vRandom in place and collect. Also gives where it stopped. */
  function Shuffle(env: Env, s: State, n: nat, cap: nat, out: seq<Address>, rnd: nat -> nat, now: int): (r: (State, seq<Address>, nat))
    requires Inv(env, s) && n <= |s.vRandom|
    ensures Inv(env, r.0) && n <= r.2 <= |s.vRandom| == |r.0.vRandom|
    decreases |s.vRandom| - n
  {
    if n == |s.vRandom| || |out| >= cap then (s, out, n)
    else
      var t := ShuffleStep(env, s, n, rnd(n));
      var i := t.mapInfo[t.vRandom[n]];
      Shuffle(env, t, n + 1, cap, if IsTerrible(i, now) then out else out + [AddressOf(i)], rnd, now)
  }

  function GetAddr(env: Env, s: State, rnd: nat -> nat, now: int): (r: (State, seq<Address>, nat))
    requires Inv(env, s)
    ensures Inv(env, r.0) && r.2 <= |r.0.vRandom|
  {
    Shuffle(env, s, 0, MaxAddr(|s.vRandom|), [], rnd, now)
  }

  /** The good addresses of a list of ids, in order. */
  function Picked(m: Infos, ids: seq<int>, now: int): seq<Address>
    requires AllKnown(m, ids)
  {
    if ids == [] then []
    else
      var rest, i := Picked(m, ids[..|ids| - 1], now), m[ids[|ids| - 1]];
      if IsTerrible(i, now) then rest else rest + [AddressOf(i)]
  }

  lemma {:induction false} PickedSame(m: Infos, n: Infos, ids: seq<int>, now: int)
    requires AllKnown(m, ids) && m.Keys == n.Keys && forall id :: id in m ==> SameRecord(m[id], n[id])
    ensures AllKnown(n, ids) && Picked(m, ids, now) == Picked(n, ids, now)
  {
    if ids != [] { PickedSame(m, n, ids[..|ids| - 1], now); }
  }

  /** What the loop has promised by position `n`. */
  predicate Collected(t: State, got: seq<Address>, n: nat, now: int) {
    n <= |t.vRandom| && AllKnown(t.mapInfo, t.vRandom) && got == Picked(t.mapInfo, t.vRandom[..n], now)
  }

  lemma CollectNext(s: State, t: State, n: nat, out: seq<Address>, now: int)
    requires Collected(s, out, n, now) && n < |s.vRandom| == |t.vRandom| && Reordered(s, t)
    requires t.vRandom[..n] == s.vRandom[..n] && AllKnown(t.mapInfo, t.vRandom)
    ensures var i := t.mapInfo[t.vRandom[n]];
            Collected(t, if IsTerrible(i, now) then out else out + [AddressOf(i)], n + 1, now)
  {
    assert t.vRandom[..n + 1][..n] == s.vRandom[..n];
    PickedSame(s.mapInfo, t.mapInfo, s.vRandom[..n], now);
  }

  lemma {:induction false} ShufflePicks(env: Env, s: State, n: nat, cap: nat, out: seq<Address>, rnd: nat -> nat, now: int)
    requires Inv(env, s) && n <= |s.vRandom| && |out| <= cap && Collected(s, out, n, now)
    ensures var r := Shuffle(env, s, n, cap, out, rnd, now);
            && Reordered(s, r.0) && Collected(r.0, r.1, r.2, now)
            && |r.1| <= cap && (r.2 < |r.0.vRandom| ==> |r.1| == cap)
    decreases |s.vRandom| - n
  {
    hide Inv, Collected, Reordered, ShuffleStep, IsTerrible;
    if n < |s.vRandom| && |out| < cap {
      var t := ShuffleStep(env, s, n, rnd(n));
      CollectNext(s, t, n, out, now);
      var i := t.mapInfo[t.vRandom[n]];
      ShufflePicks(env, t, n + 1, cap, if IsTerrible(i, now) then out else out + [AddressOf(i)], rnd, now);
      ReorderedTransitive(s, t, Shuffle(env, s, n, cap, out, rnd, now).0);
    } else {
      ReorderedSelf(s);
    }
  }

  lemma ReorderedSelf(s: State)
    ensures Reordered(s, s)
  {
  }

  /** GetAddr_ hands out the good addresses of a prefix of the shuffled ids: never more than the cap,
      all of them when it reached the end, and no entry twice since vRandom stays a list of distinct ids. */
  lemma GetAddrResult(env: Env, s: State, rnd: nat -> nat, now: int)
    requires Inv(env, s)
    ensures var (t, got, stop) := GetAddr(env, s, rnd, now);
            && Reordered(s, t) && Collected(t, got, stop, now)
            && (forall i, j :: 0 <= i < j < |t.vRandom| ==> t.vRandom[i] != t.vRandom[j])
            && |got| <= MaxAddr(|s.vRandom|) && (stop < |t.vRandom| ==> |got| == MaxAddr(|s.vRandom|))
  {
    assert AllKnown(s.mapInfo, s.vRandom) && s.vRandom[..0] == [];
    ShufflePicks(env, s, 0, MaxAddr(|s.vRandom|), [], rnd, now);
    DistinctRandom(env, GetAddr(env, s, rnd, now).0);
  }

  lemma DistinctRandom(env: Env, t: State)
    requires Inv(env, t)
    ensures forall i, j :: 0 <= i < j < |t.vRandom| ==> t.vRandom[i] != t.vRandom[j]
  {
    var v := t.vRandom;
    forall i, j | 0 <= i < j < |v| ensures v[i] != v[j] {
      assert t.mapInfo[v[i]].nRandomPos == i && t.mapInfo[v[j]].nRandomPos == j;
    }
  }

  // ---------------------------------------------------------------- what Add_ does

  /** Whether a new address may take the slot. */
  predicate CanTake(s: State, slot: Slot, now: int)
    requires slot in s.newTab ==> s.newTab[slot] in s.mapInfo
  {
    slot !in s.newTab || IsTerrible(s.mapInfo[s.newTab[slot]], now) || s.mapInfo[s.newTab[slot]].nRefCount > 1
  }

  /** From `s` to `r` the new table changed in `slot` only, where `id` now is, and an id that is
      gone had its only reference there. */
  predicate TookSlot(s: State, r: State, id: int, slot: Slot) {
    && r.newTab == s.newTab[slot := id] && r.tried == s.tried
    && Survives(s.mapInfo, r.mapInfo) && id in s.mapInfo && id in r.mapInfo
    && r.mapInfo[id].nRefCount == s.mapInfo[id].nRefCount + 1
    && (forall k :: k in s.mapInfo && k !in r.mapInfo ==> SlotsOf(s.newTab, k) == {slot})
  }

  lemma AddRefSurvives(s: State, t: State, id: int, slot: Slot)
    requires id in t.mapInfo && Survives(s.mapInfo, t.mapInfo) && id in s.mapInfo
    requires t.mapInfo[id].nRefCount == s.mapInfo[id].nRefCount && t.newTab == s.newTab - {slot} && t.tried == s.tried
    requires forall k :: k in s.mapInfo && k !in t.mapInfo ==> SlotsOf(s.newTab, k) == {slot}
    ensures TookSlot(s, AddRef(t, slot, id), id, slot)
  {
  }

  lemma OverwriteEffect(env: Env, s: State, id: int, slot: Slot, created: bool)
    requires Placeable(env, s, id, slot, created) && slot !in SlotsOf(s.newTab, id)
    ensures TookSlot(s, Overwrite(env, s, id, slot, created), id, slot)
  {
    hide IdsOk, AddrOk, RandomOk, NewOk, TriedOk, RefsOk, TookSlot;
    var limbo: set<int> := if created then {id} else {};
    var t := ClearNew(env, s, slot, limbo, if created then 1 else 0);
    AddRefSurvives(s, t, id, slot);
  }

  /** An id with a reference gets another one in this slot only if that is free or holds a terrible entry. */
  predicate CanRefer(s: State, id: int, slot: Slot, now: int)
    requires slot in s.newTab ==> s.newTab[slot] in s.mapInfo
  {
    slot !in s.newTab || (s.newTab[slot] != id && IsTerrible(s.mapInfo[s.newTab[slot]], now))
  }

  lemma PlaceEffect(env: Env, s: State, id: int, slot: Slot, now: int, created: bool)
    requires Placeable(env, s, id, slot, created) && (slot in s.newTab ==> s.newTab[slot] in s.mapInfo)
    ensures var r := Place(env, s, id, slot, now, created);
            && Survives(s.mapInfo, r.mapInfo) && r.tried == s.tried
            && (created && CanTake(s, slot, now) ==> TookSlot(s, r, id, slot))
            && (created && !CanTake(s, slot, now) ==> r.newTab == s.newTab && r.mapInfo.Keys == s.mapInfo.Keys - {id})
            && (!created ==> if CanRefer(s, id, slot, now) then TookSlot(s, r, id, slot) else r == s)
  {
    hide IdsOk, AddrOk, RandomOk, NewOk, TriedOk, RefsOk, CountsOk, Overwrite, IsTerrible, Delete;
    PlaceableRefs(env, s, id, slot, created);
    if slot in s.newTab && s.newTab[slot] == id {
    } else if CanTake(s, slot, now) && (created || slot !in s.newTab || IsTerrible(s.mapInfo[s.newTab[slot]], now)) {
      OverwriteEffect(env, s, id, slot, created);
    } else if created {
      InLimbo(env, s, id, {id}, 1);
      DeleteSurvives(s, id);
    }
  }

  /** A new entry: what was announced and by whom, at its time less the penalty, never tried. */
  function Fresh(addr: Address, source: NetAddr, penalty: int, refs: int, pos: int): Info {
    Info(addr.service, addr.nServices, if addr.nTime < penalty then 0 else addr.nTime - penalty, source, 0, 0, 0, 0, refs, false, pos)
  }

  /** A routable address that was unknown is stored, with one reference, exactly when its slot is free or
      holds an entry that is terrible or has another reference; storing it forgets at most the entry whose
      only reference was in that slot. Otherwise the book is as before, although the flag is true. */
  lemma AddUnknown(env: Env, s: State, addr: Address, source: NetAddr, penalty: int, now: int, rnd: nat)
    requires Inv(env, s) && env.routable(addr.service.ip) && addr.service.ip !in s.mapAddr
    ensures var r, slot, id := Add(env, s, addr, source, penalty, now, rnd).0, NewSlot(env, addr.service, source), s.nIdCount;
            && (slot in s.newTab ==> s.newTab[slot] in s.mapInfo)
            && (addr.service.ip in r.mapAddr <==> CanTake(s, slot, now))
            && r.tried == s.tried && id !in s.mapInfo
            && (CanTake(s, slot, now) ==>
                  && r.newTab == s.newTab[slot := id] && id in r.mapInfo
                  && r.mapInfo[id] == Fresh(addr, source, if addr.service.ip == source then 0 else penalty, 1, r.mapInfo[id].nRandomPos)
                  && (forall k :: k in s.mapInfo && k !in r.mapInfo ==> SlotsOf(s.newTab, k) == {slot}))
            && (!CanTake(s, slot, now) ==> r.newTab == s.newTab && r.mapInfo.Keys == s.mapInfo.Keys)
  {
    hide IdsOk, AddrOk, RandomOk, NewOk, TriedOk, RefsOk, CountsOk, Place, IsTerrible;
    var pen := if addr.service.ip == source then 0 else penalty;
    var t := Introduce(env, s, addr, source, pen);
    var slot, id := NewSlot(env, addr.service, source), s.nIdCount;
    IntroduceEffect(env, s, addr, source, pen);
    PlaceEffect(env, t, id, slot, now, true);
    if CanTake(s, slot, now) { assert SameRecord(t.mapInfo[id], Place(env, t, id, slot, now, true).mapInfo[id]); }
    KnownByAddress(env, Place(env, t, id, slot, now, true), addr.service.ip);
    KnownByAddress(env, s, addr.service.ip);
  }

  lemma FirstEntry(env: Env, addr: Address, source: NetAddr, now: int, rnd: nat)
    requires env.routable(addr.service.ip) && Inv(env, EMPTY)
    ensures var s := Add(env, EMPTY, addr, source, 0, now, rnd).0;
            && s.newTab == map[NewSlot(env, addr.service, source) := 0] && s.mapInfo.Keys == {0}
            && s.mapInfo[0].service == addr.service && s.mapInfo[0].nTime == addr.nTime && s.mapInfo[0].nRefCount == 1
            && s.mapInfo[0].nLastTry == 0 && s.mapInfo[0].nAttempts == 0
  {
    hide IdsOk, AddrOk, RandomOk, NewOk, TriedOk, RefsOk, CountsOk, Place;
    var t, slot := Introduce(env, EMPTY, addr, source, 0), NewSlot(env, addr.service, source);
    IntroduceEffect(env, EMPTY, addr, source, 0);
    PlaceEffect(env, t, 0, slot, now, true);
    var r := Place(env, t, 0, slot, now, true);
    assert SameRecord(t.mapInfo[0], r.mapInfo[0]);
    forall k | k in r.mapInfo.Keys ensures k == 0 { assert k in t.mapInfo.Keys; }
    assert 0 in r.mapInfo.Keys;
  }

  /** The second of two fresh addresses with the same new slot is reported as new and not stored. */
  lemma SecondIsDropped(env: Env, a1: Address, a2: Address, source: NetAddr, now: int, rnd: nat)
    requires env.routable(a1.service.ip) && env.routable(a2.service.ip) && a1.service.ip != a2.service.ip
    requires NewSlot(env, a1.service, source) == NewSlot(env, a2.service, source)
    requires 0 < a1.nTime <= now <= a1.nTime + 30 * 24 * 60 * 60
    ensures Inv(env, EMPTY)
    ensures var s := Add(env, EMPTY, a1, source, 0, now, rnd).0; var (r, fNew) := Add(env, s, a2, source, 0, now, rnd);
            a1.service.ip in s.mapAddr && fNew && a2.service.ip !in r.mapAddr && r.newTab == s.newTab
  {
    hide Inv, Add;
    EmptyOk(env);
    var s := Add(env, EMPTY, a1, source, 0, now, rnd).0;
    FirstEntry(env, a1, source, now, rnd);
    KnownByAddress(env, s, a1.service.ip);
    KnownByAddress(env, s, a2.service.ip);
    assert a2.service.ip !in s.mapAddr;
    AddUnknown(env, s, a2, source, 0, now, rnd);
  }

  lemma IntroduceEffect(env: Env, s: State, addr: Address, source: NetAddr, penalty: int)
    requires Inv(env, s) && addr.service.ip !in s.mapAddr
    ensures var t, id := Introduce(env, s, addr, source, penalty), s.nIdCount;
            && id !in s.mapInfo && t.mapInfo.Keys == s.mapInfo.Keys + {id} && t.newTab == s.newTab && t.tried == s.tried
            && (forall k :: k in s.mapInfo ==> t.mapInfo[k] == s.mapInfo[k])
            && t.mapInfo[id] == Fresh(addr, source, penalty, 0, |s.vRandom|)
            && (forall x :: x in s.newTab ==> s.newTab[x] in s.mapInfo)
  {
    hide RandomOk, AddrOk, RefsOk, CountsOk, TriedOk;
  }

  /** The address index knows exactly the addresses of the entries. */
  lemma KnownByAddress(env: Env, s: State, ip: NetAddr)
    requires Inv(env, s)
    ensures ip in s.mapAddr <==> exists id :: id in s.mapInfo && s.mapInfo[id].service.ip == ip
    ensures ip in s.mapAddr <==> Find(s, ip) in s.mapInfo
  {
    if ip in s.mapAddr {
      var id := s.mapAddr[ip];
      assert id in s.mapInfo && s.mapInfo[id].service.ip == ip;
    }
  }

  // ---------------------------------------------------------------- what Good_ does

  /** The id is tried in `slot`; what was there is back in the new table; at most one id is forgotten. */
  predicate Promoted(env: Env, s: State, r: State, id: int, slot: Slot) {
    && id in s.mapInfo && id in r.mapInfo && r.mapInfo[id].fInTried && r.tried == s.tried[slot := id]
    && (slot !in s.tried ==> r.newTab == DropAll(s, id).newTab && r.mapInfo.Keys == s.mapInfo.Keys)
    && (slot in s.tried ==> SentBack(env, s, r, s.tried[slot], DropAll(s, id).newTab))
  }

  lemma PromotedTouch(env: Env, s: State, i: Info, r: State, id: int, slot: Slot)
    requires id in s.mapInfo && (slot in s.tried ==> s.tried[slot] != id)
    requires Promoted(env, SetInfo(s, id, i), r, id, slot)
    ensures Promoted(env, s, r, id, slot)
  {
  }

  lemma PromoteEffect(env: Env, s: State, id: int, testBeforeEvict: bool, nTime: int)
    requires Inv(env, s) && id in s.mapInfo && !s.mapInfo[id].fInTried
    ensures SlotsOf(s.newTab, id) != {}
    ensures var slot := TriedSlot(env, s.mapInfo[id].service);
            !(testBeforeEvict && slot in s.tried) ==>
              Promoted(env, s, Promote(env, s, id, testBeforeEvict, nTime), id, slot)
  {
    hide IdsOk, AddrOk, RandomOk, NewOk, CountsOk, MakeTried, SentBack, DropAll;
    assert |SlotsOf(s.newTab, id)| > 0;
    var i := s.mapInfo[id].(nLastSuccess := nTime, nLastTry := nTime, nAttempts := 0);
    var t, slot := SetInfo(s, id, i), TriedSlot(env, s.mapInfo[id].service);
    TouchKeeps(env, s, id, i, {}, 0);
    MakeTriedEffect(env, t, id);
    assert Promoted(env, t, MakeTried(env, t, id), id, slot);
    PromotedTouch(env, s, i, MakeTried(env, t, id), id, slot);
  }

  /** Good_ on a known untried address always finds a new bucket for it, so the bail-out is never
      taken. Unless it only records a collision, the address ends up tried in its own slot, the tried
      entry it displaces goes back to the new table, and at most one entry is forgotten. */
  lemma GoodPromotes(env: Env, s: State, addr: Service, testBeforeEvict: bool, nTime: int)
    requires Inv(env, s) && Exact(s, addr) in s.mapInfo && !s.mapInfo[Exact(s, addr)].fInTried
    ensures SlotsOf(s.newTab, Exact(s, addr)) != {}
    ensures !(testBeforeEvict && TriedSlot(env, addr) in s.tried) ==>
              Promoted(env, s.(nLastGood := nTime), Good(env, s, addr, testBeforeEvict, nTime), Exact(s, addr), TriedSlot(env, addr))
  {
    hide AddrOk, RandomOk, NewOk, TriedOk, RefsOk, CountsOk, Promote, Promoted;
    PromoteEffect(env, s.(nLastGood := nTime), Exact(s, addr), testBeforeEvict, nTime);
  }

  // ---------------------------------------------------------------- clocks

  /** The time conditions of the consistency check. */
  predicate Clocked(m: Infos) {
    forall id :: id in m ==>
      m[id].nLastTry >= 0 && m[id].nLastSuccess >= 0 && (m[id].fInTried ==> m[id].nLastSuccess > 0)
  }

  lemma SurvivesClocked(m: Infos, n: Infos)
    requires Clocked(m) && Survives(m, n)
    ensures Clocked(n)
  {
    forall id | id in n ensures n[id].nLastTry == m[id].nLastTry && n[id].nLastSuccess == m[id].nLastSuccess && n[id].fInTried == m[id].fInTried {}
  }

  lemma MoveClocked(m: Infos, n: Infos, id: int)
    requires Clocked(m) && SurvivesMove(m, n, {id}) && id in m && m[id].nLastSuccess > 0
    ensures Clocked(n)
  {
    forall k | k in n ensures n[k].nLastTry == m[k].nLastTry && n[k].nLastSuccess == m[k].nLastSuccess {}
  }

  lemma PromoteClocked(env: Env, s: State, id: int, testBeforeEvict: bool, nTime: int)
    requires Inv(env, s) && Clocked(s.mapInfo) && nTime > 0 && id in s.mapInfo
    ensures Clocked(Promote(env, s, id, testBeforeEvict, nTime).mapInfo)
  {
    hide Check, SlotsOf, MakeTried, SurvivesMove;
    var i := s.mapInfo[id].(nLastSuccess := nTime, nLastTry := nTime, nAttempts := 0);
    TouchKeeps(env, s, id, i, {}, 0);
    var t := SetInfo(s, id, i);
    if !i.fInTried {
      MakeTriedEffect(env, t, id);
      MoveClocked(t.mapInfo, MakeTried(env, t, id).mapInfo, id);
    }
  }

  lemma GoodClocked(env: Env, s: State, addr: Service, testBeforeEvict: bool, nTime: int)
    requires Inv(env, s) && Clocked(s.mapInfo) && nTime > 0
    ensures Clocked(Good(env, s, addr, testBeforeEvict, nTime).mapInfo)
  {
    hide IdsOk, AddrOk, RandomOk, NewOk, TriedOk, RefsOk, CountsOk, Promote, Clocked;
    var t := s.(nLastGood := nTime);
    var id := Find(t, addr.ip);
    if id in t.mapInfo { PromoteClocked(env, t, id, testBeforeEvict, nTime); }
  }

  lemma PlaceClocked(env: Env, s: State, id: int, slot: Slot, now: int, created: bool)
    requires Placeable(env, s, id, slot, created) && Clocked(s.mapInfo)
    ensures Clocked(Place(env, s, id, slot, now, created).mapInfo)
  {
    hide Check, Place, Clocked, Survives;
    PlaceableRefs(env, s, id, slot, created);
    PlaceEffect(env, s, id, slot, now, created);
    SurvivesClocked(s.mapInfo, Place(env, s, id, slot, now, created).mapInfo);
  }

  lemma AddClocked(env: Env, s: State, addr: Address, source: NetAddr, penalty: int, now: int, rnd: nat)
    requires Inv(env, s) && Clocked(s.mapInfo)
    ensures Clocked(Add(env, s, addr, source, penalty, now, rnd).0.mapInfo)
  {
    hide Check, Place, Placeable;
    if env.routable(addr.service.ip) {
      var pen := if addr.service.ip == source then 0 else penalty;
      var id := Find(s, addr.service.ip);
      KnownByAddress(env, s, addr.service.ip);
      if id in s.mapInfo {
        var i := Refresh(s.mapInfo[id], addr, pen, now);
        var t, slot := SetInfo(s, id, i), NewSlot(env, i.service, source);
        assert Clocked(t.mapInfo);
        if !i.fInTried && i.nRefCount != MAX_REFS {
          RefreshedPlaceable(env, s, id, i, slot);
          PlaceClocked(env, t, id, slot, now, false);
        }
      } else {
        var t := Introduce(env, s, addr, source, pen);
        IntroduceEffect(env, s, addr, source, pen);
        assert Clocked(t.mapInfo);
        PlaceClocked(env, t, s.nIdCount, NewSlot(env, addr.service, source), now, true);
      }
    }
  }

  lemma {:induction false} ResolveClocked(env: Env, s: State, todo: set<int>, now: int)
    requires Inv(env, s) && Clocked(s.mapInfo) && now > 0
    ensures Clocked(ResolveFrom(env, s, todo, now).mapInfo)
    decreases todo
  {
    hide IdsOk, AddrOk, RandomOk, NewOk, TriedOk, RefsOk, CountsOk, Good, Clocked;
    if todo != {} {
      var id := Smallest(todo);
      if id in s.mapInfo { GoodClocked(env, s, s.mapInfo[id].service, false, now); }
      var r := ResolveOne(env, s, id, now);
      ResolveClocked(env, if r.1 then r.0.(collisions := r.0.collisions - {id}) else r.0, todo - {id}, now);
    }
  }

  // ---------------------------------------------------------------- runs

  datatype Op =
    | OpAdd(addr: Address, source: NetAddr, penalty: int, now: int, rnd: nat)
    | OpGood(service: Service, testBeforeEvict: bool, nTime: int)
    | OpAttempt(service: Service, countFailure: bool, nTime: int)
    | OpConnected(service: Service, seen: nat)
    | OpSetServices(service: Service, nServices: Services)
    | OpGetAddr(rnds: nat -> nat, now: int)
    | OpResolve(now: int)

  function Apply(env: Env, s: State, op: Op): (r: State)
    requires Inv(env, s)
    ensures Inv(env, r)
  {
    match op
    case OpAdd(addr, source, penalty, now, rnd) => Add(env, s, addr, source, penalty, now, rnd).0
    case OpGood(a, testBeforeEvict, nTime) => Good(env, s, a, testBeforeEvict, nTime)
    case OpAttempt(a, countFailure, nTime) => Attempt(env, s, a, countFailure, nTime)
    case OpConnected(a, seen) => Connected(env, s, a, seen)
    case OpSetServices(a, nServices) => SetServices(env, s, a, nServices)
    case OpGetAddr(rnds, now) => GetAddr(env, s, rnds, now).0
    case OpResolve(now) => Resolve(env, s, now)
  }

  /** The clock the operation reads is positive. */
  predicate InTime(op: Op) {
    match op
    case OpGood(_, _, nTime) => nTime > 0
    case OpAttempt(_, _, nTime) => nTime >= 0
    case OpResolve(now) => now > 0
    case _ => true
  }

  lemma ApplyClocked(env: Env, s: State, op: Op)
    requires Inv(env, s) && Clocked(s.mapInfo) && InTime(op)
    ensures Clocked(Apply(env, s, op).mapInfo)
  {
    hide IdsOk, AddrOk, RandomOk, NewOk, TriedOk, RefsOk, CountsOk, Add, Good, ResolveFrom, Shuffle;
    match op
    case OpAdd(addr, source, penalty, now, rnd) => AddClocked(env, s, addr, source, penalty, now, rnd);
    case OpGood(a, testBeforeEvict, nTime) => GoodClocked(env, s, a, testBeforeEvict, nTime);
    case OpAttempt(a, countFailure, nTime) =>
    case OpConnected(a, seen) =>
    case OpSetServices(a, nServices) =>
    case OpGetAddr(rnds, now) => GetAddrResult(env, s, rnds, now);
    case OpResolve(now) => ResolveClocked(env, s, s.collisions, now);
  }

  function Run(env: Env, s: State, ops: seq<Op>): (r: State)
    requires Inv(env, s)
    ensures Inv(env, r)
    decreases |ops|
  {
    if ops == [] then s else Run(env, Apply(env, s, ops[0]), ops[1..])
  }

  const EMPTY := State(0, map[], map[], [], 0, map[], 0, map[], 1, {})

  lemma EmptyOk(env: Env)
    ensures Inv(env, EMPTY)
  {
    assert NewIds(map[]) == {} && TriedIds(map[]) == {};
  }

  lemma {:induction false} RunClocked(env: Env, s: State, ops: seq<Op>)
    requires Inv(env, s) && Clocked(s.mapInfo) && forall i :: 0 <= i < |ops| ==> InTime(ops[i])
    ensures Clocked(Run(env, s, ops).mapInfo)
    decreases |ops|
  {
    hide Inv, Clocked, Apply;
    if ops != [] {
      ApplyClocked(env, s, ops[0]);
      RunClocked(env, Apply(env, s, ops[0]), ops[1..]);
    }
  }

  /** Every run from an empty manager passes the consistency check after every operation. */
  lemma EveryRunPasses(env: Env, ops: seq<Op>)
    requires forall i :: 0 <= i < |ops| ==> InTime(ops[i])
    ensures Inv(env, EMPTY)
    ensures Inv(env, Run(env, EMPTY, ops)) && Clocked(Run(env, EMPTY, ops).mapInfo)
  {
    EmptyOk(env);
    RunClocked(env, EMPTY, ops);
  }
}
