/** What each operation of the address manager does to the entry it is about (src/addrman.cpp). */
module AddrManEffects {
  import opened Limbs
  import opened AddrManModel

  // ---------------------------------------------------------------- Add_ on a known address

  /** The announced time is more than the update interval, and the penalty, ahead of the stored one. */
  predicate Ahead(stored: nat, announced: nat, penalty: int, now: int) {
    announced != 0 && (stored == 0 || announced - stored > penalty + if now - announced < 86400 then 3600 else 86400)
  }

  /** The entry after an announcement: the services of both, and the new time less the penalty if it is ahead. */
  function Announced(i: Info, addr: Address, penalty: int, now: int): Info {
    i.(nServices := i.nServices + addr.nServices,
       nTime := if !Ahead(i.nTime, addr.nTime, penalty, now) then i.nTime
                else if addr.nTime < penalty then 0 else addr.nTime - penalty)
  }

  lemma {:induction false} FactorIsPower(n: nat)
    ensures Factor(n) == Pow2(n)
  {
    if n > 0 { FactorIsPower(n - 1); }
  }

  /** The announcement is news, the entry is new and may have more references, and the draw of one in 2^references hits. */
  predicate Refers(i: Info, addr: Address, rnd: nat)
    requires i.nRefCount >= 0
  {
    addr.nTime != 0 && (i.nTime == 0 || addr.nTime > i.nTime) && !i.fInTried && i.nRefCount < 8 && rnd % Pow2(i.nRefCount) == 0
  }

  /** Add_ on a known address refreshes its time and its services, and gives it another reference exactly when the draw
      hits and the slot by this source is free or holds a terrible entry; nothing else changes. */
  lemma AddRefreshes(env: Env, s: State, addr: Address, source: NetAddr, penalty: int, now: int, rnd: nat)
    requires Inv(env, s) && env.routable(addr.service.ip) && addr.service.ip in s.mapAddr
    ensures var id := s.mapAddr[addr.service.ip];
            && id in s.mapInfo && s.mapInfo[id].nRefCount >= 0
            && var i := Announced(s.mapInfo[id], addr, if addr.service.ip == source then 0 else penalty, now);
               var t := s.(mapInfo := s.mapInfo[id := i]);
               var r, slot := Add(env, s, addr, source, penalty, now, rnd).0, NewSlot(env, i.service, source);
               && id in r.mapInfo && SameRecord(r.mapInfo[id], i)
               && (slot in t.newTab ==> t.newTab[slot] in t.mapInfo)
               && if Refers(i, addr, rnd) && CanRefer(t, id, slot, now) then TookSlot(t, r, id, slot) else r == t
  {
    hide RandomOk, TriedOk, CountsOk, Place, IsTerrible;
    var id := s.mapAddr[addr.service.ip];
    assert Find(s, addr.service.ip) == id;
    var pen := if addr.service.ip == source then 0 else penalty;
    var i := Refresh(s.mapInfo[id], addr, pen, now);
    assert i == Announced(s.mapInfo[id], addr, pen, now);
    FactorIsPower(i.nRefCount);
    KnownEffect(env, s, id, i, addr, source, pen, now, rnd);
  }

  lemma KnownEffect(env: Env, s: State, id: int, i: Info, addr: Address, source: NetAddr, penalty: int, now: int, rnd: nat)
    requires Inv(env, s) && id in s.mapInfo && i == Refresh(s.mapInfo[id], addr, penalty, now) && i.nRefCount >= 0
    requires Factor(i.nRefCount) == Pow2(i.nRefCount)
    ensures var t := SetInfo(s, id, i);
            var r, slot := AddKnown(env, s, id, addr, source, penalty, now, rnd), NewSlot(env, i.service, source);
            && id in r.mapInfo && SameRecord(r.mapInfo[id], i)
            && (slot in t.newTab ==> t.newTab[slot] in t.mapInfo)
            && if Refers(i, addr, rnd) && CanRefer(t, id, slot, now) then TookSlot(t, r, id, slot) else r == t
  {
    hide IdsOk, AddrOk, RandomOk, TriedOk, CountsOk, Place, IsTerrible, Refresh, Factor, Pow2;
    var t, slot := SetInfo(s, id, i), NewSlot(env, i.service, source);
    RefsAtMost(env, s, id);
    OneAlwaysHits(rnd, i.nRefCount);
    if !i.fInTried && i.nRefCount != MAX_REFS {
      RefreshedPlaceable(env, s, id, i, slot);
      PlaceableRefs(env, t, id, slot, false);
      PlaceEffect(env, t, id, slot, now, false);
    }
  }

  lemma RefsAtMost(env: Env, s: State, id: int)
    requires Inv(env, s) && id in s.mapInfo
    ensures 0 <= s.mapInfo[id].nRefCount <= MAX_REFS
  {
    hide IdsOk, AddrOk, RandomOk, NewOk, TriedOk, CountsOk;
  }

  lemma OneAlwaysHits(rnd: nat, n: nat)
    ensures Pow2(n) > 1 || rnd % Pow2(n) == 0
  {
  }

  // ---------------------------------------------------------------- Good_, Attempt_, Connected_, SetServices_

  /** The id of exactly this address and port. */
  predicate IsKnown(s: State, addr: Service, id: int) { id in s.mapInfo && s.mapInfo[id].service == addr }

  lemma KnownIsExact(env: Env, s: State, addr: Service, id: int)
    requires Inv(env, s) && IsKnown(s, addr, id)
    ensures Exact(s, addr) == id
  {
    hide RandomOk, NewOk, TriedOk, RefsOk, CountsOk;
  }

  lemma UnknownIsNot(env: Env, s: State, addr: Service)
    requires Inv(env, s) && forall id :: !IsKnown(s, addr, id)
    ensures Exact(s, addr) !in s.mapInfo
  {
    hide AddrOk, RandomOk, NewOk, TriedOk, RefsOk, CountsOk;
    assert !IsKnown(s, addr, Find(s, addr.ip));
  }

  /** A good connection is noted in the entry; one that may not move because its tried slot is taken joins the queue while
      that has fewer than ten ids; unless it moves, the tables stay. */
  lemma GoodNotes(env: Env, s: State, addr: Service, id: int, testBeforeEvict: bool, nTime: int)
    requires Inv(env, s) && IsKnown(s, addr, id)
    ensures var r, i, waits := Good(env, s, addr, testBeforeEvict, nTime), s.mapInfo[id], TriedSlot(env, addr) in s.tried && testBeforeEvict;
            && r.nLastGood == nTime
            && id in r.mapInfo && r.mapInfo[id].nLastSuccess == nTime && r.mapInfo[id].nLastTry == nTime && r.mapInfo[id].nAttempts == 0
            && (r.mapInfo[id].fInTried <==> i.fInTried || !waits)
            && (i.fInTried || waits ==> r.newTab == s.newTab && r.tried == s.tried && r.mapInfo.Keys == s.mapInfo.Keys)
            && r.collisions == if !i.fInTried && waits && |s.collisions| < 10 then s.collisions + {id} else s.collisions
  {
    hide AddrOk, RandomOk, NewOk, TriedOk, RefsOk, CountsOk, Promote;
    KnownIsExact(env, s, addr, id);
    PromoteNotes(env, s.(nLastGood := nTime), id, testBeforeEvict, nTime);
  }

  lemma PromoteNotes(env: Env, s: State, id: int, testBeforeEvict: bool, nTime: int)
    requires Inv(env, s) && id in s.mapInfo
    ensures var r, i := Promote(env, s, id, testBeforeEvict, nTime), s.mapInfo[id];
            var waits := TriedSlot(env, i.service) in s.tried && testBeforeEvict;
            && r.nLastGood == s.nLastGood
            && id in r.mapInfo && r.mapInfo[id].nLastSuccess == nTime && r.mapInfo[id].nLastTry == nTime && r.mapInfo[id].nAttempts == 0
            && (r.mapInfo[id].fInTried <==> i.fInTried || !waits)
            && (i.fInTried || waits ==> r.newTab == s.newTab && r.tried == s.tried && r.mapInfo.Keys == s.mapInfo.Keys)
            && r.collisions == if !i.fInTried && waits && |s.collisions| < 10 then s.collisions + {id} else s.collisions
  {
    hide IdsOk, AddrOk, RandomOk, NewOk, TriedOk, RefsOk, CountsOk, MakeTried, SentBack, DropAll;
    var i := s.mapInfo[id].(nLastSuccess := nTime, nLastTry := nTime, nAttempts := 0);
    TouchKeeps(env, s, id, i, {}, 0);
    var t := SetInfo(s, id, i);
    if !i.fInTried {
      PromoteEffect(env, s, id, testBeforeEvict, nTime);
      MakeTriedEffect(env, t, id);
      MakeTriedRest(env, t, id);
      assert SameRecord(t.mapInfo[id].(fInTried := false), MakeTried(env, t, id).mapInfo[id].(fInTried := false));
    }
  }

  lemma MakeTriedRest(env: Env, s: State, id: int)
    requires Inv(env, s) && id in s.mapInfo && !s.mapInfo[id].fInTried
    ensures MakeTried(env, s, id).nLastGood == s.nLastGood
  {
    hide IdsOk, AddrOk, RandomOk, NewOk, TriedOk, RefsOk, CountsOk, SlotsOf;
    DropAllKeeps(env, s, id);
    var slot, a := TriedSlot(env, s.mapInfo[id].service), DropAll(s, id);
    if slot in a.tried { EvictRest(env, a, slot, {id}); }
  }

  lemma EvictRest(env: Env, s: State, slot: Slot, limbo: set<int>)
    requires Check(env, s, limbo, 0) && slot in s.tried
    ensures Evict(env, s, slot, limbo).nLastGood == s.nLastGood
  {
    hide IdsOk, AddrOk, RandomOk, NewOk, TriedOk, RefsOk, CountsOk, Cleared;
    EvictKeeps(env, s, slot, limbo);
  }

  /** Only this entry differs, and only in what `i` says. */
  predicate OnlyEntry(s: State, r: State, id: int, i: Info) { r == s.(mapInfo := s.mapInfo[id := i]) }

  /** An attempt is noted with its time; it counts as a failure just when it may and none was counted since the last good
      connection of any peer. */
  lemma AttemptNotes(env: Env, s: State, addr: Service, id: int, countFailure: bool, nTime: int)
    requires Inv(env, s) && IsKnown(s, addr, id)
    ensures var i, counts := s.mapInfo[id], countFailure && s.mapInfo[id].nLastCountAttempt < s.nLastGood;
            OnlyEntry(s, Attempt(env, s, addr, countFailure, nTime), id,
                      i.(nLastTry := nTime, nAttempts := i.nAttempts + (if counts then 1 else 0),
                         nLastCountAttempt := if counts then nTime else i.nLastCountAttempt))
  {
    hide Check;
    KnownIsExact(env, s, addr, id);
  }

  /** Attempts on one address, one after the other. */
  function Attempts(env: Env, s: State, addr: Service, times: seq<int>): (r: State)
    requires Inv(env, s)
    ensures Inv(env, r)
    decreases |times|
  {
    if times == [] then s else Attempts(env, Attempt(env, s, addr, true, times[0]), addr, times[1..])
  }

  /** However often a peer is tried after the last good connection, that counts as one failure. */
  lemma {:induction false} FailuresCountOnce(env: Env, s: State, addr: Service, id: int, times: seq<int>)
    requires Inv(env, s) && IsKnown(s, addr, id) && times != [] && forall i :: 0 <= i < |times| ==> times[i] >= s.nLastGood
    ensures var r := Attempts(env, s, addr, times);
            && id in r.mapInfo
            && r.mapInfo[id].nAttempts == s.mapInfo[id].nAttempts + if s.mapInfo[id].nLastCountAttempt < s.nLastGood then 1 else 0
    decreases |times|
  {
    hide Check, Attempt;
    AttemptNotes(env, s, addr, id, true, times[0]);
    var t := Attempt(env, s, addr, true, times[0]);
    if |times| > 1 { FailuresCountOnce(env, t, addr, id, times[1..]); }
  }

  /** A connection refreshes the time just when the stored one is more than twenty minutes old. */
  lemma ConnectedNotes(env: Env, s: State, addr: Service, id: int, nTime: nat)
    requires Inv(env, s) && IsKnown(s, addr, id)
    ensures var i := s.mapInfo[id];
            OnlyEntry(s, Connected(env, s, addr, nTime), id, i.(nTime := if nTime - i.nTime > 1200 then nTime else i.nTime))
  {
    hide Check;
    KnownIsExact(env, s, addr, id);
    assert s.mapInfo[id := s.mapInfo[id]] == s.mapInfo;
  }

  lemma ServicesReplaced(env: Env, s: State, addr: Service, id: int, nServices: Services)
    requires Inv(env, s) && IsKnown(s, addr, id)
    ensures OnlyEntry(s, SetServices(env, s, addr, nServices), id, s.mapInfo[id].(nServices := nServices))
  {
    hide Check;
    KnownIsExact(env, s, addr, id);
  }

  /** None of the four touches a manager that does not know exactly this address and port. */
  lemma UnknownIsIgnored(env: Env, s: State, addr: Service, flag: bool, nTime: nat, nServices: Services)
    requires Inv(env, s) && forall id :: !IsKnown(s, addr, id)
    ensures Good(env, s, addr, flag, nTime) == s.(nLastGood := nTime)
    ensures Attempt(env, s, addr, flag, nTime) == s && Connected(env, s, addr, nTime) == s && SetServices(env, s, addr, nServices) == s
  {
    hide Check;
    UnknownIsNot(env, s, addr);
    assert !IsKnown(s, addr, Find(s, addr.ip));
  }

  // ---------------------------------------------------------------- eviction, terrible entries, GetAddr_

  /** An entry added to a free slot is at home there: evicted from the tried table it comes back to that slot. */
  lemma AddedAtHome(env: Env, s: State, addr: Address, source: NetAddr, penalty: int, now: int, rnd: nat)
    requires Inv(env, s) && env.routable(addr.service.ip) && addr.service.ip !in s.mapAddr
    requires NewSlot(env, addr.service, source) !in s.newTab
    ensures var r, id := Add(env, s, addr, source, penalty, now, rnd).0, s.nIdCount;
            id in r.mapInfo && Home(env, r.mapInfo[id]) in r.newTab && r.newTab[Home(env, r.mapInfo[id])] == id
  {
    hide Check, Add;
    AddUnknown(env, s, addr, source, penalty, now, rnd);
  }

  lemma {:induction false} RunNext(env: Env, s: State, ops: seq<Op>, op: Op)
    requires Inv(env, s)
    ensures Run(env, s, ops + [op]) == Apply(env, Run(env, s, ops), op)
    decreases |ops|
  {
    hide Inv, Apply;
    if ops == [] {
      assert (ops + [op])[1..] == [];
    } else {
      assert (ops + [op])[1..] == ops[1..] + [op];
      RunNext(env, Apply(env, s, ops[0]), ops[1..], op);
    }
  }

  /** Whatever was done to a manager, it then learns an unknown routable address whose slot is free, and once there was a
      good connection to that, and its tried slot is free, it is tried. */
  lemma RunLearns(env: Env, s: State, ops: seq<Op>, addr: Address, source: NetAddr, penalty: int, now: int, rnd: nat, seen: int)
    requires Inv(env, s) && env.routable(addr.service.ip) && addr.service.ip !in Run(env, s, ops).mapAddr
    requires NewSlot(env, addr.service, source) !in Run(env, s, ops).newTab
    ensures var t, id := Run(env, s, ops), Run(env, s, ops).nIdCount;
            var r := Run(env, s, ops + [OpAdd(addr, source, penalty, now, rnd)]);
            var g := Run(env, s, ops + [OpAdd(addr, source, penalty, now, rnd)] + [OpGood(addr.service, true, seen)]);
            && IsKnown(r, addr.service, id) && r.newTab == t.newTab[NewSlot(env, addr.service, source) := id]
            && (TriedSlot(env, addr.service) !in t.tried ==> id in g.mapInfo && g.mapInfo[id].fInTried)
  {
    hide Inv, Run, Add, Good;
    var t, id, more := Run(env, s, ops), Run(env, s, ops).nIdCount, ops + [OpAdd(addr, source, penalty, now, rnd)];
    RunNext(env, s, ops, OpAdd(addr, source, penalty, now, rnd));
    RunNext(env, s, more, OpGood(addr.service, true, seen));
    AddUnknown(env, t, addr, source, penalty, now, rnd);
    GoodNotes(env, Run(env, s, more), addr.service, id, true, seen);
  }

  /** An entry tried in the last minute is never terrible, nor is one heard of in the last 30 days, and not from over ten
      minutes ahead, that did not fail twice. */
  lemma NotTerrible(i: Info, now: int)
    requires (i.nLastTry != 0 && now - i.nLastTry <= 60) || (i.nTime != 0 && -600 <= now - i.nTime <= 2592000 && i.nAttempts < 3)
    ensures !IsTerrible(i, now)
  {
  }

  /** Otherwise each of the reasons makes it so: its time, three failures without a success, ten since one a week ago. */
  lemma TerribleFor(i: Info, now: int)
    requires i.nLastTry == 0 || now - i.nLastTry > 60
    requires i.nTime == 0 || now - i.nTime < -600 || now - i.nTime > 2592000
             || (i.nAttempts >= 3 && i.nLastSuccess == 0) || (i.nAttempts >= 10 && now - i.nLastSuccess > 604800)
    ensures IsTerrible(i, now)
  {
  }

  /** A success within the week, or fewer than ten failures since any success, forgives. */
  lemma Forgiven(i: Info, now: int)
    requires i.nTime != 0 && -600 <= now - i.nTime <= 2592000 && i.nLastSuccess != 0
    requires i.nAttempts < 10 || now - i.nLastSuccess <= 604800
    ensures !IsTerrible(i, now)
  {
  }

  /** At most 23 percent of the entries, and at most 2500, are given away. */
  lemma GivenAway(size: nat)
    ensures MaxAddr(size) <= 2500 && 100 * MaxAddr(size) <= 23 * size
    ensures MaxAddr(size) < 2500 ==> 23 * size < 100 * (MaxAddr(size) + 1)
  {
  }

  /** Each turn of the shuffle draws one of the remaining ids and leaves the others. */
  lemma ShuffleDraws(env: Env, s: State, n: nat, rnd: nat)
    requires Inv(env, s) && n < |s.vRandom|
    ensures var t, left := ShuffleStep(env, s, n, rnd), |s.vRandom| - n;
            |t.vRandom| == |s.vRandom| && t.vRandom[n] == s.vRandom[n + rnd % left] && t.vRandom[..n] == s.vRandom[..n]
  {
    hide Check, Reordered;
    assert AllKnown(s.mapInfo, s.vRandom) by { RandomIsKnown(env, s); }
  }

  lemma RandomIsKnown(env: Env, s: State)
    requires Inv(env, s)
    ensures AllKnown(s.mapInfo, s.vRandom)
  {
    hide IdsOk, AddrOk, NewOk, TriedOk, RefsOk, CountsOk;
  }

  /** Any of the remaining ids can be drawn. */
  lemma ShuffleCanDraw(env: Env, s: State, n: nat, i: nat)
    requires Inv(env, s) && n <= i < |s.vRandom|
    ensures |ShuffleStep(env, s, n, i - n).vRandom| == |s.vRandom| && ShuffleStep(env, s, n, i - n).vRandom[n] == s.vRandom[i]
  {
    hide Check, Reordered, ShuffleStep;
    ShuffleDraws(env, s, n, i - n);
  }
}
