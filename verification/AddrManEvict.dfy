/** Test before evict: when an entry of the tried table has to make way (src/addrman.cpp). */
module AddrManEvict {
  import opened Sets
  import opened AddrManEffects
  import opened AddrManModel

  const REPLACEMENT := 4 * 60 * 60

  /** No success in the last four hours, and an attempt in them that has had a minute to succeed. */
  predicate GivesWay(i: Info, now: int) {
    now - i.nLastSuccess >= REPLACEMENT && 60 < now - i.nLastTry < REPLACEMENT
  }

  /** The entry has not been attempted of late, so there is nothing to decide on yet. */
  predicate Undecided(i: Info, now: int) {
    now - i.nLastSuccess >= REPLACEMENT && !(60 < now - i.nLastTry < REPLACEMENT)
  }

  function Occupant(env: Env, s: State, x: Slot): Info
    requires Inv(env, s) && x in s.tried
  {
    s.mapInfo[s.tried[x]]
  }

  /** The occupant is the same id, and was seen at `now` or is as it was. */
  predicate Stays(env: Env, s: State, r: State, x: Slot, now: int)
    requires Inv(env, s) && Inv(env, r) && x in s.tried
  {
    && x in r.tried && r.tried[x] == s.tried[x]
    && var i, j := Occupant(env, s, x), Occupant(env, r, x);
       j.nLastSuccess == j.nLastTry == now || (j.nLastSuccess == i.nLastSuccess && j.nLastTry == i.nLastTry)
  }

  // ---------------------------------------------------------------- Good_

  lemma MovedTimes(m: Infos, n: Infos, moved: int, k: int)
    requires SurvivesMove(m, n, {moved})
    ensures k in n ==> k in m && n[k].nLastSuccess == m[k].nLastSuccess && n[k].nLastTry == m[k].nLastTry
  {
    if k in n { assert SameRecord(m[k].(fInTried := false), n[k].(fInTried := false)); }
  }

  lemma PromoteSpares(env: Env, s: State, id: int, testBeforeEvict: bool, nTime: int, x: Slot)
    requires Inv(env, s) && id in s.mapInfo && x in s.tried
    ensures var r := Promote(env, s, id, testBeforeEvict, nTime);
            if !s.mapInfo[id].fInTried && !testBeforeEvict && TriedSlot(env, s.mapInfo[id].service) == x
            then x in r.tried && r.tried[x] == id
            else Stays(env, s, r, x, nTime)
  {
    hide IdsOk, AddrOk, RandomOk, NewOk, CountsOk, RefsOk, MakeTried, SentBack, DropAll;
    var i := s.mapInfo[id].(nLastSuccess := nTime, nLastTry := nTime, nAttempts := 0);
    TouchKeeps(env, s, id, i, {}, 0);
    var t := SetInfo(s, id, i);
    if !i.fInTried {
      PromoteEffect(env, s, id, testBeforeEvict, nTime);
      MakeTriedEffect(env, t, id);
      MovedTimes(t.mapInfo, MakeTried(env, t, id).mapInfo, id, s.tried[x]);
    }
  }

  /** A good connection puts an untried entry in place of the occupant of its tried slot only when
      told not to test first; otherwise every occupant stays. */
  lemma GoodSpares(env: Env, s: State, addr: Service, testBeforeEvict: bool, nTime: int, x: Slot)
    requires Inv(env, s) && x in s.tried
    ensures var r, id := Good(env, s, addr, testBeforeEvict, nTime), Exact(s, addr);
            if id in s.mapInfo && !s.mapInfo[id].fInTried && !testBeforeEvict && TriedSlot(env, addr) == x
            then x in r.tried && r.tried[x] == id
            else Stays(env, s, r, x, nTime)
  {
    hide AddrOk, RandomOk, NewOk, CountsOk, RefsOk, Promote;
    var t, id := s.(nLastGood := nTime), Exact(s, addr);
    if id in s.mapInfo { PromoteSpares(env, t, id, testBeforeEvict, nTime, x); }
  }

  // ---------------------------------------------------------------- ResolveCollisions_

  /** One queued id is settled unless it is known, valid and waits for an undecided occupant. It
      replaces the occupant of a tried slot if and only if the slot is its own, it is known, valid and
      not tried itself, and the occupant gives way. */
  lemma ResolveOneDecides(env: Env, s: State, id: int, now: int, x: Slot)
    requires Inv(env, s) && x in s.tried
    ensures var (r, settled) := ResolveOne(env, s, id, now);
            var mine := id in s.mapInfo && env.valid(s.mapInfo[id].service.ip) && TriedSlot(env, s.mapInfo[id].service) == x;
            && (mine ==> (settled <==> !Undecided(Occupant(env, s, x), now)))
            && (if mine && !s.mapInfo[id].fInTried && GivesWay(Occupant(env, s, x), now)
                then x in r.tried && r.tried[x] == id && id != s.tried[x]
                else Stays(env, s, r, x, now))
  {
    hide IdsOk, RandomOk, NewOk, CountsOk, RefsOk, Good;
    if id in s.mapInfo {
      assert Exact(s, s.mapInfo[id].service) == id;
      GoodSpares(env, s, s.mapInfo[id].service, false, now, x);
    }
  }

  /** Whatever is queued, an occupant that does not give way is still in its slot afterwards. */
  lemma {:induction false} ResolveFromSpares(env: Env, s: State, todo: set<int>, now: int, x: Slot)
    requires Inv(env, s) && x in s.tried && !GivesWay(Occupant(env, s, x), now)
    ensures var r := ResolveFrom(env, s, todo, now);
            x in r.tried && r.tried[x] == s.tried[x] && r.collisions <= s.collisions
    decreases todo
  {
    hide IdsOk, AddrOk, RandomOk, NewOk, CountsOk, RefsOk, TriedOk, ResolveOne;
    if todo != {} {
      var id := Smallest(todo);
      ResolveOneDecides(env, s, id, now, x);
      var (r, settled) := ResolveOne(env, s, id, now);
      var t := if settled then r.(collisions := r.collisions - {id}) else r;
      ResolveFromSpares(env, t, todo - {id}, now, x);
    }
  }

  // ---------------------------------------------------------------- what is left in the queue

  /** A known, valid entry whose tried slot has an occupant that is not decided on. */
  predicate Waits(env: Env, s: State, id: int, now: int)
    requires Inv(env, s)
  {
    && id in s.mapInfo && env.valid(s.mapInfo[id].service.ip)
    && var x := TriedSlot(env, s.mapInfo[id].service); x in s.tried && Undecided(Occupant(env, s, x), now)
  }

  lemma PromoteBack(env: Env, s: State, id: int, nTime: int)
    requires Inv(env, s) && id in s.mapInfo
    ensures var r := Promote(env, s, id, false, nTime);
            && (forall k :: k in r.mapInfo ==> k in s.mapInfo && r.mapInfo[k].service == s.mapInfo[k].service)
            && (forall y :: y in r.tried ==> y in s.tried || r.tried[y] == id)
  {
    hide IdsOk, AddrOk, RandomOk, NewOk, TriedOk, CountsOk, RefsOk, MakeTried, SentBack, DropAll;
    var i := s.mapInfo[id].(nLastSuccess := nTime, nLastTry := nTime, nAttempts := 0);
    TouchKeeps(env, s, id, i, {}, 0);
    var t := SetInfo(s, id, i);
    if !i.fInTried {
      PromoteEffect(env, s, id, false, nTime);
      MakeTriedEffect(env, t, id);
      MovedServices(t.mapInfo, MakeTried(env, t, id).mapInfo, id);
    }
  }

  lemma MovedServices(m: Infos, n: Infos, moved: int)
    requires SurvivesMove(m, n, {moved})
    ensures forall k :: k in n ==> k in m && n[k].service == m[k].service
  {
    forall k | k in n ensures k in m && n[k].service == m[k].service {
      assert SameRecord(m[k].(fInTried := false), n[k].(fInTried := false));
    }
  }

  /** Resolving an id changes no service, fills only its own tried slot, and then just now. */
  lemma ResolveOneBack(env: Env, s: State, id: int, now: int)
    requires Inv(env, s)
    ensures var r := ResolveOne(env, s, id, now).0;
            && (forall k :: k in r.mapInfo ==> k in s.mapInfo && r.mapInfo[k].service == s.mapInfo[k].service)
            && (forall y :: y in r.tried ==> y in s.tried || (r.tried[y] == id && id in r.mapInfo))
            && (r != s ==> id in r.mapInfo && r.mapInfo[id].nLastSuccess == now)
  {
    hide IdsOk, AddrOk, RandomOk, NewOk, TriedOk, CountsOk, RefsOk, Promote;
    if id in s.mapInfo {
      KnownIsExact(env, s, s.mapInfo[id].service, id);
      GoodNotes(env, s, s.mapInfo[id].service, id, false, now);
      PromoteBack(env, s.(nLastGood := now), id, now);
    }
  }

  /** An entry that waits after another was resolved has waited before. */
  lemma WaitedBefore(env: Env, s: State, k: int, id: int, now: int)
    requires Inv(env, s) && Waits(env, ResolveOne(env, s, k, now).0, id, now)
    ensures Waits(env, s, id, now)
  {
    hide Inv, ResolveOne, TriedSlot;
    var t := ResolveOne(env, s, k, now).0;
    ResolveOneBack(env, s, k, now);
    var x := TriedSlot(env, t.mapInfo[id].service);
    if x in s.tried { ResolveOneDecides(env, s, k, now, x); }
  }

  /** Whoever is left in the queue was in it and waits for an occupant that was not decided on at the start; everyone else
      is settled. */
  lemma {:induction false} ResolveFromLeaves(env: Env, s: State, todo: set<int>, now: int, id: int)
    requires Inv(env, s)
    ensures var r := ResolveFrom(env, s, todo, now);
            r.collisions <= s.collisions && (id in todo && id in r.collisions ==> Waits(env, s, id, now))
    decreases todo
  {
    hide Inv, Waits, ResolveOne;
    if todo != {} {
      var k := Smallest(todo);
      var (t, settled) := ResolveOne(env, s, k, now);
      var u := if settled then t.(collisions := t.collisions - {k}) else t;
      QueueIsFree(env, t, u.collisions);
      ResolveFromLeaves(env, u, todo - {k}, now, id);
      if k == id {
        if !settled { UnsettledWaits(env, s, id, now); }
      } else if id in todo && id in ResolveFrom(env, u, todo - {k}, now).collisions {
        SameWaits(env, t, u, id, now);
        WaitedBefore(env, s, k, id, now);
      }
    }
  }

  lemma QueueIsFree(env: Env, s: State, ids: set<int>)
    requires Inv(env, s)
    ensures Inv(env, s.(collisions := ids))
  {
    hide IdsOk, AddrOk, RandomOk, NewOk, TriedOk, CountsOk, RefsOk;
  }

  lemma UnsettledWaits(env: Env, s: State, id: int, now: int)
    requires Inv(env, s) && !ResolveOne(env, s, id, now).1
    ensures Waits(env, s, id, now)
  {
    hide IdsOk, AddrOk, RandomOk, NewOk, CountsOk, RefsOk, Good;
  }

  lemma SameWaits(env: Env, t: State, u: State, id: int, now: int)
    requires Inv(env, t) && Inv(env, u) && u == t.(collisions := u.collisions)
    ensures Waits(env, u, id, now) == Waits(env, t, id, now)
  {
    hide IdsOk, AddrOk, RandomOk, NewOk, TriedOk, CountsOk, RefsOk;
  }

  /** After the queue was resolved, just entries that wait for an undecided occupant are left in it. */
  lemma ResolveSettles(env: Env, s: State, now: int, id: int)
    requires Inv(env, s) && id in Resolve(env, s, now).collisions
    ensures id in s.collisions && Waits(env, s, id, now)
  {
    hide Inv, Waits, ResolveFrom;
    ResolveFromLeaves(env, s, s.collisions, now, id);
  }

  /** A single queued entry: it is forgotten if the occupant of its slot had a success of late, stays queued while there is
      nothing to decide on, and otherwise takes the slot, as it does when that is free. */
  lemma LoneCollision(env: Env, s: State, id: int, now: int)
    requires Inv(env, s) && s.collisions == {id} && id in s.mapInfo && !s.mapInfo[id].fInTried && env.valid(s.mapInfo[id].service.ip)
    ensures var r, x := Resolve(env, s, now), TriedSlot(env, s.mapInfo[id].service);
            if x in s.tried && now - Occupant(env, s, x).nLastSuccess < 14400 then r == s.(collisions := {})
            else if x in s.tried && Undecided(Occupant(env, s, x), now) then r == s
            else && r.collisions == {} && id in r.mapInfo && r.mapInfo[id].fInTried && r.mapInfo[id].nLastSuccess == now
                 && r.tried == s.tried[x := id]
  {
    hide IdsOk, AddrOk, RandomOk, NewOk, TriedOk, CountsOk, RefsOk, Good, SentBack;
    assert Smallest({id}) == id;
    KnownIsExact(env, s, s.mapInfo[id].service, id);
    GoodNotes(env, s, s.mapInfo[id].service, id, false, now);
    GoodPromotes(env, s, s.mapInfo[id].service, false, now);
    var (t, settled) := ResolveOne(env, s, id, now);
    var u := if settled then t.(collisions := t.collisions - {id}) else t;
    assert {id} - {id} == {};
    assert ResolveFrom(env, u, {}, now) == u;
    assert Resolve(env, s, now) == u;
  }

  // ---------------------------------------------------------------- runs

  lemma AddKeepsTried(env: Env, s: State, addr: Address, source: NetAddr, penalty: int, now: int, rnd: nat)
    requires Inv(env, s)
    ensures Add(env, s, addr, source, penalty, now, rnd).0.tried == s.tried
  {
    hide IdsOk, AddrOk, RandomOk, NewOk, TriedOk, CountsOk, RefsOk, Place, Placeable;
    KnownByAddress(env, s, addr.service.ip);
    var id := Find(s, addr.service.ip);
    if env.routable(addr.service.ip) {
      if id in s.mapInfo {
        var i := Refresh(s.mapInfo[id], addr, if addr.service.ip == source then 0 else penalty, now);
        var slot := NewSlot(env, i.service, source);
        if !i.fInTried && i.nRefCount != MAX_REFS {
          RefreshedPlaceable(env, s, id, i, slot);
          PlaceableRefs(env, SetInfo(s, id, i), id, slot, false);
          PlaceEffect(env, SetInfo(s, id, i), id, slot, now, false);
        }
      } else {
        AddUnknown(env, s, addr, source, penalty, now, rnd);
      }
    }
  }

  /** The operation cannot take the slot from its occupant. */
  predicate Spares(env: Env, s: State, op: Op, x: Slot)
    requires Inv(env, s) && x in s.tried
  {
    match op
    case OpGood(_, testBeforeEvict, _) => testBeforeEvict
    case OpResolve(now) => !GivesWay(Occupant(env, s, x), now)
    case _ => true
  }

  lemma ApplySpares(env: Env, s: State, op: Op, x: Slot)
    requires Inv(env, s) && x in s.tried && Spares(env, s, op, x)
    ensures x in Apply(env, s, op).tried && Apply(env, s, op).tried[x] == s.tried[x]
  {
    hide IdsOk, AddrOk, RandomOk, NewOk, TriedOk, CountsOk, RefsOk, Add, Good, ResolveFrom, Shuffle;
    match op
    case OpAdd(addr, source, penalty, now, rnd) => AddKeepsTried(env, s, addr, source, penalty, now, rnd);
    case OpGood(a, testBeforeEvict, nTime) => GoodSpares(env, s, a, testBeforeEvict, nTime, x);
    case OpAttempt(a, countFailure, nTime) =>
    case OpConnected(a, seen) =>
    case OpSetServices(a, nServices) =>
    case OpGetAddr(rnds, now) => GetAddrResult(env, s, rnds, now);
    case OpResolve(now) => ResolveFromSpares(env, s, s.collisions, now, x);
  }

  /** In every run, if a tried slot does not hold the entry it held at the start, then at some moment
      the entry was still there and either gave way to a queued one or was overruled by a caller that
      asked not to test. */
  lemma {:induction false} TriedStays(env: Env, s: State, ops: seq<Op>, x: Slot) returns (at: nat)
    requires Inv(env, s) && x in s.tried
    ensures at <= |ops|
    ensures var t := Run(env, s, ops[..at]); x in t.tried && t.tried[x] == s.tried[x]
    ensures at < |ops| ==> !Spares(env, Run(env, s, ops[..at]), ops[at], x)
    decreases |ops|
  {
    hide Inv, Spares, Apply;
    if ops == [] || !Spares(env, s, ops[0], x) {
      at := 0;
    } else {
      ApplySpares(env, s, ops[0], x);
      at := TriedStays(env, Apply(env, s, ops[0]), ops[1..], x);
      assert ops[..at + 1][1..] == ops[1..][..at];
      at := at + 1;
    }
  }
}
