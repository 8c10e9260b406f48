/** Loading any stream (src/addrman.h), not only one that was saved: what an accepted stream leaves in the manager. */
module AddrManLoad {
  import opened Options
  import opened Sets
  import opened AddrManModel
  import opened AddrManStream

  // ---------------------------------------------------------------- the records of a stream

  /** The next `k` records. */
  function Recs(toks: seq<Token>, k: int): seq<Record>
    decreases k
  {
    if k <= 0 || toks == [] || !toks[0].Rec? then [] else [toks[0].r] + Recs(toks[1..], k - 1)
  }

  predicate DistinctAddresses(v: seq<Record>) {
    forall i, j :: 0 <= i < j < |v| ==> v[i].service.ip != v[j].service.ip
  }

  /** No earlier record has the same tried slot. */
  predicate FirstTried(env: Env, v: seq<Record>, k: nat) {
    k < |v| && forall j :: 0 <= j < k ==> TriedSlot(env, v[j].service) != TriedSlot(env, v[k].service)
  }

  /** No earlier record has the same new slot by its own source. */
  predicate FirstNew(env: Env, v: seq<Record>, k: nat) {
    k < |v| && forall j :: 0 <= j < k ==> Primary(env, v[j]) != Primary(env, v[k])
  }

  function Primary(env: Env, r: Record): Slot { NewSlot(env, r.service, r.source) }

  // ---------------------------------------------------------------- the check while a stream is loaded

  /** The check, with the id counter and the count of tried entries that the loops keep only in the end. */
  ghost predicate Loading(env: Env, s: State, count: int, tried: int, limbo: set<int>, extra: int) {
    Check(env, s.(nIdCount := count, nTried := tried), limbo, extra)
  }

  lemma BlankLoads(env: Env, nNew: int, nTried: int, collisions: set<int>)
    ensures Loading(env, Blank(nNew, nTried, collisions), 0, 0, {}, nNew)
  {
    assert NewIds(map[]) == {} && TriedIds(map[]) == {};
  }

  /** A record enters as an entry in no table. */
  function Entered(s: State, n: int, r: Record): State {
    s.(mapInfo := s.mapInfo[n := FromRecord(r, |s.vRandom|)], mapAddr := s.mapAddr[r.service.ip := n], vRandom := s.vRandom + [n])
  }

  lemma EnteredKeeps(env: Env, s: State, n: int, tried: int, r: Record, limbo: set<int>, extra: int)
    requires Loading(env, s, n, tried, limbo, extra) && r.service.ip !in s.mapAddr
    ensures n !in limbo && n !in s.mapInfo && Loading(env, Entered(s, n, r), n + 1, tried, limbo + {n}, extra)
  {
    hide RandomOk, AddrOk, NewOk, TriedOk, RefsOk;
    var b := s.(nIdCount := n, nTried := tried);
    var addr := Address(r.service, r.nServices, r.nTime);
    CreateKeeps(env, b, addr, r.source, limbo, extra);
    var c := Create(b, addr, r.source);
    TouchKeeps(env, c, n, FromRecord(r, |s.vRandom|), limbo + {n}, extra);
    assert SetInfo(c, n, FromRecord(r, |s.vRandom|)).mapInfo == Entered(s, n, r).mapInfo;
  }

  lemma WithNewKeeps(env: Env, f: Format, s: State, n: int, r: Record, limbo: set<int>, extra: int)
    requires Loading(env, s, n, 0, limbo, extra) && r.service.ip !in s.mapAddr
    ensures n !in limbo && n !in s.mapInfo
    ensures var t := WithNew(env, f, s, n, r);
            if !Usable(f) && Primary(env, r) !in s.newTab then Loading(env, t, n + 1, 0, limbo, extra - 1)
            else Loading(env, t, n + 1, 0, limbo + {n}, extra)
  {
    hide Check;
    EnteredKeeps(env, s, n, 0, r, limbo, extra);
    var e := Entered(s, n, r);
    if !Usable(f) && Primary(env, r) !in s.newTab {
      AddRefKeeps(env, e.(nIdCount := n + 1, nTried := 0), Primary(env, r), n, limbo + {n}, extra);
      assert limbo + {n} - {n} == limbo;
    }
  }

  lemma WithTriedKeeps(env: Env, s: State, tried: int, r: Record, limbo: set<int>, extra: int)
    requires Loading(env, s, s.nIdCount, tried, limbo, extra) && r.service.ip !in s.mapAddr
    ensures s.nIdCount !in limbo && s.nIdCount !in s.mapInfo
    ensures var t := WithTried(env, s, r);
            Loading(env, t, t.nIdCount, if TriedSlot(env, r.service) in s.tried then tried else tried + 1, limbo, extra)
  {
    hide Check;
    var n, slot := s.nIdCount, TriedSlot(env, r.service);
    EnteredKeeps(env, s, n, tried, r, limbo, extra);
    if slot !in s.tried {
      var e := Entered(s, n, r).(nIdCount := n + 1, nTried := tried);
      TryKeeps(env, e, n, limbo + {n}, extra);
      assert limbo + {n} - {n} == limbo;
      assert Try(e, slot, n).mapInfo == WithTried(env, s, r).mapInfo;
    }
  }

  // ---------------------------------------------------------------- the new entries

  /** The first entry of each primary slot has it. */
  ghost predicate Primaries(env: Env, v: seq<Record>, t: Table) {
    && (forall x :: x in t ==> 0 <= t[x] < |v| && FirstNew(env, v, t[x]) && Primary(env, v[t[x]]) == x)
    && (forall i :: 0 <= i < |v| ==> Primary(env, v[i]) in t)
  }

  /** The entries are those records, under their numbers. */
  ghost predicate NewLoaded(env: Env, f: Format, s: State, v: seq<Record>) {
    && (forall i :: i in s.mapInfo <==> 0 <= i < |v|)
    && (forall i :: 0 <= i < |v| ==> ToRecord(s.mapInfo[i]) == v[i] && !s.mapInfo[i].fInTried)
    && s.tried == map[] && (if Usable(f) then s.newTab == map[] else Primaries(env, v, s.newTab))
  }

  lemma PrimaryStep(env: Env, v: seq<Record>, t: Table, r: Record)
    requires Primaries(env, v, t)
    ensures Primaries(env, v + [r], if Primary(env, r) in t then t else t[Primary(env, r) := |v|])
  {
    var w := v + [r];
    assert forall i :: 0 <= i < |v| ==> w[i] == v[i];
    forall i: nat | FirstNew(env, v, i) ensures FirstNew(env, w, i) {}
  }

  lemma NewStep(env: Env, f: Format, s: State, v: seq<Record>, r: Record)
    requires NewLoaded(env, f, s, v)
    ensures NewLoaded(env, f, WithNew(env, f, s, |v|, r), v + [r])
  {
    hide Primaries;
    if !Usable(f) {
      PrimaryStep(env, v, s.newTab, r);
      if Primary(env, r) in s.newTab { PrimaryInTable(env, v, s.newTab, r); }
    }
  }

  lemma PrimaryInTable(env: Env, v: seq<Record>, t: Table, r: Record)
    requires Primaries(env, v, t) && Primary(env, r) in t
    ensures Primaries(env, v + [r], t)
  {
    PrimaryStep(env, v, t, r);
  }

  /** An indexed address is that of a loaded record. */
  lemma IndexedNew(s: State, v: seq<Record>, ip: NetAddr)
    requires AddrOk(s.mapInfo, s.mapAddr) && forall i :: i in s.mapInfo ==> 0 <= i < |v| && ToRecord(s.mapInfo[i]) == v[i]
    requires ip in s.mapAddr
    ensures exists i :: 0 <= i < |v| && v[i].service.ip == ip
  {
    var i := s.mapAddr[ip];
    assert v[i] == ToRecord(s.mapInfo[i]);
  }

  lemma {:induction false} LoadNewLoads(env: Env, f: Format, s: State, toks: seq<Token>, v: seq<Record>, limbo: set<int>, extra: int)
    returns (limbo': set<int>, extra': int)
    requires Loading(env, s, |v|, 0, limbo, extra) && NewLoaded(env, f, s, v) && |v| <= s.nNew
    requires LoadNew(env, f, s, |v|, toks).Some? && DistinctAddresses(v + Recs(toks, s.nNew - |v|))
    ensures var (r, rest) := LoadNew(env, f, s, |v|, toks).value; var more := Recs(toks, s.nNew - |v|);
            && |more| == s.nNew - |v| <= |toks| && rest == toks[s.nNew - |v|..]
            && Loading(env, r, s.nNew, 0, limbo', extra') && NewLoaded(env, f, r, v + more)
            && r.nNew == s.nNew && r.nTried == s.nTried && r.collisions == s.collisions
    decreases s.nNew - |v|
  {
    hide Loading, NewLoaded, WithNew, DistinctAddresses;
    limbo', extra' := limbo, extra;
    if |v| < s.nNew {
      var r, more := toks[0].r, Recs(toks[1..], s.nNew - |v| - 1);
      var t := WithNew(env, f, s, |v|, r);
      assert v + ([r] + more) == v + [r] + more;
      NewIsFresh(env, f, s, v, r, more, limbo, extra);
      WithNewKeeps(env, f, s, |v|, r, limbo, extra);
      NewStep(env, f, s, v, r);
      WithNewRest(env, f, s, |v|, r);
      if !Usable(f) && Primary(env, r) !in s.newTab {
        limbo', extra' := LoadNewLoads(env, f, t, toks[1..], v + [r], limbo, extra - 1);
      } else {
        limbo', extra' := LoadNewLoads(env, f, t, toks[1..], v + [r], limbo + {|v|}, extra);
      }
      assert toks[1..][s.nNew - |v| - 1..] == toks[s.nNew - |v|..];
    } else {
      assert v + [] == v && toks[0..] == toks;
    }
  }

  lemma WithNewRest(env: Env, f: Format, s: State, n: int, r: Record)
    ensures var t := WithNew(env, f, s, n, r); t.nNew == s.nNew && t.nTried == s.nTried && t.collisions == s.collisions
  {
  }

  lemma NewIsFresh(env: Env, f: Format, s: State, v: seq<Record>, r: Record, more: seq<Record>, limbo: set<int>, extra: int)
    requires Loading(env, s, |v|, 0, limbo, extra) && NewLoaded(env, f, s, v) && DistinctAddresses(v + [r] + more)
    ensures r.service.ip !in s.mapAddr
  {
    hide IdsOk, RandomOk, NewOk, TriedOk, RefsOk, CountsOk, Primaries, AddrOk;
    var all := v + [r] + more;
    assert all[|v|] == r && forall i :: 0 <= i < |v| ==> all[i] == v[i];
    if r.service.ip in s.mapAddr {
      IndexedNew(s, v, r.service.ip);
      assert false;
    }
  }

  // ---------------------------------------------------------------- the tried entries

  /** The new records are there under their numbers; everything after them is tried. */
  ghost predicate NewAre(m: Infos, v: seq<Record>) {
    && (forall i :: 0 <= i < |v| ==> i in m)
    && (forall i :: i in m ==> if 0 <= i < |v| then ToRecord(m[i]) == v[i] && !m[i].fInTried else m[i].fInTried)
  }

  /** The tried table holds the first record of each tried slot. */
  ghost predicate TriedAre(env: Env, m: Infos, t: Table, w: seq<Record>) {
    && (forall k: nat :: FirstTried(env, w, k) ==>
          var x := TriedSlot(env, w[k].service); x in t && t[x] in m && ToRecord(m[t[x]]) == w[k])
    && (forall x :: x in t ==> exists k: nat :: FirstTried(env, w, k) && TriedSlot(env, w[k].service) == x)
  }

  lemma {:induction false} SomeFirst(env: Env, w: seq<Record>, j: nat) returns (k: nat)
    requires j < |w|
    ensures FirstTried(env, w, k) && TriedSlot(env, w[k].service) == TriedSlot(env, w[j].service)
  {
    if i :| 0 <= i < j && TriedSlot(env, w[i].service) == TriedSlot(env, w[j].service) {
      k := SomeFirst(env, w, i);
    } else {
      k := j;
    }
  }

  lemma FirstsStay(env: Env, w: seq<Record>, r: Record)
    ensures forall k: nat :: k < |w| ==> (w + [r])[k] == w[k] && (FirstTried(env, w + [r], k) <==> FirstTried(env, w, k))
  {
    var u := w + [r];
    assert forall k :: 0 <= k < |w| ==> u[k] == w[k];
  }

  lemma NotFirst(env: Env, w: seq<Record>, r: Record, j: nat)
    requires j < |w| && TriedSlot(env, w[j].service) == TriedSlot(env, r.service)
    ensures !FirstTried(env, w + [r], |w|)
  {
    hide TriedSlot;
    var u := w + [r];
    assert u[|w|] == r && u[j] == w[j];
  }

  lemma LostStep(env: Env, m: Infos, t: Table, w: seq<Record>, r: Record)
    requires TriedAre(env, m, t, w) && TriedSlot(env, r.service) in t
    ensures TriedAre(env, m, t, w + [r])
  {
    hide TriedSlot, ToRecord;
    FirstsStay(env, w, r);
    var u := w + [r];
    var j: nat :| FirstTried(env, w, j) && TriedSlot(env, w[j].service) == TriedSlot(env, r.service);
    NotFirst(env, w, r, j);
    forall k: nat | FirstTried(env, u, k)
      ensures var x := TriedSlot(env, u[k].service); x in t && t[x] in m && ToRecord(m[t[x]]) == u[k]
    {
      assert k < |w| && u[k] == w[k] && FirstTried(env, w, k);
    }
    forall x | x in t ensures exists k: nat :: FirstTried(env, u, k) && TriedSlot(env, u[k].service) == x {
      var k: nat :| FirstTried(env, w, k) && TriedSlot(env, w[k].service) == x;
      assert u[k] == w[k] && FirstTried(env, u, k);
    }
  }

  lemma KeptStep(env: Env, m: Infos, t: Table, w: seq<Record>, r: Record, id: int, i: Info)
    requires TriedAre(env, m, t, w) && TriedSlot(env, r.service) !in t && id !in m && ToRecord(i) == r
    ensures TriedAre(env, m[id := i], t[TriedSlot(env, r.service) := id], w + [r])
  {
    hide TriedSlot, ToRecord;
    FirstsStay(env, w, r);
    var u, x0 := w + [r], TriedSlot(env, r.service);
    assert u[|w|] == r;
    forall j | 0 <= j < |w| ensures TriedSlot(env, u[j].service) != x0 {
      var k := SomeFirst(env, w, j);
      assert u[j] == w[j];
    }
    assert FirstTried(env, u, |w|);
    var t' := t[x0 := id];
    forall x | x in t' ensures exists k: nat :: FirstTried(env, u, k) && TriedSlot(env, u[k].service) == x {
      if x == x0 {
        assert FirstTried(env, u, |w|);
      } else {
        var k: nat :| FirstTried(env, w, k) && TriedSlot(env, w[k].service) == x;
        assert u[k] == w[k] && FirstTried(env, u, k);
      }
    }
  }

  lemma TriedStep(env: Env, s: State, v: seq<Record>, w: seq<Record>, r: Record)
    requires NewAre(s.mapInfo, v) && TriedAre(env, s.mapInfo, s.tried, w) && s.nIdCount !in s.mapInfo
    requires s.nIdCount >= |v|
    ensures var t := WithTried(env, s, r);
            && NewAre(t.mapInfo, v) && TriedAre(env, t.mapInfo, t.tried, w + [r]) && t.nIdCount >= |v|
            && t.newTab == s.newTab && t.nNew == s.nNew && t.collisions == s.collisions
            && t.nTried == if TriedSlot(env, r.service) in s.tried then s.nTried - 1 else s.nTried
  {
    hide TriedAre, TriedSlot;
    if TriedSlot(env, r.service) in s.tried {
      LostStep(env, s.mapInfo, s.tried, w, r);
    } else {
      KeptStep(env, s.mapInfo, s.tried, w, r, s.nIdCount, FromRecord(r, |s.vRandom|).(fInTried := true));
    }
  }

  lemma TriedIsFresh(env: Env, s: State, v: seq<Record>, w: seq<Record>, r: Record, more: seq<Record>)
    requires AddrOk(s.mapInfo, s.mapAddr) && TriedOk(env, s.mapInfo, s.tried)
    requires NewAre(s.mapInfo, v) && TriedAre(env, s.mapInfo, s.tried, w) && DistinctAddresses(v + (w + [r] + more))
    ensures r.service.ip !in s.mapAddr
  {
    hide TriedSlot;
    var all := v + (w + [r] + more);
    var at := |v| + |w|;
    assert all[at] == r;
    assert forall i :: 0 <= i < |v| ==> all[i] == v[i];
    assert forall k :: 0 <= k < |w| ==> all[|v| + k] == w[k];
    if r.service.ip in s.mapAddr {
      IndexedTried(env, s, v, w, r.service.ip);
      assert false;
    }
  }

  lemma IndexedTried(env: Env, s: State, v: seq<Record>, w: seq<Record>, ip: NetAddr)
    requires AddrOk(s.mapInfo, s.mapAddr) && TriedOk(env, s.mapInfo, s.tried)
    requires NewAre(s.mapInfo, v) && TriedAre(env, s.mapInfo, s.tried, w) && ip in s.mapAddr
    ensures (exists i :: 0 <= i < |v| && v[i].service.ip == ip) || (exists k :: 0 <= k < |w| && w[k].service.ip == ip)
  {
    hide TriedSlot;
    var id := s.mapAddr[ip];
    if 0 <= id < |v| {
      assert v[id] == ToRecord(s.mapInfo[id]);
    } else {
      var x := TriedSlot(env, s.mapInfo[id].service);
      var k: nat :| FirstTried(env, w, k) && TriedSlot(env, w[k].service) == x;
      assert ToRecord(s.mapInfo[id]) == w[k];
    }
  }

  lemma {:induction false} LoadTriedLoads(env: Env, s: State, left: int, toks: seq<Token>, v: seq<Record>, w: seq<Record>,
                                          tried: int, limbo: set<int>, extra: int) returns (tried': int)
    requires Loading(env, s, s.nIdCount, tried, limbo, extra) && s.nIdCount >= |v|
    requires NewAre(s.mapInfo, v) && TriedAre(env, s.mapInfo, s.tried, w)
    requires LoadTried(env, s, left, toks).Some? && DistinctAddresses(v + (w + Recs(toks, left)))
    ensures var (r, rest) := LoadTried(env, s, left, toks).value; var more := Recs(toks, left);
            && (left >= 0 ==> |more| == left) && (left < 0 ==> more == [])
            && Loading(env, r, r.nIdCount, tried', limbo, extra)
            && NewAre(r.mapInfo, v) && TriedAre(env, r.mapInfo, r.tried, w + more)
            && r.newTab == s.newTab && r.nNew == s.nNew && r.collisions == s.collisions
            && (left >= 0 ==> r.nTried - tried' == s.nTried - tried - left)
            && (left < 0 ==> r.nTried == s.nTried)
    decreases left
  {
    hide Loading, NewAre, TriedAre, WithTried, DistinctAddresses;
    tried' := tried;
    if left > 0 {
      var r, more := toks[0].r, Recs(toks[1..], left - 1);
      assert w + ([r] + more) == w + [r] + more;
      LoadingClauses(env, s, s.nIdCount, tried, limbo, extra);
      TriedIsFresh(env, s, v, w, r, more);
      WithTriedKeeps(env, s, tried, r, limbo, extra);
      TriedStep(env, s, v, w, r);
      var t := WithTried(env, s, r);
      tried' := LoadTriedLoads(env, t, left - 1, toks[1..], v, w + [r],
                               if TriedSlot(env, r.service) in s.tried then tried else tried + 1, limbo, extra);
    } else {
      assert w + [] == w;
    }
  }

  lemma LoadingClauses(env: Env, s: State, count: int, tried: int, limbo: set<int>, extra: int)
    requires Loading(env, s, count, tried, limbo, extra)
    ensures AddrOk(s.mapInfo, s.mapAddr) && TriedOk(env, s.mapInfo, s.tried)
  {
  }

  // ---------------------------------------------------------------- the buckets

  /** The same records in the same tried slots; only references differ. */
  ghost predicate SameEntries(s: State, t: State) {
    && t.mapInfo.Keys == s.mapInfo.Keys && t.tried == s.tried && t.nTried == s.nTried && t.nNew == s.nNew
    && t.nIdCount == s.nIdCount && t.collisions == s.collisions
    && forall i :: i in s.mapInfo ==> ToRecord(t.mapInfo[i]) == ToRecord(s.mapInfo[i]) && t.mapInfo[i].fInTried == s.mapInfo[i].fInTried
  }

  lemma WithIndexKeeps(env: Env, f: Format, s: State, b: int, idx: int, v: seq<Record>, tried: int, limbo: set<int>, extra: int)
    returns (limbo': set<int>, extra': int)
    requires Loading(env, s, s.nIdCount, tried, limbo, extra) && NewAre(s.mapInfo, v) && s.nNew == |v|
    ensures var t := WithIndex(env, f, s, b, idx);
            SameEntries(s, t) && (!Usable(f) ==> t == s) && Loading(env, t, t.nIdCount, tried, limbo', extra')
  {
    hide IdsOk, AddrOk, RandomOk, NewOk, TriedOk, RefsOk, CountsOk;
    limbo', extra' := limbo, extra;
    if 0 <= idx < s.nNew && Usable(f) && 0 <= b < NEW_BUCKETS {
      var slot := Slot(b, env.newPos(b, s.mapInfo[idx].service));
      if slot !in s.newTab && s.mapInfo[idx].nRefCount < MAX_REFS {
        AddRefKeeps(env, s.(nTried := tried), slot, idx, limbo, extra);
        limbo', extra' := limbo - {idx}, if idx in limbo then extra - 1 else extra;
      }
    }
  }

  lemma SameStays(s: State, t: State, v: seq<Record>)
    requires NewAre(s.mapInfo, v) && SameEntries(s, t)
    ensures NewAre(t.mapInfo, v)
  {
  }

  lemma SameThrough(s: State, t: State, u: State)
    requires SameEntries(s, t) && SameEntries(t, u)
    ensures SameEntries(s, u)
  {
  }

  lemma {:induction false} LoadBucketLoads(env: Env, f: Format, s: State, b: int, left: int, toks: seq<Token>, v: seq<Record>,
                                           tried: int, limbo: set<int>, extra: int) returns (limbo': set<int>, extra': int)
    requires Loading(env, s, s.nIdCount, tried, limbo, extra) && NewAre(s.mapInfo, v) && s.nNew == |v|
    requires LoadBucket(env, f, s, b, left, toks).Some?
    ensures var r := LoadBucket(env, f, s, b, left, toks).value.0;
            SameEntries(s, r) && (!Usable(f) ==> r == s) && Loading(env, r, r.nIdCount, tried, limbo', extra')
    decreases left
  {
    hide Loading, NewAre, SameEntries, WithIndex;
    limbo', extra' := limbo, extra;
    if left > 0 {
      var t := WithIndex(env, f, s, b, toks[0].n);
      limbo', extra' := WithIndexKeeps(env, f, s, b, toks[0].n, v, tried, limbo, extra);
      SameStays(s, t, v);
      SameCounters(s, t);
      limbo', extra' := LoadBucketLoads(env, f, t, b, left - 1, toks[1..], v, tried, limbo', extra');
      SameThrough(s, t, LoadBucket(env, f, t, b, left - 1, toks[1..]).value.0);
    } else {
      SameSelf(s);
    }
  }

  lemma SameSelf(s: State)
    ensures SameEntries(s, s)
  {
  }

  lemma SameCounters(s: State, t: State)
    requires SameEntries(s, t)
    ensures t.nNew == s.nNew && t.nTried == s.nTried && t.nIdCount == s.nIdCount && t.tried == s.tried && t.collisions == s.collisions
  {
  }

  lemma {:induction false} LoadBucketsLoads(env: Env, f: Format, s: State, b: int, toks: seq<Token>, v: seq<Record>, tried: int,
                                            limbo: set<int>, extra: int) returns (limbo': set<int>, extra': int)
    requires Loading(env, s, s.nIdCount, tried, limbo, extra) && NewAre(s.mapInfo, v) && s.nNew == |v|
    requires LoadBuckets(env, f, s, b, toks).Some?
    ensures var r := LoadBuckets(env, f, s, b, toks).value.0;
            SameEntries(s, r) && (!Usable(f) ==> r == s) && Loading(env, r, r.nIdCount, tried, limbo', extra')
    decreases f.buckets - b
  {
    hide Loading, NewAre, SameEntries, LoadBucket;
    limbo', extra' := limbo, extra;
    if b < f.buckets {
      var t := LoadBucket(env, f, s, b, toks[0].n, toks[1..]).value;
      limbo', extra' := LoadBucketLoads(env, f, s, b, toks[0].n, toks[1..], v, tried, limbo, extra);
      SameStays(s, t.0, v);
      SameCounters(s, t.0);
      limbo', extra' := LoadBucketsLoads(env, f, t.0, b + 1, t.1, v, tried, limbo', extra');
      SameThrough(s, t.0, LoadBuckets(env, f, t.0, b + 1, t.1).value.0);
    } else {
      SameSelf(s);
    }
  }

  // ---------------------------------------------------------------- pruning

  /** `t` is `s` without the entries in `gone`. */
  ghost predicate Without(s: State, t: State, gone: set<int>) {
    && t.mapInfo.Keys == s.mapInfo.Keys - gone && t.tried == s.tried && t.newTab == s.newTab && t.nTried == s.nTried
    && t.nIdCount == s.nIdCount && t.collisions == s.collisions
    && forall i :: i in t.mapInfo ==> SameRecord(t.mapInfo[i], s.mapInfo[i])
  }

  lemma DeleteIs(s: State, id: int)
    requires CanDelete(s, id)
    ensures Without(s, Delete(s, id), {id})
  {
    DeleteSurvives(s, id);
  }

  lemma WithoutMore(s: State, t: State, u: State, id: int, gone: set<int>)
    requires Without(s, t, {id}) && Without(t, u, gone)
    ensures Without(s, u, gone + {id})
  {
  }

  /** The pruning loop deletes exactly the entries in no table, and never fails. */
  lemma {:induction false} PruneLoads(env: Env, s: State, tried: int, ids: set<int>, limbo: set<int>, extra: int)
    requires Loading(env, s, s.nIdCount, tried, limbo, extra) && limbo <= ids
    ensures Prune(s, ids).Some? && Without(s, Prune(s, ids).value, limbo)
    ensures Loading(env, Prune(s, ids).value, s.nIdCount, tried, {}, extra - |limbo|)
    decreases |ids|
  {
    hide Check, Without, Delete;
    if ids == {} {
      NoneGone(s);
    } else {
      var id := Smallest(ids);
      InNoTable(env, s, tried, limbo, extra, id);
      if id in limbo {
        DeleteKeeps(env, s.(nTried := tried), id, limbo, extra);
        DeleteIs(s, id);
        DeleteCounts(s, id, tried);
        var t := Delete(s, id);
        WithoutCounters(s, t, {id});
        PruneLoads(env, t, tried, ids - {id}, limbo - {id}, extra - 1);
        WithoutMore(s, t, Prune(t, ids - {id}).value, id, limbo - {id});
        assert limbo - {id} + {id} == limbo;
      } else {
        PruneLoads(env, s, tried, ids - {id}, limbo, extra);
      }
    }
  }

  lemma NoneGone(s: State)
    ensures Without(s, s, {})
  {
  }

  lemma WithoutCounters(s: State, t: State, gone: set<int>)
    requires Without(s, t, gone)
    ensures t.nIdCount == s.nIdCount
  {
  }

  lemma DeleteCounts(s: State, id: int, tried: int)
    requires CanDelete(s, id)
    ensures Delete(s.(nTried := tried), id) == Delete(s, id).(nTried := tried)
  {
    hide RandomOk;
    SwapToEnd(s, id);
    var p, n := s.mapInfo[id].nRandomPos, |s.vRandom| - 1;
    assert SwapRandom(s.(nTried := tried), p, n) == SwapRandom(s, p, n).(nTried := tried);
  }

  /** The entries that pruning looks for are those in limbo. */
  lemma InNoTable(env: Env, s: State, tried: int, limbo: set<int>, extra: int, id: int)
    requires Loading(env, s, s.nIdCount, tried, limbo, extra)
    ensures id in s.mapInfo && !s.mapInfo[id].fInTried && s.mapInfo[id].nRefCount == 0 <==> id in limbo
    ensures id in limbo ==> CanDelete(s, id)
  {
    hide IdsOk, AddrOk, NewOk, TriedOk;
    assert limbo <= NewIds(s.mapInfo);
  }

  // ---------------------------------------------------------------- the whole stream

  /** What a loaded manager keeps of the new and the tried records of a stream: a new record just when some slot refers
      to it, which without a usable table is the first record of each primary slot, and of the tried records the first
      of each tried slot. */
  ghost predicate Keeps(env: Env, f: Format, r: State, v: seq<Record>, w: seq<Record>) {
    && (forall i :: i in r.mapInfo ==> if 0 <= i < |v| then ToRecord(r.mapInfo[i]) == v[i] && !r.mapInfo[i].fInTried else r.mapInfo[i].fInTried)
    && (forall i :: 0 <= i < |v| ==> (i in r.mapInfo <==> SlotsOf(r.newTab, i) != {}))
    && (!Usable(f) ==> Primaries(env, v, r.newTab))
    && TriedAre(env, r.mapInfo, r.tried, w)
  }

  lemma PrunedKeeps(env: Env, f: Format, s: State, r: State, v: seq<Record>, w: seq<Record>, tried: int, limbo: set<int>, extra: int)
    requires Loading(env, s, s.nIdCount, tried, limbo, extra) && Without(s, r, limbo)
    requires NewAre(s.mapInfo, v) && TriedAre(env, s.mapInfo, s.tried, w) && (!Usable(f) ==> Primaries(env, v, s.newTab))
    ensures Keeps(env, f, r, v, w)
  {
    hide IdsOk, AddrOk, RandomOk, NewOk, CountsOk, Primaries, TriedAre;
    assert limbo <= NewIds(s.mapInfo) by { LimboIsNew(env, s, tried, limbo, extra); }
    PrunedTried(env, s, r, w, limbo);
    forall i | 0 <= i < |v| ensures i in r.mapInfo <==> SlotsOf(r.newTab, i) != {} {
      assert s.mapInfo[i].nRefCount == |SlotsOf(s.newTab, i)|;
    }
  }

  lemma LimboIsNew(env: Env, s: State, tried: int, limbo: set<int>, extra: int)
    requires Loading(env, s, s.nIdCount, tried, limbo, extra)
    ensures limbo <= NewIds(s.mapInfo) && s.nNew == |NewIds(s.mapInfo) - limbo| + extra
    ensures tried == |TriedIds(s.mapInfo)|
  {
  }

  lemma PrunedTried(env: Env, s: State, r: State, w: seq<Record>, limbo: set<int>)
    requires TriedAre(env, s.mapInfo, s.tried, w) && Without(s, r, limbo) && limbo <= NewIds(s.mapInfo)
    requires TriedOk(env, s.mapInfo, s.tried)
    ensures TriedAre(env, r.mapInfo, r.tried, w)
  {
    hide TriedSlot;
    forall k: nat | FirstTried(env, w, k)
      ensures var x := TriedSlot(env, w[k].service); x in r.tried && r.tried[x] in r.mapInfo && ToRecord(r.mapInfo[r.tried[x]]) == w[k]
    {
      var id := s.tried[TriedSlot(env, w[k].service)];
      assert id in s.mapInfo && id !in limbo;
      assert id in r.mapInfo.Keys;
      assert SameRecord(r.mapInfo[id], s.mapInfo[id]);
    }
  }

  /** All but the pruned entries account for what the counter still has too many. */
  lemma PruneCount(env: Env, s: State, v: seq<Record>, tried: int, limbo: set<int>, extra: int)
    requires Loading(env, s, s.nIdCount, tried, limbo, extra) && NewAre(s.mapInfo, v) && s.nNew == |v|
    ensures extra == |limbo|
  {
    hide Loading, NewAre, NewIds;
    LimboIsNew(env, s, tried, limbo, extra);
    NewAreRange(s.mapInfo, v);
    assert NewIds(s.mapInfo) == (NewIds(s.mapInfo) - limbo) + limbo;
  }

  lemma NewAreRange(m: Infos, v: seq<Record>)
    requires NewAre(m, v)
    ensures |NewIds(m)| == |v|
  {
    hide ToRecord;
    assert NewIds(m) == Range(0, |v|);
  }

  predicate Headed(toks: seq<Token>) { |toks| >= 6 && forall i :: 0 <= i < 6 ==> toks[i].Num? }

  function NewRecords(toks: seq<Token>): seq<Record>
    requires Headed(toks)
  {
    Recs(toks[6..], toks[3].n)
  }

  function TriedRecords(toks: seq<Token>): seq<Record>
    requires Headed(toks) && 0 <= toks[3].n <= |toks| - 6
  {
    Recs(toks[6..][toks[3].n..], toks[4].n)
  }

  /** The stream has a header and as many records as that says. */
  predicate Complete(toks: seq<Token>) {
    && Headed(toks) && 0 <= toks[3].n <= |toks| - 6
    && |NewRecords(toks)| == toks[3].n && |TriedRecords(toks)| == if toks[4].n < 0 then 0 else toks[4].n
  }

  lemma {:induction false} NewComplete(env: Env, f: Format, s: State, n: int, toks: seq<Token>)
    requires LoadNew(env, f, s, n, toks).Some? && n <= s.nNew
    ensures |Recs(toks, s.nNew - n)| == s.nNew - n <= |toks| && LoadNew(env, f, s, n, toks).value.1 == toks[s.nNew - n..]
    decreases s.nNew - n
  {
    hide WithNew;
    if n < s.nNew {
      NewComplete(env, f, WithNew(env, f, s, n, toks[0].r), n + 1, toks[1..]);
      assert toks[1..][s.nNew - n - 1..] == toks[s.nNew - n..];
    }
  }

  lemma {:induction false} TriedComplete(env: Env, s: State, left: int, toks: seq<Token>)
    requires LoadTried(env, s, left, toks).Some?
    ensures |Recs(toks, left)| == if left < 0 then 0 else left
    decreases left
  {
    hide WithTried;
    if left > 0 { TriedComplete(env, WithTried(env, s, toks[0].r), left - 1, toks[1..]); }
  }

  lemma AcceptedIsComplete(envOf: int -> Env, collisions: set<int>, toks: seq<Token>)
    requires LoadTables(envOf, collisions, toks).Some?
    ensures Complete(toks)
  {
    hide LoadNew, LoadTried, LoadBuckets, Recs;
    var env, f := envOf(toks[2].n), FormatOf(toks[0].n, toks[5].n);
    var a := LoadNew(env, f, Blank(toks[3].n, toks[4].n, collisions), 0, toks[6..]).value;
    NewComplete(env, f, Blank(toks[3].n, toks[4].n, collisions), 0, toks[6..]);
    TriedComplete(env, a.0.(nIdCount := toks[3].n), toks[4].n, a.1);
  }

  lemma StartTried(env: Env, f: Format, s: State, v: seq<Record>, limbo: set<int>, extra: int)
    requires Loading(env, s, |v|, 0, limbo, extra) && NewLoaded(env, f, s, v)
    ensures var t := s.(nIdCount := |v|);
            Loading(env, t, t.nIdCount, 0, limbo, extra) && NewAre(t.mapInfo, v) && TriedAre(env, t.mapInfo, t.tried, [])
    ensures !Usable(f) ==> Primaries(env, v, s.newTab)
  {
    hide Check, Primaries;
  }

  /** The state before pruning, for every stream of records with distinct addresses. */
  lemma TablesLoad(envOf: int -> Env, collisions: set<int>, toks: seq<Token>)
    returns (tried: int, limbo: set<int>, extra: int)
    requires LoadTables(envOf, collisions, toks).Some? && Complete(toks)
    requires DistinctAddresses(NewRecords(toks) + TriedRecords(toks))
    ensures var (key, s) := LoadTables(envOf, collisions, toks).value;
            var env, f, v, w := envOf(key), FormatOf(toks[0].n, toks[5].n), NewRecords(toks), TriedRecords(toks);
            && key == toks[2].n && Loading(env, s, s.nIdCount, tried, limbo, extra) && s.nNew == |v|
            && NewAre(s.mapInfo, v) && TriedAre(env, s.mapInfo, s.tried, w) && (!Usable(f) ==> Primaries(env, v, s.newTab))
            && (s.nTried == tried <==> toks[4].n >= 0)
  {
    hide LoadNew, LoadTried, LoadBuckets, Recs, Loading, NewLoaded, NewAre, TriedAre, Primaries, DistinctAddresses, SameEntries;
    var env, f := envOf(toks[2].n), FormatOf(toks[0].n, toks[5].n);
    var v, w := NewRecords(toks), TriedRecords(toks);
    var blank := Blank(toks[3].n, toks[4].n, collisions);
    BlankLoads(env, toks[3].n, toks[4].n, collisions);
    BlankIsLoaded(env, f, toks[3].n, toks[4].n, collisions);
    DistinctFront(v, w);
    assert [] + v == v;
    limbo, extra := LoadNewLoads(env, f, blank, toks[6..], [], {}, toks[3].n);
    var (a, rest) := LoadNew(env, f, blank, 0, toks[6..]).value;
    StartTried(env, f, a, v, limbo, extra);
    assert [] + w == w;
    var b0 := a.(nIdCount := toks[3].n);
    tried := LoadTriedLoads(env, b0, toks[4].n, rest, v, [], 0, limbo, extra);
    var (b, rest') := LoadTried(env, b0, toks[4].n, rest).value;
    TriedNotNegative(env, b, tried, limbo, extra);
    limbo, extra := LoadBucketsLoads(env, f, b, 0, rest', v, tried, limbo, extra);
    var c := LoadBuckets(env, f, b, 0, rest').value.0;
    SameStays(b, c, v);
    SameCounters(b, c);
    SameTried(env, b, c, w);
  }

  lemma BlankIsLoaded(env: Env, f: Format, nNew: int, nTried: int, collisions: set<int>)
    ensures NewLoaded(env, f, Blank(nNew, nTried, collisions), [])
  {
  }

  lemma DistinctFront(v: seq<Record>, w: seq<Record>)
    requires DistinctAddresses(v + w)
    ensures DistinctAddresses(v)
  {
    var all := v + w;
    assert forall i :: 0 <= i < |v| ==> all[i] == v[i];
  }

  lemma TriedNotNegative(env: Env, s: State, tried: int, limbo: set<int>, extra: int)
    requires Loading(env, s, s.nIdCount, tried, limbo, extra)
    ensures tried >= 0
  {
    LimboIsNew(env, s, tried, limbo, extra);
  }

  lemma SameTried(env: Env, s: State, t: State, w: seq<Record>)
    requires SameEntries(s, t) && TriedAre(env, s.mapInfo, s.tried, w)
    ensures TriedAre(env, t.mapInfo, t.tried, w)
  {
    hide TriedSlot, ToRecord;
    forall k: nat | FirstTried(env, w, k)
      ensures var x := TriedSlot(env, w[k].service); x in t.tried && t.tried[x] in t.mapInfo && ToRecord(t.mapInfo[t.tried[x]]) == w[k]
    {
      var id := s.tried[TriedSlot(env, w[k].service)];
      assert id in s.mapInfo.Keys;
    }
  }

  /** No two records of the stream have the same address. */
  predicate DistinctRecords(toks: seq<Token>) {
    Complete(toks) ==> DistinctAddresses(NewRecords(toks) + TriedRecords(toks))
  }

  /** Every stream of records with distinct addresses that is read to its end is loaded: pruning never fails, the manager
      keeps exactly the records that found a slot, and it has the invariant just when the count of tried entries is not
      negative. */
  lemma LoadedIsSound(envOf: int -> Env, collisions: set<int>, toks: seq<Token>)
    requires LoadTables(envOf, collisions, toks).Some? && DistinctRecords(toks)
    ensures Complete(toks) && Load(envOf, collisions, toks).Some?
    ensures var (key, r) := Load(envOf, collisions, toks).value;
            && key == toks[2].n
            && Keeps(envOf(key), FormatOf(toks[0].n, toks[5].n), r, NewRecords(toks), TriedRecords(toks))
            && (Inv(envOf(key), r) <==> toks[4].n >= 0)
  {
    hide LoadTables, Loading, NewAre, TriedAre, Primaries, DistinctAddresses, Prune, Keeps, NewRecords, TriedRecords, Without;
    AcceptedIsComplete(envOf, collisions, toks);
    var tried, limbo, extra := TablesLoad(envOf, collisions, toks);
    var (key, s) := LoadTables(envOf, collisions, toks).value;
    var env, f, v, w := envOf(key), FormatOf(toks[0].n, toks[5].n), NewRecords(toks), TriedRecords(toks);
    LimboIn(env, s, tried, limbo, extra);
    PruneLoads(env, s, tried, s.mapInfo.Keys, limbo, extra);
    var r := Prune(s, s.mapInfo.Keys).value;
    PrunedKeeps(env, f, s, r, v, w, tried, limbo, extra);
    PruneCount(env, s, v, tried, limbo, extra);
    PrunedInv(env, s, r, tried, limbo);
  }

  lemma LimboIn(env: Env, s: State, tried: int, limbo: set<int>, extra: int)
    requires Loading(env, s, s.nIdCount, tried, limbo, extra)
    ensures limbo <= s.mapInfo.Keys
  {
    hide Check;
    LimboKnown(env, s.(nTried := tried), limbo, extra);
    forall id | id in limbo ensures id in s.mapInfo.Keys {}
  }

  lemma PrunedInv(env: Env, s: State, r: State, tried: int, limbo: set<int>)
    requires Without(s, r, limbo) && Loading(env, r, s.nIdCount, tried, {}, 0)
    ensures Inv(env, r) <==> s.nTried == tried
  {
    hide IdsOk, AddrOk, RandomOk, NewOk, TriedOk, RefsOk;
  }
}
