/** The anti-equivocation guard of a quorum member (src/llmq.cpp) over every sequence of requests,
    and what it means for two certificates on the same parent. */
module QuorumGuard {
  import opened Options
  import opened Q = Quorum

  datatype Proposal = Proposal(block: Hash, coordinator: PubKey, time: int)

  /** One call of the guard: the clock reading and the three arguments. */
  datatype Request = Request(now: int, parent: Hash, coordinator: PubKey, block: Hash)

  type Table = map<Hash, Proposal>

  const MAX_ENTRIES := 1000
  const STALE_SECS := 3600
  const SAME_COORDINATOR_SECS := 12
  const GUARD_SECS := 30

  function Window(p: Proposal, q: Request): int {
    if p.coordinator == q.coordinator then SAME_COORDINATOR_SECS else GUARD_SECS
  }

  function Stale(t: Table, now: int): set<Hash> { set h | h in t && now - t[h].time > STALE_SECS }

  function Pruned(t: Table, now: int): Table { if |t| > MAX_ENTRIES then t - Stale(t, now) else t }

  /** The guard writes a new entry for this request. */
  predicate Records(t: Table, q: Request) {
    var p := Pruned(t, q.now);
    q.parent !in p || (p[q.parent].block != q.block && q.now - p[q.parent].time >= Window(p[q.parent], q))
  }

  predicate Allows(t: Table, q: Request) {
    var p := Pruned(t, q.now);
    Records(t, q) || p[q.parent].block == q.block
  }

  function Next(t: Table, q: Request): Table {
    if Records(t, q) then Pruned(t, q.now)[q.parent := Proposal(q.block, q.coordinator, q.now)] else Pruned(t, q.now)
  }

  class SigningGuard {
    var signed: Table

    constructor ()
      ensures signed == map[]
    {
      signed := map[];
    }

    method EraseStale(now: int)
      modifies this
      ensures signed == old(signed) - Stale(old(signed), now)
    {
      var todo := signed.Keys;
      ghost var was := signed;
      while todo != {}
        invariant todo <= was.Keys
        invariant signed == was - (Stale(was, now) - todo)
        decreases |todo|
      {
        var h :| h in todo;
        if now - signed[h].time > STALE_SECS {
          signed := signed - {h};
        }
        todo := todo - {h};
      }
    }

    method AllowQuorumSignature(now: int, parent: Hash, coordinator: PubKey, block: Hash) returns (ok: bool)
      modifies this
      ensures ok == Allows(old(signed), Request(now, parent, coordinator, block))
      ensures signed == Next(old(signed), Request(now, parent, coordinator, block))
    {
      if |signed| > MAX_ENTRIES {
        EraseStale(now);
      }
      if parent !in signed {
        signed := signed[parent := Proposal(block, coordinator, now)];
        return true;
      }
      var prev := signed[parent];
      if prev.block == block { return true; }
      var guardWindow := if prev.coordinator == coordinator then SAME_COORDINATOR_SECS else GUARD_SECS;
      if now - prev.time >= guardWindow {
        signed := signed[parent := Proposal(block, coordinator, now)];
        return true;
      }
      return false;
    }
  }

  // ---------------------------------------------------------------- one member's whole history

  ghost predicate ClockMonotone(run: seq<Request>) {
    forall i, j :: 0 <= i < j < |run| ==> run[i].now <= run[j].now
  }

  /** The guard's table after a run of requests. */
  function After(run: seq<Request>): Table {
    if run == [] then map[] else Next(After(run[..|run| - 1]), run[|run| - 1])
  }

  /** The requests of a run for which the guard wrote an entry, in order. */
  function Log(run: seq<Request>): seq<Request> {
    if run == [] then []
    else
      var front := run[..|run| - 1];
      var q := run[|run| - 1];
      if Records(After(front), q) then Log(front) + [q] else Log(front)
  }

  /** The guard approved the i-th request of the run. */
  predicate Approved(run: seq<Request>, i: nat)
    requires i < |run|
  {
    Allows(After(run[..i]), run[i])
  }

  /** Entries of one parent are at least 12 seconds apart, and 30 when the coordinators differ. */
  ghost predicate Spaced(log: seq<Request>) {
    forall i, j :: 0 <= i < j < |log| && log[i].parent == log[j].parent ==> Apart(log[i], log[j])
  }

  predicate Apart(a: Request, b: Request) {
    && b.now - a.now >= 12
    && (a.coordinator != b.coordinator ==> b.now - a.now >= 30)
  }

  /** `k` is the last entry of the log for this parent. */
  ghost predicate LastOn(log: seq<Request>, parent: Hash, k: nat) {
    k < |log| && log[k].parent == parent && forall i :: k < i < |log| ==> log[i].parent != parent
  }

  function Entry(q: Request): Proposal { Proposal(q.block, q.coordinator, q.now) }

  /** The table holds the last entry of each parent; a parent it no longer holds was logged over an hour ago. */
  ghost predicate TableOk(t: Table, log: seq<Request>, now: int) {
    && (forall i :: 0 <= i < |log| ==> log[i].now <= now)
    && (forall k :: 0 <= k < |log| && LastOn(log, log[k].parent, k) ==>
          if log[k].parent in t then t[log[k].parent] == Entry(log[k]) else now - log[k].now > STALE_SECS)
    && (forall h :: h in t ==> exists k :: LastOn(log, h, k))
  }

  lemma PruneKeepsTable(t: Table, log: seq<Request>, now: int, later: int)
    requires TableOk(t, log, now) && now <= later
    ensures TableOk(Pruned(t, later), log, later)
  {
  }

  lemma RecordKeepsTable(t: Table, log: seq<Request>, q: Request)
    requires TableOk(t, log, q.now)
    ensures TableOk(t[q.parent := Entry(q)], log + [q], q.now)
  {
    var t' := t[q.parent := Entry(q)];
    var log' := log + [q];
    assert LastOn(log', q.parent, |log|);
    forall h | h in t' ensures exists k :: LastOn(log', h, k) {
      if h != q.parent {
        var k :| LastOn(log, h, k);
        assert LastOn(log', h, k);
      }
    }
    forall k | 0 <= k < |log'| && LastOn(log', log'[k].parent, k)
      ensures if log'[k].parent in t' then t'[log'[k].parent] == Entry(log'[k]) else q.now - log'[k].now > STALE_SECS
    {
      if k < |log| {
        assert log'[|log|] == q && log'[k] == log[k];
        assert forall i :: k < i < |log| ==> log'[i] == log[i];
        assert LastOn(log, log[k].parent, k);
      }
    }
  }

  lemma {:induction false} SomeLast(log: seq<Request>, i: nat) returns (k: nat)
    requires i < |log|
    ensures LastOn(log, log[i].parent, k) && i <= k
    decreases |log| - i
  {
    if j :| i < j < |log| && log[j].parent == log[i].parent {
      k := SomeLast(log, j);
    } else {
      k := i;
    }
  }

  /** A new entry keeps its distance from every earlier entry of its parent. */
  lemma RecordSpaced(t: Table, log: seq<Request>, q: Request, i: nat)
    requires TableOk(t, log, q.now) && Spaced(log) && i < |log| && log[i].parent == q.parent
    requires q.parent !in t || q.now - t[q.parent].time >= Window(t[q.parent], q)
    ensures Apart(log[i], q)
  {
    var k := SomeLast(log, i);
    if q.parent in t {
      assert t[q.parent] == Entry(log[k]);
    }
  }

  lemma {:induction false} RunSpaced(run: seq<Request>, now: int)
    requires ClockMonotone(run) && (run != [] ==> run[|run| - 1].now <= now)
    ensures Spaced(Log(run)) && TableOk(After(run), Log(run), now)
  {
    hide TableOk, Pruned, Spaced, Apart;
    if run == [] {
      NothingLogged(now);
    } else {
      var front, q := run[..|run| - 1], run[|run| - 1];
      RunSpaced(front, q.now);
      var t, log := After(front), Log(front);
      PruneKeepsTable(t, log, q.now, q.now);
      if Records(t, q) {
        RecordKeepsTable(Pruned(t, q.now), log, q);
        forall i | 0 <= i < |log| && log[i].parent == q.parent ensures Apart(log[i], q) {
          RecordSpaced(Pruned(t, q.now), log, q, i);
        }
        SpacedNext(log, q);
      }
      TableLater(After(run), Log(run), q.now, now);
    }
  }

  lemma NothingLogged(now: int)
    ensures Spaced([]) && TableOk(map[], [], now)
  {
  }

  lemma SpacedNext(log: seq<Request>, q: Request)
    requires Spaced(log) && forall i :: 0 <= i < |log| && log[i].parent == q.parent ==> Apart(log[i], q)
    ensures Spaced(log + [q])
  {
    hide Apart;
    var all := log + [q];
    assert all[|log|] == q && forall i :: 0 <= i < |log| ==> all[i] == log[i];
  }

  lemma TableLater(t: Table, log: seq<Request>, now: int, later: int)
    requires TableOk(t, log, now) && now <= later
    ensures TableOk(t, log, later)
  {
  }

  /** Every approval stands on a logged entry for the same parent and block. */
  lemma ApprovedIsLogged(run: seq<Request>, i: nat) returns (k: nat)
    requires ClockMonotone(run) && i < |run| && Approved(run, i)
    ensures k < |Log(run)| && Log(run)[k].parent == run[i].parent && Log(run)[k].block == run[i].block
  {
    hide TableOk, Pruned, Spaced;
    var upto, q := run[..i], run[i];
    RunSpaced(upto, q.now);
    var t, log := After(upto), Log(upto);
    PruneKeepsTable(t, log, q.now, q.now);
    LogGrows(run, i);
    LogGrows(run, i + 1);
    if Records(t, q) {
      k := |log|;
      LogNext(run, i);
    } else {
      k := TableEntry(Pruned(t, q.now), log, q.now, q.parent);
    }
  }

  /** A table entry is the last logged one of its parent. */
  lemma TableEntry(t: Table, log: seq<Request>, now: int, parent: Hash) returns (k: nat)
    requires TableOk(t, log, now) && parent in t
    ensures LastOn(log, parent, k) && t[parent] == Entry(log[k])
  {
    k :| LastOn(log, parent, k);
  }

  lemma LogNext(run: seq<Request>, i: nat)
    requires i < |run|
    ensures Records(After(run[..i]), run[i]) ==> Log(run[..i + 1]) == Log(run[..i]) + [run[i]]
  {
    assert run[..i + 1][..i] == run[..i];
  }

  lemma {:induction false} LogGrows(run: seq<Request>, i: nat)
    requires i <= |run|
    ensures Log(run[..i]) <= Log(run)
    decreases |run|
  {
    if i == |run| {
      assert run[..i] == run;
    } else {
      var front := run[..|run| - 1];
      LogGrows(front, i);
      assert front[..i] == run[..i];
    }
  }

  // ---------------------------------------------------------------- the whole quorum

  /** Every signer of the certificate had its guard approve that block on that parent. */
  ghost predicate SharesReleased(runs: map<OutPoint, seq<Request>>, cert: Certificate, parent: Hash) {
    forall o :: o in Signers(cert) ==> o in runs && Released(runs[o], parent, cert.blockHash)
  }

  ghost predicate Released(run: seq<Request>, parent: Hash, block: Hash) {
    exists i :: 0 <= i < |run| && run[i].parent == parent && run[i].block == block && Approved(run, i)
  }

  /** Some member logged both blocks on this parent, and the two entries keep the guard's distance. */
  ghost predicate SignedBothApart(run: seq<Request>, parent: Hash, b1: Hash, b2: Hash) {
    exists k1, k2 :: 0 <= k1 < |Log(run)| && 0 <= k2 < |Log(run)| && LoggedApart(Log(run)[k1], Log(run)[k2], parent, b1, b2)
  }

  ghost predicate LoggedApart(a: Request, b: Request, parent: Hash, b1: Hash, b2: Hash) {
    && a.parent == b.parent == parent && a.block == b1 && b.block == b2
    && (Apart(a, b) || Apart(b, a))
  }

  lemma MemberSignedBoth(run: seq<Request>, parent: Hash, b1: Hash, b2: Hash)
    requires ClockMonotone(run) && b1 != b2 && Released(run, parent, b1) && Released(run, parent, b2)
    ensures SignedBothApart(run, parent, b1, b2)
  {
    var i1 :| 0 <= i1 < |run| && run[i1].parent == parent && run[i1].block == b1 && Approved(run, i1);
    var i2 :| 0 <= i2 < |run| && run[i2].parent == parent && run[i2].block == b2 && Approved(run, i2);
    var k1 := ApprovedIsLogged(run, i1);
    var k2 := ApprovedIsLogged(run, i2);
    RunSpaced(run, run[|run| - 1].now);
    assert k1 != k2;
    assert LoggedApart(Log(run)[k1], Log(run)[k2], parent, b1, b2);
  }

  /** Two valid certificates for different blocks on one parent always share a member whose guard logged
      both blocks at least 12 seconds apart, and at least 30 seconds apart for competing coordinators. */
  lemma TwoCertificatesAreApart(c: Crypto, members: seq<Member>, runs: map<OutPoint, seq<Request>>,
                                c1: Certificate, c2: Certificate, parent: Hash)
    requires ValidCertificate(c, members, c1) && ValidCertificate(c, members, c2)
    requires c1.blockHash != c2.blockHash
    requires forall o :: o in runs ==> ClockMonotone(runs[o])
    requires SharesReleased(runs, c1, parent) && SharesReleased(runs, c2, parent)
    ensures exists o :: o in Signers(c1) && o in Signers(c2) && o in runs
                     && SignedBothApart(runs[o], parent, c1.blockHash, c2.blockHash)
  {
    CertificatesIntersect(c, members, c1, c2);
    var o :| o in Signers(c1) && o in Signers(c2);
    MemberSignedBoth(runs[o], parent, c1.blockHash, c2.blockHash);
  }

  /** Every entry the guard logged for this parent falls in the given stretch of time. */
  ghost predicate LoggedWithin(run: seq<Request>, parent: Hash, start: int, secs: int) {
    forall k :: 0 <= k < |Log(run)| && Log(run)[k].parent == parent ==> start <= Log(run)[k].now < start + secs
  }

  /** At most one block per parent is certified while the members' entries for it span under 12 seconds. */
  lemma OneCertificatePerWindow(c: Crypto, members: seq<Member>, runs: map<OutPoint, seq<Request>>,
                                c1: Certificate, c2: Certificate, parent: Hash, start: OutPoint -> int)
    requires ValidCertificate(c, members, c1) && ValidCertificate(c, members, c2)
    requires forall o :: o in runs ==> ClockMonotone(runs[o]) && LoggedWithin(runs[o], parent, start(o), 12)
    requires SharesReleased(runs, c1, parent) && SharesReleased(runs, c2, parent)
    ensures c1.blockHash == c2.blockHash
  {
    if c1.blockHash != c2.blockHash {
      TwoCertificatesAreApart(c, members, runs, c1, c2, parent);
      assert false;
    }
  }

  /** With competing coordinators the window is 30 seconds: if every entry for the first block names one
      coordinator and every entry for the second names another, 30 seconds must pass at some member. */
  lemma CompetingCoordinators(c: Crypto, members: seq<Member>, runs: map<OutPoint, seq<Request>>,
                              c1: Certificate, c2: Certificate, parent: Hash, k1: PubKey, k2: PubKey,
                              start: OutPoint -> int)
    requires ValidCertificate(c, members, c1) && ValidCertificate(c, members, c2) && k1 != k2
    requires forall o :: o in runs ==> ClockMonotone(runs[o]) && LoggedWithin(runs[o], parent, start(o), 30)
    requires forall o :: o in runs ==> ProposedBy(runs[o], c1.blockHash, k1) && ProposedBy(runs[o], c2.blockHash, k2)
    requires SharesReleased(runs, c1, parent) && SharesReleased(runs, c2, parent)
    ensures c1.blockHash == c2.blockHash
  {
    if c1.blockHash != c2.blockHash {
      TwoCertificatesAreApart(c, members, runs, c1, c2, parent);
      var o :| o in Signers(c1) && o in Signers(c2) && o in runs
            && SignedBothApart(runs[o], parent, c1.blockHash, c2.blockHash);
      CoordinatorsFillWindow(runs[o], parent, c1.blockHash, c2.blockHash, k1, k2, start(o));
    }
  }

  ghost predicate ProposedBy(run: seq<Request>, block: Hash, coordinator: PubKey) {
    forall k :: 0 <= k < |Log(run)| && Log(run)[k].block == block ==> Log(run)[k].coordinator == coordinator
  }

  lemma CoordinatorsFillWindow(run: seq<Request>, parent: Hash, b1: Hash, b2: Hash, k1: PubKey, k2: PubKey, start: int)
    requires SignedBothApart(run, parent, b1, b2) && k1 != k2
    requires ProposedBy(run, b1, k1) && ProposedBy(run, b2, k2)
    ensures !LoggedWithin(run, parent, start, 30)
  {
    var i, j :| 0 <= i < |Log(run)| && 0 <= j < |Log(run)| && LoggedApart(Log(run)[i], Log(run)[j], parent, b1, b2);
  }

  /** The last entry for the parent, if any, is for the same block, or 12 seconds old, and 30 if another coordinator's. */
  ghost predicate MaySign(log: seq<Request>, q: Request) {
    forall k: nat :: LastOn(log, q.parent, k) ==>
      log[k].block == q.block || q.now - log[k].now >= if log[k].coordinator == q.coordinator then 12 else 30
  }

  /** A request leaves the entries of other parents alone, except that it forgets those over an hour old when there were
      more than a thousand. */
  lemma OthersStay(t: Table, q: Request, h: Hash)
    requires h != q.parent
    ensures h in Next(t, q) <==> h in t && (|t| <= 1000 || q.now - t[h].time <= 3600)
    ensures h in Next(t, q) ==> Next(t, q)[h] == t[h]
  {
  }

  lemma TableDecides(p: Table, log: seq<Request>, q: Request)
    requires TableOk(p, log, q.now)
    ensures MaySign(log, q) <==>
              q.parent in p ==> p[q.parent].block == q.block || q.now - p[q.parent].time >= Window(p[q.parent], q)
  {
    if q.parent in p {
      var k := TableEntry(p, log, q.now, q.parent);
      assert forall l: nat :: LastOn(log, q.parent, l) ==> l == k;
    }
  }

  /** Pruning never changes a decision: whatever the guard was asked before, it signs just when it never
      logged an entry for the parent, or the last one is for the same block or a full window old. */
  lemma DecisionIff(run: seq<Request>, q: Request)
    requires ClockMonotone(run + [q])
    ensures Allows(After(run), q) <==> MaySign(Log(run), q)
  {
    hide Spaced, TableOk, MaySign, Pruned;
    PrefixMonotone(run, q);
    RunSpaced(run, q.now);
    PruneKeepsTable(After(run), Log(run), q.now, q.now);
    TableDecides(Pruned(After(run), q.now), Log(run), q);
  }

  lemma PrefixMonotone(run: seq<Request>, q: Request)
    requires ClockMonotone(run + [q])
    ensures ClockMonotone(run) && (run != [] ==> run[|run| - 1].now <= q.now)
  {
    var all := run + [q];
    assert all[|run|] == q && forall i :: 0 <= i < |run| ==> all[i] == run[i];
  }

  lemma LogOfOne(first: Request)
    ensures Log([first]) == [first] && Approved([first], 0)
  {
    assert [first][..0] == [];
    assert Pruned(map[], first.now) == map[];
  }

  lemma LastOfOne(first: Request, q: Request)
    requires first.parent == q.parent && first.block != q.block
    ensures MaySign([first], q) <==> q.now - first.now >= if first.coordinator == q.coordinator then 12 else 30
  {
    assert LastOn([first], q.parent, 0);
  }

  /** The window is exact: a guard asked for two blocks on one parent releases both just when they are
      12 seconds apart, or 30 for different coordinators. */
  lemma BothReleasedIff(first: Request, second: Request)
    requires first.parent == second.parent && first.block != second.block && first.now <= second.now
    ensures var run := [first, second];
            (Released(run, first.parent, first.block) && Released(run, first.parent, second.block))
              <==> second.now - first.now >= if first.coordinator == second.coordinator then 12 else 30
  {
    hide Log, After, Allows, MaySign, Window;
    var run := [first, second];
    assert run[..0] == [first][..0] && run[..1] == [first] && [first] + [second] == run;
    LogOfOne(first);
    LastOfOne(first, second);
    DecisionIff([first], second);
    assert Approved(run, 0);
    assert Approved(run, 1) <==> second.now - first.now >= if first.coordinator == second.coordinator then 12 else 30;
  }

  /** So a second block on the same parent can be certified: for any two valid certificates there are
      honest histories, one request per block, that release every share of both. */
  lemma SecondCertificatePossible(c: Crypto, members: seq<Member>, c1: Certificate, c2: Certificate, parent: Hash,
                                  coordinator: PubKey, time: int) returns (runs: map<OutPoint, seq<Request>>)
    requires ValidCertificate(c, members, c1) && ValidCertificate(c, members, c2) && c1.blockHash != c2.blockHash
    ensures forall o :: o in runs ==> ClockMonotone(runs[o]) && LoggedWithin(runs[o], parent, time, 13)
    ensures SharesReleased(runs, c1, parent) && SharesReleased(runs, c2, parent)
  {
    var first := Request(time, parent, coordinator, c1.blockHash);
    var second := Request(time + SAME_COORDINATOR_SECS, parent, coordinator, c2.blockHash);
    var run := [first, second];
    BothReleasedIff(first, second);
    LogOfPair(first, second);
    var signers := Signers(c1) + Signers(c2);
    runs := map o | o in signers :: run;
  }

  /** Crypto under which every check succeeds. */
  function Lenient(): Crypto {
    Crypto(k => true, b => Some(SignedData(0, 0, 0)), d => true, k => None, (k, b, s) => true, (k, s, h) => true,
           (ks, ss, h) => true)
  }

  function Fifth(i: nat): Member { Member(OutPoint(i, 0), i) }

  /** The certificate of the first three of five members. */
  function ThreeOfFive(block: Hash): Certificate {
    Certificate(block, [Share(OutPoint(0, 0), [1]), Share(OutPoint(1, 0), [1]), Share(OutPoint(2, 0), [1])])
  }

  lemma ThreeOfFiveIsValid(block: Hash)
    ensures ValidCertificate(Lenient(), [Fifth(0), Fifth(1), Fifth(2), Fifth(3), Fifth(4)], ThreeOfFive(block))
  {
    var m := [Fifth(0), Fifth(1), Fifth(2), Fifth(3), Fifth(4)];
    assert m[1..][0] == Fifth(1) && m[1..][1..][0] == Fifth(2);
    assert KeyOf(m, OutPoint(0, 0)) == Some(0);
    assert KeyOf(m, OutPoint(1, 0)) == KeyOf(m[1..], OutPoint(1, 0)) == Some(1);
    assert KeyOf(m, OutPoint(2, 0)) == KeyOf(m[1..], OutPoint(2, 0)) == KeyOf(m[1..][1..], OutPoint(2, 0)) == Some(2);
  }

  /** A quorum of five whose first three members, asked for two blocks on one parent 12 seconds apart, certify both. */
  lemma BothBlocksCertified(parent: Hash, coordinator: PubKey, time: int) returns (runs: map<OutPoint, seq<Request>>)
    ensures var members := [Fifth(0), Fifth(1), Fifth(2), Fifth(3), Fifth(4)];
            ValidCertificate(Lenient(), members, ThreeOfFive(1)) && ValidCertificate(Lenient(), members, ThreeOfFive(2))
    ensures forall o :: o in runs ==> ClockMonotone(runs[o]) && LoggedWithin(runs[o], parent, time, 13)
    ensures SharesReleased(runs, ThreeOfFive(1), parent) && SharesReleased(runs, ThreeOfFive(2), parent)
  {
    ThreeOfFiveIsValid(1);
    ThreeOfFiveIsValid(2);
    runs := SecondCertificatePossible(Lenient(), [Fifth(0), Fifth(1), Fifth(2), Fifth(3), Fifth(4)], ThreeOfFive(1),
                                      ThreeOfFive(2), parent, coordinator, time);
  }

  lemma LogOfPair(first: Request, second: Request)
    ensures forall k :: 0 <= k < |Log([first, second])| ==> Log([first, second])[k] in [first, second]
  {
    assert [first, second][..1] == [first] && [first][..0] == [];
    assert Log([first]) <= [first];
  }
}
