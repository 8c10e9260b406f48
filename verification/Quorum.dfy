/** Quorum certificates and member election of the long-living masternode quorums (src/llmq.h,
    src/llmq.cpp). Signatures, keys and hashes are opaque: `Crypto` says which checks succeed. */
module Quorum {
  import opened Options
  import opened Sets

  datatype OutPoint = OutPoint(hash: nat, n: nat)

  type PubKey = int
  type Hash = nat
  type Bytes = seq<nat>

  datatype Member = Member(outpoint: OutPoint, pubKey: PubKey)
  datatype SignedData = SignedData(blsKey: int, blsSig: int, ecdsaSig: int)
  datatype Share = Share(outpoint: OutPoint, sig: Bytes)
  datatype Certificate = Certificate(blockHash: Hash, shares: seq<Share>)

  /** Which cryptographic checks succeed. */
  datatype Crypto = Crypto(
    validKey: PubKey -> bool,
    parse: Bytes -> Option<SignedData>,
    validBls: SignedData -> bool,
    pinned: PubKey -> Option<int>,
    ecdsa: (PubKey, int, int) -> bool,
    bls: (int, int, Hash) -> bool,
    aggregate: (seq<int>, seq<int>, Hash) -> bool)

  // ---------------------------------------------------------------- certificates

  function Threshold(n: nat): nat {
    var t := n / 2 + 1;
    var t := if t < 2 then 2 else t;
    if n < t then n else t
  }

  /** The threshold is a strict majority that the quorum can reach: the least one, except that a quorum of more than
      one member asks for two signers at least. */
  lemma ThresholdIsMajority(n: nat)
    requires n > 0
    ensures var t := Threshold(n); 2 * t > n && 0 < t <= n && (n >= 2 ==> t >= 2) && (t > 2 ==> 2 * (t - 1) <= n)
  {
  }

  /** The key of the first member with this outpoint. */
  function KeyOf(members: seq<Member>, o: OutPoint): Option<PubKey> {
    if members == [] then None
    else if members[0].outpoint == o then Some(members[0].pubKey)
    else KeyOf(members[1..], o)
  }

  /** The member at `i` is the first with this outpoint. */
  predicate FirstAt(members: seq<Member>, o: OutPoint, i: int) {
    0 <= i < |members| && members[i].outpoint == o && forall j :: 0 <= j < i ==> members[j].outpoint != o
  }

  /** There is a key just for the outpoints of members, and it is that of the first with the outpoint. */
  lemma {:induction false} KeyOfFirst(members: seq<Member>, o: OutPoint)
    ensures KeyOf(members, o).Some? <==> o in Outpoints(members)
    ensures forall i :: FirstAt(members, o, i) ==> KeyOf(members, o) == Some(members[i].pubKey)
    ensures KeyOf(members, o).Some? ==> exists i :: FirstAt(members, o, i)
  {
    if members != [] {
      var rest := members[1..];
      assert members == [members[0]] + rest;
      if members[0].outpoint == o {
        assert FirstAt(members, o, 0) && members[0] in members;
      } else {
        KeyOfFirst(rest, o);
        forall i | FirstAt(members, o, i) ensures KeyOf(members, o) == Some(members[i].pubKey) {
          assert FirstAt(rest, o, i - 1);
        }
        if KeyOf(rest, o).Some? {
          var i :| FirstAt(rest, o, i);
          assert FirstAt(members, o, i + 1);
        }
      }
    }
  }

  function Outpoints(members: seq<Member>): set<OutPoint> { set m | m in members :: m.outpoint }

  predicate ShareOk(c: Crypto, members: seq<Member>, blockHash: Hash, s: Share) {
    && 0 < |s.sig| <= 512
    && KeyOf(members, s.outpoint).Some?
    && var key := KeyOf(members, s.outpoint).value;
       && c.validKey(key) && c.parse(s.sig).Some?
       && var d := c.parse(s.sig).value;
          && c.validBls(d) && (c.pinned(key).Some? ==> d.blsKey == c.pinned(key).value)
          && c.ecdsa(key, d.blsKey, d.ecdsaSig) && c.bls(d.blsKey, d.blsSig, blockHash)
  }

  /** What a share of a member holds: a BLS key signed with the member's own key, and a signature of the block under it. */
  predicate SignedBy(c: Crypto, m: Member, blockHash: Hash, sig: Bytes) {
    && c.validKey(m.pubKey)
    && match c.parse(sig)
       case None => false
       case Some(d) =>
         && c.validBls(d) && (c.pinned(m.pubKey) == None || c.pinned(m.pubKey) == Some(d.blsKey))
         && c.ecdsa(m.pubKey, d.blsKey, d.ecdsaSig) && c.bls(d.blsKey, d.blsSig, blockHash)
  }

  /** A share is good just when it has 1 to 512 bytes and was signed by the first member with its outpoint. */
  lemma ShareIff(c: Crypto, members: seq<Member>, blockHash: Hash, s: Share)
    ensures ShareOk(c, members, blockHash, s) <==>
            && 1 <= |s.sig| <= 512
            && exists i :: FirstAt(members, s.outpoint, i) && SignedBy(c, members[i], blockHash, s.sig)
  {
    KeyOfFirst(members, s.outpoint);
  }

  function BlsKeys(c: Crypto, shares: seq<Share>): seq<int>
    requires forall i :: 0 <= i < |shares| ==> c.parse(shares[i].sig).Some?
  {
    seq(|shares|, i requires 0 <= i < |shares| => c.parse(shares[i].sig).value.blsKey)
  }

  function BlsSigs(c: Crypto, shares: seq<Share>): seq<int>
    requires forall i :: 0 <= i < |shares| ==> c.parse(shares[i].sig).Some?
  {
    seq(|shares|, i requires 0 <= i < |shares| => c.parse(shares[i].sig).value.blsSig)
  }

  /** A valid certificate: a majority of distinct members, each with a good share, and a good aggregate. */
  predicate ValidCertificate(c: Crypto, members: seq<Member>, cert: Certificate) {
    && members != [] && 0 < |cert.shares| <= 32
    && (forall i :: 0 <= i < |cert.shares| ==> ShareOk(c, members, cert.blockHash, cert.shares[i]))
    && (forall i, j :: 0 <= i < j < |cert.shares| ==> cert.shares[i].outpoint != cert.shares[j].outpoint)
    && |cert.shares| >= Threshold(|members|)
    && c.aggregate(BlsKeys(c, cert.shares), BlsSigs(c, cert.shares), cert.blockHash)
  }

  method FindMember(members: seq<Member>, o: OutPoint) returns (isMember: bool, key: PubKey)
    ensures isMember <==> exists m :: m in members && m.outpoint == o
    ensures isMember ==> exists i :: FirstAt(members, o, i) && key == members[i].pubKey
    ensures KeyOf(members, o) == if isMember then Some(key) else None
  {
    isMember, key := false, 0;
    KeyOfFirst(members, o);
    for i := 0 to |members|
      invariant !isMember && forall j :: 0 <= j < i ==> members[j].outpoint != o
    {
      assert members[i].outpoint == o ==> FirstAt(members, o, i);
      if members[i].outpoint == o { return true, members[i].pubKey; }
    }
  }

  /** The checks on one share: size, membership, the pinned BLS key, both signatures. */
  method VerifyShare(c: Crypto, members: seq<Member>, blockHash: Hash, share: Share) returns (ok: bool, d: SignedData)
    ensures ok <==> ShareOk(c, members, blockHash, share)
    ensures ok ==> c.parse(share.sig) == Some(d)
  {
    d := SignedData(0, 0, 0);
    if share.sig == [] || |share.sig| > 512 { return false, d; }
    var isMember, key := FindMember(members, share.outpoint);
    if !isMember || !c.validKey(key) { return false, d; }
    if c.parse(share.sig).None? { return false, d; }
    d := c.parse(share.sig).value;
    if !c.validBls(d) { return false, d; }
    if c.pinned(key).Some? && d.blsKey != c.pinned(key).value { return false, d; }
    ok := c.ecdsa(key, d.blsKey, d.ecdsaSig) && c.bls(d.blsKey, d.blsSig, blockHash);
  }

  method Verify(c: Crypto, members: seq<Member>, cert: Certificate) returns (ok: bool)
    ensures ok <==> ValidCertificate(c, members, cert)
  {
    hide ShareOk;
    if members == [] || cert.shares == [] || |cert.shares| > 32 { return false; }
    var threshold := |members| / 2 + 1;
    if threshold < 2 { threshold := 2; }
    if |members| < threshold { threshold := |members|; }

    var validSigsCount := 0;
    var verified: set<OutPoint> := {};
    var keys: seq<int>, sigs: seq<int> := [], [];
    for i := 0 to |cert.shares|
      invariant validSigsCount == i == |keys| == |sigs|
      invariant verified == set k | 0 <= k < i :: cert.shares[k].outpoint
      invariant forall k :: 0 <= k < i ==> ShareOk(c, members, cert.blockHash, cert.shares[k]) && c.parse(cert.shares[k].sig).Some?
      invariant forall k, l :: 0 <= k < l < i ==> cert.shares[k].outpoint != cert.shares[l].outpoint
      invariant forall k :: 0 <= k < i ==> keys[k] == c.parse(cert.shares[k].sig).value.blsKey
      invariant forall k :: 0 <= k < i ==> sigs[k] == c.parse(cert.shares[k].sig).value.blsSig
    {
      var share := cert.shares[i];
      var fSigValid, d := VerifyShare(c, members, cert.blockHash, share);
      if !fSigValid || share.outpoint in verified { return false; }
      validSigsCount := validSigsCount + 1;
      verified := verified + {share.outpoint};
      keys, sigs := keys + [d.blsKey], sigs + [d.blsSig];
    }
    if validSigsCount < threshold || |sigs| < threshold { return false; }
    assert keys == BlsKeys(c, cert.shares) && sigs == BlsSigs(c, cert.shares);
    return c.aggregate(keys, sigs, cert.blockHash);
  }

  function Signers(cert: Certificate): set<OutPoint> { set s | s in cert.shares :: s.outpoint }

  lemma {:induction false} OutpointsBound(members: seq<Member>)
    ensures |Outpoints(members)| <= |members|
  {
    if members != [] {
      OutpointsBound(members[1..]);
      assert Outpoints(members) == Outpoints(members[1..]) + {members[0].outpoint};
    }
  }

  lemma {:induction false} DistinctSigners(shares: seq<Share>)
    requires forall i, j :: 0 <= i < j < |shares| ==> shares[i].outpoint != shares[j].outpoint
    ensures |set s | s in shares :: s.outpoint| == |shares|
  {
    if shares != [] {
      DistinctSigners(shares[1..]);
      var rest := set s | s in shares[1..] :: s.outpoint;
      assert shares[0].outpoint !in rest;
      assert (set s | s in shares :: s.outpoint) == rest + {shares[0].outpoint};
    }
  }

  /** The signers of a valid certificate are a majority of the quorum. */
  lemma SignersAreMajority(c: Crypto, members: seq<Member>, cert: Certificate)
    requires ValidCertificate(c, members, cert)
    ensures Signers(cert) <= Outpoints(members) && 2 * |Signers(cert)| > |members|
  {
    DistinctSigners(cert.shares);
    ThresholdIsMajority(|members|);
    forall o | o in Signers(cert) ensures o in Outpoints(members) {
      var s :| s in cert.shares && s.outpoint == o;
      KeyOfFirst(members, o);
    }
  }

  /** Each share of a valid certificate was signed by the member whose outpoint it carries. */
  lemma SharesAreSigned(c: Crypto, members: seq<Member>, cert: Certificate, s: Share)
    requires ValidCertificate(c, members, cert) && s in cert.shares
    ensures exists i :: FirstAt(members, s.outpoint, i) && SignedBy(c, members[i], cert.blockHash, s.sig)
  {
    hide ShareOk;
    ShareIff(c, members, cert.blockHash, s);
  }

  /** Acceptance spelled out: 1 to 32 shares of distinct outpoints, as many as the threshold asks for, each signed by the
      member with its outpoint, and the aggregate over the BLS keys and signatures of exactly these shares. */
  lemma CertificateIff(c: Crypto, members: seq<Member>, cert: Certificate, data: seq<SignedData>)
    requires |data| == |cert.shares|
    requires forall i :: 0 <= i < |data| ==> c.parse(cert.shares[i].sig) == None || c.parse(cert.shares[i].sig) == Some(data[i])
    ensures ValidCertificate(c, members, cert) <==>
            && 1 <= |cert.shares| <= 32 && members != [] && |cert.shares| >= Threshold(|members|)
            && (forall i :: 0 <= i < |cert.shares| ==> Good(c, members, cert.blockHash, cert.shares[i]))
            && (forall i, j :: 0 <= i < j < |cert.shares| ==> cert.shares[i].outpoint != cert.shares[j].outpoint)
            && exists keys, sigs :: AreOf(keys, sigs, data) && c.aggregate(keys, sigs, cert.blockHash)
  {
    hide ShareOk, Good;
    forall i | 0 <= i < |cert.shares| ensures ShareOk(c, members, cert.blockHash, cert.shares[i]) == Good(c, members, cert.blockHash, cert.shares[i])
      && (ShareOk(c, members, cert.blockHash, cert.shares[i]) ==> c.parse(cert.shares[i].sig).Some?)
    {
      GoodIs(c, members, cert.blockHash, cert.shares[i]);
    }
    if forall i :: 0 <= i < |cert.shares| ==> ShareOk(c, members, cert.blockHash, cert.shares[i]) {
      assert forall i :: 0 <= i < |data| ==> c.parse(cert.shares[i].sig) == Some(data[i]);
      assert AreOf(BlsKeys(c, cert.shares), BlsSigs(c, cert.shares), data);
      assert forall keys, sigs :: AreOf(keys, sigs, data) ==> keys == BlsKeys(c, cert.shares) && sigs == BlsSigs(c, cert.shares);
    }
  }

  predicate AreOf(keys: seq<int>, sigs: seq<int>, data: seq<SignedData>) {
    |keys| == |sigs| == |data| && forall i :: 0 <= i < |data| ==> keys[i] == data[i].blsKey && sigs[i] == data[i].blsSig
  }

  ghost predicate Good(c: Crypto, members: seq<Member>, blockHash: Hash, s: Share) {
    1 <= |s.sig| <= 512 && exists i :: FirstAt(members, s.outpoint, i) && SignedBy(c, members[i], blockHash, s.sig)
  }

  lemma GoodIs(c: Crypto, members: seq<Member>, blockHash: Hash, s: Share)
    ensures ShareOk(c, members, blockHash, s) == Good(c, members, blockHash, s)
    ensures ShareOk(c, members, blockHash, s) ==> c.parse(s.sig).Some?
  {
    ShareIff(c, members, blockHash, s);
  }

  lemma SetsOverlap(a: set<OutPoint>, b: set<OutPoint>, all: set<OutPoint>)
    requires a <= all && b <= all && |a| + |b| > |all|
    ensures exists o :: o in a && o in b
  {
    if a * b == {} {
      assert |a + b| == |a| + |b|;
      SubsetSize(a + b, all);
      assert false;
    } else {
      var o :| o in a * b;
      assert o in a && o in b;
    }
  }

  /** Two valid certificates of one quorum always share a signer. */
  lemma CertificatesIntersect(c: Crypto, members: seq<Member>, c1: Certificate, c2: Certificate)
    requires ValidCertificate(c, members, c1) && ValidCertificate(c, members, c2)
    ensures exists o :: o in Signers(c1) && o in Signers(c2)
  {
    SignersAreMajority(c, members, c1);
    SignersAreMajority(c, members, c2);
    OutpointsBound(members);
    SetsOverlap(Signers(c1), Signers(c2), Outpoints(members));
  }

  // ---------------------------------------------------------------- election

  /** What an election reads: the registry, the checks on its entries, the fallback pool and the
      score that the seed gives to each outpoint. */
  datatype Election = Election(
    regtest: bool,
    registered: map<PubKey, OutPoint>,
    usable: PubKey -> bool,
    authorised: (PubKey, OutPoint) -> bool,
    pool: seq<PubKey>,
    hashOf: PubKey -> nat,
    score: OutPoint -> int)

  /** The registered, active and authorised keys in ascending order, one per outpoint. */
  function EnabledFrom(e: Election, keys: set<PubKey>, seen: set<OutPoint>): seq<Member>
    requires keys <= e.registered.Keys
    decreases |keys|
  {
    if keys == {} then []
    else
      var k := Smallest(keys);
      var o := e.registered[k];
      if e.usable(k) && o !in seen && e.authorised(k, o)
      then [Member(o, k)] + EnabledFrom(e, keys - {k}, seen + {o})
      else EnabledFrom(e, keys - {k}, seen)
  }

  function Enabled(e: Election): seq<Member> {
    if e.regtest then [] else EnabledFrom(e, e.registered.Keys, {})
  }

  function Fallback(e: Election): seq<Member> {
    seq(|e.pool|, i requires 0 <= i < |e.pool| => Member(OutPoint(e.hashOf(e.pool[i]), i), e.pool[i]))
  }

  function Candidates(e: Election): seq<Member> {
    if |Enabled(e)| < 5 then Fallback(e) else Enabled(e)
  }

  ghost predicate DistinctOutpoints(v: seq<Member>) {
    forall i, j :: 0 <= i < j < |v| ==> v[i].outpoint != v[j].outpoint
  }

  lemma {:induction false} EnabledDistinct(e: Election, keys: set<PubKey>, seen: set<OutPoint>)
    requires keys <= e.registered.Keys
    ensures DistinctOutpoints(EnabledFrom(e, keys, seen))
    ensures forall i :: 0 <= i < |EnabledFrom(e, keys, seen)| ==> EnabledFrom(e, keys, seen)[i].outpoint !in seen
    decreases |keys|
  {
    if keys != {} {
      var k := Smallest(keys);
      EnabledDistinct(e, keys - {k}, seen);
      EnabledDistinct(e, keys - {k}, seen + {e.registered[k]});
    }
  }

  lemma CandidatesDistinct(e: Election)
    ensures DistinctOutpoints(Candidates(e))
  {
    EnabledDistinct(e, e.registered.Keys, {});
  }

  /** The key is registered on the outpoint, active, and authorised for it. */
  predicate Eligible(e: Election, k: PubKey, o: OutPoint) {
    k in e.registered && e.registered[k] == o && e.usable(k) && e.authorised(k, o)
  }

  /** Every enabled member is eligible, and no smaller key is for its outpoint. */
  lemma {:induction false} EnabledSound(e: Election, keys: set<PubKey>, seen: set<OutPoint>, m: Member)
    requires keys <= e.registered.Keys && m in EnabledFrom(e, keys, seen)
    ensures m.pubKey in keys && m.outpoint !in seen && Eligible(e, m.pubKey, m.outpoint)
    ensures forall k :: k in keys && Eligible(e, k, m.outpoint) ==> m.pubKey <= k
    decreases |keys|
  {
    if keys != {} {
      var k := Smallest(keys);
      var o := e.registered[k];
      if e.usable(k) && o !in seen && e.authorised(k, o) {
        if m != Member(o, k) { EnabledSound(e, keys - {k}, seen + {o}, m); }
      } else {
        EnabledSound(e, keys - {k}, seen, m);
      }
    }
  }

  /** Every outpoint with an eligible key has an enabled member. */
  lemma {:induction false} EnabledComplete(e: Election, keys: set<PubKey>, seen: set<OutPoint>, k: PubKey, o: OutPoint)
    requires keys <= e.registered.Keys && k in keys && Eligible(e, k, o) && o !in seen
    ensures exists m :: m in EnabledFrom(e, keys, seen) && m.outpoint == o
    decreases |keys|
  {
    var least := Smallest(keys);
    var at := e.registered[least];
    var r := EnabledFrom(e, keys, seen);
    if e.usable(least) && at !in seen && e.authorised(least, at) {
      assert r[0] == Member(at, least) && r[1..] == EnabledFrom(e, keys - {least}, seen + {at});
      if at == o { assert r[0] in r; } else {
        EnabledComplete(e, keys - {least}, seen + {at}, k, o);
        var m :| m in r[1..] && m.outpoint == o;
        assert m in r;
      }
    } else {
      EnabledComplete(e, keys - {least}, seen, k, o);
    }
  }

  /** With five eligible outpoints and off the regression-test network, the candidates are the smallest eligible key of
      every such outpoint; otherwise the pool, each key under the outpoint of its hash and position. */
  lemma CandidatesAre(e: Election)
    ensures var v := Candidates(e);
            || (&& |v| >= 5 && !e.regtest
                && (forall m :: m in v ==> Eligible(e, m.pubKey, m.outpoint))
                && (forall m, k :: m in v && Eligible(e, k, m.outpoint) ==> m.pubKey <= k)
                && forall k, o :: Eligible(e, k, o) ==> exists m :: m in v && m.outpoint == o)
            || (&& |v| == |e.pool| && (e.regtest || |EligibleOutpoints(e)| < 5)
                && forall i :: 0 <= i < |v| ==> v[i].pubKey == e.pool[i] && v[i].outpoint == OutPoint(e.hashOf(e.pool[i]), i))
  {
    hide EnabledFrom;
    var keys := e.registered.Keys;
    var v := EnabledFrom(e, keys, {});
    forall m | m in v ensures Eligible(e, m.pubKey, m.outpoint) && forall k :: Eligible(e, k, m.outpoint) ==> m.pubKey <= k {
      EnabledSound(e, keys, {}, m);
    }
    forall k, o | Eligible(e, k, o) ensures exists m :: m in v && m.outpoint == o {
      EnabledComplete(e, keys, {}, k, o);
    }
    assert EligibleOutpoints(e) == Outpoints(v);
    OutpointsBound(v);
  }

  ghost function EligibleOutpoints(e: Election): set<OutPoint> {
    set k | k in e.registered && Eligible(e, k, e.registered[k]) :: e.registered[k]
  }

  ghost predicate WeakOrder(less: (Member, Member) -> bool) {
    && (forall a, b :: less(a, b) ==> !less(b, a))
    && (forall a, b, c :: !less(b, a) && !less(c, b) ==> !less(c, a))
  }

  ghost predicate SortedBy(v: seq<Member>, less: (Member, Member) -> bool) {
    forall i, j :: 0 <= i < j < |v| ==> !less(v[j], v[i])
  }

  method InsertSorted(v: seq<Member>, x: Member, less: (Member, Member) -> bool) returns (r: seq<Member>)
    requires WeakOrder(less) && SortedBy(v, less)
    ensures SortedBy(r, less) && multiset(r) == multiset(v) + multiset{x}
  {
    var j := |v|;
    while j > 0 && less(x, v[j - 1])
      invariant 0 <= j <= |v|
      invariant forall k :: j <= k < |v| ==> less(x, v[k])
    {
      j := j - 1;
    }
    r := v[..j] + [x] + v[j..];
    assert v == v[..j] + v[j..];
    InsertedSorted(v, x, j, less);
  }

  lemma InsertedSorted(v: seq<Member>, x: Member, j: nat, less: (Member, Member) -> bool)
    requires WeakOrder(less) && SortedBy(v, less) && j <= |v|
    requires forall k :: j <= k < |v| ==> less(x, v[k])
    requires j > 0 ==> !less(x, v[j - 1])
    ensures SortedBy(v[..j] + [x] + v[j..], less)
  {
    var r := v[..j] + [x] + v[j..];
    forall i | 0 <= i < j ensures !less(x, v[i]) {
      assert i < j - 1 ==> !less(v[j - 1], v[i]);
    }
    forall i, k | 0 <= i < k < |r| ensures !less(r[k], r[i]) {
      assert r[i] == if i < j then v[i] else if i == j then x else v[i - 1];
      assert r[k] == if k < j then v[k] else if k == j then x else v[k - 1];
    }
  }

  method Sort(v: seq<Member>, less: (Member, Member) -> bool) returns (r: seq<Member>)
    requires WeakOrder(less)
    ensures SortedBy(r, less) && multiset(r) == multiset(v)
  {
    r := [];
    for i := 0 to |v|
      invariant SortedBy(r, less) && multiset(r) == multiset(v[..i])
    {
      r := InsertSorted(r, v[i], less);
      assert v[..i + 1] == v[..i] + [v[i]];
    }
    assert v[..|v|] == v;
  }

  ghost predicate Ordered(score: OutPoint -> int, v: seq<Member>) {
    forall i, j :: 0 <= i < j < |v| ==> score(v[i].outpoint) <= score(v[j].outpoint)
  }

  function Min(a: nat, b: nat): nat { if a < b then a else b }

  /** `r` is what taking the `size` lowest scores of `v` can give. */
  ghost predicate ElectedBy(score: OutPoint -> int, v: seq<Member>, size: nat, r: seq<Member>, sorted: seq<Member>) {
    multiset(sorted) == multiset(v) && Ordered(score, sorted) && r == sorted[..Min(size, |sorted|)]
  }

  ghost predicate Elected(score: OutPoint -> int, v: seq<Member>, size: nat, r: seq<Member>) {
    exists sorted :: ElectedBy(score, v, size, r, sorted)
  }

  lemma EnabledStep(e: Election, keys: set<PubKey>, seen: set<OutPoint>, v: seq<Member>)
    requires keys <= e.registered.Keys && keys != {}
    ensures var k := Smallest(keys);
            v + EnabledFrom(e, keys, seen) ==
              if e.usable(k) && e.registered[k] !in seen && e.authorised(k, e.registered[k])
              then v + [Member(e.registered[k], k)] + EnabledFrom(e, keys - {k}, seen + {e.registered[k]})
              else v + EnabledFrom(e, keys - {k}, seen)
  {
  }

  lemma NoneLeft(e: Election, seen: set<OutPoint>)
    ensures EnabledFrom(e, {}, seen) == []
  {
  }

  method EnabledMembers(e: Election) returns (v: seq<Member>)
    ensures v == Enabled(e)
  {
    hide EnabledFrom;
    v := [];
    if !e.regtest {
      var keys := e.registered.Keys;
      var seen: set<OutPoint> := {};
      while keys != {}
        invariant keys <= e.registered.Keys
        invariant v + EnabledFrom(e, keys, seen) == EnabledFrom(e, e.registered.Keys, {})
        decreases |keys|
      {
        var k := Smallest(keys);
        var o := e.registered[k];
        EnabledStep(e, keys, seen, v);
        if e.usable(k) && o !in seen && e.authorised(k, o) {
          v := v + [Member(o, k)];
          seen := seen + {o};
        }
        keys := keys - {k};
      }
      NoneLeft(e, seen);
    }
  }

  function OutPointLess(a: OutPoint, b: OutPoint): bool { a.hash < b.hash || (a.hash == b.hash && a.n < b.n) }

  function MemberLess(a: Member, b: Member): bool {
    if a.outpoint != b.outpoint then OutPointLess(a.outpoint, b.outpoint) else a.pubKey < b.pubKey
  }

  lemma SameElements(a: seq<Member>, b: seq<Member>)
    requires multiset(a) == multiset(b)
    ensures |a| == |b|
  {
    assert |multiset(a)| == |multiset(b)|;
  }

  /** The quorum: the `size` candidates with the lowest scores. */
  method ElectQuorumMembers(e: Election, size: nat) returns (members: seq<Member>)
    ensures Elected(e.score, Candidates(e), size, members)
  {
    var enabled := EnabledMembers(e);
    var sortedEnabled := Sort(enabled, MemberLess);
    SameElements(sortedEnabled, enabled);
    if |sortedEnabled| < 5 {
      sortedEnabled := [];
      for i := 0 to |e.pool|
        invariant sortedEnabled == Fallback(e)[..i]
      {
        sortedEnabled := sortedEnabled + [Member(OutPoint(e.hashOf(e.pool[i]), i), e.pool[i])];
      }
      assert Fallback(e)[..|e.pool|] == Fallback(e);
    }
    var byScore := (a: Member, b: Member) => e.score(a.outpoint) < e.score(b.outpoint);
    var sortedMns := Sort(sortedEnabled, byScore);
    var count := Min(size, |sortedMns|);
    members := [];
    for i := 0 to count
      invariant members == sortedMns[..i]
    {
      members := members + [sortedMns[i]];
    }
    assert Ordered(e.score, sortedMns) by {
      assert forall i, j :: 0 <= i < j < |sortedMns| ==> !byScore(sortedMns[j], sortedMns[i]);
    }
    assert ElectedBy(e.score, Candidates(e), size, members, sortedMns);
  }

  /** No two elected members share an outpoint, and nobody left out scores lower than an elected member. */
  lemma ElectedAreLowest(score: OutPoint -> int, v: seq<Member>, size: nat, r: seq<Member>)
    requires Elected(score, v, size, r)
    ensures |r| == (if size < |v| then size else |v|) && multiset(r) <= multiset(v)
    ensures forall m, c :: m in r && c in multiset(v) - multiset(r) ==> score(m.outpoint) <= score(c.outpoint)
  {
    var sorted :| ElectedBy(score, v, size, r, sorted);
    SameElements(sorted, v);
    var rest := sorted[|r|..];
    assert sorted == r + rest;
    assert multiset(v) - multiset(r) == multiset(rest);
    forall m: Member, c: Member | m in r && c in multiset(rest) ensures score(m.outpoint) <= score(c.outpoint) {
      OrderedAcross(score, r, rest, m, c);
    }
  }

  lemma OrderedAcross(score: OutPoint -> int, r: seq<Member>, rest: seq<Member>, m: Member, c: Member)
    requires Ordered(score, r + rest) && m in r && c in rest
    ensures score(m.outpoint) <= score(c.outpoint)
  {
    var i :| 0 <= i < |r| && r[i] == m;
    var j :| 0 <= j < |rest| && rest[j] == c;
    assert (r + rest)[i] == m && (r + rest)[|r| + j] == c;
  }

  lemma DistinctIsMultiplicity(v: seq<Member>)
    requires DistinctOutpoints(v)
    ensures forall m :: multiset(v)[m] <= 1
  {
    if v != [] {
      var last := v[|v| - 1];
      DistinctIsMultiplicity(v[..|v| - 1]);
      assert v == v[..|v| - 1] + [last];
      assert last !in v[..|v| - 1];
    }
  }

  /** With candidates of distinct outpoints the elected outpoints are distinct too. */
  lemma ElectedDistinct(score: OutPoint -> int, v: seq<Member>, size: nat, r: seq<Member>)
    requires Elected(score, v, size, r) && DistinctOutpoints(v)
    ensures DistinctOutpoints(r)
  {
    var sorted :| ElectedBy(score, v, size, r, sorted);
    DistinctIsMultiplicity(v);
    forall i, j | 0 <= i < j < |r| ensures r[i].outpoint != r[j].outpoint {
      assert r[i] in multiset(sorted) && r[j] in multiset(sorted);
      var a :| 0 <= a < |v| && v[a] == r[i];
      var b :| 0 <= b < |v| && v[b] == r[j];
      OnceEach(sorted, i, j);
      assert a != b;
    }
  }

  lemma OnceEach(v: seq<Member>, i: nat, j: nat)
    requires i < j < |v| && forall m :: multiset(v)[m] <= 1
    ensures v[i] != v[j]
  {
    var front := v[..j];
    assert v == front + v[j..] && front[i] in front && v[j..][0] in v[j..];
    assert multiset(v) == multiset(front) + multiset(v[j..]);
    assert multiset(v)[v[i]] <= 1;
  }

  lemma SameHead(score: OutPoint -> int, a: seq<Member>, b: seq<Member>)
    requires multiset(a) == multiset(b) && Ordered(score, a) && Ordered(score, b) && a != [] && b != []
    requires forall m, n :: m in a && n in a && score(m.outpoint) == score(n.outpoint) ==> m == n
    ensures a[0] == b[0]
  {
    assert a[0] in multiset(b) && b[0] in multiset(a);
    var i :| 0 <= i < |b| && b[i] == a[0];
    var j :| 0 <= j < |a| && a[j] == b[0];
  }

  lemma TailElements(a: seq<Member>)
    requires a != []
    ensures multiset(a[1..]) == multiset(a) - multiset{a[0]}
  {
    assert a == [a[0]] + a[1..];
  }

  lemma {:induction false} OrderedUnique(score: OutPoint -> int, a: seq<Member>, b: seq<Member>)
    requires multiset(a) == multiset(b) && Ordered(score, a) && Ordered(score, b)
    requires forall m, n :: m in a && n in a && score(m.outpoint) == score(n.outpoint) ==> m == n
    ensures a == b
  {
    SameElements(a, b);
    if a != [] {
      SameHead(score, a, b);
      TailElements(a);
      TailElements(b);
      OrderedUnique(score, a[1..], b[1..]);
      assert a == [a[0]] + a[1..] && b == [b[0]] + b[1..];
    }
  }

  /** Nodes that see the same candidates elect the same quorum, in whatever order they list them. */
  lemma ElectionAgrees(score: OutPoint -> int, v1: seq<Member>, v2: seq<Member>, size: nat, r1: seq<Member>,
                       r2: seq<Member>)
    requires multiset(v1) == multiset(v2)
    requires forall m, n :: m in v1 && n in v1 && score(m.outpoint) == score(n.outpoint) ==> m == n
    requires Elected(score, v1, size, r1) && Elected(score, v2, size, r2)
    ensures r1 == r2
  {
    var s1 :| ElectedBy(score, v1, size, r1, s1);
    var s2 :| ElectedBy(score, v2, size, r2, s2);
    forall m: Member, n: Member | m in s1 && n in s1 && score(m.outpoint) == score(n.outpoint) ensures m == n {
      assert m in multiset(s1) && n in multiset(s1);
      assert m in v1 && n in v1;
    }
    OrderedUnique(score, s1, s2);
  }
}
