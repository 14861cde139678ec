/** Policies and record verification (nodedir/types.go). */
module Admission {
  import opened Bytes
  import opened Identities
  import opened Directory
  import opened Sorting

  datatype PinnedNode = PinnedNode(identity: Identity, endpoint: Endpoint)

  datatype Policy = Policy(seeds: seq<PinnedNode>, quorum: int, allowPrivate: bool, maxNodes: int)

  /** The bounds that every verification re-checks. */
  predicate WellFormedPolicy(p: Policy)
  {
    && 0 < |p.seeds| <= MAX_ATTESTATIONS
    && 0 < p.quorum <= |p.seeds|
    && 0 < p.maxNodes <= MAX_DIRECTORY_NODES
  }

  ghost predicate DistinctSeeds(seeds: seq<PinnedNode>)
  {
    forall i, j :: 0 <= i < j < |seeds| ==> seeds[i].identity.nodeId != seeds[j].identity.nodeId
  }

  predicate SeedUsable(w: World, s: PinnedNode, allowPrivate: bool)
  {
    w.validIdentity(s.identity) && w.canonical(s.endpoint, allowPrivate) == Some(s.endpoint)
  }

  method NewPolicy(w: World, seeds: seq<PinnedNode>, quorum: int, allowPrivate: bool, maxNodes: int)
    returns (r: Option<Policy>)
    ensures r.Some? ==> r.value == Policy(seeds, quorum, allowPrivate, if maxNodes == 0 then MAX_DIRECTORY_NODES else maxNodes)
    ensures r.Some? ==> WellFormedPolicy(r.value)
    ensures r.Some? <==>
      && 1 <= quorum <= |seeds| <= 16 && 0 <= maxNodes <= 512 && DistinctSeeds(seeds)
      && forall i :: 0 <= i < |seeds| ==> w.validIdentity(seeds[i].identity) && w.canonical(seeds[i].endpoint, allowPrivate) == Some(seeds[i].endpoint)
  {
    if |seeds| == 0 || |seeds| > MAX_ATTESTATIONS || quorum <= 0 || quorum > |seeds| {
      return None;
    }
    var limit := if maxNodes == 0 then MAX_DIRECTORY_NODES else maxNodes;
    if limit <= 0 || limit > MAX_DIRECTORY_NODES {
      return None;
    }
    var seen: set<Bytes> := {};
    for i := 0 to |seeds|
      invariant seen == set k | 0 <= k < i :: seeds[k].identity.nodeId
      invariant DistinctSeeds(seeds[..i])
      invariant forall k :: 0 <= k < i ==> SeedUsable(w, seeds[k], allowPrivate)
    {
      if !w.validIdentity(seeds[i].identity) || w.canonical(seeds[i].endpoint, allowPrivate) != Some(seeds[i].endpoint) {
        return None;
      }
      if seeds[i].identity.nodeId in seen {
        return None;
      }
      seen := seen + {seeds[i].identity.nodeId};
    }
    assert seeds[..|seeds|] == seeds;
    return Some(Policy(seeds, quorum, allowPrivate, limit));
  }

  /** Trusted identities by node ID; a later seed would shadow an earlier one with the same ID. */
  function Authorities(seeds: seq<PinnedNode>): map<Bytes, Identity>
  {
    if seeds == [] then map[]
    else
      var last := seeds[|seeds| - 1].identity;
      Authorities(seeds[..|seeds| - 1])[last.nodeId := last]
  }

  function Pinned(seeds: seq<PinnedNode>, nodeId: Bytes): Option<PinnedNode>
  {
    if seeds == [] then None
    else if seeds[0].identity.nodeId == nodeId then Some(seeds[0])
    else Pinned(seeds[1..], nodeId)
  }

  predicate IsPinned(p: Policy, a: Announcement)
  {
    var pinned := Pinned(p.seeds, a.identity.nodeId);
    pinned.Some? && pinned.value.identity == a.identity && pinned.value.endpoint == a.endpoint
  }

  predicate IsAuthority(p: Policy, i: Identity)
  {
    var pinned := Pinned(p.seeds, i.nodeId);
    pinned.Some? && pinned.value.identity == i
  }

  predicate VerifyAnnouncement(w: World, a: Announcement, now: Time, allowPrivate: bool)
  {
    && a.version == PROTOCOL_VERSION && w.validIdentity(a.identity)
    && w.canonical(a.endpoint, allowPrivate) == Some(a.endpoint)
    && a.sequence != 0 && a.issuedAt != ZERO_TIME && a.expiresAt != ZERO_TIME
    && a.issuedAt <= now + MAX_CLOCK_SKEW && now < a.expiresAt
    && MIN_LEASE <= a.expiresAt - a.issuedAt <= MAX_LEASE
    && w.verify(a.identity, AnnouncementDomain, AnnouncementBytes(a), a.signature)
  }

  predicate ValidAttestation(w: World, p: Policy, a: Announcement, t: Attestation, now: Time)
  {
    && t.authorityId in Authorities(p.seeds)
    && t.version == PROTOCOL_VERSION
    && |t.announcementHash| == 32 && t.announcementHash == AnnouncementHash(w.sha256, a)
    && t.observedAt != ZERO_TIME && t.observedAt <= now + MAX_CLOCK_SKEW
    && a.issuedAt - MAX_CLOCK_SKEW <= t.observedAt
    && t.expiresAt == a.expiresAt
    && w.verify(Authorities(p.seeds)[t.authorityId], AttestationDomain, AttestationBytes(t), t.signature)
  }

  ghost predicate DistinctAuthorities(ts: seq<Attestation>)
  {
    forall i, j :: 0 <= i < j < |ts| ==> ts[i].authorityId != ts[j].authorityId
  }

  function AuthorityIds(ts: seq<Attestation>): set<Bytes>
  {
    set t | t in ts :: t.authorityId
  }

  /** A record whose announcement and every attestation hold, whether or not a quorum is reached. */
  ghost predicate PartiallyValid(w: World, p: Policy, r: Record, now: Time)
  {
    && WellFormedPolicy(p)
    && |r.attestations| <= MAX_ATTESTATIONS
    && VerifyAnnouncement(w, r.announcement, now, p.allowPrivate)
    && (forall t :: t in r.attestations ==> ValidAttestation(w, p, r.announcement, t, now))
    && DistinctAuthorities(r.attestations)
  }

  ghost predicate ValidRecord(w: World, p: Policy, r: Record, now: Time)
  {
    PartiallyValid(w, p, r, now) && (IsPinned(p, r.announcement) || |r.attestations| >= p.quorum)
  }

  /** The attestation loop: stops at the first invalid or repeated attestation. */
  method CheckAttestations(w: World, p: Policy, a: Announcement, ts: seq<Attestation>, now: Time)
    returns (valid: Option<nat>)
    ensures valid.Some? <==>
      (forall k :: 0 <= k < |ts| ==> ValidAttestation(w, p, a, ts[k], now)) && DistinctAuthorities(ts)
    ensures valid.Some? ==> valid.value == |ts|
  {
    var seen: set<Bytes> := {};
    var count := 0;
    for i := 0 to |ts|
      invariant count == i
      invariant seen == set k | 0 <= k < i :: ts[k].authorityId
      invariant forall j, k :: 0 <= j < k < i ==> ts[j].authorityId != ts[k].authorityId
      invariant forall k :: 0 <= k < i ==> ValidAttestation(w, p, a, ts[k], now)
    {
      if !ValidAttestation(w, p, a, ts[i], now) {
        return None;
      }
      if ts[i].authorityId in seen {
        return None;
      }
      seen := seen + {ts[i].authorityId};
      count := count + 1;
    }
    return Some(count);
  }

  method VerifyRecordAttestations(w: World, p: Policy, r: Record, now: Time) returns (valid: Option<nat>)
    ensures valid.Some? <==> PartiallyValid(w, p, r, now)
    ensures valid.Some? ==> valid.value == |r.attestations|
  {
    if |p.seeds| == 0 || |p.seeds| > MAX_ATTESTATIONS || p.quorum <= 0 || p.quorum > |p.seeds| ||
       p.maxNodes <= 0 || p.maxNodes > MAX_DIRECTORY_NODES {
      return None;
    }
    if |r.attestations| > MAX_ATTESTATIONS {
      return None;
    }
    if !VerifyAnnouncement(w, r.announcement, now, p.allowPrivate) {
      return None;
    }
    valid := CheckAttestations(w, p, r.announcement, r.attestations, now);
  }

  method VerifyRecord(w: World, p: Policy, r: Record, now: Time) returns (ok: bool)
    ensures ok <==> ValidRecord(w, p, r, now)
  {
    var valid := VerifyRecordAttestations(w, p, r, now);
    if valid.None? {
      return false;
    }
    return IsPinned(p, r.announcement) || valid.value >= p.quorum;
  }

  // ---------- attestation lists ----------

  predicate AuthorityLess(s: Attestation, t: Attestation)
  {
    Less(s.authorityId, t.authorityId)
  }

  lemma AuthorityOrder()
    ensures StrictWeakOrder(AuthorityLess)
  {
    forall x: Attestation, y: Attestation | AuthorityLess(x, y) ensures !AuthorityLess(y, x) {
      LessTotal(x.authorityId, y.authorityId);
    }
    forall x: Attestation, y: Attestation, z: Attestation | !AuthorityLess(x, y) && !AuthorityLess(y, z)
      ensures !AuthorityLess(x, z)
    {
      LessTotal(x.authorityId, y.authorityId);
      LessTotal(y.authorityId, z.authorityId);
      LessTotal(x.authorityId, z.authorityId);
      if AuthorityLess(y, x) && AuthorityLess(z, y) {
        LessTransitive(z.authorityId, y.authorityId, x.authorityId);
      }
    }
  }

  /** Puts `t` in place of the first attestation of the same authority, or at the end. */
  function Replaced(ts: seq<Attestation>, t: Attestation): seq<Attestation>
  {
    if ts == [] then [t]
    else if ts[0].authorityId == t.authorityId then [t] + ts[1..]
    else [ts[0]] + Replaced(ts[1..], t)
  }

  function AppendAttestation(ts: seq<Attestation>, t: Attestation): seq<Attestation>
  {
    Sort(Replaced(ts, t), AuthorityLess)
  }

  lemma {:induction false} ReplacedIs(ts: seq<Attestation>, t: Attestation)
    requires DistinctAuthorities(ts)
    ensures DistinctAuthorities(Replaced(ts, t))
    ensures forall x :: x in Replaced(ts, t) <==> x == t || (x in ts && x.authorityId != t.authorityId)
    ensures |Replaced(ts, t)| == if t.authorityId in AuthorityIds(ts) then |ts| else |ts| + 1
  {
    if ts != [] {
      assert ts == [ts[0]] + ts[1..];
      assert AuthorityIds(ts) == {ts[0].authorityId} + AuthorityIds(ts[1..]);
      assert ts[0].authorityId !in AuthorityIds(ts[1..]);
      ReplacedIs(ts[1..], t);
    }
  }

  lemma SortedDistinct(ts: seq<Attestation>, rs: seq<Attestation>)
    requires DistinctAuthorities(ts) && multiset(ts) == multiset(rs)
    ensures DistinctAuthorities(rs)
  {
    SameElements(ts, rs);
    PermutationDistinct(ts, rs);
    forall i, j | 0 <= i < j < |rs| ensures rs[i].authorityId != rs[j].authorityId {
      assert rs[i] in ts && rs[j] in ts;
    }
  }

  /** Exactly one attestation per authority survives, and the new one wins. */
  lemma AppendIs(ts: seq<Attestation>, t: Attestation)
    requires DistinctAuthorities(ts)
    ensures DistinctAuthorities(AppendAttestation(ts, t))
    ensures forall x :: x in AppendAttestation(ts, t) <==> x == t || (x in ts && x.authorityId != t.authorityId)
    ensures |AppendAttestation(ts, t)| == if t.authorityId in AuthorityIds(ts) then |ts| else |ts| + 1
  {
    ReplacedIs(ts, t);
    AuthorityOrder();
    var s := Replaced(ts, t);
    SortCorrect(s, AuthorityLess);
    SameElements(s, AppendAttestation(ts, t));
    SortedDistinct(s, AppendAttestation(ts, t));
  }

  /** The attestations of `es` folded into `ts`. */
  function Union(ts: seq<Attestation>, es: seq<Attestation>): seq<Attestation>
  {
    if es == [] then ts else AppendAttestation(Union(ts, es[..|es| - 1]), es[|es| - 1])
  }

  lemma {:induction false} UnionIs(ts: seq<Attestation>, es: seq<Attestation>)
    requires DistinctAuthorities(ts) && DistinctAuthorities(es)
    ensures DistinctAuthorities(Union(ts, es))
    ensures forall x :: x in Union(ts, es) <==> x in es || (x in ts && x.authorityId !in AuthorityIds(es))
    ensures |Union(ts, es)| >= |ts|
  {
    if es != [] {
      var front, last := es[..|es| - 1], es[|es| - 1];
      assert es == front + [last];
      UnionIs(ts, front);
      AppendIs(Union(ts, front), last);
      assert AuthorityIds(es) == AuthorityIds(front) + {last.authorityId};
      assert forall x :: x in front ==> x.authorityId != last.authorityId;
    }
  }

  lemma UnionAuthorities(ts: seq<Attestation>, es: seq<Attestation>)
    requires DistinctAuthorities(ts) && DistinctAuthorities(es)
    ensures AuthorityIds(Union(ts, es)) == AuthorityIds(ts) + AuthorityIds(es)
  {
    UnionIs(ts, es);
    forall id | id in AuthorityIds(ts) + AuthorityIds(es) ensures id in AuthorityIds(Union(ts, es)) {
      if id in AuthorityIds(es) {
        var x :| x in es && x.authorityId == id;
        assert x in Union(ts, es);
      } else {
        var x :| x in ts && x.authorityId == id;
        assert x in Union(ts, es);
      }
    }
  }

  // ---------- verification facts ----------

  lemma {:induction false} AuthoritiesAreSeeds(seeds: seq<PinnedNode>)
    ensures |Authorities(seeds)| <= |seeds|
    ensures forall id :: id in Authorities(seeds) ==>
      Authorities(seeds)[id].nodeId == id && exists k :: 0 <= k < |seeds| && seeds[k].identity == Authorities(seeds)[id]
  {
    if seeds != [] {
      var front := seeds[..|seeds| - 1];
      AuthoritiesAreSeeds(front);
      var last := seeds[|seeds| - 1].identity;
      assert Authorities(seeds).Keys == Authorities(front).Keys + {last.nodeId};
      forall id | id in Authorities(seeds)
        ensures exists k :: 0 <= k < |seeds| && seeds[k].identity == Authorities(seeds)[id]
      {
        if id == last.nodeId {
          assert seeds[|seeds| - 1].identity == Authorities(seeds)[id];
        } else {
          var k :| 0 <= k < |front| && front[k].identity == Authorities(front)[id];
          assert seeds[k].identity == Authorities(seeds)[id];
        }
      }
    }
  }

  lemma {:induction false} DistinctAuthorityCount(ts: seq<Attestation>)
    requires DistinctAuthorities(ts)
    ensures |AuthorityIds(ts)| == |ts|
  {
    if ts != [] {
      DistinctAuthorityCount(ts[1..]);
      assert ts == [ts[0]] + ts[1..];
      assert AuthorityIds(ts) == AuthorityIds(ts[1..]) + {ts[0].authorityId};
      assert ts[0].authorityId !in AuthorityIds(ts[1..]);
    }
  }

  /** Distinct trusted authorities can never outnumber the pinned seeds. */
  lemma TrustedBounded(p: Policy, ts: seq<Attestation>)
    requires WellFormedPolicy(p) && DistinctAuthorities(ts)
    requires forall t :: t in ts ==> t.authorityId in Authorities(p.seeds)
    ensures |ts| <= |p.seeds| <= MAX_ATTESTATIONS
  {
    DistinctAuthorityCount(ts);
    AuthoritiesAreSeeds(p.seeds);
    SubsetSize(AuthorityIds(ts), Authorities(p.seeds).Keys);
  }

  /** A verified record keeps verifying until its lease ends. */
  lemma ValidUntilExpiry(w: World, p: Policy, r: Record, now: Time, later: Time)
    requires ValidRecord(w, p, r, now) && now <= later < r.announcement.expiresAt
    ensures ValidRecord(w, p, r, later)
  {
    forall t | t in r.attestations ensures ValidAttestation(w, p, r.announcement, t, later) {
      assert ValidAttestation(w, p, r.announcement, t, now);
    }
  }
}
