/** Where the records of a registry come from, and what was checked of them, check by check. */
module RegistryProvenance {
  import opened Bytes
  import opened Identities
  import opened Directory
  import opened Admission
  import opened Registry
  import opened RegistryRuns

  // ---------- what acceptance means ----------

  /** The identity named in the announcement signed it: a lease of 10 minutes to 2 hours for a canonical endpoint. */
  ghost predicate SignedLease(w: World, allowPrivate: bool, a: Announcement)
  {
    && w.verify(a.identity, AnnouncementDomain, AnnouncementBytes(a), a.signature)
    && w.validIdentity(a.identity) && w.canonical(a.endpoint, allowPrivate) == Some(a.endpoint)
    && a.version == 1 && a.sequence > 0 && a.issuedAt != ZERO_TIME && a.expiresAt != ZERO_TIME
    && 10 * MINUTE <= a.expiresAt - a.issuedAt <= 120 * MINUTE
  }

  /** It is running at `now`, with a clock difference of up to five minutes towards its issuer. */
  predicate Running(a: Announcement, now: Time)
  {
    a.issuedAt - 5 * MINUTE <= now < a.expiresAt
  }

  /** Seed `i` signed that it observed this very announcement, during its lease and not in the future. */
  ghost predicate AttestedBy(w: World, seeds: seq<PinnedNode>, i: nat, a: Announcement, t: Attestation, now: Time)
  {
    && i < |seeds| && t.authorityId == seeds[i].identity.nodeId
    && w.verify(seeds[i].identity, AttestationDomain, AttestationBytes(t), t.signature)
    && t.version == 1 && t.announcementHash == w.sha256(AnnouncementPreimage(a)) && |t.announcementHash| == 32
    && t.observedAt != ZERO_TIME && a.issuedAt - 5 * MINUTE <= t.observedAt <= now + 5 * MINUTE && t.expiresAt == a.expiresAt
  }

  /** Every attestation is one of some seed, and no two are of the same. */
  ghost predicate AllAttested(w: World, seeds: seq<PinnedNode>, r: Record, now: Time)
  {
    && (forall t :: t in r.attestations ==> exists i: nat :: AttestedBy(w, seeds, i, r.announcement, t, now))
    && DistinctAuthorities(r.attestations)
  }

  /** The seeds that attested the record. */
  function Attesting(seeds: seq<PinnedNode>, r: Record): set<Bytes>
  {
    set i, t | 0 <= i < |seeds| && t in r.attestations && t.authorityId == seeds[i].identity.nodeId :: t.authorityId
  }

  /** A seed with exactly that identity and endpoint is part of the policy. */
  ghost predicate IsSeed(seeds: seq<PinnedNode>, a: Announcement)
  {
    exists i :: 0 <= i < |seeds| && seeds[i] == PinnedNode(a.identity, a.endpoint)
  }

  lemma {:induction false} AuthorityOfSeed(seeds: seq<PinnedNode>, i: nat)
    requires DistinctSeeds(seeds) && i < |seeds|
    ensures var id := seeds[i].identity.nodeId; id in Authorities(seeds) && Authorities(seeds)[id] == seeds[i].identity
    decreases |seeds|
  {
    var last := |seeds| - 1;
    if i < last {
      AuthorityOfSeed(seeds[..last], i);
      assert seeds[i].identity.nodeId != seeds[last].identity.nodeId;
    }
  }

  lemma {:induction false} PinnedSeed(seeds: seq<PinnedNode>, i: nat)
    requires DistinctSeeds(seeds) && i < |seeds|
    ensures Pinned(seeds, seeds[i].identity.nodeId) == Some(seeds[i])
  {
    if i > 0 {
      assert seeds[0].identity.nodeId != seeds[i].identity.nodeId;
      PinnedSeed(seeds[1..], i - 1);
    }
  }

  lemma {:induction false} PinnedFrom(seeds: seq<PinnedNode>, id: Bytes)
    ensures Pinned(seeds, id).Some? ==> exists i :: 0 <= i < |seeds| && seeds[i] == Pinned(seeds, id).value && seeds[i].identity.nodeId == id
  {
    if seeds != [] && seeds[0].identity.nodeId != id {
      PinnedFrom(seeds[1..], id);
      if Pinned(seeds[1..], id).Some? {
        var i :| 0 <= i < |seeds[1..]| && seeds[1..][i] == Pinned(seeds[1..], id).value;
        assert seeds[i + 1] == Pinned(seeds, id).value;
      }
    }
  }

  lemma IsSeedIff(p: Policy, a: Announcement)
    requires DistinctSeeds(p.seeds)
    ensures IsPinned(p, a) <==> IsSeed(p.seeds, a)
  {
    PinnedFrom(p.seeds, a.identity.nodeId);
    if IsSeed(p.seeds, a) {
      var i :| 0 <= i < |p.seeds| && p.seeds[i] == PinnedNode(a.identity, a.endpoint);
      PinnedSeed(p.seeds, i);
    }
  }

  lemma AttestedIff(w: World, p: Policy, a: Announcement, t: Attestation, now: Time)
    requires DistinctSeeds(p.seeds)
    ensures ValidAttestation(w, p, a, t, now) <==> exists i: nat :: AttestedBy(w, p.seeds, i, a, t, now)
  {
    if ValidAttestation(w, p, a, t, now) {
      AuthoritiesAreSeeds(p.seeds);
      var i :| 0 <= i < |p.seeds| && p.seeds[i].identity == Authorities(p.seeds)[t.authorityId];
      assert AttestedBy(w, p.seeds, i, a, t, now);
    }
    forall i: nat | AttestedBy(w, p.seeds, i, a, t, now) ensures ValidAttestation(w, p, a, t, now) {
      AuthorityOfSeed(p.seeds, i);
    }
  }

  lemma AttestingCount(w: World, p: Policy, r: Record, now: Time)
    requires DistinctSeeds(p.seeds) && AllAttested(w, p.seeds, r, now)
    ensures |Attesting(p.seeds, r)| == |r.attestations|
  {
    DistinctAuthorityCount(r.attestations);
    forall id | id in AuthorityIds(r.attestations) ensures id in Attesting(p.seeds, r) {
      var t :| t in r.attestations && t.authorityId == id;
      var i: nat :| AttestedBy(w, p.seeds, i, r.announcement, t, now);
    }
    assert Attesting(p.seeds, r) == AuthorityIds(r.attestations);
  }

  lemma AllAttestedIff(w: World, p: Policy, r: Record, now: Time)
    requires DistinctSeeds(p.seeds)
    ensures AllAttested(w, p.seeds, r, now) <==>
      (forall t :: t in r.attestations ==> ValidAttestation(w, p, r.announcement, t, now)) && DistinctAuthorities(r.attestations)
  {
    forall t | t in r.attestations
      ensures ValidAttestation(w, p, r.announcement, t, now) <==> exists i: nat :: AttestedBy(w, p.seeds, i, r.announcement, t, now)
    {
      AttestedIff(w, p, r.announcement, t, now);
    }
  }

  /** One to sixteen seeds, a quorum of them, and at most 512 nodes. */
  predicate UsablePolicy(p: Policy)
  {
    1 <= p.quorum <= |p.seeds| <= 16 && 1 <= p.maxNodes <= 512
  }

  /** Under a usable policy a record is accepted exactly if its holder signed the lease, the lease is running, every
      attestation is a seed's own, and the holder is a seed at its endpoint or a quorum of seeds attested. */
  lemma AcceptedIff(w: World, p: Policy, r: Record, now: Time)
    requires DistinctSeeds(p.seeds)
    ensures ValidRecord(w, p, r, now) <==>
      && UsablePolicy(p) && SignedLease(w, p.allowPrivate, r.announcement) && Running(r.announcement, now)
      && AllAttested(w, p.seeds, r, now)
      && (IsSeed(p.seeds, r.announcement) || |Attesting(p.seeds, r)| >= p.quorum)
  {
    AllAttestedIff(w, p, r, now);
    IsSeedIff(p, r.announcement);
    if AllAttested(w, p.seeds, r, now) && UsablePolicy(p) {
      AttestingCount(w, p, r, now);
      TrustedBounded(p, r.attestations);
    }
  }

  // ---------- over runs ----------

  /** Operation `k` carried this announcement in an accepted record, while its lease was running. */
  ghost predicate CarriedBy(ops: seq<Op>, k: nat, a: Announcement)
  {
    k < |ops| && Running(a, ops[k].now) && exists r :: r in Received(ops[k]) && r.announcement == a
  }

  ghost predicate Signed(w: World, p: Policy, records: Records)
  {
    forall id :: id in records ==> NodeId(records[id]) == id && SignedLease(w, p.allowPrivate, records[id].announcement)
  }

  ghost predicate AllCarried(ops: seq<Op>, records: Records)
  {
    forall id :: id in records ==> exists k: nat :: CarriedBy(ops, k, records[id].announcement)
  }

  lemma ValidIsSigned(w: World, p: Policy, r: Record, now: Time)
    requires ValidRecord(w, p, r, now)
    ensures SignedLease(w, p.allowPrivate, r.announcement) && Running(r.announcement, now)
  {
  }

  /** A snapshot changes a registry only if the expected publisher signed it, within five minutes of `now`, over at most 512
      records in strict order of their node IDs, all of which are accepted. */
  lemma SnapshotChanges(w: World, p: Policy, records: Records, s: Snapshot, publisherId: Bytes, now: Time)
    requires UsablePolicy(p) && Step(w, p, records, SnapshotOp(s, publisherId, now)) != records
    ensures s.publisher.nodeId == publisherId && w.validIdentity(s.publisher)
    ensures w.verify(s.publisher, SnapshotDomain, SnapshotBytes(s), s.signature)
    ensures s.version == 1 && now - 5 * MINUTE <= s.generatedAt <= now + 5 * MINUTE && |s.records| <= p.maxNodes
    ensures forall i, j :: 0 <= i < j < |s.records| ==> Less(NodeId(s.records[i]), NodeId(s.records[j]))
    ensures forall r :: r in s.records ==> ValidRecord(w, p, r, now)
  {
    forall i, j | 0 <= i < j < |s.records| ensures Less(NodeId(s.records[i]), NodeId(s.records[j])) {
      StrictFurther(s.records, i, j);
    }
  }

  /** And such a snapshot is merged: it fails only where merging one of its records would. */
  lemma SnapshotStored(w: World, p: Policy, records: Records, s: Snapshot, publisherId: Bytes, now: Time)
    requires UsablePolicy(p) && s.publisher.nodeId == publisherId && w.validIdentity(s.publisher)
    requires w.verify(s.publisher, SnapshotDomain, SnapshotBytes(s), s.signature)
    requires s.version == 1 && now - 5 * MINUTE <= s.generatedAt <= now + 5 * MINUTE && |s.records| <= p.maxNodes
    requires forall i, j :: 0 <= i < j < |s.records| ==> Less(NodeId(s.records[i]), NodeId(s.records[j]))
    requires forall r :: r in s.records ==> ValidRecord(w, p, r, now)
    ensures SnapshotMerged(w, p, records, s, publisherId, now) == MergeAll(w, p.maxNodes, records, s.records)
  {
  }

  /** What a merge stores it received. */
  lemma MergeStores(w: World, maxNodes: int, records: Records, record: Record, id: Bytes)
    requires MergeVerified(w, maxNodes, records, record).Ok? && id in MergeVerified(w, maxNodes, records, record).value
    ensures var m := MergeVerified(w, maxNodes, records, record).value;
      (id == NodeId(record) && m[id].announcement == record.announcement) || (id in records && m[id] == records[id])
  {
  }

  lemma {:induction false} MergeAllStores(w: World, maxNodes: int, records: Records, rs: seq<Record>, id: Bytes)
    requires MergeAll(w, maxNodes, records, rs).Ok? && id in MergeAll(w, maxNodes, records, rs).value
    ensures var m := MergeAll(w, maxNodes, records, rs).value;
      (exists r :: r in rs && id == NodeId(r) && m[id].announcement == r.announcement) || (id in records && m[id] == records[id])
  {
    if rs != [] {
      var front, last := rs[..|rs| - 1], rs[|rs| - 1];
      MergeStores(w, maxNodes, MergeAll(w, maxNodes, records, front).value, last, id);
      if id in MergeAll(w, maxNodes, records, front).value {
        MergeAllStores(w, maxNodes, records, front, id);
      }
    }
  }

  /** What an operation leaves behind was there before, or came with it, signed and running. */
  lemma StepStores(w: World, p: Policy, records: Records, op: Op, id: Bytes)
    requires id in Step(w, p, records, op)
    ensures var s := Step(w, p, records, op);
      || (id in records && s[id] == records[id])
      || (&& (exists r :: r in Received(op) && r.announcement == s[id].announcement) && NodeId(s[id]) == id
          && SignedLease(w, p.allowPrivate, s[id].announcement) && Running(s[id].announcement, op.now))
  {
    match op
    case MergeOp(record, now) =>
      if Merged(w, p, records, record, now).Ok? {
        MergeStores(w, p.maxNodes, records, record, id);
        ValidIsSigned(w, p, record, now);
        assert record in Received(op);
      }
    case SnapshotOp(s, publisherId, now) =>
      if SnapshotMerged(w, p, records, s, publisherId, now).Ok? {
        MergeAllStores(w, p.maxNodes, records, s.records, id);
        var m := MergeAll(w, p.maxNodes, records, s.records).value;
        if r :| r in s.records && id == NodeId(r) && m[id].announcement == r.announcement {
          ValidIsSigned(w, p, r, now);
        }
      }
    case SweepOp(now) =>
  }

  lemma CarriedLonger(ops: seq<Op>, k: nat, a: Announcement)
    requires ops != [] && CarriedBy(ops[..|ops| - 1], k, a)
    ensures CarriedBy(ops, k, a)
  {
  }

  /** Over every run of merges, snapshots and sweeps, at whatever times and whatever was received: each stored record is
      filed under the ID of the identity that signed its lease, and came with an operation during that lease. */
  lemma {:induction false} StoredWasSigned(w: World, p: Policy, ops: seq<Op>)
    ensures Signed(w, p, Run(w, p, ops)) && AllCarried(ops, Run(w, p, ops))
  {
    if ops != [] {
      var front, last := ops[..|ops| - 1], ops[|ops| - 1];
      StoredWasSigned(w, p, front);
      var before, after := Run(w, p, front), Run(w, p, ops);
      forall id | id in after
        ensures NodeId(after[id]) == id && SignedLease(w, p.allowPrivate, after[id].announcement)
        ensures exists k: nat :: CarriedBy(ops, k, after[id].announcement)
      {
        StepStores(w, p, before, last, id);
        if id in before && after[id] == before[id] {
          var k: nat :| CarriedBy(front, k, before[id].announcement);
          CarriedLonger(ops, k, before[id].announcement);
        } else {
          assert CarriedBy(ops, |ops| - 1, after[id].announcement);
        }
      }
    }
  }

  // ---------- nothing honest is refused ----------

  /** A lease with the verifying attestations of a quorum of seeds is accepted and stored, wherever there is room and no
      later lease of that node is known. */
  lemma AttestedIsStored(w: World, p: Policy, records: Records, r: Record, now: Time)
    requires UsablePolicy(p) && DistinctSeeds(p.seeds)
    requires SignedLease(w, p.allowPrivate, r.announcement) && Running(r.announcement, now)
    requires AllAttested(w, p.seeds, r, now) && |Attesting(p.seeds, r)| >= p.quorum
    requires NodeId(r) !in records ==> |records| < p.maxNodes
    requires NodeId(r) in records ==> records[NodeId(r)].announcement.sequence < r.announcement.sequence
    ensures Step(w, p, records, MergeOp(r, now)) == records[NodeId(r) := r]
  {
    AcceptedIff(w, p, r, now);
  }
}
