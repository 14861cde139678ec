/** Node directory records and their signing encodings (nodedir/types.go, nodedir/registry.go). */
module Directory {
  import opened Bytes
  import opened Wire
  import opened Identities

  const PROTOCOL_VERSION: Byte := 1
  const MAX_DIRECTORY_NODES := 512
  const MAX_ATTESTATIONS := 16
  const MAX_SNAPSHOT_BYTES := 16 * 1024 * 1024
  const MIN_LEASE := 10 * MINUTE
  const MAX_LEASE := 2 * HOUR
  const MAX_CLOCK_SKEW := 5 * MINUTE

  datatype Endpoint = Endpoint(scheme: Bytes, ip: Bytes, port: U16)

  datatype Announcement = Announcement(
    version: Byte, identity: Identity, endpoint: Endpoint, sequence: U64,
    issuedAt: Time, expiresAt: Time, signature: Signature)

  datatype Attestation = Attestation(
    version: Byte, authorityId: Bytes, announcementHash: Bytes,
    observedAt: Time, expiresAt: Time, signature: Signature)

  datatype Record = Record(announcement: Announcement, attestations: seq<Attestation>)

  datatype Snapshot = Snapshot(
    version: Byte, publisher: Identity, generatedAt: Time, records: seq<Record>, signature: Signature)

  datatype Challenge = Challenge(
    version: Byte, nodeId: Bytes, nonce: Bytes, createdAt: Time, signature: Signature)

  /** What the code calls but this model does not define: SHA-256, identity validity, signature
      verification and endpoint canonicalisation. Every theorem holds for any choice of them. */
  datatype World = World(
    sha256: Bytes -> Bytes,
    validIdentity: Identity -> bool,
    verify: (Identity, Domain, Bytes, Signature) -> bool,
    canonical: (Endpoint, bool) -> Option<Endpoint>)

  // ---------- encoders ----------

  function AnnouncementFields(a: Announcement): seq<Field>
  {
    [U8(a.version),
     Var(a.identity.nodeId), Var(a.identity.ed25519), Var(a.identity.mldsa65), U8(a.identity.version),
     Var(a.endpoint.scheme), Var(a.endpoint.ip), U16(a.endpoint.port), U64(a.sequence),
     I64(Millis(a.issuedAt)), I64(Millis(a.expiresAt))]
  }

  function AnnouncementBytes(a: Announcement): Bytes
  {
    WriteAll(AnnouncementFields(a))
  }

  function SignatureFields(s: Signature): seq<Field>
  {
    [Var(s.ed25519), Var(s.mldsa65)]
  }

  function SignatureBytes(s: Signature): Bytes
  {
    WriteAll(SignatureFields(s))
  }

  /** The byte string whose digest an attestation commits to. */
  function AnnouncementPreimage(a: Announcement): Bytes
  {
    AnnouncementBytes(a) + SignatureBytes(a.signature)
  }

  function AnnouncementHash(sha256: Bytes -> Bytes, a: Announcement): Bytes
  {
    sha256(AnnouncementPreimage(a))
  }

  function AttestationFields(t: Attestation): seq<Field>
  {
    [U8(t.version), Var(t.authorityId), Var(t.announcementHash),
     I64(Millis(t.observedAt)), I64(Millis(t.expiresAt))]
  }

  function AttestationBytes(t: Attestation): Bytes
  {
    WriteAll(AttestationFields(t))
  }

  function ChallengeFields(c: Challenge): seq<Field>
  {
    [U8(c.version), Var(c.nodeId), Var(c.nonce), I64(Millis(c.createdAt))]
  }

  function ChallengeBytes(c: Challenge): Bytes
  {
    WriteAll(ChallengeFields(c))
  }

  function AttestationEntryFields(t: Attestation): seq<Field>
  {
    [Var(AttestationBytes(t)), Var(SignatureBytes(t.signature))]
  }

  function AttestationsBytes(ts: seq<Attestation>): Bytes
  {
    if ts == [] then [] else WriteAll(AttestationEntryFields(ts[0])) + AttestationsBytes(ts[1..])
  }

  function RecordHeadFields(r: Record): seq<Field>
  {
    [Var(AnnouncementBytes(r.announcement)), Var(SignatureBytes(r.announcement.signature)), U16(|r.attestations|)]
  }

  function RecordBytes(r: Record): Bytes
  {
    WriteAll(RecordHeadFields(r)) + AttestationsBytes(r.attestations)
  }

  function RecordsBytes(rs: seq<Record>): Bytes
  {
    if rs == [] then [] else RecordBytes(rs[0]) + RecordsBytes(rs[1..])
  }

  function SnapshotHeadFields(s: Snapshot): seq<Field>
  {
    [U8(s.version),
     Var(s.publisher.nodeId), Var(s.publisher.ed25519), Var(s.publisher.mldsa65), U8(s.publisher.version),
     I64(Millis(s.generatedAt)), U32(|s.records|)]
  }

  function SnapshotBytes(s: Snapshot): Bytes
  {
    WriteAll(SnapshotHeadFields(s)) + RecordsBytes(s.records)
  }

  // ---------- bounds under which the encoders are used ----------

  /** No string of a parsed document is longer than the largest accepted document. */
  predicate Short(b: Bytes)
  {
    |b| <= MAX_SNAPSHOT_BYTES
  }

  predicate BoundedIdentity(i: Identity)
  {
    Short(i.nodeId) && Short(i.ed25519) && Short(i.mldsa65)
  }

  predicate BoundedSignature(s: Signature)
  {
    Short(s.ed25519) && Short(s.mldsa65)
  }

  predicate BoundedAnnouncement(a: Announcement)
  {
    && BoundedIdentity(a.identity) && Short(a.endpoint.scheme) && Short(a.endpoint.ip)
    && Representable(a.issuedAt) && Representable(a.expiresAt) && BoundedSignature(a.signature)
  }

  predicate BoundedAttestation(t: Attestation)
  {
    && Short(t.authorityId) && Short(t.announcementHash)
    && Representable(t.observedAt) && Representable(t.expiresAt) && BoundedSignature(t.signature)
  }

  predicate BoundedRecord(r: Record)
  {
    && BoundedAnnouncement(r.announcement)
    && |r.attestations| <= MAX_ATTESTATIONS
    && forall i :: 0 <= i < |r.attestations| ==> BoundedAttestation(r.attestations[i])
  }

  predicate BoundedSnapshot(s: Snapshot)
  {
    && BoundedIdentity(s.publisher) && Representable(s.generatedAt)
    && |s.records| <= MAX_DIRECTORY_NODES
    && forall i :: 0 <= i < |s.records| ==> BoundedRecord(s.records[i])
  }

  predicate BoundedChallenge(c: Challenge)
  {
    Short(c.nodeId) && Short(c.nonce) && Representable(c.createdAt)
  }

  // ---------- what a signature over an encoding commits to ----------

  predicate SameAnnouncement(a: Announcement, b: Announcement)
  {
    && a.version == b.version && a.identity == b.identity && a.endpoint == b.endpoint
    && a.sequence == b.sequence
    && Millis(a.issuedAt) == Millis(b.issuedAt) && Millis(a.expiresAt) == Millis(b.expiresAt)
  }

  predicate SameSignedAnnouncement(a: Announcement, b: Announcement)
  {
    SameAnnouncement(a, b) && a.signature == b.signature
  }

  predicate SameAttestation(s: Attestation, t: Attestation)
  {
    && s.version == t.version && s.authorityId == t.authorityId && s.announcementHash == t.announcementHash
    && Millis(s.observedAt) == Millis(t.observedAt) && Millis(s.expiresAt) == Millis(t.expiresAt)
  }

  predicate SameSignedAttestation(s: Attestation, t: Attestation)
  {
    SameAttestation(s, t) && s.signature == t.signature
  }

  predicate SameRecord(r: Record, q: Record)
  {
    && SameSignedAnnouncement(r.announcement, q.announcement)
    && |r.attestations| == |q.attestations|
    && forall i :: 0 <= i < |r.attestations| ==> SameSignedAttestation(r.attestations[i], q.attestations[i])
  }

  predicate SameSnapshot(s: Snapshot, t: Snapshot)
  {
    && s.version == t.version && s.publisher == t.publisher && Millis(s.generatedAt) == Millis(t.generatedAt)
    && |s.records| == |t.records|
    && forall i :: 0 <= i < |s.records| ==> SameRecord(s.records[i], t.records[i])
  }

  // ---------- injectivity ----------

  lemma ProductStep(a: int, n: int)
    ensures a * n == a * (n - 1) + a
  {
  }

  lemma {:induction false} WriteAllLength(fs: seq<Field>, limit: nat)
    requires forall i :: 0 <= i < |fs| ==> |Write(fs[i])| <= limit
    ensures |WriteAll(fs)| <= limit * |fs|
  {
    if fs != [] {
      WriteAllLength(fs[1..], limit);
      ProductStep(limit, |fs|);
    }
  }

  lemma AnnouncementLength(a: Announcement)
    requires BoundedAnnouncement(a)
    ensures |AnnouncementBytes(a)| < TWO32
  {
    WriteAllLength(AnnouncementFields(a), MAX_SNAPSHOT_BYTES + 8);
  }

  lemma AttestationLength(t: Attestation)
    requires BoundedAttestation(t)
    ensures |AttestationBytes(t)| < TWO32
  {
    WriteAllLength(AttestationFields(t), MAX_SNAPSHOT_BYTES + 8);
  }

  lemma SignatureLength(s: Signature)
    requires BoundedSignature(s)
    ensures |SignatureBytes(s)| < TWO32
  {
    WriteAllLength(SignatureFields(s), MAX_SNAPSHOT_BYTES + 8);
  }

  /** Two announcements are signed over the same bytes exactly when they agree up to the millisecond. */
  lemma AnnouncementInjective(a: Announcement, b: Announcement)
    requires BoundedAnnouncement(a) && BoundedAnnouncement(b)
    ensures AnnouncementBytes(a) == AnnouncementBytes(b) <==> SameAnnouncement(a, b)
  {
    var fs, gs := AnnouncementFields(a), AnnouncementFields(b);
    if AnnouncementBytes(a) == AnnouncementBytes(b) {
      Injective(fs, gs);
      AnnouncementFieldsDetermine(a, b);
    }
  }

  lemma AnnouncementFieldsDetermine(a: Announcement, b: Announcement)
    requires AnnouncementFields(a) == AnnouncementFields(b)
    ensures SameAnnouncement(a, b)
  {
    var fs, gs := AnnouncementFields(a), AnnouncementFields(b);
    assert fs[0] == gs[0] && fs[1] == gs[1] && fs[2] == gs[2] && fs[3] == gs[3] && fs[4] == gs[4];
    assert fs[5] == gs[5] && fs[6] == gs[6] && fs[7] == gs[7] && fs[8] == gs[8];
    assert fs[9] == gs[9] && fs[10] == gs[10];
  }

  lemma SignatureInjective(s: Signature, t: Signature)
    requires BoundedSignature(s) && BoundedSignature(t)
    ensures SignatureBytes(s) == SignatureBytes(t) <==> s == t
  {
    if SignatureBytes(s) == SignatureBytes(t) {
      var fs, gs := SignatureFields(s), SignatureFields(t);
      Injective(fs, gs);
      assert fs[0] == gs[0] && fs[1] == gs[1];
    }
  }

  lemma AnnouncementWrites(a: Announcement, b: Announcement)
    requires BoundedAnnouncement(a) && BoundedAnnouncement(b)
    ensures AllFit(AnnouncementFields(a)) && SameShape(AnnouncementFields(a), AnnouncementFields(b))
  {
  }

  lemma SignedWrites(fs: seq<Field>, gs: seq<Field>, s: Signature, t: Signature)
    requires SameShape(fs, gs) && AllFit(fs) && AllFit(gs) && BoundedSignature(s) && BoundedSignature(t)
    requires WriteAll(fs) + SignatureBytes(s) == WriteAll(gs) + SignatureBytes(t)
    ensures fs == gs && s == t
  {
    PrefixInjective(fs, gs, SignatureBytes(s), SignatureBytes(t));
    SignatureInjective(s, t);
  }

  lemma PreimageDetermines(a: Announcement, b: Announcement)
    requires BoundedAnnouncement(a) && BoundedAnnouncement(b) && AnnouncementPreimage(a) == AnnouncementPreimage(b)
    ensures AnnouncementFields(a) == AnnouncementFields(b) && a.signature == b.signature
  {
    AnnouncementWrites(a, b);
    AnnouncementWrites(b, a);
    SignedWrites(AnnouncementFields(a), AnnouncementFields(b), a.signature, b.signature);
  }

  lemma SamePreimage(a: Announcement, b: Announcement)
    requires SameSignedAnnouncement(a, b)
    ensures AnnouncementPreimage(a) == AnnouncementPreimage(b)
  {
    assert AnnouncementFields(a) == AnnouncementFields(b);
  }

  /** The unseparated concatenation that is hashed still determines both of its parts. */
  lemma PreimageInjective(a: Announcement, b: Announcement)
    requires BoundedAnnouncement(a) && BoundedAnnouncement(b)
    ensures AnnouncementPreimage(a) == AnnouncementPreimage(b) <==> SameSignedAnnouncement(a, b)
  {
    if AnnouncementPreimage(a) == AnnouncementPreimage(b) {
      PreimageDetermines(a, b);
      AnnouncementFieldsDetermine(a, b);
    }
    if SameSignedAnnouncement(a, b) {
      SamePreimage(a, b);
    }
  }

  lemma AttestationInjective(s: Attestation, t: Attestation)
    requires BoundedAttestation(s) && BoundedAttestation(t)
    ensures AttestationBytes(s) == AttestationBytes(t) <==> SameAttestation(s, t)
  {
    if AttestationBytes(s) == AttestationBytes(t) {
      var fs, gs := AttestationFields(s), AttestationFields(t);
      Injective(fs, gs);
      assert fs[0] == gs[0] && fs[1] == gs[1] && fs[2] == gs[2] && fs[3] == gs[3] && fs[4] == gs[4];
    }
  }

  lemma ChallengeInjective(c: Challenge, d: Challenge)
    requires BoundedChallenge(c) && BoundedChallenge(d)
    ensures ChallengeBytes(c) == ChallengeBytes(d) <==>
      c.version == d.version && c.nodeId == d.nodeId && c.nonce == d.nonce && Millis(c.createdAt) == Millis(d.createdAt)
  {
    if ChallengeBytes(c) == ChallengeBytes(d) {
      var fs, gs := ChallengeFields(c), ChallengeFields(d);
      Injective(fs, gs);
      assert fs[0] == gs[0] && fs[1] == gs[1] && fs[2] == gs[2] && fs[3] == gs[3];
    }
  }

  lemma AttestationEntryFits(t: Attestation)
    requires BoundedAttestation(t)
    ensures AllFit(AttestationEntryFields(t))
  {
    AttestationLength(t);
    SignatureLength(t.signature);
  }

  lemma AttestationEntryInjective(s: Attestation, t: Attestation, rs: Bytes, rt: Bytes)
    requires BoundedAttestation(s) && BoundedAttestation(t)
    requires WriteAll(AttestationEntryFields(s)) + rs == WriteAll(AttestationEntryFields(t)) + rt
    ensures SameSignedAttestation(s, t) && rs == rt
  {
    AttestationEntryFits(s);
    AttestationEntryFits(t);
    var fs, gs := AttestationEntryFields(s), AttestationEntryFields(t);
    PrefixInjective(fs, gs, rs, rt);
    assert fs[0].v == gs[0].v && fs[1].v == gs[1].v;
    AttestationInjective(s, t);
    SignatureInjective(s.signature, t.signature);
  }

  lemma {:induction false} AttestationsInjective(ss: seq<Attestation>, ts: seq<Attestation>, rs: Bytes, rt: Bytes)
    requires |ss| == |ts|
    requires forall i :: 0 <= i < |ss| ==> BoundedAttestation(ss[i]) && BoundedAttestation(ts[i])
    requires AttestationsBytes(ss) + rs == AttestationsBytes(ts) + rt
    ensures forall i :: 0 <= i < |ss| ==> SameSignedAttestation(ss[i], ts[i])
    ensures rs == rt
  {
    if ss == [] {
      SplitFixed(AttestationsBytes(ss), AttestationsBytes(ts), rs, rt);
    } else {
      Associative(WriteAll(AttestationEntryFields(ss[0])), AttestationsBytes(ss[1..]), rs);
      Associative(WriteAll(AttestationEntryFields(ts[0])), AttestationsBytes(ts[1..]), rt);
      AttestationEntryInjective(ss[0], ts[0], AttestationsBytes(ss[1..]) + rs, AttestationsBytes(ts[1..]) + rt);
      AttestationsInjective(ss[1..], ts[1..], rs, rt);
      forall i | 0 <= i < |ss| ensures SameSignedAttestation(ss[i], ts[i]) {
        if i > 0 { assert ss[i] == ss[1..][i - 1] && ts[i] == ts[1..][i - 1]; }
      }
    }
  }

  lemma RecordHeadFits(r: Record)
    requires BoundedRecord(r)
    ensures AllFit(RecordHeadFields(r))
  {
    AnnouncementLength(r.announcement);
    SignatureLength(r.announcement.signature);
  }

  lemma RecordHeadInjective(r: Record, q: Record, rr: Bytes, rq: Bytes)
    requires BoundedRecord(r) && BoundedRecord(q)
    requires WriteAll(RecordHeadFields(r)) + rr == WriteAll(RecordHeadFields(q)) + rq
    ensures SameSignedAnnouncement(r.announcement, q.announcement) && |r.attestations| == |q.attestations| && rr == rq
  {
    RecordHeadFits(r);
    RecordHeadFits(q);
    var fs, gs := RecordHeadFields(r), RecordHeadFields(q);
    PrefixInjective(fs, gs, rr, rq);
    assert fs[0].v == gs[0].v && fs[1].v == gs[1].v && fs[2] == gs[2];
    AnnouncementInjective(r.announcement, q.announcement);
    SignatureInjective(r.announcement.signature, q.announcement.signature);
  }

  lemma RecordInjective(r: Record, q: Record, rr: Bytes, rq: Bytes)
    requires BoundedRecord(r) && BoundedRecord(q)
    requires RecordBytes(r) + rr == RecordBytes(q) + rq
    ensures SameRecord(r, q) && rr == rq
  {
    Associative(WriteAll(RecordHeadFields(r)), AttestationsBytes(r.attestations), rr);
    Associative(WriteAll(RecordHeadFields(q)), AttestationsBytes(q.attestations), rq);
    RecordHeadInjective(r, q, AttestationsBytes(r.attestations) + rr, AttestationsBytes(q.attestations) + rq);
    AttestationsInjective(r.attestations, q.attestations, rr, rq);
  }

  lemma {:induction false} RecordsInjective(rs: seq<Record>, qs: seq<Record>)
    requires |rs| == |qs|
    requires forall i :: 0 <= i < |rs| ==> BoundedRecord(rs[i]) && BoundedRecord(qs[i])
    requires RecordsBytes(rs) == RecordsBytes(qs)
    ensures forall i :: 0 <= i < |rs| ==> SameRecord(rs[i], qs[i])
  {
    if rs != [] {
      RecordInjective(rs[0], qs[0], RecordsBytes(rs[1..]), RecordsBytes(qs[1..]));
      RecordsInjective(rs[1..], qs[1..]);
      forall i | 0 <= i < |rs| ensures SameRecord(rs[i], qs[i]) {
        if i > 0 { assert rs[i] == rs[1..][i - 1] && qs[i] == qs[1..][i - 1]; }
      }
    }
  }

  lemma SnapshotHeadInjective(s: Snapshot, t: Snapshot, rs: Bytes, rt: Bytes)
    requires BoundedSnapshot(s) && BoundedSnapshot(t)
    requires WriteAll(SnapshotHeadFields(s)) + rs == WriteAll(SnapshotHeadFields(t)) + rt
    ensures s.version == t.version && s.publisher == t.publisher && Millis(s.generatedAt) == Millis(t.generatedAt)
    ensures |s.records| == |t.records| && rs == rt
  {
    SnapshotHeadFits(s);
    SnapshotHeadFits(t);
    PrefixInjective(SnapshotHeadFields(s), SnapshotHeadFields(t), rs, rt);
    SnapshotHeadDetermines(s, t);
  }

  lemma SnapshotHeadFits(s: Snapshot)
    requires BoundedSnapshot(s)
    ensures AllFit(SnapshotHeadFields(s))
  {
  }

  lemma SnapshotHeadDetermines(s: Snapshot, t: Snapshot)
    requires SnapshotHeadFields(s) == SnapshotHeadFields(t)
    ensures s.version == t.version && s.publisher == t.publisher && Millis(s.generatedAt) == Millis(t.generatedAt)
    ensures |s.records| == |t.records|
  {
    var fs, gs := SnapshotHeadFields(s), SnapshotHeadFields(t);
    assert fs[0] == gs[0] && fs[1] == gs[1] && fs[2] == gs[2] && fs[3] == gs[3];
    assert fs[4] == gs[4] && fs[5] == gs[5] && fs[6] == gs[6];
  }

  /** A snapshot signature commits to the publisher, the time, and every nested record and attestation. */
  lemma SnapshotInjective(s: Snapshot, t: Snapshot)
    requires BoundedSnapshot(s) && BoundedSnapshot(t)
    requires SnapshotBytes(s) == SnapshotBytes(t)
    ensures SameSnapshot(s, t)
  {
    SnapshotHeadInjective(s, t, RecordsBytes(s.records), RecordsBytes(t.records));
    RecordsInjective(s.records, t.records);
  }
}
