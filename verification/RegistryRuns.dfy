/** What every run of the registry keeps, and why the merge order does not matter. */
module RegistryRuns {
  import opened Bytes
  import opened Identities
  import opened Directory
  import opened Admission
  import opened Registry
  import opened Sorting

  // ---------- equal-sequence unions ----------

  /** When the stored attestations still fit the newly received announcement. */
  ghost predicate Carries(existing: Record, record: Record)
  {
    existing.attestations == [] ||
    (existing.announcement.expiresAt == record.announcement.expiresAt &&
     forall t :: t in existing.attestations ==> record.announcement.issuedAt - MAX_CLOCK_SKEW <= t.observedAt)
  }

  lemma CarriedAttestation(w: World, p: Policy, existing: Record, record: Record, t: Attestation, before: Time, now: Time)
    requires ValidAttestation(w, p, existing.announcement, t, before) && before <= now
    requires AnnouncementHash(w.sha256, existing.announcement) == AnnouncementHash(w.sha256, record.announcement)
    ensures ValidAttestation(w, p, record.announcement, t, now) <==>
      existing.announcement.expiresAt == record.announcement.expiresAt &&
      record.announcement.issuedAt - MAX_CLOCK_SKEW <= t.observedAt
  {
  }

  /** The union of two verified records of one announcement hash verifies exactly when the stored
      attestations carry over: same expiry instant, and none observed too early for the new issue time. */
  lemma CombinedValidIff(w: World, p: Policy, existing: Record, record: Record, before: Time, now: Time)
    requires ValidRecord(w, p, existing, before) && ValidRecord(w, p, record, now) && before <= now
    requires AnnouncementHash(w.sha256, existing.announcement) == AnnouncementHash(w.sha256, record.announcement)
    ensures ValidRecord(w, p, Combined(existing, record), now) <==> Carries(existing, record)
  {
    var c := Combined(existing, record);
    UnionIs(record.attestations, existing.attestations);
    forall t | t in existing.attestations
      ensures ValidAttestation(w, p, record.announcement, t, now) <==>
        existing.announcement.expiresAt == record.announcement.expiresAt &&
        record.announcement.issuedAt - MAX_CLOCK_SKEW <= t.observedAt
    {
      CarriedAttestation(w, p, existing, record, t, before, now);
    }
    if Carries(existing, record) {
      forall t | t in c.attestations ensures ValidAttestation(w, p, c.announcement, t, now) {
        assert t in existing.attestations || t in record.attestations;
      }
      TrustedBounded(p, c.attestations);
    }
    if ValidRecord(w, p, c, now) && existing.attestations != [] {
      forall t | t in existing.attestations
        ensures existing.announcement.expiresAt == record.announcement.expiresAt
        ensures record.announcement.issuedAt - MAX_CLOCK_SKEW <= t.observedAt
      {
        assert t in c.attestations;
      }
      assert existing.attestations[0] in existing.attestations;
    }
  }

  /** The copy of a record whose expiry is moved by less than a millisecond. */
  function ShiftedAttestations(ts: seq<Attestation>, delta: int): (r: seq<Attestation>)
    ensures |r| == |ts|
    ensures forall i :: 0 <= i < |ts| ==> r[i] == ts[i].(expiresAt := ts[i].expiresAt + delta)
  {
    seq(|ts|, i requires 0 <= i < |ts| => ts[i].(expiresAt := ts[i].expiresAt + delta))
  }

  function Shifted(r: Record, delta: int): Record
  {
    Record(r.announcement.(expiresAt := r.announcement.expiresAt + delta), ShiftedAttestations(r.attestations, delta))
  }

  lemma ShiftedEncodings(r: Record, t: Attestation, delta: int)
    requires Aligned(r.announcement.expiresAt) && Aligned(t.expiresAt) && 0 <= delta < MILLISECOND
    ensures AnnouncementBytes(Shifted(r, delta).announcement) == AnnouncementBytes(r.announcement)
    ensures AttestationBytes(t.(expiresAt := t.expiresAt + delta)) == AttestationBytes(t)
  {
    assert Millis(r.announcement.expiresAt + delta) == Millis(r.announcement.expiresAt);
    assert Millis(t.expiresAt + delta) == Millis(t.expiresAt);
  }

  lemma ShiftedAttestationValid(w: World, p: Policy, r: Record, t: Attestation, now: Time, delta: int)
    requires ValidAttestation(w, p, r.announcement, t, now)
    requires Aligned(r.announcement.expiresAt) && 0 < delta < MILLISECOND
    ensures ValidAttestation(w, p, Shifted(r, delta).announcement, t.(expiresAt := t.expiresAt + delta), now)
  {
    ShiftedEncodings(r, t, delta);
  }

  /** Where the union property fails: digits below the millisecond are outside every signature, so the
      shifted copy verifies unchanged, merges as the same announcement, and the union no longer verifies. */
  lemma SubMillisecondShiftBreaksUnion(w: World, p: Policy, r: Record, now: Time, delta: int)
    requires ValidRecord(w, p, r, now) && r.attestations != [] && Aligned(r.announcement.expiresAt)
    requires 0 < delta < MILLISECOND
    requires r.announcement.expiresAt + delta - r.announcement.issuedAt <= MAX_LEASE
    ensures ValidRecord(w, p, Shifted(r, delta), now)
    ensures AnnouncementHash(w.sha256, Shifted(r, delta).announcement) == AnnouncementHash(w.sha256, r.announcement)
    ensures !ValidRecord(w, p, Combined(r, Shifted(r, delta)), now)
  {
    ShiftedValid(w, p, r, now, delta);
    CombinedValidIff(w, p, r, Shifted(r, delta), now, now);
  }

  lemma ShiftedValid(w: World, p: Policy, r: Record, now: Time, delta: int)
    requires ValidRecord(w, p, r, now) && r.attestations != [] && Aligned(r.announcement.expiresAt)
    requires 0 < delta < MILLISECOND && r.announcement.expiresAt + delta - r.announcement.issuedAt <= MAX_LEASE
    ensures ValidRecord(w, p, Shifted(r, delta), now)
    ensures AnnouncementHash(w.sha256, Shifted(r, delta).announcement) == AnnouncementHash(w.sha256, r.announcement)
  {
    var s := Shifted(r, delta);
    assert r.attestations[0].expiresAt == r.announcement.expiresAt by {
      assert ValidAttestation(w, p, r.announcement, r.attestations[0], now);
    }
    ShiftedEncodings(r, r.attestations[0], delta);
    forall t | t in s.attestations ensures ValidAttestation(w, p, s.announcement, t, now) {
      var i :| 0 <= i < |s.attestations| && s.attestations[i] == t;
      ShiftedAttestationValid(w, p, r, r.attestations[i], now, delta);
    }
    assert s.announcement.expiresAt != ZERO_TIME by {
      assert ZERO_TIME % MILLISECOND == 0;
    }
  }

  // ---------- safety over runs ----------

  datatype Op =
    | MergeOp(record: Record, now: Time)
    | SnapshotOp(snapshot: Snapshot, publisherId: Bytes, now: Time)
    | SweepOp(now: Time)

  ghost function Step(w: World, p: Policy, records: Records, op: Op): Records
  {
    match op
    case MergeOp(record, now) =>
      var m := Merged(w, p, records, record, now);
      if m.Ok? then m.value else records
    case SnapshotOp(s, publisherId, now) =>
      var m := SnapshotMerged(w, p, records, s, publisherId, now);
      if m.Ok? then m.value else records
    case SweepOp(now) => Unexpired(records, now)
  }

  ghost function Run(w: World, p: Policy, ops: seq<Op>): Records
  {
    if ops == [] then map[] else Step(w, p, Run(w, p, ops[..|ops| - 1]), ops[|ops| - 1])
  }

  /** The clock never goes back and stays at or before `clock`. */
  ghost predicate ClockedBy(ops: seq<Op>, clock: Time)
  {
    && (forall i, j :: 0 <= i < j < |ops| ==> ops[i].now <= ops[j].now)
    && (forall i :: 0 <= i < |ops| ==> ops[i].now <= clock)
  }

  function Received(op: Op): seq<Record>
  {
    match op
    case MergeOp(record, _) => [record]
    case SnapshotOp(s, _, _) => s.records
    case SweepOp(_) => []
  }

  predicate SameHash(w: World, a: Announcement, b: Announcement)
  {
    AnnouncementHash(w.sha256, a) == AnnouncementHash(w.sha256, b)
  }

  /** If merging the record would unite it with a stored one, the stored attestations carry over. */
  ghost predicate UnionCarries(w: World, records: Records, record: Record)
  {
    var id := NodeId(record);
    id in records && records[id].announcement.sequence == record.announcement.sequence && SameHash(w, records[id].announcement, record.announcement) ==>
      Carries(records[id], record)
  }

  ghost predicate AllCarry(w: World, maxNodes: int, records: Records, rs: seq<Record>)
  {
    rs != [] ==>
      var front := rs[..|rs| - 1];
      AllCarry(w, maxNodes, records, front) &&
      (MergeAll(w, maxNodes, records, front).Ok? ==> UnionCarries(w, MergeAll(w, maxNodes, records, front).value, rs[|rs| - 1]))
  }

  /** Every union that the operation really makes carries; a refused record or snapshot is not looked at. */
  ghost predicate OpCarries(w: World, p: Policy, records: Records, op: Op)
  {
    match op
    case MergeOp(record, now) => Merged(w, p, records, record, now).Ok? ==> UnionCarries(w, records, record)
    case SnapshotOp(s, publisherId, now) =>
      SnapshotMerged(w, p, records, s, publisherId, now).Ok? ==> AllCarry(w, p.maxNodes, records, s.records)
    case SweepOp(_) => true
  }

  ghost predicate RunCarries(w: World, p: Policy, ops: seq<Op>)
  {
    ops != [] ==> RunCarries(w, p, ops[..|ops| - 1]) && OpCarries(w, p, Run(w, p, ops[..|ops| - 1]), ops[|ops| - 1])
  }

  /** The record passed verification at some moment up to `clock`. */
  ghost predicate Verified(w: World, p: Policy, r: Record, clock: Time)
  {
    exists t :: t <= clock && ValidRecord(w, p, r, t)
  }

  ghost predicate Sound(w: World, p: Policy, records: Records, clock: Time)
  {
    && |records| <= p.maxNodes
    && Keyed(records)
    && (forall id :: id in records ==> Verified(w, p, records[id], clock))
  }

  /** Everything the registry reports as active verifies at that moment. */
  ghost predicate ActiveVerify(w: World, p: Policy, records: Records, now: Time)
  {
    forall id :: id in records && now < records[id].announcement.expiresAt ==> ValidRecord(w, p, records[id], now)
  }

  lemma SoundIsActive(w: World, p: Policy, records: Records, now: Time)
    requires Sound(w, p, records, now)
    ensures ActiveVerify(w, p, records, now)
  {
    forall id | id in records && now < records[id].announcement.expiresAt ensures ValidRecord(w, p, records[id], now) {
      assert Verified(w, p, records[id], now);
      var t :| t <= now && ValidRecord(w, p, records[id], t);
      ValidUntilExpiry(w, p, records[id], t, now);
    }
  }

  /** Over a verified stored record, the union is valid now exactly when it carries. */
  lemma UnionValidIff(w: World, p: Policy, existing: Record, record: Record, clock: Time, now: Time)
    requires Verified(w, p, existing, clock) && clock <= now && ValidRecord(w, p, record, now)
    requires SameHash(w, existing.announcement, record.announcement)
    ensures ValidRecord(w, p, Combined(existing, record), now) <==> Carries(existing, record)
  {
    var before :| before <= clock && ValidRecord(w, p, existing, before);
    CombinedValidIff(w, p, existing, record, before, now);
  }

  lemma StoreKeepsSound(w: World, p: Policy, records: Records, stored: Record, clock: Time, now: Time)
    requires Sound(w, p, records, clock) && clock <= now
    requires NodeId(stored) in records || |records| < p.maxNodes
    requires ValidRecord(w, p, stored, now)
    ensures Sound(w, p, records[NodeId(stored) := stored], now)
  {
    LaterSound(w, p, records, clock, now);
    assert Verified(w, p, stored, now);
    StoreVerifiedSound(w, p, records, stored, now);
  }

  lemma StoreVerifiedSound(w: World, p: Policy, records: Records, stored: Record, now: Time)
    requires Sound(w, p, records, now) && Verified(w, p, stored, now)
    requires NodeId(stored) in records || |records| < p.maxNodes
    ensures Sound(w, p, records[NodeId(stored) := stored], now)
  {
    MapUpdateSize(records, NodeId(stored), stored);
    StoredVerified(w, p, records, stored, now);
  }

  lemma StoredVerified(w: World, p: Policy, records: Records, stored: Record, now: Time)
    requires Verified(w, p, stored, now) && forall id :: id in records ==> Verified(w, p, records[id], now)
    ensures var updated := records[NodeId(stored) := stored]; forall id :: id in updated ==> Verified(w, p, updated[id], now)
  {
    var updated := records[NodeId(stored) := stored];
    forall id | id in updated ensures Verified(w, p, updated[id], now) {
      assert id != NodeId(stored) ==> updated[id] == records[id];
    }
  }

  /** Merging a verified record into verified records leaves the stored one valid now exactly when the union,
      if there is one, carries; and then every record stays verified. */
  lemma MergeSoundIff(w: World, p: Policy, records: Records, record: Record, clock: Time, now: Time)
    requires Sound(w, p, records, clock) && clock <= now && ValidRecord(w, p, record, now)
    requires MergeVerified(w, p.maxNodes, records, record).Ok?
    ensures var m := MergeVerified(w, p.maxNodes, records, record).value;
      && NodeId(record) in m && m[NodeId(record)].announcement == record.announcement
      && (ValidRecord(w, p, m[NodeId(record)], now) <==> UnionCarries(w, records, record))
      && (UnionCarries(w, records, record) ==> Sound(w, p, m, now))
  {
    var id := NodeId(record);
    if id in records && record.announcement.sequence == records[id].announcement.sequence {
      MergeUnites(w, p.maxNodes, records, record);
      UnionSoundIff(w, p, records, record, clock, now);
    } else {
      MergeReplaces(w, p, records, record, clock, now);
    }
  }

  lemma MergeReplaces(w: World, p: Policy, records: Records, record: Record, clock: Time, now: Time)
    requires Sound(w, p, records, clock) && clock <= now && ValidRecord(w, p, record, now)
    requires MergeVerified(w, p.maxNodes, records, record).Ok?
    requires NodeId(record) in records ==> record.announcement.sequence != records[NodeId(record)].announcement.sequence
    ensures var m := MergeVerified(w, p.maxNodes, records, record).value;
      m == records[NodeId(record) := record] && Sound(w, p, m, now) && UnionCarries(w, records, record)
  {
    StoreKeepsSound(w, p, records, record, clock, now);
  }

  lemma MergeUnites(w: World, maxNodes: int, records: Records, record: Record)
    requires MergeVerified(w, maxNodes, records, record).Ok?
    requires NodeId(record) in records && record.announcement.sequence == records[NodeId(record)].announcement.sequence
    ensures var c := Combined(records[NodeId(record)], record);
      && MergeVerified(w, maxNodes, records, record).value == records[NodeId(record) := c] && c.announcement == record.announcement
      && SameHash(w, records[NodeId(record)].announcement, record.announcement)
      && (UnionCarries(w, records, record) <==> Carries(records[NodeId(record)], record))
  {
  }

  lemma UnionSoundIff(w: World, p: Policy, records: Records, record: Record, clock: Time, now: Time)
    requires Sound(w, p, records, clock) && clock <= now && ValidRecord(w, p, record, now)
    requires NodeId(record) in records && SameHash(w, records[NodeId(record)].announcement, record.announcement)
    ensures var c := Combined(records[NodeId(record)], record);
      && (ValidRecord(w, p, c, now) <==> Carries(records[NodeId(record)], record))
      && (Carries(records[NodeId(record)], record) ==> Sound(w, p, records[NodeId(record) := c], now))
  {
    var existing := records[NodeId(record)];
    UnionValidIff(w, p, existing, record, clock, now);
    if Carries(existing, record) {
      StoreKeepsSound(w, p, records, Combined(existing, record), clock, now);
    }
  }

  lemma {:induction false} MergeAllKeepsSound(w: World, p: Policy, records: Records, rs: seq<Record>, clock: Time, now: Time)
    requires Sound(w, p, records, clock) && clock <= now && AllValid(w, p, rs, now)
    requires MergeAll(w, p.maxNodes, records, rs).Ok? && AllCarry(w, p.maxNodes, records, rs)
    ensures Sound(w, p, MergeAll(w, p.maxNodes, records, rs).value, now)
  {
    if rs == [] {
      LaterSound(w, p, records, clock, now);
    } else {
      var front := rs[..|rs| - 1];
      MergeAllKeepsSound(w, p, records, front, clock, now);
      MergeSoundIff(w, p, MergeAll(w, p.maxNodes, records, front).value, rs[|rs| - 1], now, now);
    }
  }

  lemma LaterSound(w: World, p: Policy, records: Records, clock: Time, later: Time)
    requires Sound(w, p, records, clock) && clock <= later
    ensures Sound(w, p, records, later)
  {
    forall id | id in records ensures Verified(w, p, records[id], later) {
      assert Verified(w, p, records[id], clock);
    }
  }

  lemma StepKeepsSound(w: World, p: Policy, records: Records, op: Op, clock: Time)
    requires Sound(w, p, records, clock) && clock <= op.now && OpCarries(w, p, records, op)
    ensures Sound(w, p, Step(w, p, records, op), op.now)
  {
    LaterSound(w, p, records, clock, op.now);
    match op
    case MergeOp(record, now) =>
      if Merged(w, p, records, record, now).Ok? {
        MergeSoundIff(w, p, records, record, clock, now);
      }
    case SnapshotOp(s, publisherId, now) =>
      if SnapshotMerged(w, p, records, s, publisherId, now).Ok? {
        MergeAllKeepsSound(w, p, records, s.records, clock, now);
      }
    case SweepOp(now) => SweepKeepsSound(w, p, records, now);
  }

  lemma SweepKeepsSound(w: World, p: Policy, records: Records, now: Time)
    requires Sound(w, p, records, now)
    ensures Sound(w, p, Unexpired(records, now), now)
  {
    SubsetSize(Unexpired(records, now).Keys, records.Keys);
  }

  lemma {:induction false} RunIsSound(w: World, p: Policy, ops: seq<Op>, clock: Time)
    requires WellFormedPolicy(p) && ClockedBy(ops, clock) && RunCarries(w, p, ops)
    ensures Sound(w, p, Run(w, p, ops), clock)
  {
    if ops != [] {
      var front, last := ops[..|ops| - 1], ops[|ops| - 1];
      RunIsSound(w, p, front, last.now);
      StepKeepsSound(w, p, Run(w, p, front), last, last.now);
      LaterSound(w, p, Run(w, p, ops), last.now, clock);
    }
  }

  /** Every record a registry reports as active verifies at that moment, after any run whose unions carried, and
      the registry never holds more than its node limit. */
  lemma ActiveRecordsVerify(w: World, p: Policy, ops: seq<Op>, now: Time)
    requires WellFormedPolicy(p) && ClockedBy(ops, now) && RunCarries(w, p, ops)
    ensures |Run(w, p, ops)| <= p.maxNodes && Keyed(Run(w, p, ops))
    ensures forall r :: r in Unexpired(Run(w, p, ops), now).Values ==> ValidRecord(w, p, r, now)
  {
    RunIsSound(w, p, ops, now);
    SoundIsActive(w, p, Run(w, p, ops), now);
  }

  // ---------- the condition is exact ----------

  /** A snapshot names each node once, so its last word on a node is the merge of that node's record. */
  lemma {:induction false} MergeAllAnnounces(w: World, maxNodes: int, records: Records, rs: seq<Record>, k: nat)
    requires DistinctNodes(rs) && MergeAll(w, maxNodes, records, rs).Ok? && k < |rs|
    ensures var m := MergeAll(w, maxNodes, records, rs).value;
      NodeId(rs[k]) in m && m[NodeId(rs[k])].announcement == rs[k].announcement
  {
    if k < |rs| - 1 {
      MergeAllAnnounces(w, maxNodes, records, rs[..|rs| - 1], k);
    }
  }

  ghost predicate Settled(w: World, p: Policy, m: Records, rs: seq<Record>, now: Time)
  {
    forall k :: 0 <= k < |rs| ==> NodeId(rs[k]) in m && ValidRecord(w, p, m[NodeId(rs[k])], now)
  }

  lemma SettledEarlier(w: World, p: Policy, records: Records, rs: seq<Record>, now: Time)
    requires rs != [] && DistinctNodes(rs) && MergeAll(w, p.maxNodes, records, rs).Ok?
    requires Settled(w, p, MergeAll(w, p.maxNodes, records, rs).value, rs, now)
    ensures Settled(w, p, MergeAll(w, p.maxNodes, records, rs[..|rs| - 1]).value, rs[..|rs| - 1], now)
  {
    var front := rs[..|rs| - 1];
    forall k | 0 <= k < |front|
      ensures var b := MergeAll(w, p.maxNodes, records, front).value; NodeId(front[k]) in b && ValidRecord(w, p, b[NodeId(front[k])], now)
    {
      MergeAllAnnounces(w, p.maxNodes, records, front, k);
      assert NodeId(rs[k]) != NodeId(rs[|rs| - 1]);
    }
  }

  lemma {:induction false} SettledCarries(w: World, p: Policy, records: Records, rs: seq<Record>, clock: Time, now: Time)
    requires Sound(w, p, records, clock) && clock <= now && AllValid(w, p, rs, now) && DistinctNodes(rs)
    requires MergeAll(w, p.maxNodes, records, rs).Ok? && Settled(w, p, MergeAll(w, p.maxNodes, records, rs).value, rs, now)
    ensures AllCarry(w, p.maxNodes, records, rs)
  {
    if rs != [] {
      var front, last := rs[..|rs| - 1], rs[|rs| - 1];
      SettledEarlier(w, p, records, rs, now);
      SettledCarries(w, p, records, front, clock, now);
      MergeAllKeepsSound(w, p, records, front, clock, now);
      MergeSoundIff(w, p, MergeAll(w, p.maxNodes, records, front).value, last, now, now);
    }
  }

  lemma ActiveCarries(w: World, p: Policy, records: Records, op: Op, clock: Time)
    requires Sound(w, p, records, clock) && clock <= op.now
    requires ActiveVerify(w, p, Step(w, p, records, op), op.now)
    ensures OpCarries(w, p, records, op)
  {
    match op
    case MergeOp(record, now) =>
      if Merged(w, p, records, record, now).Ok? {
        MergeSoundIff(w, p, records, record, clock, now);
      }
    case SnapshotOp(s, publisherId, now) =>
      if SnapshotMerged(w, p, records, s, publisherId, now).Ok? {
        SortedIsDistinct(s.records);
        SnapshotSettled(w, p, records, s.records, now);
        SettledCarries(w, p, records, s.records, clock, now);
      }
    case SweepOp(now) =>
  }

  lemma SnapshotSettled(w: World, p: Policy, records: Records, rs: seq<Record>, now: Time)
    requires DistinctNodes(rs) && AllValid(w, p, rs, now) && MergeAll(w, p.maxNodes, records, rs).Ok?
    requires ActiveVerify(w, p, MergeAll(w, p.maxNodes, records, rs).value, now)
    ensures Settled(w, p, MergeAll(w, p.maxNodes, records, rs).value, rs, now)
  {
    var m := MergeAll(w, p.maxNodes, records, rs).value;
    forall k | 0 <= k < |rs| ensures NodeId(rs[k]) in m && ValidRecord(w, p, m[NodeId(rs[k])], now) {
      MergeAllAnnounces(w, p.maxNodes, records, rs, k);
      assert ValidRecord(w, p, rs[k], now);
    }
  }

  /** After every operation of the run, what the registry reports as active verifies. */
  ghost predicate AlwaysActive(w: World, p: Policy, ops: seq<Op>)
  {
    forall k :: 0 < k <= |ops| ==> ActiveVerify(w, p, Run(w, p, ops[..k]), ops[k - 1].now)
  }

  lemma AlwaysActiveFront(w: World, p: Policy, ops: seq<Op>)
    requires ops != [] && AlwaysActive(w, p, ops)
    ensures AlwaysActive(w, p, ops[..|ops| - 1]) && ActiveVerify(w, p, Run(w, p, ops), ops[|ops| - 1].now)
  {
    var front := ops[..|ops| - 1];
    assert ops[..|ops|] == ops;
    forall k | 0 < k <= |front| ensures ActiveVerify(w, p, Run(w, p, front[..k]), front[k - 1].now) {
      assert front[..k] == ops[..k];
    }
  }

  /** Every prefix of a run reports only verifying records exactly when every union it made carried. */
  lemma {:induction false} AlwaysActiveIff(w: World, p: Policy, ops: seq<Op>, clock: Time)
    requires WellFormedPolicy(p) && ClockedBy(ops, clock)
    ensures AlwaysActive(w, p, ops) <==> RunCarries(w, p, ops)
  {
    if ops != [] {
      var front, last := ops[..|ops| - 1], ops[|ops| - 1];
      AlwaysActiveIff(w, p, front, last.now);
      if AlwaysActive(w, p, ops) {
        AlwaysActiveFront(w, p, ops);
        ActiveStepCarries(w, p, ops);
      }
      if RunCarries(w, p, ops) {
        CarriedStepActive(w, p, ops);
        AlwaysActiveBack(w, p, ops);
      }
    }
  }

  lemma ActiveStepCarries(w: World, p: Policy, ops: seq<Op>)
    requires WellFormedPolicy(p) && ops != [] && ClockedBy(ops, ops[|ops| - 1].now) && RunCarries(w, p, ops[..|ops| - 1])
    requires ActiveVerify(w, p, Run(w, p, ops), ops[|ops| - 1].now)
    ensures RunCarries(w, p, ops)
  {
    var front, last := ops[..|ops| - 1], ops[|ops| - 1];
    RunIsSound(w, p, front, last.now);
    ActiveCarries(w, p, Run(w, p, front), last, last.now);
  }

  lemma CarriedStepActive(w: World, p: Policy, ops: seq<Op>)
    requires WellFormedPolicy(p) && ops != [] && ClockedBy(ops, ops[|ops| - 1].now) && RunCarries(w, p, ops)
    ensures ActiveVerify(w, p, Run(w, p, ops), ops[|ops| - 1].now)
  {
    RunIsSound(w, p, ops, ops[|ops| - 1].now);
    SoundIsActive(w, p, Run(w, p, ops), ops[|ops| - 1].now);
  }

  lemma AlwaysActiveBack(w: World, p: Policy, ops: seq<Op>)
    requires ops != [] && AlwaysActive(w, p, ops[..|ops| - 1]) && ActiveVerify(w, p, Run(w, p, ops), ops[|ops| - 1].now)
    ensures AlwaysActive(w, p, ops)
  {
    var front := ops[..|ops| - 1];
    assert ops[..|ops|] == ops;
    forall k | 0 < k <= |ops| ensures ActiveVerify(w, p, Run(w, p, ops[..k]), ops[k - 1].now) {
      if k < |ops| {
        assert front[..k] == ops[..k] && front[k - 1] == ops[k - 1];
      }
    }
  }

  /** A run that ends with an active record which does not verify: a record and its shifted copy. */
  lemma ShiftBreaksRun(w: World, p: Policy, r: Record, now: Time, delta: int)
    requires WellFormedPolicy(p) && ValidRecord(w, p, r, now) && r.attestations != [] && Aligned(r.announcement.expiresAt)
    requires 0 < delta < MILLISECOND && r.announcement.expiresAt + delta - r.announcement.issuedAt <= MAX_LEASE
    ensures var records := Run(w, p, [MergeOp(r, now), MergeOp(Shifted(r, delta), now)]);
      && NodeId(r) in Unexpired(records, now) && !ValidRecord(w, p, records[NodeId(r)], now)
      && !RunCarries(w, p, [MergeOp(r, now), MergeOp(Shifted(r, delta), now)])
  {
    var s := Shifted(r, delta);
    var a, b := MergeOp(r, now), MergeOp(s, now);
    SubMillisecondShiftBreaksUnion(w, p, r, now, delta);
    assert [a][..0] == [] && [a, b][..1] == [a];
    var first := Run(w, p, [a]);
    assert first == Step(w, p, Run(w, p, []), a) == map[NodeId(r) := r];
    assert Run(w, p, [a, b]) == Step(w, p, first, b) == first[NodeId(r) := Combined(r, s)];
    CombinedValidIff(w, p, r, s, now, now);
  }

  // ---------- whole-millisecond leases carry ----------

  /** Announcements that share a digest are the same announcement. */
  ghost predicate Unambiguous(w: World, universe: set<Announcement>)
  {
    forall a, b | a in universe && b in universe :: SameHash(w, a, b) ==> a == b
  }

  ghost predicate Within(rs: seq<Record>, universe: set<Announcement>)
  {
    forall i :: 0 <= i < |rs| ==> rs[i].announcement in universe
  }

  /** Whole-millisecond leases without a SHA-256 collision are unambiguous: the encoders do the rest. */
  lemma AlignedIsUnambiguous(w: World, universe: set<Announcement>)
    requires forall a :: a in universe ==> BoundedAnnouncement(a) && Aligned(a.issuedAt) && Aligned(a.expiresAt)
    requires forall a, b :: a in universe && b in universe ==>
      NoCollision(w.sha256, AnnouncementPreimage(a), AnnouncementPreimage(b))
    ensures Unambiguous(w, universe)
  {
    forall a, b | a in universe && b in universe && SameHash(w, a, b) ensures a == b {
      assert NoCollision(w.sha256, AnnouncementPreimage(a), AnnouncementPreimage(b));
      PreimageInjective(a, b);
      AlignedDetermined(a.issuedAt, b.issuedAt);
      AlignedDetermined(a.expiresAt, b.expiresAt);
    }
  }

  ghost predicate Drawn(records: Records, universe: set<Announcement>)
  {
    forall id :: id in records ==> records[id].announcement in universe
  }

  lemma UnambiguousUnion(w: World, p: Policy, records: Records, record: Record, universe: set<Announcement>, clock: Time)
    requires Unambiguous(w, universe) && Drawn(records, universe) && record.announcement in universe && Sound(w, p, records, clock)
    ensures UnionCarries(w, records, record)
  {
    var id := NodeId(record);
    if id in records && records[id].announcement == record.announcement {
      assert Verified(w, p, records[id], clock);
      var before :| before <= clock && ValidRecord(w, p, records[id], before);
      forall t | t in records[id].attestations ensures record.announcement.issuedAt - MAX_CLOCK_SKEW <= t.observedAt {
        assert ValidAttestation(w, p, records[id].announcement, t, before);
      }
    }
  }

  lemma {:induction false} UnambiguousList(w: World, p: Policy, records: Records, rs: seq<Record>, universe: set<Announcement>, clock: Time, now: Time)
    requires Unambiguous(w, universe) && Drawn(records, universe) && Within(rs, universe)
    requires Sound(w, p, records, clock) && clock <= now && AllValid(w, p, rs, now) && MergeAll(w, p.maxNodes, records, rs).Ok?
    ensures AllCarry(w, p.maxNodes, records, rs) && Drawn(MergeAll(w, p.maxNodes, records, rs).value, universe)
  {
    if rs != [] {
      var front := rs[..|rs| - 1];
      UnambiguousList(w, p, records, front, universe, clock, now);
      MergeAllKeepsSound(w, p, records, front, clock, now);
      var m := MergeAll(w, p.maxNodes, records, front).value;
      UnambiguousUnion(w, p, m, rs[|rs| - 1], universe, now);
      DrawnNext(w, p.maxNodes, m, rs[|rs| - 1], universe);
    }
  }

  lemma DrawnNext(w: World, maxNodes: int, records: Records, record: Record, universe: set<Announcement>)
    requires Drawn(records, universe) && record.announcement in universe && MergeVerified(w, maxNodes, records, record).Ok?
    ensures Drawn(MergeVerified(w, maxNodes, records, record).value, universe)
  {
  }

  lemma UnambiguousStep(w: World, p: Policy, records: Records, op: Op, universe: set<Announcement>, clock: Time)
    requires Unambiguous(w, universe) && Drawn(records, universe) && Within(Received(op), universe)
    requires Sound(w, p, records, clock) && clock <= op.now
    ensures OpCarries(w, p, records, op) && Drawn(Step(w, p, records, op), universe)
  {
    match op
    case MergeOp(record, now) =>
      assert Received(op)[0] == record;
      UnambiguousUnion(w, p, records, record, universe, clock);
    case SnapshotOp(s, publisherId, now) =>
      if SnapshotMerged(w, p, records, s, publisherId, now).Ok? {
        UnambiguousList(w, p, records, s.records, universe, clock, now);
      }
    case SweepOp(now) =>
  }

  /** Where equal digests mean equal announcements, every union of the run carries. */
  lemma {:induction false} UnambiguousRunCarries(w: World, p: Policy, ops: seq<Op>, universe: set<Announcement>, clock: Time)
    requires WellFormedPolicy(p) && ClockedBy(ops, clock) && Unambiguous(w, universe)
    requires forall i :: 0 <= i < |ops| ==> Within(Received(ops[i]), universe)
    ensures RunCarries(w, p, ops) && Drawn(Run(w, p, ops), universe)
  {
    if ops != [] {
      var front, last := ops[..|ops| - 1], ops[|ops| - 1];
      UnambiguousRunCarries(w, p, front, universe, last.now);
      RunIsSound(w, p, front, last.now);
      UnambiguousStep(w, p, Run(w, p, front), last, universe, last.now);
    }
  }

  // ---------- sequences ----------

  /** Between sweeps a node's stored sequence never falls and no node is forgotten. */
  lemma {:induction false} SequenceNeverFalls(w: World, maxNodes: int, records: Records, rs: seq<Record>, id: Bytes)
    requires Keyed(records) && id in records && MergeAll(w, maxNodes, records, rs).Ok?
    ensures var m := MergeAll(w, maxNodes, records, rs).value;
      id in m && m[id].announcement.sequence >= records[id].announcement.sequence
  {
    if rs != [] {
      SequenceNeverFalls(w, maxNodes, records, rs[..|rs| - 1], id);
    }
  }

  lemma StepSequence(w: World, p: Policy, records: Records, op: Op, id: Bytes)
    requires Keyed(records) && id in records && !op.SweepOp?
    ensures id in Step(w, p, records, op)
    ensures Step(w, p, records, op)[id].announcement.sequence >= records[id].announcement.sequence
  {
    match op
    case MergeOp(record, now) =>
      if Merged(w, p, records, record, now).Ok? {
        assert MergeAll(w, p.maxNodes, records, [record][..0]) == Ok(records);
        SequenceNeverFalls(w, p.maxNodes, records, [record], id);
      }
    case SnapshotOp(s, publisherId, now) =>
      if SnapshotMerged(w, p, records, s, publisherId, now).Ok? {
        SequenceNeverFalls(w, p.maxNodes, records, s.records, id);
      }
  }

  lemma {:induction false} RunKeyed(w: World, p: Policy, ops: seq<Op>)
    ensures Keyed(Run(w, p, ops))
  {
    if ops != [] {
      RunKeyed(w, p, ops[..|ops| - 1]);
      var records, op := Run(w, p, ops[..|ops| - 1]), ops[|ops| - 1];
      if op.SnapshotOp? {
        MergeAllKeyed(w, p.maxNodes, records, op.snapshot.records);
      }
    }
  }

  lemma {:induction false} MergeAllKeyed(w: World, maxNodes: int, records: Records, rs: seq<Record>)
    requires Keyed(records)
    ensures MergeAll(w, maxNodes, records, rs).Ok? ==> Keyed(MergeAll(w, maxNodes, records, rs).value)
  {
    if rs != [] {
      MergeAllKeyed(w, maxNodes, records, rs[..|rs| - 1]);
    }
  }

  /** Over any stretch of a run without a sweep, failed operations included, a node known at its start stays
      known and its sequence never falls. */
  lemma {:induction false} RunSequence(w: World, p: Policy, ops: seq<Op>, k: nat, id: Bytes)
    requires k <= |ops| && id in Run(w, p, ops[..k])
    requires forall i :: k <= i < |ops| ==> !ops[i].SweepOp?
    ensures id in Run(w, p, ops)
    ensures Run(w, p, ops)[id].announcement.sequence >= Run(w, p, ops[..k])[id].announcement.sequence
    decreases |ops|
  {
    if k == |ops| {
      assert ops[..k] == ops;
    } else {
      var front := ops[..|ops| - 1];
      assert front[..k] == ops[..k];
      RunSequence(w, p, front, k, id);
      RunKeyed(w, p, front);
      StepSequence(w, p, Run(w, p, front), ops[|ops| - 1], id);
    }
  }

  // ---------- order independence ----------

  /** Separate merges, each of which either changes the registry or is refused. */
  function MergeEach(w: World, maxNodes: int, records: Records, rs: seq<Record>): Records
  {
    if rs == [] then records
    else
      var before := MergeEach(w, maxNodes, records, rs[..|rs| - 1]);
      var m := MergeVerified(w, maxNodes, before, rs[|rs| - 1]);
      if m.Ok? then m.value else before
  }

  function NodeIds(rs: set<Record>): set<Bytes>
  {
    set r | r in rs :: NodeId(r)
  }

  /** How announcements are told apart. */
  type Digest = Announcement -> Bytes

  function HashOf(w: World): Digest
  {
    (a: Announcement) => AnnouncementHash(w.sha256, a)
  }

  /** The code's own notion of the same announcement: one node, one sequence, one hash. */
  predicate SameLease(h: Digest, a: Announcement, b: Announcement)
  {
    a.identity.nodeId == b.identity.nodeId && a.sequence == b.sequence && h(a) == h(b)
  }

  /** No two records conflict in the sense of the merge: one node and one sequence mean one hash. */
  ghost predicate NoConflicts(h: Digest, rs: set<Record>)
  {
    forall r, q | r in rs && q in rs && NodeId(r) == NodeId(q) ::
      r.announcement.sequence == q.announcement.sequence ==> h(r.announcement) == h(q.announcement)
  }

  ghost predicate DistinctWithin(rs: set<Record>)
  {
    forall r :: r in rs ==> DistinctAuthorities(r.attestations)
  }

  /** All authorities that attested the lease `a` in any of the records. */
  function Attesters(h: Digest, rs: set<Record>, a: Announcement): set<Bytes>
  {
    set r, t | r in rs && SameLease(h, r.announcement, a) && t in r.attestations :: t.authorityId
  }

  predicate Knows(h: Digest, rs: set<Record>, a: Announcement)
  {
    exists r :: r in rs && SameLease(h, r.announcement, a)
  }

  /** What the registry must hold for one node after merging the set `rs`, whatever the order was:
      the highest lease, and an attestation from every authority that attested it. */
  ghost predicate Summary(h: Digest, e: Record, rs: set<Record>, id: Bytes)
  {
    && NodeId(e) == id && Knows(h, rs, e.announcement)
    && (forall r :: r in rs && NodeId(r) == id ==> r.announcement.sequence <= e.announcement.sequence)
    && DistinctAuthorities(e.attestations)
    && AuthorityIds(e.attestations) == Attesters(h, rs, e.announcement)
  }

  ghost predicate Summarises(h: Digest, records: Records, rs: set<Record>)
  {
    records.Keys == NodeIds(rs) && forall id :: id in records ==> Summary(h, records[id], rs, id)
  }

  lemma AttestersUnchanged(h: Digest, rs: set<Record>, r: Record, a: Announcement)
    requires !SameLease(h, r.announcement, a)
    ensures Attesters(h, rs + {r}, a) == Attesters(h, rs, a)
  {
  }

  lemma AttestersExtended(h: Digest, rs: set<Record>, r: Record, a: Announcement)
    requires SameLease(h, r.announcement, a)
    ensures Attesters(h, rs + {r}, a) == Attesters(h, rs, a) + AuthorityIds(r.attestations)
  {
  }

  lemma AttestersSame(h: Digest, rs: set<Record>, a: Announcement, b: Announcement)
    requires SameLease(h, a, b)
    ensures Attesters(h, rs, a) == Attesters(h, rs, b)
  {
  }

  /** An entry that the new record does not concern still summarises the larger set. */
  lemma EntryKept(h: Digest, e: Record, rs: set<Record>, id: Bytes, r: Record)
    requires Summary(h, e, rs, id) && (NodeId(r) != id || r.announcement.sequence < e.announcement.sequence)
    ensures Summary(h, e, rs + {r}, id)
  {
    var q :| q in rs && SameLease(h, q.announcement, e.announcement);
    assert q in rs + {r};
    AttestersUnchanged(h, rs, r, e.announcement);
  }

  lemma EntryReplaced(h: Digest, rs: set<Record>, r: Record)
    requires DistinctAuthorities(r.attestations)
    requires forall q :: q in rs && NodeId(q) == NodeId(r) ==> q.announcement.sequence < r.announcement.sequence
    ensures Summary(h, r, rs + {r}, NodeId(r))
  {
    assert r in rs + {r};
    AttestersExtended(h, rs, r, r.announcement);
    forall q | q in rs ensures !SameLease(h, q.announcement, r.announcement) {
      assert NodeId(q) != NodeId(r) || q.announcement.sequence < r.announcement.sequence;
    }
    assert Attesters(h, rs, r.announcement) == {};
  }

  lemma EntryCombined(h: Digest, e: Record, rs: set<Record>, r: Record)
    requires Summary(h, e, rs, NodeId(r)) && SameLease(h, e.announcement, r.announcement) && DistinctAuthorities(r.attestations)
    ensures Summary(h, Combined(e, r), rs + {r}, NodeId(r))
  {
    assert r in rs + {r};
    AttestersSame(h, rs, e.announcement, r.announcement);
    AttestersExtended(h, rs, r, r.announcement);
    UnionIs(r.attestations, e.attestations);
    UnionAuthorities(r.attestations, e.attestations);
  }

  lemma SummariseStored(h: Digest, records: Records, rs: set<Record>, r: Record, stored: Record)
    requires Summarises(h, records, rs) && Summary(h, stored, rs + {r}, NodeId(r))
    ensures Summarises(h, records[NodeId(r) := stored], rs + {r})
  {
    assert NodeIds(rs + {r}) == NodeIds(rs) + {NodeId(r)};
    forall k | k in records && k != NodeId(r) ensures Summary(h, records[k], rs + {r}, k) {
      EntryKept(h, records[k], rs, k, r);
    }
  }

  lemma FreshNode(h: Digest, records: Records, rs: set<Record>, r: Record)
    requires Summarises(h, records, rs) && NodeId(r) !in records
    ensures forall q :: q in rs ==> NodeId(q) != NodeId(r)
  {
    forall q | q in rs ensures NodeId(q) != NodeId(r) {
      assert NodeId(q) in NodeIds(rs);
    }
  }

  lemma RoomForNode(h: Digest, records: Records, rs: set<Record>, r: Record, maxNodes: int)
    requires Summarises(h, records, rs) && NodeId(r) !in records && |NodeIds(rs + {r})| <= maxNodes
    ensures |records| < maxNodes
  {
    assert NodeIds(rs + {r}) == NodeIds(rs) + {NodeId(r)};
    AddedSize(NodeIds(rs), NodeId(r));
    MapSize(records);
  }

  lemma SameSequenceSameLease(h: Digest, records: Records, rs: set<Record>, r: Record)
    requires Summarises(h, records, rs) && NoConflicts(h, rs + {r}) && NodeId(r) in records
    requires r.announcement.sequence == records[NodeId(r)].announcement.sequence
    ensures SameLease(h, records[NodeId(r)].announcement, r.announcement)
  {
    assert Summary(h, records[NodeId(r)], rs, NodeId(r));
    var q :| q in rs && SameLease(h, q.announcement, records[NodeId(r)].announcement);
    assert q in rs + {r} && r in rs + {r};
  }

  /** The record that merging `r` leaves under its node ID. */
  function StoredAfter(records: Records, r: Record): Record
  {
    var id := NodeId(r);
    if id !in records || r.announcement.sequence > records[id].announcement.sequence then r
    else if r.announcement.sequence == records[id].announcement.sequence then Combined(records[id], r)
    else records[id]
  }

  lemma StoredSummarises(h: Digest, records: Records, rs: set<Record>, r: Record)
    requires Summarises(h, records, rs) && NoConflicts(h, rs + {r}) && DistinctAuthorities(r.attestations)
    ensures Summary(h, StoredAfter(records, r), rs + {r}, NodeId(r))
  {
    var id := NodeId(r);
    if id !in records {
      FreshNode(h, records, rs, r);
      EntryReplaced(h, rs, r);
    } else {
      assert Summary(h, records[id], rs, id);
      if r.announcement.sequence > records[id].announcement.sequence {
        EntryReplaced(h, rs, r);
      } else if r.announcement.sequence == records[id].announcement.sequence {
        SameSequenceSameLease(h, records, rs, r);
        EntryCombined(h, records[id], rs, r);
      } else {
        EntryKept(h, records[id], rs, id, r);
      }
    }
  }

  lemma MergeStores(w: World, maxNodes: int, records: Records, rs: set<Record>, r: Record)
    requires Summarises(HashOf(w), records, rs) && NoConflicts(HashOf(w), rs + {r}) && |NodeIds(rs + {r})| <= maxNodes
    ensures var m := MergeVerified(w, maxNodes, records, r);
      (if m.Ok? then m.value else records) == records[NodeId(r) := StoredAfter(records, r)]
  {
    var id := NodeId(r);
    if id !in records {
      RoomForNode(HashOf(w), records, rs, r, maxNodes);
    } else if r.announcement.sequence == records[id].announcement.sequence {
      SameSequenceSameLease(HashOf(w), records, rs, r);
    } else {
      assert records[id := records[id]] == records;
    }
  }

  lemma SummariseStep(w: World, maxNodes: int, records: Records, rs: set<Record>, r: Record)
    requires Summarises(HashOf(w), records, rs) && NoConflicts(HashOf(w), rs + {r}) && DistinctAuthorities(r.attestations)
    requires |NodeIds(rs + {r})| <= maxNodes
    ensures var m := MergeVerified(w, maxNodes, records, r);
      Summarises(HashOf(w), if m.Ok? then m.value else records, rs + {r})
  {
    StoredSummarises(HashOf(w), records, rs, r);
    SummariseStored(HashOf(w), records, rs, r, StoredAfter(records, r));
    MergeStores(w, maxNodes, records, rs, r);
  }

  /** From a registry that summarises what it was given, separate merges lead to one that summarises the rest too. */
  lemma {:induction false} MergeEachSummarises(w: World, maxNodes: int, records: Records, base: set<Record>, rs: seq<Record>)
    requires Summarises(HashOf(w), records, base) && NoConflicts(HashOf(w), base + Elements(rs)) && DistinctWithin(Elements(rs))
    requires |NodeIds(base + Elements(rs))| <= maxNodes
    ensures Summarises(HashOf(w), MergeEach(w, maxNodes, records, rs), base + Elements(rs))
  {
    if rs == [] {
      assert base + Elements(rs) == base;
    } else {
      var front, last := rs[..|rs| - 1], rs[|rs| - 1];
      assert rs == front + [last];
      var known := base + Elements(front);
      assert base + Elements(rs) == known + {last};
      assert NodeIds(known) <= NodeIds(base + Elements(rs));
      SubsetSize(NodeIds(known), NodeIds(base + Elements(rs)));
      MergeEachSummarises(w, maxNodes, records, base, front);
      SummariseStep(w, maxNodes, MergeEach(w, maxNodes, records, front), known, last);
    }
  }

  lemma SummaryUnique(h: Digest, e: Record, f: Record, rs: set<Record>, id: Bytes)
    requires NoConflicts(h, rs) && Summary(h, e, rs, id) && Summary(h, f, rs, id)
    ensures SameEntry(h, e, f)
  {
    var r :| r in rs && SameLease(h, r.announcement, e.announcement);
    var q :| q in rs && SameLease(h, q.announcement, f.announcement);
    assert NodeId(r) == NodeId(q) == id;
    assert h(r.announcement) == h(q.announcement);
    AttestersSame(h, rs, e.announcement, f.announcement);
  }

  /** Entries of one lease with the same attesting authorities. */
  ghost predicate SameEntry(h: Digest, e: Record, f: Record)
  {
    SameLease(h, e.announcement, f.announcement) && AuthorityIds(e.attestations) == AuthorityIds(f.attestations)
  }

  /** Both registries know exactly these nodes, and agree on each. */
  ghost predicate SameRegistry(h: Digest, x: Records, y: Records, ids: set<Bytes>)
  {
    x.Keys == y.Keys == ids && forall id :: id in x ==> SameEntry(h, x[id], y[id])
  }

  /** Merging the same records in any order, with any repetitions, into registries that summarise the same
      records, ends with the same lease per node and the same attesting authorities. */
  lemma OrderDoesNotMatter(w: World, maxNodes: int, m: Records, n: Records, base: set<Record>, rs: seq<Record>, qs: seq<Record>)
    requires Summarises(HashOf(w), m, base) && Summarises(HashOf(w), n, base) && Elements(rs) == Elements(qs)
    requires NoConflicts(HashOf(w), base + Elements(rs)) && DistinctWithin(Elements(rs)) && |NodeIds(base + Elements(rs))| <= maxNodes
    ensures SameRegistry(HashOf(w), MergeEach(w, maxNodes, m, rs), MergeEach(w, maxNodes, n, qs), NodeIds(base + Elements(rs)))
  {
    MergeEachSummarises(w, maxNodes, m, base, rs);
    MergeEachSummarises(w, maxNodes, n, base, qs);
    SummariesAgree(HashOf(w), MergeEach(w, maxNodes, m, rs), MergeEach(w, maxNodes, n, qs), base + Elements(rs));
  }

  lemma SummariesAgree(h: Digest, x: Records, y: Records, rs: set<Record>)
    requires NoConflicts(h, rs) && Summarises(h, x, rs) && Summarises(h, y, rs)
    ensures SameRegistry(h, x, y, NodeIds(rs))
  {
    forall id | id in x ensures SameEntry(h, x[id], y[id]) {
      SummaryUnique(h, x[id], y[id], rs, id);
    }
  }

  /** Entries of one lease agree in every field and in their signature, up to the millisecond, unless they are a SHA-256
      collision. */
  lemma SameLeaseUpToMillis(w: World, a: Announcement, b: Announcement)
    requires BoundedAnnouncement(a) && BoundedAnnouncement(b) && SameLease(HashOf(w), a, b)
    requires NoCollision(w.sha256, AnnouncementPreimage(a), AnnouncementPreimage(b))
    ensures SameSignedAnnouncement(a, b)
  {
    PreimageInjective(a, b);
  }

  /** A snapshot that merges without error leaves what merging its records one by one leaves, whatever the
      registry held before. */
  lemma {:induction false} SnapshotIsFold(w: World, maxNodes: int, records: Records, rs: seq<Record>)
    requires MergeAll(w, maxNodes, records, rs).Ok?
    ensures MergeAll(w, maxNodes, records, rs).value == MergeEach(w, maxNodes, records, rs)
  {
    if rs != [] {
      SnapshotIsFold(w, maxNodes, records, rs[..|rs| - 1]);
    }
  }
}
