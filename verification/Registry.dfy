/** The node registry: merging, snapshots, expiry (nodedir/registry.go). */
module Registry {
  import opened Bytes
  import opened Identities
  import opened Directory
  import opened Admission
  import opened Sorting

  datatype Failure = InvalidRecord | RegistryFull | SequenceRollback | SequenceConflict | InvalidSnapshot

  datatype Result<+T> = Ok(value: T) | Err(error: Failure)

  type Records = map<Bytes, Record>

  function NodeId(r: Record): Bytes
  {
    r.announcement.identity.nodeId
  }

  /** The newly received record, carrying the stored attestations of the same announcement as well. */
  function Combined(existing: Record, record: Record): Record
  {
    record.(attestations := Union(record.attestations, existing.attestations))
  }

  function MergeVerified(w: World, maxNodes: int, records: Records, record: Record): Result<Records>
  {
    var id := NodeId(record);
    if id !in records then
      if |records| >= maxNodes then Err(RegistryFull) else Ok(records[id := record])
    else
      var existing := records[id];
      if record.announcement.sequence < existing.announcement.sequence then Err(SequenceRollback)
      else if record.announcement.sequence > existing.announcement.sequence then Ok(records[id := record])
      else if AnnouncementHash(w.sha256, record.announcement) != AnnouncementHash(w.sha256, existing.announcement)
      then Err(SequenceConflict)
      else Ok(records[id := Combined(existing, record)])
  }

  /** Merging a whole list, stopping at the first error. */
  function MergeAll(w: World, maxNodes: int, records: Records, rs: seq<Record>): Result<Records>
  {
    if rs == [] then Ok(records)
    else
      var front := MergeAll(w, maxNodes, records, rs[..|rs| - 1]);
      if front.Err? then front else MergeVerified(w, maxNodes, front.value, rs[|rs| - 1])
  }

  ghost function Merged(w: World, p: Policy, records: Records, record: Record, now: Time): Result<Records>
  {
    if ValidRecord(w, p, record, now) then MergeVerified(w, p.maxNodes, records, record) else Err(InvalidRecord)
  }

  ghost predicate UniquelySorted(rs: seq<Record>)
  {
    forall i :: 0 < i < |rs| ==> Less(NodeId(rs[i - 1]), NodeId(rs[i]))
  }

  function EffectiveLimit(maxNodes: int): int
  {
    if maxNodes <= 0 || maxNodes > MAX_DIRECTORY_NODES then MAX_DIRECTORY_NODES else maxNodes
  }

  ghost predicate ValidSnapshotHeader(w: World, s: Snapshot, publisherId: Bytes, now: Time, maxNodes: int)
  {
    && s.version == PROTOCOL_VERSION && |s.records| <= EffectiveLimit(maxNodes)
    && w.validIdentity(s.publisher) && s.publisher.nodeId == publisherId
    && now - MAX_CLOCK_SKEW <= s.generatedAt <= now + MAX_CLOCK_SKEW
    && UniquelySorted(s.records)
    && w.verify(s.publisher, SnapshotDomain, SnapshotBytes(s), s.signature)
  }

  ghost predicate AllValid(w: World, p: Policy, rs: seq<Record>, now: Time)
  {
    forall i :: 0 <= i < |rs| ==> ValidRecord(w, p, rs[i], now)
  }

  ghost function SnapshotMerged(w: World, p: Policy, records: Records, s: Snapshot, publisherId: Bytes, now: Time): Result<Records>
  {
    if !ValidSnapshotHeader(w, s, publisherId, now, p.maxNodes) then Err(InvalidSnapshot)
    else if !AllValid(w, p, s.records, now) then Err(InvalidRecord)
    else MergeAll(w, p.maxNodes, records, s.records)
  }

  function Unexpired(records: Records, now: Time): Records
  {
    map id | id in records && now < records[id].announcement.expiresAt :: records[id]
  }

  predicate RecordLess(r: Record, q: Record)
  {
    Less(NodeId(r), NodeId(q))
  }

  lemma RecordOrder()
    ensures StrictWeakOrder(RecordLess)
  {
    forall x: Record, y: Record | RecordLess(x, y) ensures !RecordLess(y, x) {
      LessTotal(NodeId(x), NodeId(y));
    }
    forall x: Record, y: Record, z: Record | !RecordLess(x, y) && !RecordLess(y, z) ensures !RecordLess(x, z) {
      LessTotal(NodeId(x), NodeId(y));
      LessTotal(NodeId(y), NodeId(z));
      LessTotal(NodeId(x), NodeId(z));
      if RecordLess(y, x) && RecordLess(z, y) {
        LessTransitive(NodeId(z), NodeId(y), NodeId(x));
      }
    }
  }

  method MergeVerifiedRecord(w: World, maxNodes: int, records: Records, record: Record) returns (r: Result<Records>)
    ensures r == MergeVerified(w, maxNodes, records, record)
  {
    var id := NodeId(record);
    if id !in records && |records| >= maxNodes {
      return Err(RegistryFull);
    }
    var stored := record;
    if id in records {
      var existing := records[id];
      if record.announcement.sequence < existing.announcement.sequence {
        return Err(SequenceRollback);
      }
      if record.announcement.sequence == existing.announcement.sequence {
        if AnnouncementHash(w.sha256, record.announcement) != AnnouncementHash(w.sha256, existing.announcement) {
          return Err(SequenceConflict);
        }
        var es := existing.attestations;
        for i := 0 to |es|
          invariant stored == record.(attestations := Union(record.attestations, es[..i]))
        {
          assert es[..i + 1][..i] == es[..i];
          stored := stored.(attestations := AppendAttestation(stored.attestations, es[i]));
        }
        assert es[..|es|] == es;
      }
    }
    return Ok(records[id := stored]);
  }

  method VerifySnapshotHeader(w: World, s: Snapshot, publisherId: Bytes, now: Time, maxNodes: int) returns (ok: bool)
    ensures ok <==> ValidSnapshotHeader(w, s, publisherId, now, maxNodes)
  {
    var limit := maxNodes;
    if limit <= 0 || limit > MAX_DIRECTORY_NODES {
      limit := MAX_DIRECTORY_NODES;
    }
    if s.version != PROTOCOL_VERSION || |s.records| > limit || !w.validIdentity(s.publisher) ||
       s.publisher.nodeId != publisherId || s.generatedAt < now - MAX_CLOCK_SKEW || s.generatedAt > now + MAX_CLOCK_SKEW {
      return false;
    }
    var i := 1;
    while i < |s.records|
      invariant 1 <= i
      invariant forall k :: 0 < k < i && k < |s.records| ==> Less(NodeId(s.records[k - 1]), NodeId(s.records[k]))
    {
      if !Less(NodeId(s.records[i - 1]), NodeId(s.records[i])) {
        return false;
      }
      i := i + 1;
    }
    return w.verify(s.publisher, SnapshotDomain, SnapshotBytes(s), s.signature);
  }

  method VerifyAll(w: World, p: Policy, rs: seq<Record>, now: Time) returns (ok: bool)
    ensures ok <==> AllValid(w, p, rs, now)
  {
    for i := 0 to |rs|
      invariant forall k :: 0 <= k < i ==> ValidRecord(w, p, rs[k], now)
    {
      ok := VerifyRecord(w, p, rs[i], now);
      if !ok {
        return false;
      }
    }
    return true;
  }

  /** Merges into a copy, giving up at the first error. */
  method MergeInto(w: World, maxNodes: int, records: Records, rs: seq<Record>) returns (r: Result<Records>)
    ensures r == MergeAll(w, maxNodes, records, rs)
  {
    var updated := records;
    for i := 0 to |rs|
      invariant MergeAll(w, maxNodes, records, rs[..i]) == Ok(updated)
    {
      assert rs[..i + 1][..i] == rs[..i];
      var m := MergeVerifiedRecord(w, maxNodes, updated, rs[i]);
      if m.Err? {
        MergeAllStopsAt(w, maxNodes, records, rs, i, m.error);
        return m;
      }
      updated := m.value;
    }
    assert rs[..|rs|] == rs;
    return Ok(updated);
  }

  /** The mutable registry. Every operation is the corresponding function of the old records. */
  class NodeRegistry {
    const w: World
    const policy: Policy
    var records: Records

    constructor (w: World, policy: Policy)
      ensures this.w == w && this.policy == policy && records == map[]
    {
      this.w := w;
      this.policy := policy;
      records := map[];
    }

    method Merge(record: Record, now: Time) returns (r: Result<()>)
      modifies this
      ensures var m := Merged(w, policy, old(records), record, now);
        if m.Ok? then r == Ok(()) && records == m.value else r == Err(m.error) && records == old(records)
    {
      var ok := VerifyRecord(w, policy, record, now);
      if !ok {
        return Err(InvalidRecord);
      }
      var m := MergeVerifiedRecord(w, policy.maxNodes, records, record);
      if m.Err? {
        return Err(m.error);
      }
      records := m.value;
      return Ok(());
    }

    /** All or nothing: the copied map replaces the registry only after the last record merged. */
    method MergeSnapshot(s: Snapshot, publisherId: Bytes, now: Time) returns (r: Result<()>)
      modifies this
      ensures var m := SnapshotMerged(w, policy, old(records), s, publisherId, now);
        if m.Ok? then r == Ok(()) && records == m.value else r == Err(m.error) && records == old(records)
    {
      var ok := VerifySnapshotHeader(w, s, publisherId, now, policy.maxNodes);
      if !ok {
        return Err(InvalidSnapshot);
      }
      ok := VerifyAll(w, policy, s.records, now);
      if !ok {
        return Err(InvalidRecord);
      }
      var updated := MergeInto(w, policy.maxNodes, records, s.records);
      if updated.Err? {
        return Err(updated.error);
      }
      records := updated.value;
      return Ok(());
    }

    /** The unexpired records, each once, in strict node-ID order. */
    method Active(now: Time) returns (rs: seq<Record>)
      requires Keyed(records)
      ensures UniquelySorted(rs)
      ensures forall r :: r in rs <==> r in Unexpired(records, now).Values
      ensures |rs| == |Unexpired(records, now)|
    {
      var collected: seq<Record> := [];
      var ids := records.Keys;
      ghost var kept: set<Bytes> := {};
      while ids != {}
        invariant ids <= records.Keys
        invariant kept == set id | id in records && id !in ids && now < records[id].announcement.expiresAt
        invariant forall r :: r in collected <==> NodeId(r) in kept && records[NodeId(r)] == r
        invariant DistinctNodes(collected) && |collected| == |kept|
        decreases ids
      {
        var id :| id in ids;
        ids := ids - {id};
        if now < records[id].announcement.expiresAt {
          collected := collected + [records[id]];
          kept := kept + {id};
        }
      }
      assert kept == Unexpired(records, now).Keys;
      RecordOrder();
      rs := SortSlice(collected, RecordLess);
      SortedStrictly(collected, rs);
      SameElements(collected, rs);
    }

    method Sweep(now: Time) returns (removed: nat)
      modifies this
      ensures records == Unexpired(old(records), now)
      ensures removed == |old(records)| - |records|
    {
      removed := 0;
      var ids := records.Keys;
      while ids != {}
        invariant ids <= old(records).Keys
        invariant ids <= records.Keys <= old(records).Keys
        invariant forall id :: id in records ==> records[id] == old(records)[id]
        invariant forall id :: id in old(records) && id !in ids ==>
          (id in records <==> now < old(records)[id].announcement.expiresAt)
        invariant removed == |old(records)| - |records|
        decreases ids
      {
        var id :| id in ids;
        if records[id].announcement.expiresAt <= now {
          assert (records - {id}).Keys == records.Keys - {id};
          records := records - {id};
          removed := removed + 1;
        }
        ids := ids - {id};
      }
      assert records == Unexpired(old(records), now);
    }
  }

  /** Every record is stored under its own node ID. */
  ghost predicate Keyed(records: Records)
  {
    forall id :: id in records ==> NodeId(records[id]) == id
  }

  ghost predicate DistinctNodes(rs: seq<Record>)
  {
    forall i, j :: 0 <= i < j < |rs| ==> NodeId(rs[i]) != NodeId(rs[j])
  }

  lemma SortedStrictly(s: seq<Record>, rs: seq<Record>)
    requires DistinctNodes(s) && multiset(s) == multiset(rs) && Ordered(rs, RecordLess)
    ensures UniquelySorted(rs)
  {
    SameElements(s, rs);
    PermutationDistinct(s, rs);
    forall i | 0 < i < |rs| ensures Less(NodeId(rs[i - 1]), NodeId(rs[i])) {
      assert rs[i - 1] in s && rs[i] in s;
      LessTotal(NodeId(rs[i - 1]), NodeId(rs[i]));
    }
  }

  lemma {:induction false} MergeAllStopsAt(w: World, maxNodes: int, records: Records, rs: seq<Record>, i: nat, e: Failure)
    requires i < |rs| && MergeAll(w, maxNodes, records, rs[..i + 1]) == Err(e)
    ensures MergeAll(w, maxNodes, records, rs) == Err(e)
    decreases |rs| - i
  {
    if i + 1 == |rs| {
      assert rs[..i + 1] == rs;
    } else {
      assert rs[..i + 2][..i + 1] == rs[..i + 1];
      MergeAllStopsAt(w, maxNodes, records, rs, i + 1, e);
    }
  }

  lemma {:induction false} StrictFurther(rs: seq<Record>, i: nat, j: nat)
    requires UniquelySorted(rs) && i < j < |rs|
    ensures Less(NodeId(rs[i]), NodeId(rs[j]))
  {
    if i + 1 < j {
      StrictFurther(rs, i, j - 1);
      LessTransitive(NodeId(rs[i]), NodeId(rs[j - 1]), NodeId(rs[j]));
    }
  }

  lemma SortedIsDistinct(rs: seq<Record>)
    requires UniquelySorted(rs)
    ensures DistinctNodes(rs)
  {
    forall i, j | 0 <= i < j < |rs| ensures NodeId(rs[i]) != NodeId(rs[j]) {
      StrictFurther(rs, i, j);
      LessTotal(NodeId(rs[i]), NodeId(rs[j]));
    }
  }
}
