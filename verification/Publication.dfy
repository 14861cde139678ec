/** Publishing a registry as a signed snapshot (nodedir/registry.go). */
module Publication {
  import opened Bytes
  import opened Identities
  import opened Directory
  import opened Admission
  import opened Sorting
  import opened Registry
  import opened RegistryRuns
  import Agents

  const NO_SIGNATURE := Signature([], [])

  function Unsigned(publisher: Identity, records: seq<Record>, now: Time): Snapshot
  {
    Snapshot(PROTOCOL_VERSION, publisher, Agents.TruncatedMillis(now), records, NO_SIGNATURE)
  }

  /** The records are signed in node-ID order; a list that names a node twice is refused. */
  method SignSnapshot(publisher: Identity, sign: Bytes -> Signature, records: seq<Record>, now: Time) returns (r: Option<Snapshot>)
    ensures r.Some? <==> now != ZERO_TIME && |records| <= MAX_DIRECTORY_NODES && DistinctNodes(records)
    ensures r.Some? ==>
      && UniquelySorted(r.value.records) && multiset(r.value.records) == multiset(records)
      && r.value == Unsigned(publisher, r.value.records, now).(signature := r.value.signature)
      && r.value.signature == sign(SnapshotBytes(r.value))
  {
    if now == ZERO_TIME || |records| > MAX_DIRECTORY_NODES {
      return None;
    }
    RecordOrder();
    var sorted := SortSlice(records, RecordLess);
    var i := 1;
    while i < |sorted|
      invariant 1 <= i
      invariant forall k :: 0 < k < i && k < |sorted| ==> NodeId(sorted[k - 1]) != NodeId(sorted[k])
    {
      if NodeId(sorted[i - 1]) == NodeId(sorted[i]) {
        Neighbours(records, sorted, i);
        return None;
      }
      i := i + 1;
    }
    StrictlySorted(sorted);
    PermutationKeepsDistinct(sorted, records);
    var s := Unsigned(publisher, sorted, now);
    assert SnapshotBytes(s.(signature := sign(SnapshotBytes(s)))) == SnapshotBytes(s);
    return Some(s.(signature := sign(SnapshotBytes(s))));
  }

  lemma StrictlySorted(rs: seq<Record>)
    requires Ordered(rs, RecordLess) && forall k :: 0 < k < |rs| ==> NodeId(rs[k - 1]) != NodeId(rs[k])
    ensures UniquelySorted(rs)
  {
    forall k | 0 < k < |rs| ensures Less(NodeId(rs[k - 1]), NodeId(rs[k])) {
      LessTotal(NodeId(rs[k - 1]), NodeId(rs[k]));
    }
  }

  lemma PermutationKeepsDistinct(sorted: seq<Record>, records: seq<Record>)
    requires UniquelySorted(sorted) && multiset(sorted) == multiset(records)
    ensures DistinctNodes(records)
  {
    SortedIsDistinct(sorted);
    PermutationDistinct(sorted, records);
    SameElements(sorted, records);
    forall i, j | 0 <= i < j < |records| ensures NodeId(records[i]) != NodeId(records[j]) {
      assert records[i] in sorted && records[j] in sorted;
    }
  }

  /** Two equal neighbours after sorting are two records of one node before it. */
  lemma Neighbours(records: seq<Record>, sorted: seq<Record>, i: nat)
    requires multiset(sorted) == multiset(records) && 0 < i < |sorted| && NodeId(sorted[i - 1]) == NodeId(sorted[i])
    ensures !DistinctNodes(records)
  {
    SameElements(records, sorted);
    assert sorted[i - 1] in records && sorted[i] in records;
    if DistinctNodes(records) {
      PermutationDistinct(records, sorted);
    }
  }

  // ---------- what a reader of the snapshot ends up with ----------

  /** The map holds exactly the listed records. */
  ghost predicate Stores(m: Records, rs: seq<Record>)
  {
    && |m| == |rs| && Keyed(m)
    && (forall r :: r in rs ==> NodeId(r) in m && m[NodeId(r)] == r)
    && (forall id :: id in m ==> m[id] in rs)
  }

  lemma StoresOneMore(m: Records, rs: seq<Record>)
    requires rs != [] && DistinctNodes(rs) && Stores(m, rs[..|rs| - 1])
    ensures var r := rs[|rs| - 1]; NodeId(r) !in m && Stores(m[NodeId(r) := r], rs)
  {
    var r := rs[|rs| - 1];
    assert rs == rs[..|rs| - 1] + [r];
    assert forall id :: id in m ==> NodeId(m[id]) != NodeId(r);
    MapUpdateSize(m, NodeId(r), r);
  }

  lemma MergeOneMore(w: World, maxNodes: int, rs: seq<Record>, m: Records)
    requires rs != [] && MergeAll(w, maxNodes, map[], rs[..|rs| - 1]) == Ok(m)
    requires NodeId(rs[|rs| - 1]) !in m && |m| < maxNodes
    ensures MergeAll(w, maxNodes, map[], rs) == Ok(m[NodeId(rs[|rs| - 1]) := rs[|rs| - 1]])
  {
  }

  /** Merging records of distinct nodes into an empty registry stores each of them. */
  lemma {:induction false} MergeDistinct(w: World, maxNodes: int, rs: seq<Record>) returns (m: Records)
    requires DistinctNodes(rs) && |rs| <= maxNodes
    ensures MergeAll(w, maxNodes, map[], rs) == Ok(m) && Stores(m, rs)
  {
    if rs == [] {
      m := map[];
    } else {
      var front, last := rs[..|rs| - 1], rs[|rs| - 1];
      var before := MergeDistinct(w, maxNodes, front);
      StoresOneMore(before, rs);
      MergeOneMore(w, maxNodes, rs, before);
      m := before[NodeId(last) := last];
    }
  }

  lemma StoresAll(m: Records, rs: seq<Record>, active: Records)
    requires Stores(m, rs) && Keyed(active) && forall r :: r in rs <==> r in active.Values
    ensures m == active
  {
    forall id | id in active ensures id in m && m[id] == active[id] {
      assert active[id] in active.Values;
    }
    forall id | id in m ensures id in active {
      assert m[id] in active.Values;
    }
  }

  /** A published registry arrives whole: at a reader with the same policy and a clock within the allowed skew, a
      snapshot of the active records replaces an empty registry by exactly the publisher's unexpired records. */
  lemma SnapshotTransfers(w: World, p: Policy, records: Records, s: Snapshot, publishedAt: Time, readAt: Time)
    requires WellFormedPolicy(p) && Keyed(records) && |records| <= p.maxNodes
    requires w.validIdentity(s.publisher) && w.verify(s.publisher, SnapshotDomain, SnapshotBytes(s), s.signature)
    requires s.version == PROTOCOL_VERSION && s.generatedAt == Agents.TruncatedMillis(publishedAt)
    requires UniquelySorted(s.records) && |s.records| == |Unexpired(records, publishedAt)|
    requires forall r :: r in s.records <==> r in Unexpired(records, publishedAt).Values
    requires readAt - MAX_CLOCK_SKEW <= s.generatedAt <= readAt + MAX_CLOCK_SKEW
    requires forall r :: r in Unexpired(records, publishedAt).Values ==> ValidRecord(w, p, r, readAt)
    ensures SnapshotMerged(w, p, map[], s, s.publisher.nodeId, readAt) == Ok(Unexpired(records, publishedAt))
  {
    var active := Unexpired(records, publishedAt);
    MapSize(active);
    MapSize(records);
    SubsetSize(active.Keys, records.Keys);
    SortedIsDistinct(s.records);
    var m := MergeDistinct(w, p.maxNodes, s.records);
    StoresAll(m, s.records, active);
    forall i | 0 <= i < |s.records| ensures ValidRecord(w, p, s.records[i], readAt) {
      assert s.records[i] in s.records;
    }
  }

  /** After any run whose unions carried, the snapshot of a registry at the current moment is accepted and
      arrives whole. */
  lemma RunTransfers(w: World, p: Policy, ops: seq<Op>, s: Snapshot, now: Time)
    requires WellFormedPolicy(p) && ClockedBy(ops, now) && RunCarries(w, p, ops)
    requires w.validIdentity(s.publisher) && w.verify(s.publisher, SnapshotDomain, SnapshotBytes(s), s.signature)
    requires s.version == PROTOCOL_VERSION && s.generatedAt == Agents.TruncatedMillis(now)
    requires UniquelySorted(s.records) && |s.records| == |Unexpired(Run(w, p, ops), now)|
    requires forall r :: r in s.records <==> r in Unexpired(Run(w, p, ops), now).Values
    ensures SnapshotMerged(w, p, map[], s, s.publisher.nodeId, now) == Ok(Unexpired(Run(w, p, ops), now))
  {
    ActiveRecordsVerify(w, p, ops, now);
    SnapshotTransfers(w, p, Run(w, p, ops), s, now, now);
  }
}
