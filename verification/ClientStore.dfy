/** The encrypted client store: budgets, protected records and eviction (client/store.go). */
module ClientStore {
  import opened Bytes
  import opened Identities
  import opened Sorting
  import opened Totals

  const STORE_VERSION: Byte := 1
  const MAX_STORE_BYTES := 10 * 1024 * 1024 * 1024
  const MIN_STORE_BYTES := 64 * 1024
  const MAX_PAYLOAD_BYTES := 4 * 1024 * 1024
  const MAX_RECORDS := 262_144
  const MAX_FILE_BYTES := 6 * 1024 * 1024
  const ACCOUNTING_OVERHEAD := 4 * 1024

  datatype PrunePolicy = PruneNever | PruneOldest | PruneAfterExpiry | UnknownPolicy

  datatype Kind =
    | Delivery | Inbox | Outbox | FileCache | Replay | GroupState | DeviceEvent | Reputation | UnknownKind

  datatype LocalRecord = LocalRecord(
    version: Byte, id: Bytes, kind: Kind, createdAt: Time, updatedAt: Time, expiresAt: Time,
    policy: PrunePolicy, payload: Bytes)

  datatype Meta = Meta(id: Bytes, kind: Kind, createdAt: Time, expiresAt: Time, policy: PrunePolicy, charge: nat)

  type Entries = map<Bytes, Meta>

  // ---------- record checks ----------

  predicate ValidRecordId(id: Bytes)
  {
    0 < |id| <= 128 &&
    forall i :: 0 <= i < |id| ==>
      || 'a' as int <= id[i] <= 'z' as int || 'A' as int <= id[i] <= 'Z' as int || '0' as int <= id[i] <= '9' as int
      || id[i] == '-' as int || id[i] == '_' as int || id[i] == '.' as int
  }

  predicate SafePolicyForKind(r: LocalRecord)
  {
    match r.kind
    case Delivery => r.policy == PruneAfterExpiry
    case Outbox | Replay | DeviceEvent => r.policy == PruneNever || r.policy == PruneAfterExpiry
    case GroupState => r.policy == PruneNever && r.expiresAt == ZERO_TIME
    case Inbox => r.policy == PruneNever || r.policy == PruneOldest || r.policy == PruneAfterExpiry
    case FileCache | Reputation => r.policy == PruneOldest
    case UnknownKind => false
  }

  predicate ValidLocalRecord(r: LocalRecord, now: Time)
  {
    && r.version == STORE_VERSION && ValidRecordId(r.id) && r.kind != UnknownKind
    && r.createdAt != ZERO_TIME && r.updatedAt != ZERO_TIME && r.createdAt <= r.updatedAt
    && r.createdAt <= now + 5 * MINUTE && r.updatedAt <= now + 5 * MINUTE
    && 0 < |r.payload| <= MAX_PAYLOAD_BYTES
    && (r.expiresAt != ZERO_TIME ==> r.createdAt < r.expiresAt)
    && r.policy != UnknownPolicy
    && (r.policy == PruneAfterExpiry ==> r.expiresAt != ZERO_TIME)
    && SafePolicyForKind(r)
  }

  function MetaOf(r: LocalRecord, fileBytes: nat): Meta
  {
    Meta(r.id, r.kind, r.createdAt, r.expiresAt, r.policy, fileBytes + ACCOUNTING_OVERHEAD)
  }

  predicate Expired(m: Meta, now: Time)
  {
    m.expiresAt != ZERO_TIME && m.expiresAt <= now
  }

  predicate Prunable(m: Meta, now: Time)
  {
    Expired(m, now) || m.policy == PruneOldest
  }

  /** Pending protocol state is safe from eviction while it can still be used, group state for good. */
  lemma ProtectedKinds(r: LocalRecord, fileBytes: nat, written: Time, now: Time)
    requires ValidLocalRecord(r, written) && Prunable(MetaOf(r, fileBytes), now)
    ensures r.kind != GroupState
    ensures r.kind == Inbox || r.kind == FileCache || r.kind == Reputation || Expired(MetaOf(r, fileBytes), now)
  {
  }

  // ---------- the eviction order ----------

  /** Expired records first, then the oldest, then by ID. */
  predicate Before(x: Meta, y: Meta, now: Time)
  {
    if Expired(x, now) != Expired(y, now) then Expired(x, now)
    else if x.createdAt == y.createdAt then Less(x.id, y.id)
    else x.createdAt < y.createdAt
  }

  function EvictionLess(now: Time): (Meta, Meta) -> bool
  {
    (x: Meta, y: Meta) => Before(x, y, now)
  }

  lemma BeforeTotal(x: Meta, y: Meta, now: Time)
    ensures !(Before(x, y, now) && Before(y, x, now))
    ensures x.id != y.id ==> Before(x, y, now) || Before(y, x, now)
  {
    LessTotal(x.id, y.id);
  }

  lemma NotBeforeTransitive(x: Meta, y: Meta, z: Meta, now: Time)
    requires !Before(x, y, now) && !Before(y, z, now)
    ensures !Before(x, z, now)
  {
    LessTotal(x.id, y.id);
    LessTotal(y.id, z.id);
    LessTotal(x.id, z.id);
    if Less(y.id, x.id) && Less(z.id, y.id) {
      LessTransitive(z.id, y.id, x.id);
    }
  }

  lemma EvictionOrder(now: Time)
    ensures StrictWeakOrder(EvictionLess(now))
  {
    var less := EvictionLess(now);
    forall x: Meta, y: Meta | less(x, y) ensures !less(y, x) {
      BeforeTotal(x, y, now);
    }
    forall x: Meta, y: Meta, z: Meta | !less(x, y) && !less(y, z) ensures !less(x, z) {
      NotBeforeTransitive(x, y, z, now);
    }
  }

  // ---------- budgets ----------

  function Charges(e: Entries): map<Bytes, nat>
  {
    map id | id in e :: e[id].charge
  }

  ghost function Used(e: Entries): nat
  {
    Total(Charges(e))
  }

  ghost predicate Keyed(e: Entries)
  {
    forall id :: id in e ==> e[id].id == id && id != []
  }

  lemma UsedWithout(e: Entries, id: Bytes)
    requires id in e
    ensures Used(e) == e[id].charge + Used(e - {id})
  {
    TotalWithout(Charges(e), id);
    assert Charges(e) - {id} == Charges(e - {id});
  }

  lemma UsedStored(e: Entries, m: Meta)
    ensures Used(e[m.id := m]) == Used(e) + m.charge - if m.id in e then e[m.id].charge else 0
  {
    assert Charges(e[m.id := m]) == Charges(e)[m.id := m.charge];
    if m.id in e {
      TotalReplaced(Charges(e), m.id, m.charge);
    } else {
      TotalWith(Charges(e), m.id, m.charge);
    }
  }

  lemma UsedMonotone(d: Entries, e: Entries)
    requires SubMap(d, e)
    ensures Used(d) <= Used(e) && |d| <= |e|
  {
    TotalMonotone(Charges(d), Charges(e));
    SubMapSize(d, e);
  }

  ghost predicate Meets(e: Entries, targetBytes: int, targetRecords: int)
  {
    Used(e) <= targetBytes && |e| <= targetRecords
  }

  ghost function Eligible(e: Entries, now: Time, exclude: Bytes): set<Bytes>
  {
    set id | id in e && id != exclude && Prunable(e[id], now)
  }

  /** An initial segment of the eviction order over the eligible records. */
  ghost predicate IsPrefix(e: Entries, now: Time, exclude: Bytes, removed: set<Bytes>)
  {
    && removed <= Eligible(e, now, exclude)
    && forall x, y | x in removed && y in Eligible(e, now, exclude) :: Before(e[y], e[x], now) ==> y in removed
  }

  /** The shortest initial segment whose removal meets both targets: it meets them, and every segment
      that meets them contains it. */
  ghost predicate IsLeastPrefix(e: Entries, now: Time, exclude: Bytes, removed: set<Bytes>, targetBytes: int, targetRecords: int)
  {
    && IsPrefix(e, now, exclude, removed)
    && Meets(e - removed, targetBytes, targetRecords)
    && forall other :: IsPrefix(e, now, exclude, other) && Meets(e - other, targetBytes, targetRecords) ==> removed <= other
  }

  /** Removing everything that may be removed would be enough. */
  ghost predicate CanMeet(e: Entries, now: Time, exclude: Bytes, targetBytes: int, targetRecords: int)
  {
    Meets(e - Eligible(e, now, exclude), targetBytes, targetRecords)
  }

  lemma LeastPrefixUnique(e: Entries, now: Time, exclude: Bytes, r: set<Bytes>, s: set<Bytes>, targetBytes: int, targetRecords: int)
    requires IsLeastPrefix(e, now, exclude, r, targetBytes, targetRecords)
    requires IsLeastPrefix(e, now, exclude, s, targetBytes, targetRecords)
    ensures r == s
  {
    assert r <= s && s <= r;
  }

  lemma RemovingMoreMeets(e: Entries, r: set<Bytes>, s: set<Bytes>, targetBytes: int, targetRecords: int)
    requires r <= s && Meets(e - r, targetBytes, targetRecords)
    ensures Meets(e - s, targetBytes, targetRecords)
  {
    UsedMonotone(e - s, e - r);
  }

  // ---------- prefixes of the sorted candidate list ----------

  function Ids(c: seq<Meta>): set<Bytes>
  {
    set m | m in c :: m.id
  }

  function ChargeSum(c: seq<Meta>): nat
  {
    if c == [] then 0 else ChargeSum(c[..|c| - 1]) + c[|c| - 1].charge
  }

  ghost predicate DistinctIds(c: seq<Meta>)
  {
    forall i, j :: 0 <= i < j < |c| ==> c[i].id != c[j].id
  }

  predicate InOrder(c: seq<Meta>, i: nat, j: nat, now: Time)
    requires i < |c| && j < |c|
  {
    !Before(c[j], c[i], now)
  }

  /** The eligible records in eviction order. */
  ghost predicate IsCandidateList(c: seq<Meta>, e: Entries, now: Time, exclude: Bytes)
  {
    && Listed(c, e)
    && Ids(c) == Eligible(e, now, exclude)
    && (forall i, j :: 0 <= i < j < |c| ==> InOrder(c, i, j, now))
  }

  lemma RemoveOne(e: Entries, removed: set<Bytes>, id: Bytes)
    requires id in e && id !in removed
    ensures Used(e - removed) == e[id].charge + Used(e - (removed + {id}))
    ensures |e - (removed + {id})| == |e - removed| - 1
  {
    var d := e - removed;
    assert e - (removed + {id}) == d - {id};
    UsedWithout(d, id);
    MapUpdateSize(d - {id}, id, d[id]);
    assert (d - {id})[id := d[id]] == d;
  }

  lemma PrefixStep(c: seq<Meta>)
    requires DistinctIds(c) && c != []
    ensures c[|c| - 1].id !in Ids(c[..|c| - 1]) && Ids(c) == Ids(c[..|c| - 1]) + {c[|c| - 1].id}
  {
    assert c == c[..|c| - 1] + [c[|c| - 1]];
  }

  /** Distinct entries of the map, in some order. */
  ghost predicate Listed(c: seq<Meta>, e: Entries)
  {
    DistinctIds(c) && forall i :: 0 <= i < |c| ==> c[i].id in e && e[c[i].id] == c[i]
  }

  ghost predicate Accounts(e: Entries, removed: set<Bytes>, bytes: int, records: int)
  {
    Used(e - removed) == Used(e) - bytes && |e - removed| == |e| - records
  }

  lemma AccountsStep(e: Entries, removed: set<Bytes>, bytes: int, records: int, id: Bytes)
    requires Accounts(e, removed, bytes, records) && id in e && id !in removed
    ensures Accounts(e, removed + {id}, bytes + e[id].charge, records + 1)
  {
    RemoveOne(e, removed, id);
  }

  lemma AccountsNone(e: Entries)
    ensures Accounts(e, {}, 0, 0)
  {
    assert e - {} == e;
  }

  lemma AccountsNext(c: seq<Meta>, e: Entries)
    requires Listed(c, e) && c != []
    requires Accounts(e, Ids(c[..|c| - 1]), ChargeSum(c[..|c| - 1]), |c| - 1)
    ensures Accounts(e, Ids(c), ChargeSum(c), |c|)
  {
    PrefixStep(c);
    AccountsStep(e, Ids(c[..|c| - 1]), ChargeSum(c[..|c| - 1]), |c| - 1, c[|c| - 1].id);
  }

  lemma ListedPrefix(c: seq<Meta>, e: Entries, k: nat)
    requires Listed(c, e) && k <= |c|
    ensures Listed(c[..k], e)
  {
  }

  lemma {:induction false} PrefixCount(c: seq<Meta>, e: Entries, k: nat)
    requires Listed(c, e) && k <= |c|
    ensures |Ids(c[..k])| == k
  {
    if k == 0 {
      assert Ids(c[..0]) == {};
    } else {
      PrefixCount(c, e, k - 1);
      ListedPrefix(c, e, k);
      PrefixStep(c[..k]);
      assert c[..k][..k - 1] == c[..k - 1];
    }
  }

  lemma {:induction false} UsedAfterPrefix(c: seq<Meta>, e: Entries)
    requires Listed(c, e)
    ensures Accounts(e, Ids(c), ChargeSum(c), |c|)
  {
    if c == [] {
      AccountsNone(e);
      assert Ids(c) == {};
    } else {
      ListedPrefix(c, e, |c| - 1);
      UsedAfterPrefix(c[..|c| - 1], e);
      AccountsNext(c, e);
    }
  }

  lemma PrefixOfList(c: seq<Meta>, e: Entries, now: Time, exclude: Bytes, k: nat)
    requires IsCandidateList(c, e, now, exclude) && k <= |c|
    ensures IsPrefix(e, now, exclude, Ids(c[..k]))
  {
    var r := Ids(c[..k]);
    assert r <= Ids(c);
    forall x, y | x in r && y in Eligible(e, now, exclude) && Before(e[y], e[x], now) ensures y in r {
      var i :| 0 <= i < k && c[i].id == x;
      assert y in Ids(c);
      var j :| 0 <= j < |c| && c[j].id == y;
      BeforeTotal(c[i], c[j], now);
      assert i < j ==> InOrder(c, i, j, now);
      assert j < k ==> c[..k][j] == c[j];
    }
  }

  /** Any segment that lacks one candidate lacks all later ones as well. */
  lemma SegmentWithin(c: seq<Meta>, e: Entries, now: Time, exclude: Bytes, i: nat, other: set<Bytes>)
    requires IsCandidateList(c, e, now, exclude) && i < |c|
    requires IsPrefix(e, now, exclude, other) && c[i].id !in other
    ensures other <= Ids(c[..i])
  {
    forall x | x in other ensures x in Ids(c[..i]) {
      assert x in Ids(c);
      var j :| 0 <= j < |c| && c[j].id == x;
      BeforeTotal(c[i], c[j], now);
      assert i < j ==> InOrder(c, i, j, now);
      assert c[i].id in Ids(c);
      assert j < i && c[..i][j] == c[j];
    }
  }

  /** Every eligible record outside `ids` has been collected once. */
  ghost predicate Collecting(c: seq<Meta>, e: Entries, ids: set<Bytes>, now: Time, exclude: Bytes)
  {
    Listed(c, e) && Ids(c) == Eligible(e, now, exclude) - ids
  }

  lemma CollectStep(c: seq<Meta>, e: Entries, ids: set<Bytes>, id: Bytes, now: Time, exclude: Bytes)
    requires Keyed(e) && Collecting(c, e, ids, now, exclude) && id in ids && id in e
    ensures Collecting(if id != exclude && Prunable(e[id], now) then c + [e[id]] else c, e, ids - {id}, now, exclude)
  {
    assert id !in Ids(c);
    if id != exclude && Prunable(e[id], now) {
      PrefixStep(c + [e[id]]);
      assert (c + [e[id]])[..|c|] == c;
    }
  }

  lemma CandidatesSorted(c: seq<Meta>, s: seq<Meta>, e: Entries, now: Time, exclude: Bytes)
    requires Listed(c, e) && multiset(c) == multiset(s) && Ordered(s, EvictionLess(now))
    requires Ids(c) == Eligible(e, now, exclude)
    ensures IsCandidateList(s, e, now, exclude)
  {
    SameElements(c, s);
    PermutationDistinct(c, s);
    var less := EvictionLess(now);
    forall i, j | 0 <= i < j < |s| ensures s[i].id != s[j].id && InOrder(s, i, j, now) {
      assert s[i] in c && s[j] in c;
      assert !less(s[j], s[i]);
    }
    forall i | 0 <= i < |s| ensures s[i].id in e && e[s[i].id] == s[i] {
      assert s[i] in c;
    }
    assert Ids(s) == Ids(c);
  }

  // ---------- the store ----------

  datatype StoreError = StorageFull | ContextCancelled | RemoveFailed | SyncFailed | WriteFailed | Closed | InvalidInput | NotFound

  /** What happens at the n-th removal of one pruning run. */
  datatype Fault = NoFault | Cancelled | DiskError

  datatype Report = Report(records: nat, bytes: int)

  predicate ValidLimit(maxBytes: int)
  {
    MIN_STORE_BYTES <= maxBytes <= MAX_STORE_BYTES
  }

  /** What a pruning run may do. Whatever happens, it removes an initial segment of the eviction order; it
      reports a full store exactly when removing every eligible record would not do, and then removes
      nothing; and unless it was interrupted, it removes the shortest segment that meets both targets. */
  ghost predicate Pruned(e: Entries, now: Time, exclude: Bytes, targetBytes: int, targetRecords: int,
                         removed: set<Bytes>, error: Option<StoreError>)
  {
    match error
    case Some(StorageFull) => removed == {} && !CanMeet(e, now, exclude, targetBytes, targetRecords)
    case None | Some(SyncFailed) =>
      && CanMeet(e, now, exclude, targetBytes, targetRecords)
      && IsLeastPrefix(e, now, exclude, removed, targetBytes, targetRecords)
    case Some(_) =>
      && CanMeet(e, now, exclude, targetBytes, targetRecords)
      && IsPrefix(e, now, exclude, removed)
  }

  /** In no case does pruning remove the excluded record or an unexpired record that is not marked prunable. */
  lemma PruningSpares(e: Entries, now: Time, exclude: Bytes, targetBytes: int, targetRecords: int,
                      removed: set<Bytes>, error: Option<StoreError>, id: Bytes)
    requires Pruned(e, now, exclude, targetBytes, targetRecords, removed, error) && id in removed
    ensures id in e && id != exclude && (Expired(e[id], now) || e[id].policy == PruneOldest)
  {
  }

  class EncryptedStore {
    var entries: Entries
    var used: int
    var maxBytes: int
    var closed: bool

    /** The accounting is exact. */
    ghost predicate Consistent()
      reads this
    {
      Keyed(entries) && used == Used(entries) && ValidLimit(maxBytes)
    }

    /** The accounting is exact and both budgets hold. */
    ghost predicate Valid()
      reads this
    {
      Consistent() && Meets(entries, maxBytes, MAX_RECORDS) && (closed ==> entries == map[])
    }

    constructor Empty(maxBytes: int)
      requires ValidLimit(maxBytes)
      ensures Valid() && entries == map[] && this.maxBytes == maxBytes && !closed
    {
      entries, used, closed := map[], 0, false;
      this.maxBytes := maxBytes;
    }

    method DeleteMeta(id: Bytes)
      requires Consistent() && id in entries
      modifies this`entries, this`used
      ensures Consistent() && entries == old(entries) - {id} && used == old(used) - old(entries)[id].charge
    {
      UsedWithout(entries, id);
      used := used - entries[id].charge;
      entries := entries - {id};
    }

    method Candidates(now: Time, exclude: Bytes) returns (c: seq<Meta>)
      requires Consistent()
      ensures IsCandidateList(c, entries, now, exclude)
    {
      var collected: seq<Meta> := [];
      var ids := entries.Keys;
      while ids != {}
        invariant ids <= entries.Keys && Collecting(collected, entries, ids, now, exclude)
        decreases ids
      {
        var id :| id in ids;
        CollectStep(collected, entries, ids, id, now, exclude);
        ids := ids - {id};
        if id != exclude && Prunable(entries[id], now) {
          collected := collected + [entries[id]];
        }
      }
      EvictionOrder(now);
      c := SortSlice(collected, EvictionLess(now));
      CandidatesSorted(collected, c, entries, now, exclude);
    }

    method RemoveOne(c: seq<Meta>, i: nat, ghost before: Entries)
      requires Consistent() && Listed(c, before) && i < |c| && entries == before - Ids(c[..i])
      modifies this`entries, this`used
      ensures Consistent() && entries == before - Ids(c[..i + 1]) && used == old(used) - c[i].charge
    {
      NextCandidate(c, before, i);
      DeleteMeta(c[i].id);
    }

    /** Removes the first `count` candidates until the context is cancelled or the disk refuses. */
    method RemovePrefix(c: seq<Meta>, count: nat, fault: nat -> Fault) returns (report: Report, e: Option<StoreError>, ghost done: nat)
      requires Consistent() && Listed(c, entries) && count <= |c|
      modifies this`entries, this`used
      ensures done <= count && Consistent() && entries == old(entries) - Ids(c[..done]) && report == Report(done, old(used) - used)
      ensures e.None? ==> done == count
      ensures e.Some? ==> fault(done) != NoFault && (e.value == ContextCancelled || e.value == RemoveFailed)
    {
      report := Report(0, 0);
      assert Ids(c[..0]) == {} && entries == entries - {};
      for i := 0 to count
        invariant Consistent() && entries == old(entries) - Ids(c[..i]) && report == Report(i, old(used) - used)
      {
        if fault(i) != NoFault {
          return report, Some(if fault(i) == Cancelled then ContextCancelled else RemoveFailed), i;
        }
        RemoveOne(c, i, old(entries));
        report := Report(report.records + 1, report.bytes + c[i].charge);
      }
      return report, None, count;
    }

    method PruneToLocked(targetBytes: int, targetRecords: int, now: Time, exclude: Bytes, fault: nat -> Fault, syncOk: bool)
      returns (report: Report, e: Option<StoreError>, ghost removed: set<Bytes>)
      requires Consistent()
      modifies this`entries, this`used
      ensures Consistent() && entries == old(entries) - removed && report == Report(|removed|, old(used) - used)
      ensures Pruned(old(entries), now, exclude, targetBytes, targetRecords, removed, e)
      ensures e.None? ==> Meets(entries, targetBytes, targetRecords)
      ensures Undisturbed(fault, syncOk) ==> e == None || e == Some(StorageFull)
    {
      if used <= targetBytes && |entries| <= targetRecords {
        NothingToRemove(entries, now, exclude, targetBytes, targetRecords);
        assert entries == entries - {};
        return Report(0, 0), None, {};
      }
      report, e, removed := PruneCandidates(targetBytes, targetRecords, now, exclude, fault, syncOk);
      if e.None? {
        PrunedMeets(old(entries), now, exclude, targetBytes, targetRecords, removed);
      }
    }

    method PruneCandidates(targetBytes: int, targetRecords: int, now: Time, exclude: Bytes, fault: nat -> Fault, syncOk: bool)
      returns (report: Report, e: Option<StoreError>, ghost removed: set<Bytes>)
      requires Consistent()
      modifies this`entries, this`used
      ensures Consistent() && entries == old(entries) - removed && report == Report(|removed|, old(used) - used)
      ensures Pruned(old(entries), now, exclude, targetBytes, targetRecords, removed, e)
      ensures Undisturbed(fault, syncOk) ==> e == None || e == Some(StorageFull)
    {
      var c := Candidates(now, exclude);
      var count := Choose(entries, used, c, now, exclude, targetBytes, targetRecords);
      report, e, removed := CarryOut(c, count, targetBytes, targetRecords, now, exclude, fault, syncOk);
    }

    /** What follows the choice: report a full store, or remove what was chosen. */
    method CarryOut(c: seq<Meta>, count: Option<nat>, ghost targetBytes: int, ghost targetRecords: int, ghost now: Time,
                    ghost exclude: Bytes, fault: nat -> Fault, syncOk: bool)
      returns (report: Report, e: Option<StoreError>, ghost removed: set<Bytes>)
      requires Consistent() && Planned(count, c, entries, now, exclude, targetBytes, targetRecords)
      modifies this`entries, this`used
      ensures Consistent() && entries == old(entries) - removed && report == Report(|removed|, old(used) - used)
      ensures Pruned(old(entries), now, exclude, targetBytes, targetRecords, removed, e)
      ensures Undisturbed(fault, syncOk) ==> e == None || e == Some(StorageFull)
    {
      if count.None? {
        OutOfReachReport(c, entries, now, exclude, targetBytes, targetRecords);
        return Report(0, 0), Some(StorageFull), {};
      }
      report, e, removed := Execute(c, count, targetBytes, targetRecords, now, exclude, fault, syncOk);
    }

    method Execute(c: seq<Meta>, count: Option<nat>, ghost targetBytes: int, ghost targetRecords: int, ghost now: Time,
                   ghost exclude: Bytes, fault: nat -> Fault, syncOk: bool)
      returns (report: Report, e: Option<StoreError>, ghost removed: set<Bytes>)
      requires Consistent() && count.Some? && Planned(count, c, entries, now, exclude, targetBytes, targetRecords)
      modifies this`entries, this`used
      ensures Consistent() && entries == old(entries) - removed && report == Report(|removed|, old(used) - used)
      ensures Pruned(old(entries), now, exclude, targetBytes, targetRecords, removed, e)
      ensures Undisturbed(fault, syncOk) ==> e == None
    {
      PlannedListed(count, c, entries, now, exclude, targetBytes, targetRecords);
      ghost var done;
      report, e, done := RemovePrefix(c, count.value, fault);
      removed := Ids(c[..done]);
      PrefixCount(c, old(entries), done);
      if e.None? && report.records > 0 && !syncOk {
        e := Some(SyncFailed);
      }
      PrefixRemoved(count, c, old(entries), now, exclude, targetBytes, targetRecords, done, e);
    }

    /** `sealedBytes` is the size of the encrypted file, or nothing if sealing failed. */
    method Put(record: LocalRecord, now: Time, ctxDone: bool, sealedBytes: Option<nat>, fault: nat -> Fault, syncOk: bool, writeOk: bool)
      returns (report: Report, e: Option<StoreError>, ghost removed: set<Bytes>)
      requires Valid()
      modifies this`entries, this`used
      ensures Valid()
      ensures var refused := PutRefused(record, now, ctxDone, closed, sealedBytes);
        if refused.Some? then e == refused && entries == old(entries)
        else PutOutcome(old(entries), maxBytes, now, MetaOf(Normalized(record), sealedBytes.value), removed, e, entries)
    {
      var refused := PutRefused(record, now, ctxDone, closed, sealedBytes);
      if refused.Some? {
        return Report(0, 0), refused, {};
      }
      report, e, removed := PutSealed(MetaOf(Normalized(record), sealedBytes.value), now, fault, syncOk, writeOk);
    }

    /** The locked part of Put, once the record is sealed. */
    method PutSealed(m: Meta, now: Time, fault: nat -> Fault, syncOk: bool, writeOk: bool)
      returns (report: Report, e: Option<StoreError>, ghost removed: set<Bytes>)
      requires Valid() && !closed && m.id != []
      modifies this`entries, this`used
      ensures Valid() && PutOutcome(old(entries), maxBytes, now, m, removed, e, entries)
    {
      var target := maxBytes - m.charge + OldCharge(entries, m.id);
      if target < 0 {
        NeverFits(entries, maxBytes, now, m);
        return Report(0, 0), Some(StorageFull), {};
      }
      report, e, removed := PutWithin(m, target, now, fault, syncOk, writeOk);
    }

    method PutWithin(m: Meta, target: int, now: Time, fault: nat -> Fault, syncOk: bool, writeOk: bool)
      returns (report: Report, e: Option<StoreError>, ghost removed: set<Bytes>)
      requires Valid() && !closed && m.id != [] && target == maxBytes - m.charge + OldCharge(entries, m.id) >= 0
      modifies this`entries, this`used
      ensures Valid() && PutOutcome(old(entries), maxBytes, now, m, removed, e, entries)
    {
      report, e, removed := PruneWithin(target, RecordTarget(entries, m.id), now, m.id, fault, syncOk);
      e := FinishPut(m, target, writeOk, e, old(entries), removed, now);
    }

    /** After pruning for a write: give up, or write the file and remember it. */
    method FinishPut(m: Meta, ghost target: int, writeOk: bool, pruned: Option<StoreError>, ghost before: Entries, ghost removed: set<Bytes>, ghost now: Time)
      returns (e: Option<StoreError>)
      requires Valid() && !closed && m.id != [] && entries == before - removed
      requires target == maxBytes - m.charge + OldCharge(before, m.id) >= 0
      requires Pruned(before, now, m.id, target, RecordTarget(before, m.id), removed, pruned)
      modifies this`entries, this`used
      ensures Valid() && PutOutcome(before, maxBytes, now, m, removed, e, entries)
      ensures e == if pruned.None? && !writeOk then Some(WriteFailed) else pruned
    {
      PutPruned(before, maxBytes, now, m, removed, pruned);
      e := pruned;
      if e.None? {
        e := Write(m, writeOk, before, removed, now);
      }
    }

    /** The file write after pruning; `before` and `removed` say what pruning did. */
    method Write(m: Meta, writeOk: bool, ghost before: Entries, ghost removed: set<Bytes>, ghost now: Time) returns (e: Option<StoreError>)
      requires Valid() && !closed && m.id != [] && entries == before - removed
      requires Meets(entries, maxBytes - m.charge + OldCharge(entries, m.id), RecordTarget(entries, m.id))
      requires PutOutcome(before, maxBytes, now, m, removed, None, (before - removed)[m.id := m])
      requires PutOutcome(before, maxBytes, now, m, removed, Some(WriteFailed), before - removed)
      modifies this`entries, this`used
      ensures Valid() && PutOutcome(before, maxBytes, now, m, removed, e, entries)
      ensures e == (if writeOk then None else Some(WriteFailed))
    {
      if !writeOk {
        return Some(WriteFailed);
      }
      Remember(m);
      return None;
    }

    method Remember(m: Meta)
      requires Valid() && !closed && m.id != []
      requires Meets(entries, maxBytes - m.charge + OldCharge(entries, m.id), RecordTarget(entries, m.id))
      modifies this`entries, this`used
      ensures Valid() && entries == old(entries)[m.id := m]
    {
      StoreFits(entries, m, maxBytes);
      used := used - OldCharge(entries, m.id) + m.charge;
      entries := entries[m.id := m];
    }

    /** Pruning an open store keeps it within its budgets, whatever the outcome. */
    method PruneWithin(targetBytes: int, targetRecords: int, now: Time, exclude: Bytes, fault: nat -> Fault, syncOk: bool)
      returns (report: Report, e: Option<StoreError>, ghost removed: set<Bytes>)
      requires Valid() && !closed
      modifies this`entries, this`used
      ensures Valid() && entries == old(entries) - removed && report == Report(|removed|, old(used) - used)
      ensures Pruned(old(entries), now, exclude, targetBytes, targetRecords, removed, e)
    {
      report, e, removed := PruneToLocked(targetBytes, targetRecords, now, exclude, fault, syncOk);
      ShrinkKeepsBudgets(old(entries), removed, maxBytes);
    }

    /** The record goes if and only if its file could be removed, whatever the final sync reports. */
    method Delete(id: Bytes, ctxDone: bool, removeOk: bool, syncOk: bool) returns (e: Option<StoreError>)
      requires Valid()
      modifies this`entries, this`used
      ensures Valid()
      ensures entries ==
        if ValidRecordId(id) && !ctxDone && !closed && id in old(entries) && removeOk then old(entries) - {id} else old(entries)
      ensures e ==
        if !ValidRecordId(id) then Some(InvalidInput) else if ctxDone then Some(ContextCancelled) else if closed then Some(Closed)
        else if id !in old(entries) then Some(NotFound) else if !removeOk then Some(RemoveFailed)
        else if !syncOk then Some(SyncFailed) else None
    {
      if !ValidRecordId(id) {
        return Some(InvalidInput);
      }
      if ctxDone {
        return Some(ContextCancelled);
      }
      if closed {
        return Some(Closed);
      }
      if id !in entries {
        return Some(NotFound);
      }
      if !removeOk {
        return Some(RemoveFailed);
      }
      DeleteMeta(id);
      ShrinkKeepsBudgets(old(entries), {id}, maxBytes);
      return if syncOk then None else Some(SyncFailed);
    }

    method PruneTo(targetBytes: int, now: Time, ctxDone: bool, fault: nat -> Fault, syncOk: bool)
      returns (report: Report, e: Option<StoreError>, ghost removed: set<Bytes>)
      requires Valid()
      modifies this`entries, this`used
      ensures Valid() && entries == old(entries) - removed && report == Report(|removed|, old(used) - used)
      ensures var refused := CallRefused(targetBytes < 0 || targetBytes > maxBytes || now == ZERO_TIME, ctxDone, closed);
        if refused.Some? then e == refused && removed == {}
        else Pruned(old(entries), now, [], targetBytes, MAX_RECORDS, removed, e)
    {
      var refused := CallRefused(targetBytes < 0 || targetBytes > maxBytes || now == ZERO_TIME, ctxDone, closed);
      if refused.Some? {
        assert entries == entries - {};
        return Report(0, 0), refused, {};
      }
      report, e, removed := PruneWithin(targetBytes, MAX_RECORDS, now, [], fault, syncOk);
    }

    /** The new limit takes effect only if the store was pruned below it. */
    method SetLimit(limit: int, now: Time, ctxDone: bool, fault: nat -> Fault, syncOk: bool)
      returns (report: Report, e: Option<StoreError>, ghost removed: set<Bytes>)
      requires Valid()
      modifies this`entries, this`used, this`maxBytes
      ensures Valid() && entries == old(entries) - removed
      ensures maxBytes == if e.None? then limit else old(maxBytes)
      ensures var refused := CallRefused(!ValidLimit(limit) || now == ZERO_TIME, ctxDone, closed);
        if refused.Some? then e == refused && removed == {}
        else Pruned(old(entries), now, [], limit, MAX_RECORDS, removed, e)
    {
      var refused := CallRefused(!ValidLimit(limit) || now == ZERO_TIME, ctxDone, closed);
      if refused.Some? {
        assert entries == entries - {};
        return Report(0, 0), refused, {};
      }
      report, e, removed := PruneWithin(limit, MAX_RECORDS, now, [], fault, syncOk);
      if e.None? {
        maxBytes := limit;
      }
    }

    /** Reads a directory in the order in which its files are listed, pruning whenever a budget is exceeded.
        File names determine record IDs, so no two files share one. */
    static method Open(dir: seq<Meta>, maxBytes: int, now: Time) returns (r: Option<EncryptedStore>)
      requires ValidLimit(maxBytes) && DistinctIds(dir) && forall i :: 0 <= i < |dir| ==> dir[i].id != []
      ensures r.Some? <==> Meets(ProtectedOf(dir, now), maxBytes, MAX_RECORDS)
      ensures r.Some? ==> fresh(r.value) && r.value.Valid() && !r.value.closed && r.value.maxBytes == maxBytes
      ensures r.Some? ==> Loaded(r.value.entries, dir, now)
    {
      var store := new EncryptedStore.Empty(maxBytes);
      for i := 0 to |dir|
        invariant fresh(store) && store.Valid() && store.maxBytes == maxBytes && !store.closed
        invariant Loaded(store.entries, dir[..i], now)
      {
        LoadNext(store.entries, dir, i, now);
        ghost var entered := store.entries[dir[i].id := dir[i]];
        store.Enter(dir[i]);
        var ok, removed := store.PruneToBudget(now);
        if !ok {
          LoadFails(entered, dir, i + 1, now, maxBytes);
          return None;
        }
        LoadPruned(entered, removed, dir[..i + 1], now);
      }
      assert dir[..|dir|] == dir;
      ProtectedFits(store.entries, dir, now, maxBytes);
      return Some(store);
    }

    /** Enters a file that was just read; the budgets may be exceeded until the next pruning. */
    method Enter(m: Meta)
      requires Consistent() && m.id != [] && m.id !in entries
      modifies this`entries, this`used
      ensures Consistent() && entries == old(entries)[m.id := m]
    {
      UsedStored(entries, m);
      entries := entries[m.id := m];
      used := used + m.charge;
    }

    /** Pruning without interruption: either the store fits its budgets again or it never could. */
    method PruneToBudget(now: Time) returns (ok: bool, ghost removed: set<Bytes>)
      requires Consistent() && !closed
      modifies this`entries, this`used
      ensures ok ==> Valid()
      ensures ok <==> CanMeet(old(entries), now, [], maxBytes, MAX_RECORDS)
      ensures entries == old(entries) - removed && removed <= Eligible(old(entries), now, [])
    {
      var _, e, gone := PruneToLocked(maxBytes, MAX_RECORDS, now, [], Faultless, true);
      assert Undisturbed(Faultless, true);
      return e.None?, gone;
    }

    method Close()
      requires Valid()
      modifies this`entries, this`used, this`closed
      ensures Valid() && closed
    {
      if !closed {
        closed, entries, used := true, map[], 0;
      }
    }
  }

  /** The records of a directory that may not be pruned. */
  function ProtectedOf(dir: seq<Meta>, now: Time): Entries
  {
    if dir == [] then map[]
    else
      var front, last := ProtectedOf(dir[..|dir| - 1], now), dir[|dir| - 1];
      if Prunable(last, now) then front else front[last.id := last]
  }

  /** Every entry comes from the directory, and no protected record of it is missing. */
  ghost predicate Loaded(e: Entries, dir: seq<Meta>, now: Time)
  {
    && (forall id :: id in e ==> e[id].id == id && e[id] in dir)
    && (forall m :: m in dir && !Prunable(m, now) ==> m.id in e && e[m.id] == m)
  }

  lemma {:induction false} ProtectedOfIs(dir: seq<Meta>, now: Time)
    requires DistinctIds(dir)
    ensures forall id :: id in ProtectedOf(dir, now) <==> exists m :: m in dir && m.id == id && !Prunable(m, now)
    ensures forall m :: m in dir && !Prunable(m, now) ==> m.id in ProtectedOf(dir, now) && ProtectedOf(dir, now)[m.id] == m
    ensures forall id :: id in ProtectedOf(dir, now) ==> ProtectedOf(dir, now)[id] in dir
  {
    if dir != [] {
      var front, last := dir[..|dir| - 1], dir[|dir| - 1];
      ProtectedOfIs(front, now);
      assert dir == front + [last];
      assert forall m :: m in front ==> m.id != last.id;
      assert forall m :: m in dir <==> m in front || m == last;
    }
  }

  lemma LoadNext(e: Entries, dir: seq<Meta>, i: nat, now: Time)
    requires DistinctIds(dir) && i < |dir| && Loaded(e, dir[..i], now)
    ensures dir[i].id !in e && Loaded(e[dir[i].id := dir[i]], dir[..i + 1], now)
  {
    assert dir[..i + 1] == dir[..i] + [dir[i]];
    forall m | m in dir[..i] ensures m.id != dir[i].id {
    }
  }

  lemma LoadPruned(entered: Entries, removed: set<Bytes>, dir: seq<Meta>, now: Time)
    requires Loaded(entered, dir, now) && removed <= Eligible(entered, now, [])
    ensures Loaded(entered - removed, dir, now)
  {
    var e := entered - removed;
    forall m | m in dir && !Prunable(m, now) ensures m.id in e && e[m.id] == m {
      assert entered[m.id] == m;
      assert m.id !in Eligible(entered, now, []);
    }
  }

  /** What pruning must leave behind is exactly the protected part of what was read so far. */
  lemma UnprunablePart(e: Entries, dir: seq<Meta>, now: Time)
    requires DistinctIds(dir) && Loaded(e, dir, now) && [] !in e
    ensures e - Eligible(e, now, []) == ProtectedOf(dir, now)
  {
    ProtectedOfIs(dir, now);
    var d, p := e - Eligible(e, now, []), ProtectedOf(dir, now);
    forall id | id in d ensures id in p && p[id] == d[id] {
      assert e[id] in dir && !Prunable(e[id], now);
    }
    forall id | id in p ensures id in d {
      var m :| m in dir && m.id == id && !Prunable(m, now);
      assert e[id] == m;
    }
    assert d.Keys == p.Keys;
  }

  lemma {:induction false} ProtectedGrows(dir: seq<Meta>, k: nat, now: Time)
    requires DistinctIds(dir) && k <= |dir|
    ensures SubMap(ProtectedOf(dir[..k], now), ProtectedOf(dir, now))
  {
    ProtectedOfIs(dir, now);
    ProtectedOfIs(dir[..k], now);
    var p := ProtectedOf(dir[..k], now);
    forall id | id in p ensures id in ProtectedOf(dir, now) && ProtectedOf(dir, now)[id] == p[id] {
      var m :| m in dir[..k] && m.id == id && !Prunable(m, now);
      assert m in dir;
    }
  }

  lemma LoadFails(e: Entries, dir: seq<Meta>, k: nat, now: Time, maxBytes: int)
    requires DistinctIds(dir) && k <= |dir| && Loaded(e, dir[..k], now) && [] !in e
    requires !CanMeet(e, now, [], maxBytes, MAX_RECORDS)
    ensures !Meets(ProtectedOf(dir, now), maxBytes, MAX_RECORDS)
  {
    UnprunablePart(e, dir[..k], now);
    ProtectedGrows(dir, k, now);
    UsedMonotone(ProtectedOf(dir[..k], now), ProtectedOf(dir, now));
  }

  lemma ProtectedFits(e: Entries, dir: seq<Meta>, now: Time, maxBytes: int)
    requires DistinctIds(dir) && Loaded(e, dir, now) && [] !in e && Meets(e, maxBytes, MAX_RECORDS)
    ensures Meets(ProtectedOf(dir, now), maxBytes, MAX_RECORDS)
  {
    UnprunablePart(e, dir, now);
    UsedMonotone(ProtectedOf(dir, now), e);
  }

  function CallRefused(invalid: bool, ctxDone: bool, closed: bool): Option<StoreError>
  {
    if invalid then Some(InvalidInput) else if ctxDone then Some(ContextCancelled) else if closed then Some(Closed) else None
  }

  /** The checks of Put, in the order in which it makes them. */
  function PutRefused(record: LocalRecord, now: Time, ctxDone: bool, closed: bool, sealedBytes: Option<nat>): (e: Option<StoreError>)
    ensures e.None? ==> sealedBytes.Some? && !closed && ValidLocalRecord(Normalized(record), now)
  {
    if ctxDone then Some(ContextCancelled)
    else if !ValidLocalRecord(Normalized(record), now) then Some(InvalidInput)
    else if closed then Some(Closed)
    else if sealedBytes.None? || sealedBytes.value > MAX_FILE_BYTES then Some(InvalidInput)
    else None
  }

  /** Whether the protected records leave room for `m` next to what may be evicted. */
  ghost predicate RoomFor(e: Entries, maxBytes: int, m: Meta, now: Time)
  {
    maxBytes - m.charge + OldCharge(e, m.id) >= 0 &&
    CanMeet(e, now, m.id, maxBytes - m.charge + OldCharge(e, m.id), RecordTarget(e, m.id))
  }

  /** What a Put of `m` may do: store it after evicting the shortest sufficient prefix, refuse it as too
      large with nothing lost, or fail on the way after evicting a prefix that spares the old version. */
  ghost predicate PutOutcome(e: Entries, maxBytes: int, now: Time, m: Meta, removed: set<Bytes>, error: Option<StoreError>, after: Entries)
  {
    match error
    case None =>
      && RoomFor(e, maxBytes, m, now) && after == (e - removed)[m.id := m]
      && IsLeastPrefix(e, now, m.id, removed, maxBytes - m.charge + OldCharge(e, m.id), RecordTarget(e, m.id))
    case Some(StorageFull) => after == e && !RoomFor(e, maxBytes, m, now)
    case Some(_) =>
      RoomFor(e, maxBytes, m, now) && after == e - removed && IsPrefix(e, now, m.id, removed)
  }

  function OldCharge(e: Entries, id: Bytes): nat
  {
    if id in e then e[id].charge else 0
  }

  /** A new record needs a free place; a replaced one keeps its own. */
  function RecordTarget(e: Entries, id: Bytes): int
  {
    if id in e then MAX_RECORDS else MAX_RECORDS - 1
  }

  function Normalized(r: LocalRecord): LocalRecord
  {
    var created := Millis(r.createdAt) * MILLISECOND;
    r.(createdAt := created,
       updatedAt := if r.updatedAt == ZERO_TIME then created else Millis(r.updatedAt) * MILLISECOND,
       expiresAt := if r.expiresAt == ZERO_TIME then ZERO_TIME else Millis(r.expiresAt) * MILLISECOND)
  }

  lemma ShrinkKeepsBudgets(e: Entries, removed: set<Bytes>, maxBytes: int)
    requires Meets(e, maxBytes, MAX_RECORDS)
    ensures Meets(e - removed, maxBytes, MAX_RECORDS)
  {
    UsedMonotone(e - removed, e);
  }

  /** After pruning to the reduced targets the new record fits both budgets. */
  lemma StoreFits(e: Entries, m: Meta, maxBytes: int)
    requires Meets(e, maxBytes - m.charge + OldCharge(e, m.id), RecordTarget(e, m.id))
    ensures Meets(e[m.id := m], maxBytes, MAX_RECORDS)
    ensures Used(e[m.id := m]) == Used(e) - OldCharge(e, m.id) + m.charge
  {
    UsedStored(e, m);
    MapUpdateSize(e, m.id, m);
  }

  lemma NeverFits(e: Entries, maxBytes: int, now: Time, m: Meta)
    requires maxBytes - m.charge + OldCharge(e, m.id) < 0
    ensures PutOutcome(e, maxBytes, now, m, {}, Some(StorageFull), e)
  {
  }

  /** Pruning for a write spares the version that is about to be replaced. */
  lemma PutPruned(e: Entries, maxBytes: int, now: Time, m: Meta, removed: set<Bytes>, error: Option<StoreError>)
    requires maxBytes - m.charge + OldCharge(e, m.id) >= 0
    requires Pruned(e, now, m.id, maxBytes - m.charge + OldCharge(e, m.id), RecordTarget(e, m.id), removed, error)
    ensures OldCharge(e - removed, m.id) == OldCharge(e, m.id) && RecordTarget(e - removed, m.id) == RecordTarget(e, m.id)
    ensures error.None? ==> Meets(e - removed, maxBytes - m.charge + OldCharge(e, m.id), RecordTarget(e, m.id))
    ensures error.None? ==> PutOutcome(e, maxBytes, now, m, removed, error, (e - removed)[m.id := m])
    ensures error.None? ==> PutOutcome(e, maxBytes, now, m, removed, Some(WriteFailed), e - removed)
    ensures error.Some? ==> PutOutcome(e, maxBytes, now, m, removed, error, e - removed)
  {
    assert m.id !in removed;
    if error == Some(StorageFull) {
      assert e - {} == e;
    }
  }

  /** The outcome of choosing: out of reach, or the length of the least prefix of the candidate list. */
  ghost predicate Planned(count: Option<nat>, c: seq<Meta>, e: Entries, now: Time, exclude: Bytes, targetBytes: int, targetRecords: int)
  {
    match count
    case None => !CanMeet(e, now, exclude, targetBytes, targetRecords)
    case Some(n) =>
      && IsCandidateList(c, e, now, exclude) && n <= |c|
      && CanMeet(e, now, exclude, targetBytes, targetRecords)
      && IsLeastPrefix(e, now, exclude, Ids(c[..n]), targetBytes, targetRecords)
  }

  function Faultless(i: nat): Fault
  {
    NoFault
  }

  ghost predicate Undisturbed(fault: nat -> Fault, syncOk: bool)
  {
    syncOk && forall i :: fault(i) == NoFault
  }

  /** The counting loop over the sorted candidates. */
  method CountNeeded(c: seq<Meta>, need: int, recordsToRemove: int) returns (count: nat, available: nat)
    ensures count <= |c| && available == ChargeSum(c[..count])
    ensures count == |c| || (available >= need && count >= recordsToRemove)
    ensures count > 0 ==> ChargeSum(c[..count - 1]) < need || count - 1 < recordsToRemove
  {
    count, available := 0, 0;
    while count < |c| && (available < need || count < recordsToRemove)
      invariant 0 <= count <= |c| && available == ChargeSum(c[..count])
      invariant count > 0 ==> ChargeSum(c[..count - 1]) < need || count - 1 < recordsToRemove
    {
      assert c[..count + 1][..count] == c[..count];
      available := available + c[count].charge;
      count := count + 1;
    }
  }

  lemma MeetsAfterPrefix(c: seq<Meta>, e: Entries, k: nat, targetBytes: int, targetRecords: int)
    requires Listed(c, e) && k <= |c|
    ensures Meets(e - Ids(c[..k]), targetBytes, targetRecords) <==>
      ChargeSum(c[..k]) >= Used(e) - targetBytes && k >= |e| - targetRecords
  {
    ListedPrefix(c, e, k);
    UsedAfterPrefix(c[..k], e);
  }

  lemma OutOfReach(c: seq<Meta>, e: Entries, now: Time, exclude: Bytes, targetBytes: int, targetRecords: int)
    requires IsCandidateList(c, e, now, exclude)
    ensures CanMeet(e, now, exclude, targetBytes, targetRecords) <==>
      ChargeSum(c) >= Used(e) - targetBytes && |c| >= |e| - targetRecords
  {
    MeetsAfterPrefix(c, e, |c|, targetBytes, targetRecords);
    assert c[..|c|] == c;
  }

  lemma WithinReach(c: seq<Meta>, e: Entries, now: Time, exclude: Bytes, targetBytes: int, targetRecords: int, count: nat)
    requires IsCandidateList(c, e, now, exclude) && count <= |c|
    requires ChargeSum(c[..count]) >= Used(e) - targetBytes && count >= |e| - targetRecords
    ensures CanMeet(e, now, exclude, targetBytes, targetRecords)
  {
    MeetsAfterPrefix(c, e, count, targetBytes, targetRecords);
    assert Ids(c[..count]) <= Ids(c);
    RemovingMoreMeets(e, Ids(c[..count]), Ids(c), targetBytes, targetRecords);
  }

  /** A segment that meets the targets contains every candidate the counting loop passed. */
  lemma SegmentContains(c: seq<Meta>, e: Entries, now: Time, exclude: Bytes, targetBytes: int, targetRecords: int, count: nat, other: set<Bytes>)
    requires IsCandidateList(c, e, now, exclude) && 0 < count <= |c|
    requires ChargeSum(c[..count - 1]) < Used(e) - targetBytes || count - 1 < |e| - targetRecords
    requires IsPrefix(e, now, exclude, other) && Meets(e - other, targetBytes, targetRecords)
    ensures Ids(c[..count]) <= other
  {
    MeetsAfterPrefix(c, e, count - 1, targetBytes, targetRecords);
    forall x | x in Ids(c[..count]) ensures x in other {
      var i :| 0 <= i < count && c[i].id == x;
      if x !in other {
        SegmentWithin(c, e, now, exclude, i, other);
        assert Ids(c[..i]) <= Ids(c[..count - 1]);
        RemovingMoreMeets(e, other, Ids(c[..count - 1]), targetBytes, targetRecords);
        assert false;
      }
    }
  }

  /** Where the counting loop stops is the least prefix. */
  lemma LeastCount(c: seq<Meta>, e: Entries, now: Time, exclude: Bytes, targetBytes: int, targetRecords: int, count: nat)
    requires IsCandidateList(c, e, now, exclude) && count <= |c|
    requires ChargeSum(c[..count]) >= Used(e) - targetBytes && count >= |e| - targetRecords
    requires count > 0 ==> ChargeSum(c[..count - 1]) < Used(e) - targetBytes || count - 1 < |e| - targetRecords
    ensures IsLeastPrefix(e, now, exclude, Ids(c[..count]), targetBytes, targetRecords)
  {
    PrefixOfList(c, e, now, exclude, count);
    MeetsAfterPrefix(c, e, count, targetBytes, targetRecords);
    forall other | IsPrefix(e, now, exclude, other) && Meets(e - other, targetBytes, targetRecords)
      ensures Ids(c[..count]) <= other
    {
      if count > 0 {
        SegmentContains(c, e, now, exclude, targetBytes, targetRecords, count, other);
      }
    }
  }

  /** How many candidates must go, or nothing if even all of them would not do. */
  method Choose(e: Entries, used: int, c: seq<Meta>, now: Time, exclude: Bytes, targetBytes: int, targetRecords: int)
    returns (count: Option<nat>)
    requires used == Used(e) && IsCandidateList(c, e, now, exclude)
    ensures Planned(count, c, e, now, exclude, targetBytes, targetRecords)
  {
    var need := if used - targetBytes < 0 then 0 else used - targetBytes;
    var recordsToRemove := if |e| - targetRecords < 0 then 0 else |e| - targetRecords;
    var n, available := CountNeeded(c, need, recordsToRemove);
    if available < need || n < recordsToRemove {
      OutOfReach(c, e, now, exclude, targetBytes, targetRecords);
      assert c[..|c|] == c;
      return None;
    }
    WithinReach(c, e, now, exclude, targetBytes, targetRecords, n);
    LeastCount(c, e, now, exclude, targetBytes, targetRecords, n);
    return Some(n);
  }

  lemma NothingToRemove(e: Entries, now: Time, exclude: Bytes, targetBytes: int, targetRecords: int)
    requires Meets(e, targetBytes, targetRecords)
    ensures Pruned(e, now, exclude, targetBytes, targetRecords, {}, None)
  {
    assert e - {} == e;
    RemovingMoreMeets(e, {}, Eligible(e, now, exclude), targetBytes, targetRecords);
  }

  lemma OutOfReachReport(c: seq<Meta>, e: Entries, now: Time, exclude: Bytes, targetBytes: int, targetRecords: int)
    requires Planned(None, c, e, now, exclude, targetBytes, targetRecords)
    ensures Pruned(e, now, exclude, targetBytes, targetRecords, {}, Some(StorageFull)) && e == e - {}
  {
  }

  lemma PlannedListed(count: Option<nat>, c: seq<Meta>, e: Entries, now: Time, exclude: Bytes, targetBytes: int, targetRecords: int)
    requires count.Some? && Planned(count, c, e, now, exclude, targetBytes, targetRecords)
    ensures Listed(c, e) && count.value <= |c|
  {
  }

  lemma PrunedMeets(e: Entries, now: Time, exclude: Bytes, targetBytes: int, targetRecords: int, removed: set<Bytes>)
    requires Pruned(e, now, exclude, targetBytes, targetRecords, removed, None)
    ensures Meets(e - removed, targetBytes, targetRecords)
  {
  }

  lemma PrefixRemoved(count: Option<nat>, c: seq<Meta>, e: Entries, now: Time, exclude: Bytes, targetBytes: int, targetRecords: int,
                      done: nat, error: Option<StoreError>)
    requires count.Some? && Planned(count, c, e, now, exclude, targetBytes, targetRecords) && done <= count.value
    requires error != Some(StorageFull) && (error == None || error == Some(SyncFailed) ==> done == count.value)
    ensures Pruned(e, now, exclude, targetBytes, targetRecords, Ids(c[..done]), error)
  {
    PrefixOfList(c, e, now, exclude, done);
  }

  lemma NextCandidate(c: seq<Meta>, e: Entries, i: nat)
    requires Listed(c, e) && i < |c|
    ensures var rest := e - Ids(c[..i]);
      c[i].id !in Ids(c[..i]) && c[i].id in rest && rest[c[i].id] == c[i] && rest - {c[i].id} == e - Ids(c[..i + 1])
    ensures Ids(c[..i + 1]) == Ids(c[..i]) + {c[i].id}
  {
    ListedPrefix(c, e, i + 1);
    PrefixStep(c[..i + 1]);
    assert c[..i + 1][..i] == c[..i];
  }
}
