/** What eviction from the client store means for single records, in terms of their fields alone. */
module ClientEviction {
  import opened Bytes
  import opened Identities
  import opened Sorting
  import opened ClientStore

  /** Eviction may take the record: its expiry has come, or its owner marked it as disposable. */
  predicate Disposable(m: Meta, now: Time)
  {
    (m.expiresAt != ZERO_TIME && m.expiresAt <= now) || m.policy == PruneOldest
  }

  /** `x` goes no later than `y`: expired records first, then the older ones, then by ID. */
  predicate GoesFirst(x: Meta, y: Meta, now: Time)
  {
    && (y.expiresAt != ZERO_TIME && y.expiresAt <= now ==> x.expiresAt != ZERO_TIME && x.expiresAt <= now)
    && ((x.expiresAt != ZERO_TIME && x.expiresAt <= now <==> y.expiresAt != ZERO_TIME && y.expiresAt <= now) ==>
         x.createdAt <= y.createdAt && (x.createdAt == y.createdAt ==> Less(x.id, y.id)))
  }

  lemma FirstIsBefore(x: Meta, y: Meta, now: Time)
    requires x.id != y.id
    ensures GoesFirst(x, y, now) <==> Before(x, y, now)
  {
    LessTotal(x.id, y.id);
  }

  /** Every record that went is disposable, and goes before every disposable record that stayed. */
  ghost predicate OldestWent(e: Entries, now: Time, exclude: Bytes, removed: set<Bytes>)
  {
    && (forall x :: x in removed ==> x in e && x != exclude && Disposable(e[x], now))
    && (forall x, y :: x in removed && y in e && y !in removed && y != exclude && Disposable(e[y], now) ==> GoesFirst(e[x], e[y], now))
  }

  lemma PrefixIsOldest(e: Entries, now: Time, exclude: Bytes, removed: set<Bytes>)
    requires Keyed(e) && IsPrefix(e, now, exclude, removed)
    ensures OldestWent(e, now, exclude, removed)
  {
    forall x, y | x in removed && y in e && y !in removed && y != exclude && Disposable(e[y], now)
      ensures GoesFirst(e[x], e[y], now)
    {
      assert y in Eligible(e, now, exclude);
      BeforeTotal(e[x], e[y], now);
      FirstIsBefore(e[x], e[y], now);
    }
  }

  lemma OldestIsPrefix(e: Entries, now: Time, exclude: Bytes, removed: set<Bytes>)
    requires Keyed(e) && OldestWent(e, now, exclude, removed)
    ensures IsPrefix(e, now, exclude, removed)
  {
    forall x, y | x in removed && y in Eligible(e, now, exclude) && Before(e[y], e[x], now) ensures y in removed {
      if y !in removed {
        assert Disposable(e[y], now);
        FirstIsBefore(e[x], e[y], now);
        BeforeTotal(e[x], e[y], now);
      }
    }
  }

  /** However a pruning run ends, the records it took are the first to go. */
  lemma PruningTakesOldest(e: Entries, now: Time, exclude: Bytes, targetBytes: int, targetRecords: int,
                           removed: set<Bytes>, error: Option<StoreError>)
    requires Keyed(e) && Pruned(e, now, exclude, targetBytes, targetRecords, removed, error)
    ensures OldestWent(e, now, exclude, removed)
  {
    PrefixIsOldest(e, now, exclude, removed);
  }

  /** `x` is the last of these records to go. */
  ghost predicate GoesLast(e: Entries, now: Time, removed: set<Bytes>, x: Bytes)
    requires removed <= e.Keys && x in removed
  {
    forall y :: y in removed && y != x ==> GoesFirst(e[y], e[x], now)
  }

  /** An undisturbed run takes none too many: without its last removal a target would be missed. */
  lemma NoneTooMany(e: Entries, now: Time, exclude: Bytes, targetBytes: int, targetRecords: int, removed: set<Bytes>, x: Bytes)
    requires Keyed(e) && Pruned(e, now, exclude, targetBytes, targetRecords, removed, None)
    requires removed <= e.Keys && x in removed && GoesLast(e, now, removed, x)
    ensures Used(e - removed) <= targetBytes && |e - removed| <= targetRecords
    ensures Used(e - (removed - {x})) > targetBytes || |e - (removed - {x})| > targetRecords
  {
    var fewer := removed - {x};
    PrefixIsOldest(e, now, exclude, removed);
    forall y, z | y in fewer && z in e && z !in fewer && z != exclude && Disposable(e[z], now) ensures GoesFirst(e[y], e[z], now) {
      assert z == x || z !in removed;
    }
    OldestIsPrefix(e, now, exclude, fewer);
    assert x !in fewer;
  }

  /** The records that a write of `id` may not evict, without the version it replaces. */
  function Others(e: Entries, id: Bytes, now: Time): Entries
  {
    map k | k in e && k != id && !Disposable(e[k], now) :: e[k]
  }

  lemma OthersIn(e: Entries, id: Bytes, now: Time)
    ensures e - Eligible(e, now, id) == if id in e then Others(e, id, now)[id := e[id]] else Others(e, id, now)
  {
  }

  lemma OthersLeft(e: Entries, id: Bytes, now: Time)
    requires Keyed(e)
    ensures var left := e - Eligible(e, now, id);
      && Used(left) == Used(Others(e, id, now)) + OldCharge(e, id)
      && |left| == |Others(e, id, now)| + if id in e then 1 else 0
  {
    var left := e - Eligible(e, now, id);
    OthersIn(e, id, now);
    if id in e {
      UsedStored(Others(e, id, now), e[id]);
      MapUpdateSize(Others(e, id, now), id, e[id]);
    }
  }

  /** A write is refused for lack of room exactly when the records that may not be evicted leave none. Otherwise what it
      evicted went in order, the old version was not among it, and on success both budgets hold with the record in place. */
  lemma PutTakesOldest(e: Entries, maxBytes: int, now: Time, m: Meta, removed: set<Bytes>, error: Option<StoreError>, after: Entries)
    requires Keyed(e) && PutOutcome(e, maxBytes, now, m, removed, error, after)
    ensures error == Some(StorageFull) <==>
      Used(Others(e, m.id, now)) + m.charge > maxBytes || |Others(e, m.id, now)| + 1 > MAX_RECORDS
    ensures error == Some(StorageFull) ==> after == e
    ensures error != Some(StorageFull) ==> OldestWent(e, now, m.id, removed)
    ensures error == None ==> after == (e - removed)[m.id := m] && Used(after) <= maxBytes && |after| <= MAX_RECORDS
    ensures error.Some? && error != Some(StorageFull) ==> after == e - removed
  {
    OthersLeft(e, m.id, now);
    if error != Some(StorageFull) {
      PrefixIsOldest(e, now, m.id, removed);
      if error == None {
        assert m.id !in removed;
        StoreFits(e - removed, m, maxBytes);
      }
    }
  }

  /** After opening a directory, every record in it that may not be evicted is there, and nothing that is not in it. */
  lemma OpenedKeeps(e: Entries, dir: seq<Meta>, now: Time, m: Meta)
    requires Loaded(e, dir, now)
    ensures m in dir && !Disposable(m, now) ==> m.id in e && e[m.id] == m
    ensures forall id :: id in e ==> e[id] in dir && e[id].id == id
  {
  }

  /** What decides whether a directory can be opened: exactly its records that may not be evicted. */
  lemma ProtectedAre(dir: seq<Meta>, now: Time, m: Meta)
    requires DistinctIds(dir) && m in dir
    ensures m.id in ProtectedOf(dir, now) <==> !Disposable(m, now)
    ensures !Disposable(m, now) ==> ProtectedOf(dir, now)[m.id] == m
  {
    ProtectedOfIs(dir, now);
    assert forall n :: n in dir && n.id == m.id ==> n == m;
  }

  // ---------- what may be stored ----------

  /** The policies a kind of record may have: what cannot be replaced is never disposable. */
  function Policies(kind: Kind): set<PrunePolicy>
  {
    match kind
    case Inbox => {PruneNever, PruneOldest, PruneAfterExpiry}
    case Outbox | Replay | DeviceEvent => {PruneNever, PruneAfterExpiry}
    case Delivery => {PruneAfterExpiry}
    case GroupState => {PruneNever}
    case FileCache | Reputation => {PruneOldest}
    case UnknownKind => {}
  }

  /** Letters, digits and the three marks of an ID. */
  predicate IdByte(b: Byte)
  {
    b in {45, 46, 95} || 48 <= b < 58 || 65 <= b < 91 || 97 <= b < 123
  }

  /** A record is valid exactly if its ID has 1 to 128 such bytes, its kind allows its policy, its times are set, ordered
      and at most five minutes ahead, its payload has up to four megabytes, an expiry comes after the creation, what is to be
      pruned after expiry has one, and group state has none. */
  lemma ValidIff(r: LocalRecord, now: Time)
    ensures ValidLocalRecord(r, now) <==>
      && r.version == 1 && 1 <= |r.id| <= 128 && (forall i :: 0 <= i < |r.id| ==> IdByte(r.id[i]))
      && r.policy in Policies(r.kind)
      && r.createdAt != ZERO_TIME && r.updatedAt != ZERO_TIME && r.createdAt <= r.updatedAt <= now + 300 * SECOND
      && 1 <= |r.payload| <= 4_194_304
      && (r.expiresAt == ZERO_TIME || r.createdAt < r.expiresAt)
      && (r.policy == PruneAfterExpiry ==> r.expiresAt != ZERO_TIME) && (r.kind == GroupState ==> r.expiresAt == ZERO_TIME)
  {
    IdIff(r.id);
    PolicyIff(r);
  }

  lemma IdIff(id: Bytes)
    ensures ValidRecordId(id) <==> 1 <= |id| <= 128 && forall i :: 0 <= i < |id| ==> IdByte(id[i])
  {
  }

  lemma PolicyIff(r: LocalRecord)
    ensures SafePolicyForKind(r) <==> r.policy in Policies(r.kind) && (r.kind == GroupState ==> r.expiresAt == ZERO_TIME)
  {
  }

  /** `s` is `t` without its digits below the millisecond. */
  predicate Truncates(s: Time, t: Time)
  {
    s % MILLISECOND == 0 && s <= t < s + MILLISECOND
  }

  /** Before it is stored a record loses the digits below the millisecond; a missing update time becomes the creation
      time, a missing expiry stays missing, and the rest is kept. */
  lemma NormalizedIs(r: LocalRecord)
    ensures var n := Normalized(r);
      && n == r.(createdAt := n.createdAt, updatedAt := n.updatedAt, expiresAt := n.expiresAt)
      && Truncates(n.createdAt, r.createdAt)
      && (if r.updatedAt == ZERO_TIME then n.updatedAt == n.createdAt else Truncates(n.updatedAt, r.updatedAt))
      && (if r.expiresAt == ZERO_TIME then n.expiresAt == ZERO_TIME else Truncates(n.expiresAt, r.expiresAt))
  {
    assert forall t: Time :: t == Millis(t) * MILLISECOND + t % MILLISECOND;
  }

  /** What the store remembers of a record it was given: ID, kind, policy and times, and as charge the size of its file and
      four kilobytes. */
  lemma RememberedAs(r: LocalRecord, fileBytes: nat)
    ensures var m := MetaOf(Normalized(r), fileBytes);
      && m.id == r.id && m.kind == r.kind && m.policy == r.policy && m.charge == fileBytes + 4096
      && Truncates(m.createdAt, r.createdAt)
      && (if r.expiresAt == ZERO_TIME then m.expiresAt == ZERO_TIME else Truncates(m.expiresAt, r.expiresAt))
  {
    NormalizedIs(r);
  }

  /** A write gets as far as the budgets exactly if its context lives, the store is open, the record is valid and its
      sealed form has at most six megabytes; otherwise the first obstacle is named. */
  lemma PutReachesBudgets(r: LocalRecord, now: Time, ctxDone: bool, closed: bool, sealedBytes: Option<nat>)
    ensures var e := PutRefused(r, now, ctxDone, closed, sealedBytes); var valid := ValidLocalRecord(Normalized(r), now);
      && (e.None? <==> !ctxDone && !closed && valid && sealedBytes.Some? && sealedBytes.value <= 6_291_456)
      && (e == Some(ContextCancelled) <==> ctxDone) && (e == Some(Closed) <==> !ctxDone && valid && closed)
      && (e.None? || e.value in {ContextCancelled, Closed, InvalidInput})
  {
  }

  /** Pruning on demand and changing the limit: the same for their arguments. */
  lemma CallGoesOn(invalid: bool, ctxDone: bool, closed: bool)
    ensures var e := CallRefused(invalid, ctxDone, closed);
      && (e.None? <==> !invalid && !ctxDone && !closed) && (e == Some(InvalidInput) <==> invalid)
      && (e == Some(Closed) <==> !invalid && !ctxDone && closed) && (e.None? || e.value in {InvalidInput, ContextCancelled, Closed})
  {
  }
}
