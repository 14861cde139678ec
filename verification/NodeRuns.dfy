/** Runs of the node store and what a restart brings back (node/store.go). */
module NodeRuns {
  import opened Bytes
  import opened Identities
  import opened Items
  import opened NodeStore
  import opened NodeDisk
  import opened Sorting
  import opened Totals

  /** One call, with what the disk does to it. */
  datatype Op =
    | PutOp(item: StoredItem, now: Time, write: WriteOutcome)
    | DeleteOp(id: Bytes, removeOk: bool, syncOk: bool)
    | SweepOp(now: Time, removable: Bytes -> bool, syncOk: bool)

  /** The items of the writes that failed in their last sync. */
  function Stranded(ops: seq<Op>): set<Bytes>
  {
    set k | 0 <= k < |ops| && ops[k].PutOp? && ops[k].write.RenamedUnsynced? :: ops[k].item.itemId
  }

  /** The files without an item. */
  function Strays(m: Contents, disk: Contents): set<Bytes>
  {
    disk.Keys - m.Keys
  }

  predicate By(op: Op, now: Time)
  {
    op.PutOp? ==> op.now <= now
  }

  method Perform(s: DiskStore, op: Op, ghost now: Time)
    requires s.Valid() && s.clock <= now && By(op, now)
    modifies s
    ensures s.Valid() && s.closed == old(s.closed) && s.clock <= now
    ensures Strays(s.items, s.disk) <= Strays(old(s.items), old(s.disk)) + Stranded([op])
  {
    match op
    case PutOp(item, at, write) =>
      PerformPut(s, item, at, write, now);
      assert write.RenamedUnsynced? ==> [op][0].item.itemId in Stranded([op]);
    case DeleteOp(id, removeOk, syncOk) =>
      var _ := s.Delete(id, removeOk, syncOk);
    case SweepOp(at, removeOk, syncOk) =>
      var _ := s.Sweep(at, removeOk, syncOk);
  }

  method PerformPut(s: DiskStore, item: StoredItem, at: Time, write: WriteOutcome, ghost now: Time)
    requires s.Valid() && s.clock <= now && at <= now
    modifies s
    ensures s.Valid() && s.closed == old(s.closed) && s.clock <= now
    ensures Strays(s.items, s.disk) <= Strays(old(s.items), old(s.disk)) + if write.RenamedUnsynced? then {item.itemId} else {}
  {
    var e := s.Put(item, at, write);
    assert e == Some(SyncFailed) ==> write.RenamedUnsynced?;
  }

  lemma StrandedNext(ops: seq<Op>, k: nat)
    requires k < |ops|
    ensures Stranded(ops[..k + 1]) == Stranded(ops[..k]) + Stranded([ops[k]])
  {
    var one := [ops[k]];
    assert ops[..k + 1] == ops[..k] + one;
    forall id | id in Stranded(ops[..k + 1]) ensures id in Stranded(ops[..k]) + Stranded(one) {
      var j :| 0 <= j <= k && ops[..k + 1][j].PutOp? && ops[..k + 1][j].write.RenamedUnsynced? && ops[..k + 1][j].item.itemId == id;
      assert j < k ==> ops[..k][j] == ops[j];
      assert j == k ==> one[0] == ops[j];
    }
    forall id | id in Stranded(ops[..k]) ensures id in Stranded(ops[..k + 1]) {
      var j :| 0 <= j < k && ops[..k][j].PutOp? && ops[..k][j].write.RenamedUnsynced? && ops[..k][j].item.itemId == id;
      assert ops[..k + 1][j] == ops[j];
    }
    forall id | id in Stranded(one) ensures id in Stranded(ops[..k + 1]) {
      assert ops[..k + 1][k] == one[0];
    }
  }

  /** Over any sequence of calls, failed ones included, the only files without an item are those of writes that failed in
      their last sync. */
  method PerformAll(s: DiskStore, ops: seq<Op>, ghost now: Time)
    requires s.Valid() && s.clock <= now && forall k :: 0 <= k < |ops| ==> By(ops[k], now)
    modifies s
    ensures s.Valid() && s.closed == old(s.closed) && s.clock <= now
    ensures Strays(s.items, s.disk) <= Strays(old(s.items), old(s.disk)) + Stranded(ops)
    ensures old(s.disk) == old(s.items) && Stranded(ops) == {} ==> s.disk == s.items
  {
    for k := 0 to |ops|
      invariant s.Valid() && s.closed == old(s.closed) && s.clock <= now
      invariant Strays(s.items, s.disk) <= Strays(old(s.items), old(s.disk)) + Stranded(ops[..k])
    {
      StrandedNext(ops, k);
      Perform(s, ops[k], now);
    }
    assert ops[..|ops|] == ops;
    if old(s.disk) == old(s.items) && Stranded(ops) == {} {
      NoStrays(s.items, s.disk);
    }
  }

  lemma NoStrays(m: Contents, disk: Contents)
    requires SubMap(m, disk) && Strays(m, disk) == {}
    ensures disk == m
  {
    assert disk.Keys == m.Keys + Strays(m, disk);
  }

  ghost predicate IsListing(listing: seq<Bytes>, files: Contents)
  {
    NoDuplicates(listing) && Elements(listing) == files.Keys
  }

  /** Any calls without a write that failed in its last sync, and then a restart for any directory order: exactly the
      unexpired items come back, into a store from which the same can be done again. */
  method RunAndRestart(s: DiskStore, ops: seq<Op>, order: Contents -> seq<Bytes>, now: Time) returns (r: DiskStore)
    requires s.Valid() && s.disk == s.items && StableUntilExpiry(s.check) && 0 < s.routeQuota <= s.capacity && s.clock <= now
    requires Stranded(ops) == {} && forall k :: 0 <= k < |ops| ==> By(ops[k], now)
    requires forall files :: IsListing(order(files), files)
    modifies s
    ensures fresh(r) && r.Opened(s.check, s.size, s.capacity, s.routeQuota, now)
    ensures r.items == Unexpired(s.items, now)
  {
    PerformAll(s, ops, now);
    assert IsListing(order(s.disk), s.disk);
    r := Restart(s, order(s.disk), now);
  }

  // ---------- files that a failed write left behind ----------

  /** Every file without an item has expired. */
  ghost predicate StraysExpired(m: Contents, disk: Contents, now: Time)
  {
    forall id :: id in disk && id !in m ==> disk[id].expiresAt <= now
  }

  lemma {:induction false} RebuiltKeeps(check: Validity, size: Sizes, capacity: int, routeQuota: int, files: Contents,
                                        a: seq<Bytes>, b: seq<Bytes>, now: Time, id: Bytes)
    requires id in Rebuilt(check, size, capacity, routeQuota, files, a, now)
    ensures id in Rebuilt(check, size, capacity, routeQuota, files, a + b, now)
    decreases |b|
  {
    if b == [] {
      assert a + b == a;
    } else {
      RebuiltKeeps(check, size, capacity, routeQuota, files, a, b[..|b| - 1], now, id);
      assert (a + b)[..|a + b| - 1] == a + b[..|b| - 1];
    }
  }

  lemma AloneWithinLimits(size: Sizes, i: StoredItem, capacity: int, routeQuota: int)
    requires FitsAlone(size, i, capacity, routeQuota)
    ensures WithinLimits(size, map[i.itemId := i], capacity, routeQuota)
  {
    EmptyIndex(size);
    NothingWithinLimits(size, capacity, routeQuota);
    FitsIff(Index(map[], map[], map[], 0), size, map[], i, capacity, routeQuota);
    assert map[][i.itemId := i] == map[i.itemId := i];
  }

  lemma NothingWithinLimits(size: Sizes, capacity: int, routeQuota: int)
    requires 0 <= capacity
    ensures WithinLimits(size, map[], capacity, routeQuota)
  {
    assert Tags(map[]) == {};
  }

  ghost function AnyOrder(ids: set<Bytes>): (s: seq<Bytes>)
    ensures NoDuplicates(s) && Elements(s) == ids
  {
    if ids == {} then []
    else
      var id := Pick(ids);
      var rest := AnyOrder(ids - {id});
      assert Elements(rest + [id]) == Elements(rest) + {id};
      rest + [id]
  }

  /** A directory order that reads a given file first. */
  lemma FirstListed(files: Contents, id: Bytes) returns (listing: seq<Bytes>)
    requires id in files
    ensures IsListing(listing, files) && listing != [] && listing[0] == id
  {
    var rest := AnyOrder(files.Keys - {id});
    listing := [id] + rest;
    assert Elements(listing) == Elements(rest) + {id};
    assert forall k :: 0 <= k < |rest| ==> rest[k] in Elements(rest);
  }

  /** Read first, an unexpired file is restored. */
  lemma FirstRestored(check: Validity, size: Sizes, capacity: int, routeQuota: int, files: Contents, listing: seq<Bytes>,
                      clock: Time, now: Time)
    requires LeftBehind(check, size, files, clock) && clock <= now && Placeable(size, files, capacity, routeQuota)
    requires listing != [] && listing[0] in files && now < files[listing[0]].expiresAt
    ensures listing[0] in Rebuilt(check, size, capacity, routeQuota, files, listing, now)
  {
    var id := listing[0];
    ReadableIff(check, size, files, clock, now, id);
    AloneWithinLimits(size, files[id], capacity, routeQuota);
    var one: seq<Bytes> := [id];
    assert |one[..0]| == 0;
    assert Rebuilt(check, size, capacity, routeQuota, files, one[..0], now) == map[];
    var none: Contents := map[];
    assert none[id := files[id]] == map[id := files[id]];
    assert id in Rebuilt(check, size, capacity, routeQuota, files, one, now);
    RebuiltKeeps(check, size, capacity, routeQuota, files, one, listing[1..], now, id);
    assert one + listing[1..] == listing;
  }

  /** A restart brings back exactly the unexpired items, for every directory order, if and only if every file that a failed
      write left behind has expired. */
  lemma RestartExactIff(check: Validity, size: Sizes, m: Contents, x: Index, disk: Contents, capacity: int, routeQuota: int,
                        clock: Time, now: Time)
    requires Sound(check, size, m, x, disk, capacity, routeQuota, clock) && StableUntilExpiry(check) && clock <= now
    ensures (forall listing :: IsListing(listing, disk) ==>
              Rebuilt(check, size, capacity, routeQuota, disk, listing, now) == Unexpired(m, now)) <==>
            StraysExpired(m, disk, now)
  {
    if StraysExpired(m, disk, now) {
      assert Unexpired(disk, now) == Unexpired(m, now);
      SmallerWithinLimits(size, Unexpired(m, now), m, capacity, routeQuota);
      forall listing | IsListing(listing, disk)
        ensures Rebuilt(check, size, capacity, routeQuota, disk, listing, now) == Unexpired(m, now)
      {
        RebuiltAll(check, size, capacity, routeQuota, disk, listing, clock, now);
      }
    } else {
      var id :| id in disk && id !in m && now < disk[id].expiresAt;
      var listing := FirstListed(disk, id);
      FirstRestored(check, size, capacity, routeQuota, disk, listing, clock, now);
      assert IsListing(listing, disk) && id !in Unexpired(m, now);
    }
  }

  /** Such a file comes back as an item although its write was reported as failed. */
  lemma StrayComesBack(check: Validity, size: Sizes, m: Contents, x: Index, capacity: int, routeQuota: int, clock: Time,
                       i: StoredItem, listing: seq<Bytes>, now: Time)
    requires Sound(check, size, m, x, m, capacity, routeQuota, clock) && StableUntilExpiry(check) && clock <= now < i.expiresAt
    requires i.itemId !in m && size(i) <= MAX_ENCODING_BYTES && WasValid(check, i, clock)
    requires Fits(x, |m|, i, Charge(size, i), capacity, routeQuota) && IsListing(listing, m[i.itemId := i])
    ensures Sound(check, size, m, x, m[i.itemId := i], capacity, routeQuota, clock)
    ensures Rebuilt(check, size, capacity, routeQuota, m[i.itemId := i], listing, now) == Unexpired(m, now)[i.itemId := i]
  {
    var disk := m[i.itemId := i];
    SoundStray(check, size, m, x, m, capacity, routeQuota, clock, i);
    FitsIff(x, size, m, i, capacity, routeQuota);
    SmallerWithinLimits(size, Unexpired(disk, now), disk, capacity, routeQuota);
    RebuiltAll(check, size, capacity, routeQuota, disk, listing, clock, now);
    assert Unexpired(disk, now) == Unexpired(m, now)[i.itemId := i];
  }
}
