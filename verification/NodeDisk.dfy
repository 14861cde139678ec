/** The store operations on the mutable indexes, and the rebuild from disk (node/store.go). */
module NodeDisk {
  import opened Bytes
  import opened Identities
  import opened Items
  import opened NodeStore
  import opened Sorting
  import opened Totals

  function Unexpired(m: Contents, now: Time): Contents
  {
    map id | id in m && now < m[id].expiresAt :: m[id]
  }

  /** The item check of `protocol.ValidateItem` at the node's maximum size. */
  type Validity = (StoredItem, Time) -> bool

  /** What the store needs of the item check: an item once valid stays valid exactly until it expires. */
  ghost predicate StableUntilExpiry(check: Validity)
  {
    forall i, t, u :: check(i, t) && t <= u ==> (check(i, u) <==> u < i.expiresAt)
  }

  function ProtocolCheck(w: Protocol): Validity
  {
    (i: StoredItem, t: Time) => ValidItem(w, i, t, DEFAULT_MAX_ITEM_BYTES)
  }

  lemma ProtocolCheckStable(w: Protocol)
    ensures StableUntilExpiry(ProtocolCheck(w))
  {
    var check := ProtocolCheck(w);
    forall i, t, u | check(i, t) && t <= u ensures check(i, u) <==> u < i.expiresAt {
      ValidUntilExpiry(w, i, t, u, DEFAULT_MAX_ITEM_BYTES);
    }
  }

  ghost predicate WasValid(check: Validity, i: StoredItem, clock: Time)
  {
    exists t :: t <= clock && check(i, t)
  }

  /** Every item was valid, and small enough to store, when it was accepted at some moment up to `clock`. */
  ghost predicate Accepted(check: Validity, size: Sizes, m: Contents, clock: Time)
  {
    forall id :: id in m ==> size(m[id]) <= MAX_ENCODING_BYTES && WasValid(check, m[id], clock)
  }

  lemma StillValid(check: Validity, i: StoredItem, clock: Time, now: Time)
    requires StableUntilExpiry(check) && WasValid(check, i, clock) && clock <= now
    ensures check(i, now) <==> now < i.expiresAt
  {
  }

  /** The directory holds every item. It may also hold the file of a write that failed in its last sync; every
      file was accepted by `clock`. */
  ghost predicate OnDisk(check: Validity, size: Sizes, m: Contents, disk: Contents, clock: Time)
  {
    SubMap(m, disk) && Keyed(disk) && Accepted(check, size, disk, clock)
  }

  predicate FitsAlone(size: Sizes, i: StoredItem, capacity: int, routeQuota: int)
  {
    Charge(size, i) <= capacity && Charge(size, i) <= routeQuota
  }

  /** Every file was within the limits when it was written, so it is by itself. */
  ghost predicate Placeable(size: Sizes, files: Contents, capacity: int, routeQuota: int)
  {
    forall id :: id in files ==> FitsAlone(size, files[id], capacity, routeQuota)
  }

  lemma PlaceableWritten(size: Sizes, files: Contents, i: StoredItem, capacity: int, routeQuota: int)
    requires Placeable(size, files, capacity, routeQuota) && FitsAlone(size, i, capacity, routeQuota)
    ensures Placeable(size, files[i.itemId := i], capacity, routeQuota)
  {
    var n := files[i.itemId := i];
    forall id | id in n ensures FitsAlone(size, n[id], capacity, routeQuota) {
      assert id != i.itemId ==> n[id] == files[id];
    }
  }

  lemma FitsByItself(x: Index, size: Sizes, m: Contents, i: StoredItem, capacity: int, routeQuota: int)
    requires IsIndex(x, size, m) && Fits(x, |m|, i, Charge(size, i), capacity, routeQuota)
    ensures FitsAlone(size, i, capacity, routeQuota)
  {
    LimitReadings(x, size, m, i.routeTag);
  }

  /** The four indexes agree with the items, the quotas hold, and the directory holds the items. */
  ghost predicate Sound(check: Validity, size: Sizes, m: Contents, x: Index, disk: Contents, capacity: int, routeQuota: int, clock: Time)
  {
    && Keyed(m)
    && IsIndex(x, size, m)
    && WithinLimits(size, m, capacity, routeQuota)
    && OnDisk(check, size, m, disk, clock)
    && Placeable(size, disk, capacity, routeQuota)
  }

  lemma OnDiskWritten(check: Validity, size: Sizes, m: Contents, disk: Contents, clock: Time, i: StoredItem)
    requires OnDisk(check, size, m, disk, clock) && i.itemId !in m && size(i) <= MAX_ENCODING_BYTES && WasValid(check, i, clock)
    ensures OnDisk(check, size, m[i.itemId := i], disk[i.itemId := i], clock)
    ensures OnDisk(check, size, m, disk[i.itemId := i], clock)
  {
  }

  lemma SoundStored(check: Validity, size: Sizes, m: Contents, x: Index, disk: Contents, capacity: int, routeQuota: int, clock: Time, i: StoredItem)
    requires Sound(check, size, m, x, disk, capacity, routeQuota, clock)
    requires i.itemId !in m && size(i) <= MAX_ENCODING_BYTES && WasValid(check, i, clock)
    requires Fits(x, |m|, i, Charge(size, i), capacity, routeQuota)
    ensures Sound(check, size, m[i.itemId := i], Added(x, i, Charge(size, i)), disk[i.itemId := i], capacity, routeQuota, clock)
  {
    FitsIff(x, size, m, i, capacity, routeQuota);
    AddedIsIndex(x, size, m, i);
    OnDiskWritten(check, size, m, disk, clock, i);
    FitsByItself(x, size, m, i, capacity, routeQuota);
    PlaceableWritten(size, disk, i, capacity, routeQuota);
    SoundFrom(check, size, m[i.itemId := i], Added(x, i, Charge(size, i)), disk[i.itemId := i], capacity, routeQuota, clock);
  }

  lemma SoundStray(check: Validity, size: Sizes, m: Contents, x: Index, disk: Contents, capacity: int, routeQuota: int, clock: Time, i: StoredItem)
    requires Sound(check, size, m, x, disk, capacity, routeQuota, clock)
    requires i.itemId !in m && size(i) <= MAX_ENCODING_BYTES && WasValid(check, i, clock)
    requires Fits(x, |m|, i, Charge(size, i), capacity, routeQuota)
    ensures Sound(check, size, m, x, disk[i.itemId := i], capacity, routeQuota, clock)
  {
    FitsByItself(x, size, m, i, capacity, routeQuota);
    OnDiskWritten(check, size, m, disk, clock, i);
  }

  lemma SoundFrom(check: Validity, size: Sizes, m: Contents, x: Index, disk: Contents, capacity: int, routeQuota: int, clock: Time)
    requires Keyed(m) && IsIndex(x, size, m) && WithinLimits(size, m, capacity, routeQuota)
    requires OnDisk(check, size, m, disk, clock) && Placeable(size, disk, capacity, routeQuota)
    ensures Sound(check, size, m, x, disk, capacity, routeQuota, clock)
  {
  }

  lemma SoundRemoved(check: Validity, size: Sizes, m: Contents, x: Index, disk: Contents, capacity: int, routeQuota: int, clock: Time, id: Bytes)
    requires Sound(check, size, m, x, disk, capacity, routeQuota, clock) && id in m
    ensures id in x.charges
    ensures Sound(check, size, m - {id}, Dropped(x, id, m[id].routeTag), disk - {id}, capacity, routeQuota, clock)
  {
    DroppedIsIndex(x, size, m, id);
    SmallerWithinLimits(size, m - {id}, m, capacity, routeQuota);
  }

  lemma SoundLater(check: Validity, size: Sizes, m: Contents, x: Index, disk: Contents, capacity: int, routeQuota: int, clock: Time, later: Time)
    requires Sound(check, size, m, x, disk, capacity, routeQuota, clock) && clock <= later
    ensures Sound(check, size, m, x, disk, capacity, routeQuota, later)
  {
    LaterAccepted(check, size, disk, clock, later);
  }

  /** How the write of a file ends: in place, not in place, or in place with a failed sync of the directory. */
  datatype WriteOutcome = Written | NotWritten | RenamedUnsynced

  class DiskStore {
    const check: Validity
    const size: Sizes
    const capacity: int
    const routeQuota: int
    var items: Contents
    /** The charge per item, the items per route, the charge per route, and the total charge. */
    var index: Index
    /** The files in the directory, by the item ID in their name. */
    var disk: Contents
    var closed: bool
    /** The latest clock reading at which an item was accepted. */
    ghost var clock: Time

    ghost predicate Valid()
      reads this
    {
      Sound(check, size, items, index, disk, capacity, routeQuota, clock)
    }

    /** An open store with these parameters whose directory holds its items and nothing else. */
    ghost predicate Opened(check: Validity, size: Sizes, capacity: int, routeQuota: int, now: Time)
      reads this
    {
      && Valid() && disk == items && !closed && clock == now
      && this.check == check && this.size == size && this.capacity == capacity && this.routeQuota == routeQuota
    }

    constructor Empty(check: Validity, size: Sizes, capacity: int, routeQuota: int, ghost clock: Time)
      requires 0 < routeQuota <= capacity
      ensures Valid() && items == map[] && disk == map[] && !closed && this.clock == clock
      ensures this.check == check && this.size == size && this.capacity == capacity && this.routeQuota == routeQuota
    {
      this.check, this.size, this.capacity, this.routeQuota := check, size, capacity, routeQuota;
      items, index := map[], Index(map[], map[], map[], 0);
      disk, closed := map[], false;
      this.clock := clock;
      new;
      EmptyIndex(size);
      assert Sound(check, size, items, index, disk, capacity, routeQuota, clock);
    }

    /** Storing an item that is already there changes nothing and succeeds. A write that fails in its last sync
        leaves the file, and only the file. */
    method Put(i: StoredItem, now: Time, write: WriteOutcome) returns (e: Option<StoreError>)
      requires Valid()
      modifies this
      ensures Valid() && closed == old(closed) && clock == if old(clock) < now then now else old(clock)
      ensures e == PutResult(old(closed), check, size, old(items), capacity, routeQuota, i, now, write)
      ensures items == if e.None? then old(items)[i.itemId := if i.itemId in old(items) then old(items)[i.itemId] else i] else old(items)
      ensures disk ==
        if (e.None? && i.itemId !in old(items)) || e == Some(SyncFailed) then old(disk)[i.itemId := i] else old(disk)
    {
      Tick(now);
      e := PutTicked(i, now, write);
    }

    method PutTicked(i: StoredItem, now: Time, write: WriteOutcome) returns (e: Option<StoreError>)
      requires Valid() && now <= clock
      modifies this`items, this`index, this`disk
      ensures Valid() && e == PutResult(closed, check, size, old(items), capacity, routeQuota, i, now, write)
      ensures items == if e.None? then old(items)[i.itemId := if i.itemId in old(items) then old(items)[i.itemId] else i] else old(items)
      ensures disk ==
        if (e.None? && i.itemId !in old(items)) || e == Some(SyncFailed) then old(disk)[i.itemId := i] else old(disk)
    {
      if closed {
        return Some(StoreClosed);
      }
      if !check(i, now) {
        return Some(ItemRejected);
      }
      if i.itemId in items {
        assert items == items[i.itemId := items[i.itemId]];
        return None;
      }
      if size(i) > MAX_ENCODING_BYTES {
        return Some(ItemTooLarge);
      }
      e := Admit(i, write);
    }

    ghost method Tick(now: Time)
      requires Valid()
      modifies this`clock
      ensures Valid() && clock == if old(clock) < now then now else old(clock)
    {
      SoundLater(check, size, items, index, disk, capacity, routeQuota, clock, if clock < now then now else clock);
      clock := if clock < now then now else clock;
    }

    /** The quota checks and the write. */
    method Admit(i: StoredItem, write: WriteOutcome) returns (e: Option<StoreError>)
      requires Valid() && i.itemId !in items && size(i) <= MAX_ENCODING_BYTES && WasValid(check, i, clock)
      modifies this`items, this`index, this`disk
      ensures Valid() && e == AdmitResult(size, old(items), capacity, routeQuota, i, write)
      ensures items == if e.None? then old(items)[i.itemId := i] else old(items)
      ensures disk == if e.None? || e == Some(SyncFailed) then old(disk)[i.itemId := i] else old(disk)
    {
      var charge := Charge(size, i);
      LimitReadings(index, size, items, i.routeTag);
      if |items| >= MAX_STORED_ITEMS || index.used + charge > capacity {
        return Some(StorageFull);
      }
      if |RouteSet(index, i.routeTag)| >= MAX_ITEMS_PER_ROUTE || RouteBytes(index, i.routeTag) + charge > routeQuota {
        return Some(MailboxQuota);
      }
      e := WriteItem(i, charge, write);
    }

    /** The file first, and the indexes only if it was written and synced. */
    method WriteItem(i: StoredItem, charge: nat, write: WriteOutcome) returns (e: Option<StoreError>)
      requires Valid() && i.itemId !in items && charge == Charge(size, i) && size(i) <= MAX_ENCODING_BYTES
      requires Fits(index, |items|, i, charge, capacity, routeQuota) && WasValid(check, i, clock)
      modifies this`items, this`index, this`disk
      ensures Valid() && e == WriteResult(write)
      ensures items == if write.Written? then old(items)[i.itemId := i] else old(items)
      ensures disk == if write.NotWritten? then old(disk) else old(disk)[i.itemId := i]
    {
      if write.Written? {
        StoreItem(i, charge);
      } else if write.RenamedUnsynced? {
        StrandFile(i);
      }
      e := WriteResult(write);
    }

    method StrandFile(i: StoredItem)
      requires Valid() && i.itemId !in items && size(i) <= MAX_ENCODING_BYTES && WasValid(check, i, clock)
      requires Fits(index, |items|, i, Charge(size, i), capacity, routeQuota)
      modifies this`items, this`index, this`disk
      ensures Valid() && items == old(items) && disk == old(disk)[i.itemId := i]
    {
      SoundStray(check, size, items, index, disk, capacity, routeQuota, clock, i);
      Install(items, index, disk[i.itemId := i]);
    }

    method Install(m: Contents, x: Index, d: Contents)
      requires Sound(check, size, m, x, d, capacity, routeQuota, clock)
      modifies this`items, this`index, this`disk
      ensures Valid() && items == m && index == x && disk == d
    {
      items, index, disk := m, x, d;
    }

    /** Writes the file and enters the item into every index. */
    method StoreItem(i: StoredItem, charge: nat)
      requires Valid() && i.itemId !in items && charge == Charge(size, i) && size(i) <= MAX_ENCODING_BYTES
      requires Fits(index, |items|, i, charge, capacity, routeQuota) && WasValid(check, i, clock)
      modifies this`items, this`index, this`disk
      ensures Valid() && items == old(items)[i.itemId := i] && disk == old(disk)[i.itemId := i]
    {
      SoundStored(check, size, items, index, disk, capacity, routeQuota, clock, i);
      Install(items[i.itemId := i], Added(index, i, charge), disk[i.itemId := i]);
    }

    method RemoveItem(id: Bytes)
      requires Valid() && id in items
      modifies this`items, this`index, this`disk
      ensures Valid() && items == old(items) - {id} && disk == old(disk) - {id}
    {
      SoundRemoved(check, size, items, index, disk, capacity, routeQuota, clock, id);
      Install(items - {id}, Dropped(index, id, items[id].routeTag), disk - {id});
    }

    /** One file of the rebuild loop. */
    method Restore(name: Bytes, i: StoredItem, now: Time)
      requires Valid() && name !in items && clock == now
      modifies this`items, this`index, this`disk
      ensures Valid()
      ensures var kept := Readable(check, size, name, i, now) && WithinLimits(size, old(items)[name := i], capacity, routeQuota);
        items == (if kept then old(items)[name := i] else old(items)) && disk == (if kept then old(disk)[name := i] else old(disk))
    {
      if size(i) > MAX_ENCODING_BYTES || !check(i, now) || name != i.itemId {
        return;
      }
      var charge := Charge(size, i);
      FitsIff(index, size, items, i, capacity, routeQuota);
      if |items| >= MAX_STORED_ITEMS || index.used + charge > capacity || RouteBytes(index, i.routeTag) + charge > routeQuota ||
         |RouteSet(index, i.routeTag)| >= MAX_ITEMS_PER_ROUTE {
        return;
      }
      StoreItem(i, charge);
    }

    method Get(id: Bytes, now: Time) returns (r: Option<StoredItem>)
      requires Valid()
      ensures r == if !closed && id in Unexpired(items, now) then Some(items[id]) else None
    {
      if closed {
        return None;
      }
      if id !in items || items[id].expiresAt <= now {
        return None;
      }
      return Some(items[id]);
    }

    /** The item and its file go if and only if the file could be removed, whatever the final sync reports. */
    method Delete(id: Bytes, removeOk: bool, syncOk: bool) returns (e: Option<StoreError>)
      requires Valid()
      modifies this`items, this`index, this`disk
      ensures Valid()
      ensures var gone := !closed && id in old(items) && removeOk;
        items == (if gone then old(items) - {id} else old(items)) && disk == (if gone then old(disk) - {id} else old(disk))
      ensures e ==
        if closed then Some(StoreClosed) else if id !in old(items) then Some(NotFound)
        else if !removeOk then Some(WriteError) else if !syncOk then Some(SyncFailed) else None
    {
      if closed {
        return Some(StoreClosed);
      }
      if id !in items {
        return Some(NotFound);
      }
      if !removeOk {
        return Some(WriteError);
      }
      RemoveItem(id);
      return if syncOk then None else Some(SyncFailed);
    }

    /** Visits the items in an arbitrary order and stops at the first file it cannot remove. */
    method Sweep(now: Time, removeOk: Bytes -> bool, syncOk: bool) returns (e: Option<StoreError>)
      requires Valid()
      modifies this`items, this`index, this`disk
      ensures Valid() && SubMap(items, old(items)) && SubMap(Unexpired(old(items), now), items)
      ensures disk == old(disk) - (old(items).Keys - items.Keys)
      ensures e.None? || e == Some(SyncFailed) ==> items == Unexpired(old(items), now)
      ensures !closed && (forall id :: removeOk(id)) ==> e == if items != old(items) && !syncOk then Some(SyncFailed) else None
    {
      if closed {
        assert disk == disk - {};
        return Some(StoreClosed);
      }
      var done, removed;
      ghost var left;
      done, removed, left := SweepLoop(now, removeOk);
      SweepSoFar(old(items), old(disk), items, disk, left, now);
      if !done {
        return Some(WriteError);
      }
      return if removed && !syncOk then Some(SyncFailed) else None;
    }

    method SweepLoop(now: Time, removeOk: Bytes -> bool) returns (done: bool, removed: bool, ghost left: set<Bytes>)
      requires Valid()
      modifies this`items, this`index, this`disk
      ensures Valid() && Sweeping(old(items), old(disk), items, disk, left, now)
      ensures (removed <==> items != old(items)) && (done ==> left == {}) && ((forall id :: removeOk(id)) ==> done)
    {
      var ids := items.Keys;
      removed, left := false, ids;
      assert disk == disk - {};
      while ids != {}
        invariant Valid() && Sweeping(old(items), old(disk), items, disk, ids, now) && (removed <==> items != old(items))
        decreases ids
      {
        var id :| id in ids;
        if now < items[id].expiresAt {
          SweepSkips(old(items), old(disk), items, disk, ids, id, now);
        } else {
          if !removeOk(id) {
            return false, removed, ids;
          }
          SweepStep(old(items), old(disk), items, disk, ids, id, now);
          RemoveItem(id);
          removed := true;
        }
        ids := ids - {id};
      }
      return true, removed, ids;
    }
  }

  /** Only expired items and their files have gone, and those still expired are yet to be visited. */
  ghost predicate Sweeping(before: Contents, files: Contents, m: Contents, disk: Contents, ids: set<Bytes>, now: Time)
  {
    && ids <= m.Keys && SubMap(m, before) && SubMap(Unexpired(before, now), m)
    && disk == files - (before.Keys - m.Keys)
    && forall id :: id in m && id !in ids ==> now < m[id].expiresAt
  }

  lemma SweepSkips(before: Contents, files: Contents, m: Contents, disk: Contents, ids: set<Bytes>, id: Bytes, now: Time)
    requires Sweeping(before, files, m, disk, ids, now) && id in ids && now < m[id].expiresAt
    ensures Sweeping(before, files, m, disk, ids - {id}, now)
  {
  }

  lemma SweepStep(before: Contents, files: Contents, m: Contents, disk: Contents, ids: set<Bytes>, id: Bytes, now: Time)
    requires Sweeping(before, files, m, disk, ids, now) && id in ids && m[id].expiresAt <= now
    ensures Sweeping(before, files, m - {id}, disk - {id}, ids - {id}, now) && m - {id} != before
  {
    assert before.Keys - (m - {id}).Keys == (before.Keys - m.Keys) + {id};
  }

  lemma SweepSoFar(before: Contents, files: Contents, m: Contents, disk: Contents, ids: set<Bytes>, now: Time)
    requires Sweeping(before, files, m, disk, ids, now)
    ensures SubMap(m, before) && SubMap(Unexpired(before, now), m) && disk == files - (before.Keys - m.Keys)
    ensures ids == {} ==> m == Unexpired(before, now)
  {
  }

  // ---------- rebuilding from the directory ----------

  /** A file is kept by the rebuild loop's checks, before the quotas. */
  predicate Readable(check: Validity, size: Sizes, name: Bytes, i: StoredItem, now: Time)
  {
    size(i) <= MAX_ENCODING_BYTES && check(i, now) && name == i.itemId
  }

  /** What the rebuild loop keeps of the files it has read in this order. */
  ghost function Rebuilt(check: Validity, size: Sizes, capacity: int, routeQuota: int, files: Contents, listing: seq<Bytes>, now: Time): Contents
  {
    if listing == [] then map[]
    else
      var m, name := Rebuilt(check, size, capacity, routeQuota, files, listing[..|listing| - 1], now), listing[|listing| - 1];
      if name in files && Readable(check, size, name, files[name], now) && WithinLimits(size, m[name := files[name]], capacity, routeQuota)
      then m[name := files[name]] else m
  }

  lemma {:induction false} RebuiltFrom(check: Validity, size: Sizes, capacity: int, routeQuota: int, files: Contents, listing: seq<Bytes>, now: Time)
    ensures var m := Rebuilt(check, size, capacity, routeQuota, files, listing, now);
      SubMap(m, files) && forall id :: id in m ==> id in listing
  {
    if listing != [] {
      RebuiltFrom(check, size, capacity, routeQuota, files, listing[..|listing| - 1], now);
    }
  }

  /** The files of a store whose clock has reached `clock`. */
  ghost predicate LeftBehind(check: Validity, size: Sizes, files: Contents, clock: Time)
  {
    StableUntilExpiry(check) && Keyed(files) && Accepted(check, size, files, clock)
  }

  lemma ReadableIff(check: Validity, size: Sizes, files: Contents, clock: Time, now: Time, name: Bytes)
    requires LeftBehind(check, size, files, clock) && clock <= now && name in files
    ensures Readable(check, size, name, files[name], now) <==> now < files[name].expiresAt
  {
    StillValid(check, files[name], clock, now);
  }

  /** In a directory left behind, exactly the unexpired files are read, and if they are within the limits together,
      every one of them fits at its turn. */
  lemma RestoreFits(check: Validity, size: Sizes, files: Contents, capacity: int, routeQuota: int, clock: Time, now: Time,
                    m: Contents, name: Bytes)
    requires LeftBehind(check, size, files, clock) && clock <= now && name in files
    requires WithinLimits(size, Unexpired(files, now), capacity, routeQuota) && SubMap(m, Unexpired(files, now))
    ensures Readable(check, size, name, files[name], now) <==> now < files[name].expiresAt
    ensures now < files[name].expiresAt ==> WithinLimits(size, m[name := files[name]], capacity, routeQuota)
  {
    ReadableIff(check, size, files, clock, now, name);
    if now < files[name].expiresAt {
      SmallerWithinLimits(size, m[name := files[name]], Unexpired(files, now), capacity, routeQuota);
    }
  }

  /** The unexpired files among those read so far. */
  ghost function ReadSoFar(files: Contents, listing: seq<Bytes>, now: Time): Contents
  {
    map id | id in Unexpired(files, now) && id in listing :: files[id]
  }

  lemma {:induction false} RebuiltSoFar(check: Validity, size: Sizes, capacity: int, routeQuota: int, files: Contents, listing: seq<Bytes>,
                                        clock: Time, now: Time)
    requires LeftBehind(check, size, files, clock) && clock <= now && WithinLimits(size, Unexpired(files, now), capacity, routeQuota)
    ensures Rebuilt(check, size, capacity, routeQuota, files, listing, now) == ReadSoFar(files, listing, now)
  {
    if listing != [] {
      var front, name := listing[..|listing| - 1], listing[|listing| - 1];
      assert listing == front + [name];
      RebuiltSoFar(check, size, capacity, routeQuota, files, front, clock, now);
      var m := Rebuilt(check, size, capacity, routeQuota, files, front, now);
      if name in files {
        RestoreFits(check, size, files, capacity, routeQuota, clock, now, m, name);
      }
    }
  }

  /** If the unexpired files are within the limits together, every directory order brings back exactly those. */
  lemma RebuiltAll(check: Validity, size: Sizes, capacity: int, routeQuota: int, files: Contents, listing: seq<Bytes>, clock: Time, now: Time)
    requires LeftBehind(check, size, files, clock) && clock <= now && WithinLimits(size, Unexpired(files, now), capacity, routeQuota)
    requires Elements(listing) == files.Keys
    ensures Rebuilt(check, size, capacity, routeQuota, files, listing, now) == Unexpired(files, now)
  {
    RebuiltSoFar(check, size, capacity, routeQuota, files, listing, clock, now);
    forall id | id in Unexpired(files, now) ensures id in listing {
      assert id in Elements(listing);
    }
  }

  /** Opening a directory: reads the files in the order `listing`, and drops what is unreadable, expired or over quota. */
  method OpenStore(check: Validity, size: Sizes, capacity: int, routeQuota: int, files: Contents, listing: seq<Bytes>, now: Time)
    returns (s: Option<DiskStore>)
    requires NoDuplicates(listing) && Elements(listing) == files.Keys
    ensures s.Some? <==> 0 < routeQuota <= capacity
    ensures s.Some? ==> fresh(s.value) && s.value.Opened(check, size, capacity, routeQuota, now)
    ensures s.Some? ==> s.value.items == Rebuilt(check, size, capacity, routeQuota, files, listing, now)
  {
    if capacity <= 0 || routeQuota <= 0 || routeQuota > capacity {
      return None;
    }
    var store := new DiskStore.Empty(check, size, capacity, routeQuota, now);
    for k := 0 to |listing|
      invariant fresh(store) && store.Opened(check, size, capacity, routeQuota, now)
      invariant store.items == Rebuilt(check, size, capacity, routeQuota, files, listing[..k], now)
    {
      var name := listing[k];
      NextFile(check, size, capacity, routeQuota, files, listing, k, now);
      store.Restore(name, files[name], now);
    }
    assert listing[..|listing|] == listing;
    return Some(store);
  }

  lemma NextFile(check: Validity, size: Sizes, capacity: int, routeQuota: int, files: Contents, listing: seq<Bytes>, k: nat, now: Time)
    requires k < |listing| && NoDuplicates(listing) && Elements(listing) == files.Keys
    ensures var m, name := Rebuilt(check, size, capacity, routeQuota, files, listing[..k], now), listing[k];
      && name in files && name !in m
      && Rebuilt(check, size, capacity, routeQuota, files, listing[..k + 1], now) ==
           if Readable(check, size, name, files[name], now) && WithinLimits(size, m[name := files[name]], capacity, routeQuota)
           then m[name := files[name]] else m
  {
    assert listing[k] in Elements(listing);
    RebuiltFrom(check, size, capacity, routeQuota, files, listing[..k], now);
    assert listing[k] !in listing[..k];
    RebuiltNext(check, size, capacity, routeQuota, files, listing, k, now);
  }

  lemma RebuiltNext(check: Validity, size: Sizes, capacity: int, routeQuota: int, files: Contents, listing: seq<Bytes>, k: nat, now: Time)
    requires k < |listing| && listing[k] in files
    ensures var m, name := Rebuilt(check, size, capacity, routeQuota, files, listing[..k], now), listing[k];
      Rebuilt(check, size, capacity, routeQuota, files, listing[..k + 1], now) ==
        if Readable(check, size, name, files[name], now) && WithinLimits(size, m[name := files[name]], capacity, routeQuota)
        then m[name := files[name]] else m
  {
    assert listing[..k + 1][..k] == listing[..k];
  }

  /** A restart at any later moment, for any directory order. What comes back depends only on the files; it is exactly the
      unexpired ones if those are within the limits, and exactly the unexpired items if no failed write was left behind. */
  method Restart(s: DiskStore, listing: seq<Bytes>, now: Time) returns (r: DiskStore)
    requires s.Valid() && StableUntilExpiry(s.check) && 0 < s.routeQuota <= s.capacity && s.clock <= now
    requires NoDuplicates(listing) && Elements(listing) == s.disk.Keys
    ensures fresh(r) && r.Opened(s.check, s.size, s.capacity, s.routeQuota, now)
    ensures r.items == Rebuilt(s.check, s.size, s.capacity, s.routeQuota, s.disk, listing, now)
    ensures WithinLimits(s.size, Unexpired(s.disk, now), s.capacity, s.routeQuota) ==> r.items == Unexpired(s.disk, now)
    ensures s.disk == s.items ==> r.items == Unexpired(s.items, now)
  {
    var reopened := OpenStore(s.check, s.size, s.capacity, s.routeQuota, s.disk, listing, now);
    r := reopened.value;
    if WithinLimits(s.size, Unexpired(s.disk, now), s.capacity, s.routeQuota) {
      RebuiltAll(s.check, s.size, s.capacity, s.routeQuota, s.disk, listing, s.clock, now);
    }
    SmallerWithinLimits(s.size, Unexpired(s.items, now), s.items, s.capacity, s.routeQuota);
  }

  /** The checks of Put in their order; the quota checks compare the contents with the new item. */
  ghost function PutResult(closed: bool, check: Validity, size: Sizes, m: Contents, capacity: int, routeQuota: int,
                           i: StoredItem, now: Time, write: WriteOutcome): Option<StoreError>
  {
    if closed then Some(StoreClosed)
    else if !check(i, now) then Some(ItemRejected)
    else if i.itemId in m then None
    else if size(i) > MAX_ENCODING_BYTES then Some(ItemTooLarge)
    else AdmitResult(size, m, capacity, routeQuota, i, write)
  }

  ghost function AdmitResult(size: Sizes, m: Contents, capacity: int, routeQuota: int, i: StoredItem, write: WriteOutcome): Option<StoreError>
  {
    if |m| >= MAX_STORED_ITEMS || UsedBy(size, m) + Charge(size, i) > capacity then Some(StorageFull)
    else if |RoutePart(m, i.routeTag)| >= MAX_ITEMS_PER_ROUTE ||
            UsedBy(size, RoutePart(m, i.routeTag)) + Charge(size, i) > routeQuota then Some(MailboxQuota)
    else WriteResult(write)
  }

  /** The quota checks look at the contents as they would be with the new item. */
  lemma AdmitIff(size: Sizes, m: Contents, x: Index, capacity: int, routeQuota: int, i: StoredItem, write: WriteOutcome)
    requires IsIndex(x, size, m) && WithinLimits(size, m, capacity, routeQuota) && i.itemId !in m
    ensures var e := AdmitResult(size, m, capacity, routeQuota, i, write); var n := m[i.itemId := i];
      && (e == Some(StorageFull) <==> UsedBy(size, n) > capacity || |n| > 1_000_000)
      && (e == Some(MailboxQuota) <==> UsedBy(size, n) <= capacity && |n| <= 1_000_000 && !WithinLimits(size, n, capacity, routeQuota))
      && (WithinLimits(size, n, capacity, routeQuota) ==> e == WriteResult(write))
  {
    FitsIff(x, size, m, i, capacity, routeQuota);
    LimitReadings(x, size, m, i.routeTag);
    UsedStored(size, m, i);
    MapUpdateSize(m, i.itemId, i);
  }

  /** What a node accepts: an open store takes a valid item exactly if it is already there, or it is small enough to
      encode, all four limits hold with it, and the write succeeds. */
  lemma PutAcceptsIff(closed: bool, check: Validity, size: Sizes, m: Contents, x: Index, capacity: int, routeQuota: int,
                      i: StoredItem, now: Time, write: WriteOutcome)
    requires IsIndex(x, size, m) && WithinLimits(size, m, capacity, routeQuota)
    ensures PutResult(closed, check, size, m, capacity, routeQuota, i, now, write).None? <==>
      && !closed && check(i, now)
      && (i.itemId in m || (size(i) <= 720_896 && WithinLimits(size, m[i.itemId := i], capacity, routeQuota) && write.Written?))
  {
    if i.itemId !in m {
      AdmitIff(size, m, x, capacity, routeQuota, i, write);
    }
  }

  /** What is wrong is named in the order closed, invalid, too large, node limits, route limits, disk. */
  lemma PutNames(closed: bool, check: Validity, size: Sizes, m: Contents, x: Index, capacity: int, routeQuota: int,
                 i: StoredItem, now: Time, write: WriteOutcome)
    requires IsIndex(x, size, m) && WithinLimits(size, m, capacity, routeQuota)
    ensures var e, fits := PutResult(closed, check, size, m, capacity, routeQuota, i, now, write), i.itemId !in m && size(i) <= 720_896;
      && (e == Some(StoreClosed) <==> closed)
      && (e == Some(ItemRejected) <==> !closed && !check(i, now))
      && (e == Some(ItemTooLarge) <==> !closed && check(i, now) && i.itemId !in m && size(i) > 720_896)
      && (!closed && check(i, now) && fits ==> e == AdmitResult(size, m, capacity, routeQuota, i, write))
  {
  }

  function WriteResult(write: WriteOutcome): Option<StoreError>
  {
    match write
    case Written => None
    case NotWritten => Some(WriteError)
    case RenamedUnsynced => Some(SyncFailed)
  }

  lemma LimitReadings(x: Index, size: Sizes, m: Contents, tag: Bytes)
    requires IsIndex(x, size, m)
    ensures x.used == UsedBy(size, m)
    ensures |RouteSet(x, tag)| == |RoutePart(m, tag)| && RouteBytes(x, tag) == UsedBy(size, RoutePart(m, tag))
  {
    RouteReadings(x, size, m, tag);
    RouteIdsSize(m, tag);
  }

  lemma LaterAccepted(check: Validity, size: Sizes, m: Contents, clock: Time, later: Time)
    requires Accepted(check, size, m, clock) && clock <= later
    ensures Accepted(check, size, m, later)
  {
    forall id | id in m ensures WasValid(check, m[id], later) {
      var t :| t <= clock && check(m[id], t);
    }
  }

  lemma EmptyIndex(size: Sizes)
    ensures IsIndex(Index(map[], map[], map[], 0), size, map[])
  {
    assert ChargesOf(size, map[]).Keys == {};
    assert Tags(map[]) == {};
  }
}
