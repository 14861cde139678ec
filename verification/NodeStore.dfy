/** The node's item store: a primary map, three derived indexes and quotas (node/store.go). */
module NodeStore {
  import opened Bytes
  import opened Items
  import opened Sorting
  import opened Totals

  const MAX_STORED_ITEMS := 1_000_000
  const MAX_ITEMS_PER_ROUTE := 1024
  const ITEM_OVERHEAD := 4 * 1024
  const MAX_ENCODING_BYTES := DEFAULT_MAX_ITEM_BYTES * 2 + 64 * 1024

  type Contents = map<Bytes, StoredItem>

  datatype StoreError = StoreClosed | ItemRejected | ItemTooLarge | StorageFull | MailboxQuota | WriteError | SyncFailed | NotFound

  /** The length of an item's JSON encoding, which the charge is computed from; it is never empty. */
  type Sizes = f: StoredItem -> nat | forall i :: f(i) > 0 witness (i: StoredItem) => 2

  function Charge(size: Sizes, i: StoredItem): nat
  {
    if size(i) == 0 then 0 else size(i) + ITEM_OVERHEAD
  }

  /** Every stored item is charged its encoding and four kilobytes. */
  lemma ChargeIs(size: Sizes, i: StoredItem)
    ensures Charge(size, i) == size(i) + 4096
  {
  }

  // ---------- what the indexes must be, as functions of the contents ----------

  function ChargesOf(size: Sizes, m: Contents): map<Bytes, nat>
  {
    map id | id in m :: Charge(size, m[id])
  }

  function RouteIds(m: Contents, tag: Bytes): set<Bytes>
  {
    set id | id in m && m[id].routeTag == tag
  }

  function Tags(m: Contents): set<Bytes>
  {
    set id | id in m :: m[id].routeTag
  }

  function RouteIndex(m: Contents): map<Bytes, set<Bytes>>
  {
    map tag | tag in Tags(m) :: RouteIds(m, tag)
  }

  function RoutePart(m: Contents, tag: Bytes): Contents
  {
    map id | id in m && m[id].routeTag == tag :: m[id]
  }

  ghost function UsedBy(size: Sizes, m: Contents): nat
  {
    Total(ChargesOf(size, m))
  }

  /** One total per route that holds an item, and no other entry. */
  ghost predicate IsRouteUsage(u: map<Bytes, int>, size: Sizes, m: Contents)
  {
    u.Keys == Tags(m) && forall tag :: tag in u ==> u[tag] == UsedBy(size, RoutePart(m, tag))
  }

  ghost predicate WithinLimits(size: Sizes, m: Contents, capacity: int, routeQuota: int)
  {
    && UsedBy(size, m) <= capacity && |m| <= MAX_STORED_ITEMS
    && forall tag :: tag in Tags(m) ==> RouteWithin(size, m, tag, routeQuota)
  }

  ghost predicate Keyed(m: Contents)
  {
    forall id :: id in m ==> m[id].itemId == id
  }

  // ---------- how the derived values change ----------

  lemma UsedStored(size: Sizes, m: Contents, i: StoredItem)
    requires i.itemId !in m
    ensures UsedBy(size, m[i.itemId := i]) == UsedBy(size, m) + Charge(size, i)
  {
    assert ChargesOf(size, m[i.itemId := i]) == ChargesOf(size, m)[i.itemId := Charge(size, i)];
    TotalWith(ChargesOf(size, m), i.itemId, Charge(size, i));
  }

  lemma UsedRemoved(size: Sizes, m: Contents, id: Bytes)
    requires id in m
    ensures UsedBy(size, m - {id}) == UsedBy(size, m) - Charge(size, m[id])
  {
    TotalWithout(ChargesOf(size, m), id);
    assert ChargesOf(size, m) - {id} == ChargesOf(size, m - {id});
  }

  lemma UsedMonotone(size: Sizes, m: Contents, n: Contents)
    requires SubMap(m, n)
    ensures UsedBy(size, m) <= UsedBy(size, n) && |m| <= |n|
  {
    TotalMonotone(ChargesOf(size, m), ChargesOf(size, n));
    SubMapSize(m, n);
  }

  lemma RoutePartStored(m: Contents, i: StoredItem, tag: Bytes)
    requires i.itemId !in m
    ensures RoutePart(m[i.itemId := i], tag) == if tag == i.routeTag then RoutePart(m, tag)[i.itemId := i] else RoutePart(m, tag)
    ensures RouteIds(m[i.itemId := i], tag) == if tag == i.routeTag then RouteIds(m, tag) + {i.itemId} else RouteIds(m, tag)
  {
  }

  lemma TagsStored(m: Contents, i: StoredItem)
    requires i.itemId !in m
    ensures Tags(m[i.itemId := i]) == Tags(m) + {i.routeTag}
  {
    var n := m[i.itemId := i];
    assert n[i.itemId].routeTag == i.routeTag;
    forall t | t in Tags(m) ensures t in Tags(n) {
      var k :| k in m && m[k].routeTag == t;
      assert n[k].routeTag == t;
    }
  }

  lemma RoutePartRemoved(m: Contents, id: Bytes, tag: Bytes)
    requires id in m
    ensures RoutePart(m - {id}, tag) == if tag == m[id].routeTag then RoutePart(m, tag) - {id} else RoutePart(m, tag)
    ensures RouteIds(m - {id}, tag) == if tag == m[id].routeTag then RouteIds(m, tag) - {id} else RouteIds(m, tag)
  {
  }

  lemma TagsRemoved(m: Contents, id: Bytes)
    requires id in m
    ensures Tags(m - {id}) == if RouteIds(m, m[id].routeTag) == {id} then Tags(m) - {m[id].routeTag} else Tags(m)
  {
    var tag := m[id].routeTag;
    assert id in RouteIds(m, tag);
    if RouteIds(m, tag) != {id} {
      var other :| other in RouteIds(m, tag) && other != id;
      assert (m - {id})[other].routeTag == tag;
    }
    forall t | t in Tags(m) && t != tag ensures t in Tags(m - {id}) {
      var k :| k in m && m[k].routeTag == t;
      assert (m - {id})[k].routeTag == t;
    }
  }

  lemma RouteIdsSize(m: Contents, tag: Bytes)
    ensures |RouteIds(m, tag)| == |RoutePart(m, tag)|
  {
    assert RoutePart(m, tag).Keys == RouteIds(m, tag);
  }

  lemma AbsentRoute(size: Sizes, m: Contents, tag: Bytes)
    requires tag !in Tags(m)
    ensures RouteIds(m, tag) == {} && RoutePart(m, tag) == map[] && UsedBy(size, RoutePart(m, tag)) == 0
  {
    forall id | id in m ensures m[id].routeTag != tag {
      assert m[id].routeTag in Tags(m);
    }
    assert ChargesOf(size, map[]).Keys == {};
  }

  // ---------- the indexes as they are kept ----------

  datatype Index = Index(charges: map<Bytes, nat>, byRoute: map<Bytes, set<Bytes>>, routeUsed: map<Bytes, int>, used: int)

  /** The kept indexes agree with the contents. */
  ghost predicate IsIndex(x: Index, size: Sizes, m: Contents)
  {
    && x.charges == ChargesOf(size, m)
    && x.byRoute == RouteIndex(m)
    && IsRouteUsage(x.routeUsed, size, m)
    && x.used == UsedBy(size, m)
  }

  /** Go's reading of an absent map entry. */
  function RouteSet(x: Index, tag: Bytes): set<Bytes>
  {
    if tag in x.byRoute then x.byRoute[tag] else {}
  }

  function BytesOf(u: map<Bytes, int>, tag: Bytes): int
  {
    if tag in u then u[tag] else 0
  }

  function RouteBytes(x: Index, tag: Bytes): int
  {
    BytesOf(x.routeUsed, tag)
  }

  function Increased(u: map<Bytes, int>, tag: Bytes, charge: nat): map<Bytes, int>
  {
    u[tag := BytesOf(u, tag) + charge]
  }

  function Added(x: Index, i: StoredItem, charge: nat): Index
  {
    Index(x.charges[i.itemId := charge],
          x.byRoute[i.routeTag := RouteSet(x, i.routeTag) + {i.itemId}],
          Increased(x.routeUsed, i.routeTag, charge),
          x.used + charge)
  }

  function Dropped(x: Index, id: Bytes, tag: Bytes): Index
    requires id in x.charges
  {
    var ids := RouteSet(x, tag) - {id};
    var charge := x.charges[id];
    Index(x.charges - {id},
          if ids == {} then x.byRoute - {tag} else x.byRoute[tag := ids],
          if ids == {} then x.routeUsed - {tag} else x.routeUsed[tag := RouteBytes(x, tag) - charge],
          x.used - charge)
  }

  lemma RouteReadings(x: Index, size: Sizes, m: Contents, tag: Bytes)
    requires IsIndex(x, size, m)
    ensures RouteSet(x, tag) == RouteIds(m, tag)
    ensures RouteBytes(x, tag) == UsedBy(size, RoutePart(m, tag))
  {
    if tag !in Tags(m) {
      AbsentRoute(size, m, tag);
    }
  }

  lemma AddedRoutes(m: Contents, i: StoredItem)
    requires i.itemId !in m
    ensures RouteIndex(m)[i.routeTag := RouteIds(m, i.routeTag) + {i.itemId}] == RouteIndex(m[i.itemId := i])
  {
    var n := m[i.itemId := i];
    TagsStored(m, i);
    forall tag ensures RouteIds(n, tag) == if tag == i.routeTag then RouteIds(m, tag) + {i.itemId} else RouteIds(m, tag) {
      RoutePartStored(m, i, tag);
    }
  }

  lemma RouteUsageStored(size: Sizes, m: Contents, i: StoredItem, tag: Bytes)
    requires i.itemId !in m
    ensures UsedBy(size, RoutePart(m[i.itemId := i], tag)) ==
      UsedBy(size, RoutePart(m, tag)) + if tag == i.routeTag then Charge(size, i) else 0
    ensures |RoutePart(m[i.itemId := i], tag)| == |RoutePart(m, tag)| + if tag == i.routeTag then 1 else 0
  {
    RoutePartStored(m, i, tag);
    if tag == i.routeTag {
      UsedStored(size, RoutePart(m, tag), i);
      MapUpdateSize(RoutePart(m, tag), i.itemId, i);
    }
  }

  lemma AddedCharges(size: Sizes, m: Contents, i: StoredItem)
    ensures ChargesOf(size, m[i.itemId := i]) == ChargesOf(size, m)[i.itemId := Charge(size, i)]
  {
  }

  lemma UsageReading(u: map<Bytes, int>, size: Sizes, m: Contents, tag: Bytes)
    requires IsRouteUsage(u, size, m)
    ensures BytesOf(u, tag) == UsedBy(size, RoutePart(m, tag))
  {
    if tag !in Tags(m) {
      AbsentRoute(size, m, tag);
    }
  }

  lemma UsageStoredAt(u: map<Bytes, int>, size: Sizes, m: Contents, i: StoredItem, tag: Bytes)
    requires IsRouteUsage(u, size, m) && i.itemId !in m && (tag in u || tag == i.routeTag)
    ensures Increased(u, i.routeTag, Charge(size, i))[tag] == UsedBy(size, RoutePart(m[i.itemId := i], tag))
  {
    UsageReading(u, size, m, tag);
    RouteUsageStored(size, m, i, tag);
  }

  lemma UsageStored(u: map<Bytes, int>, size: Sizes, m: Contents, i: StoredItem)
    requires IsRouteUsage(u, size, m) && i.itemId !in m
    ensures IsRouteUsage(Increased(u, i.routeTag, Charge(size, i)), size, m[i.itemId := i])
  {
    assert Tags(m[i.itemId := i]) == u.Keys + {i.routeTag} by {
      TagsStored(m, i);
    }
    forall tag | tag in u.Keys + {i.routeTag}
      ensures Increased(u, i.routeTag, Charge(size, i))[tag] == UsedBy(size, RoutePart(m[i.itemId := i], tag))
    {
      UsageStoredAt(u, size, m, i, tag);
    }
  }

  lemma AddedByRoute(x: Index, size: Sizes, m: Contents, i: StoredItem)
    requires IsIndex(x, size, m) && i.itemId !in m
    ensures Added(x, i, Charge(size, i)).byRoute == RouteIndex(m[i.itemId := i])
  {
    RouteReadings(x, size, m, i.routeTag);
    AddedRoutes(m, i);
  }

  /** Updating the indexes in place gives the indexes of the updated contents. */
  lemma AddedIsIndex(x: Index, size: Sizes, m: Contents, i: StoredItem)
    requires IsIndex(x, size, m) && i.itemId !in m
    ensures IsIndex(Added(x, i, Charge(size, i)), size, m[i.itemId := i])
  {
    UsedStored(size, m, i);
    AddedCharges(size, m, i);
    AddedByRoute(x, size, m, i);
    UsageStored(x.routeUsed, size, m, i);
  }

  lemma DroppedRoutes(m: Contents, id: Bytes)
    requires id in m
    ensures var tag := m[id].routeTag; var ids := RouteIds(m, tag) - {id};
      RouteIndex(m - {id}) == if ids == {} then RouteIndex(m) - {tag} else RouteIndex(m)[tag := ids]
  {
    var route := m[id].routeTag;
    TagsRemoved(m, id);
    LastOfRoute(m, id);
    forall tag ensures RouteIds(m - {id}, tag) == if tag == route then RouteIds(m, tag) - {id} else RouteIds(m, tag) {
      RoutePartRemoved(m, id, tag);
    }
  }

  lemma LastOfRoute(m: Contents, id: Bytes)
    requires id in m
    ensures m[id].routeTag in Tags(m) && id in RouteIds(m, m[id].routeTag)
    ensures RouteIds(m, m[id].routeTag) - {id} == {} <==> RouteIds(m, m[id].routeTag) == {id}
  {
  }

  lemma RouteUsageRemoved(size: Sizes, m: Contents, id: Bytes, tag: Bytes)
    requires id in m
    ensures UsedBy(size, RoutePart(m - {id}, tag)) ==
      UsedBy(size, RoutePart(m, tag)) - if tag == m[id].routeTag then Charge(size, m[id]) else 0
  {
    RoutePartRemoved(m, id, tag);
    if tag == m[id].routeTag {
      UsedRemoved(size, RoutePart(m, tag), id);
    }
  }

  lemma DroppedCharges(size: Sizes, m: Contents, id: Bytes)
    ensures ChargesOf(size, m - {id}) == ChargesOf(size, m) - {id}
  {
  }

  lemma DroppedTags(x: Index, size: Sizes, m: Contents, id: Bytes)
    requires IsIndex(x, size, m) && id in m
    ensures Dropped(x, id, m[id].routeTag).routeUsed.Keys == Tags(m - {id})
  {
    RouteReadings(x, size, m, m[id].routeTag);
    TagsRemoved(m, id);
    LastOfRoute(m, id);
  }

  lemma DroppedUsage(x: Index, size: Sizes, m: Contents, id: Bytes, tag: Bytes)
    requires IsIndex(x, size, m) && id in m && tag in Dropped(x, id, m[id].routeTag).routeUsed
    ensures Dropped(x, id, m[id].routeTag).routeUsed[tag] == UsedBy(size, RoutePart(m - {id}, tag))
  {
    RouteReadings(x, size, m, m[id].routeTag);
    RouteUsageRemoved(size, m, id, tag);
  }

  lemma DroppedRouteUsed(x: Index, size: Sizes, m: Contents, id: Bytes)
    requires IsIndex(x, size, m) && id in m
    ensures IsRouteUsage(Dropped(x, id, m[id].routeTag).routeUsed, size, m - {id})
  {
    DroppedTags(x, size, m, id);
    var u := Dropped(x, id, m[id].routeTag).routeUsed;
    forall tag | tag in u ensures u[tag] == UsedBy(size, RoutePart(m - {id}, tag)) {
      DroppedUsage(x, size, m, id, tag);
    }
  }

  lemma DroppedByRoute(x: Index, size: Sizes, m: Contents, id: Bytes)
    requires IsIndex(x, size, m) && id in m
    ensures Dropped(x, id, m[id].routeTag).byRoute == RouteIndex(m - {id})
  {
    RouteReadings(x, size, m, m[id].routeTag);
    DroppedRoutes(m, id);
  }

  lemma DroppedIsIndex(x: Index, size: Sizes, m: Contents, id: Bytes)
    requires IsIndex(x, size, m) && id in m
    ensures IsIndex(Dropped(x, id, m[id].routeTag), size, m - {id})
  {
    UsedRemoved(size, m, id);
    DroppedCharges(size, m, id);
    DroppedByRoute(x, size, m, id);
    DroppedRouteUsed(x, size, m, id);
  }

  // ---------- limits ----------

  /** The admission test of Put and of the rebuild loop, read off the indexes. */
  predicate Fits(x: Index, count: nat, i: StoredItem, charge: nat, capacity: int, routeQuota: int)
  {
    && count < MAX_STORED_ITEMS && x.used + charge <= capacity
    && |RouteSet(x, i.routeTag)| < MAX_ITEMS_PER_ROUTE && RouteBytes(x, i.routeTag) + charge <= routeQuota
  }

  ghost predicate RouteWithin(size: Sizes, m: Contents, tag: Bytes, routeQuota: int)
  {
    UsedBy(size, RoutePart(m, tag)) <= routeQuota && |RoutePart(m, tag)| <= MAX_ITEMS_PER_ROUTE
  }

  lemma RoutesStored(size: Sizes, m: Contents, i: StoredItem, n: Contents, routeQuota: int)
    requires i.itemId !in m && n == m[i.itemId := i]
    requires forall tag :: tag in Tags(m) ==> RouteWithin(size, m, tag, routeQuota)
    ensures (forall tag :: tag in Tags(n) ==> RouteWithin(size, n, tag, routeQuota)) <==>
      RouteWithin(size, n, i.routeTag, routeQuota)
  {
    TagsStored(m, i);
    forall tag | tag in Tags(m) && tag != i.routeTag ensures RouteWithin(size, n, tag, routeQuota) {
      RouteUsageStored(size, m, i, tag);
    }
  }

  /** The indexed test admits an item exactly when the contents with it are within all four limits. */
  lemma FitsIff(x: Index, size: Sizes, m: Contents, i: StoredItem, capacity: int, routeQuota: int)
    requires IsIndex(x, size, m) && i.itemId !in m && WithinLimits(size, m, capacity, routeQuota)
    ensures Fits(x, |m|, i, Charge(size, i), capacity, routeQuota) <==>
      WithinLimits(size, m[i.itemId := i], capacity, routeQuota)
  {
    RouteReadings(x, size, m, i.routeTag);
    RouteIdsSize(m, i.routeTag);
    UsedStored(size, m, i);
    MapUpdateSize(m, i.itemId, i);
    RouteUsageStored(size, m, i, i.routeTag);
    RoutesStored(size, m, i, m[i.itemId := i], routeQuota);
  }

  lemma SmallerWithinLimits(size: Sizes, m: Contents, n: Contents, capacity: int, routeQuota: int)
    requires SubMap(m, n) && WithinLimits(size, n, capacity, routeQuota)
    ensures WithinLimits(size, m, capacity, routeQuota)
  {
    UsedMonotone(size, m, n);
    forall tag | tag in Tags(m) ensures RouteWithin(size, m, tag, routeQuota) {
      var k :| k in m && m[k].routeTag == tag;
      assert n[k].routeTag == tag && tag in Tags(n);
      assert RouteWithin(size, n, tag, routeQuota);
      UsedMonotone(size, RoutePart(m, tag), RoutePart(n, tag));
    }
  }
}
