/** Retrieving a file from nodes through the client's own fetch (media/file.go, client/core.go). */
module MediaNetwork {
  import opened Bytes
  import opened Identities
  import opened ClientFetch
  import opened Items
  import opened Media
  import opened MediaRoundTrip
  import opened MediaRetrieval
  import opened Sorting
  import opened Totals

  /** What the allowed nodes answer to a batch of tags. */
  type Network = seq<Bytes> -> seq<Answer>

  /** Every batch is answered by the client's fetch over the nodes. */
  ghost predicate ThroughNodes(t: Tools, valid: StoredItem -> bool, m: Manifest, network: Network, fetch: Fetcher)
  {
    forall b: seq<Bytes> :: Asked(m, b) ==> Fetched(t.validCapability, valid, b, network(b), fetch(b))
  }

  /** One stored item per chunk. */
  ghost predicate HoldsChunks(e: Encrypted, valid: StoredItem -> bool, stored: seq<StoredItem>)
  {
    && |stored| == |e.payloads| == |e.manifest.chunks|
    && (forall k :: 0 <= k < |stored| ==>
         valid(stored[k]) && stored[k].routeTag == e.manifest.chunks[k].routeTag && stored[k].payload == e.payloads[k])
  }

  /** One stored item per chunk, each with its own ID. */
  ghost predicate StoredFor(e: Encrypted, valid: StoredItem -> bool, stored: seq<StoredItem>)
  {
    && HoldsChunks(e, valid, stored)
    && (forall j, k :: 0 <= j < k < |stored| ==> stored[j].itemId != stored[k].itemId)
  }

  /** A node that answers at all returns stored items of the requested tags only, within the item limit. */
  ghost predicate Honest(stored: seq<StoredItem>, tags: seq<Bytes>, a: Answer)
  {
    a.Some? ==> |a.value| <= MAX_FETCH_ITEMS && forall i :: i in a.value ==> i in stored && i.routeTag in tags
  }

  predicate Returned(answers: seq<Answer>, i: StoredItem)
  {
    exists k :: 0 <= k < |answers| && answers[k].Some? && i in answers[k].value
  }

  /** Some nodes may fail, and each may miss some items, but together they hold every one. */
  ghost predicate Covering(stored: seq<StoredItem>, tags: seq<Bytes>, answers: seq<Answer>)
  {
    && (forall k :: 0 <= k < |answers| ==> Honest(stored, tags, answers[k]))
    && (forall i :: i in stored && i.routeTag in tags ==> Returned(answers, i))
  }

  lemma {:induction false} WantedKeeps(tags: seq<Bytes>, valid: StoredItem -> bool, items: seq<StoredItem>)
    ensures forall i :: i in WantedOf(tags, valid, items) <==> i in items && Wanted(tags, valid, i)
  {
    if items != [] {
      WantedKeeps(tags, valid, items[..|items| - 1]);
      assert items == items[..|items| - 1] + [items[|items| - 1]];
    }
  }

  lemma {:induction false} OffersAre(tags: seq<Bytes>, valid: StoredItem -> bool, answers: seq<Answer>, i: StoredItem)
    ensures i in Offers(tags, valid, answers) <==> CountedIn(answers, i) && Wanted(tags, valid, i)
  {
    if answers != [] {
      OffersAre(tags, valid, answers[..|answers| - 1], i);
      WantedKeeps(tags, valid, Counted(answers[|answers| - 1]));
      CountedNext(answers, i);
    }
  }

  predicate CountedIn(answers: seq<Answer>, i: StoredItem)
  {
    exists k :: 0 <= k < |answers| && i in Counted(answers[k])
  }

  lemma CountedNext(answers: seq<Answer>, i: StoredItem)
    requires answers != []
    ensures CountedIn(answers, i) <==> CountedIn(answers[..|answers| - 1], i) || i in Counted(answers[|answers| - 1])
  {
    var n := |answers| - 1;
    if CountedIn(answers, i) {
      var k :| 0 <= k < |answers| && i in Counted(answers[k]);
      assert k < n ==> answers[..n][k] == answers[k];
    }
    if CountedIn(answers[..n], i) {
      var k :| 0 <= k < n && i in Counted(answers[..n][k]);
      assert answers[..n][k] == answers[k];
    }
  }

  /** Under honest nodes the offers are exactly the stored items of the batch. */
  lemma HonestOffers(e: Encrypted, valid: StoredItem -> bool, stored: seq<StoredItem>, tags: seq<Bytes>, answers: seq<Answer>, i: StoredItem)
    requires StoredFor(e, valid, stored) && Covering(stored, tags, answers)
    ensures i in Offers(tags, valid, answers) <==> i in stored && i.routeTag in tags
  {
    OffersAre(tags, valid, answers, i);
    if i in Offers(tags, valid, answers) {
      var k :| 0 <= k < |answers| && i in Counted(answers[k]);
      assert Honest(stored, tags, answers[k]);
    }
    if i in stored && i.routeTag in tags {
      assert Returned(answers, i);
      var k :| 0 <= k < |answers| && answers[k].Some? && i in answers[k].value;
      assert Honest(stored, tags, answers[k]);
      assert i in Counted(answers[k]);
    }
  }

  lemma SameIdSameItem(e: Encrypted, valid: StoredItem -> bool, stored: seq<StoredItem>, i: StoredItem, j: StoredItem)
    requires StoredFor(e, valid, stored) && i in stored && j in stored && i.itemId == j.itemId
    ensures i == j
  {
  }

  lemma SameTagSameItem(e: Encrypted, valid: StoredItem -> bool, stored: seq<StoredItem>, i: StoredItem, j: StoredItem)
    requires StoredFor(e, valid, stored) && Distinct(e.manifest.chunks) && i in stored && j in stored && i.routeTag == j.routeTag
    ensures i == j
  {
  }

  lemma HonestKept(e: Encrypted, valid: StoredItem -> bool, stored: seq<StoredItem>, tags: seq<Bytes>, answers: seq<Answer>, id: Bytes)
    requires StoredFor(e, valid, stored) && Covering(stored, tags, answers) && id in FirstWins(Offers(tags, valid, answers))
    ensures var i := FirstWins(Offers(tags, valid, answers))[id]; i.itemId == id && i in stored && i.routeTag in tags
  {
    FirstWinsKeyed(Offers(tags, valid, answers));
    HonestOffers(e, valid, stored, tags, answers, FirstWins(Offers(tags, valid, answers))[id]);
  }

  /** What is kept of honest answers: the stored items of the batch by their IDs. */
  lemma HonestPool(e: Encrypted, valid: StoredItem -> bool, stored: seq<StoredItem>, tags: seq<Bytes>, answers: seq<Answer>)
    requires StoredFor(e, valid, stored) && Covering(stored, tags, answers)
    ensures var m := FirstWins(Offers(tags, valid, answers));
      && (forall id :: id in m ==> m[id].itemId == id && m[id] in stored && m[id].routeTag in tags)
      && (forall i :: i in stored && i.routeTag in tags ==> i.itemId in m && m[i.itemId] == i)
  {
    var offers := Offers(tags, valid, answers);
    var m := FirstWins(offers);
    FirstWinsKeyed(offers);
    forall id | id in m ensures m[id].itemId == id && m[id] in stored && m[id].routeTag in tags {
      HonestKept(e, valid, stored, tags, answers, id);
    }
    forall i | i in stored && i.routeTag in tags ensures i.itemId in m && m[i.itemId] == i {
      HonestOffers(e, valid, stored, tags, answers, i);
      SameIdSameItem(e, valid, stored, i, m[i.itemId]);
    }
  }

  /** Items of different tags are no more than the tags. */
  lemma {:induction false} OnePerTag(m: map<Bytes, StoredItem>, tags: seq<Bytes>)
    requires forall id :: id in m ==> m[id].routeTag in tags
    requires forall id, j :: id in m && j in m && m[id].routeTag == m[j].routeTag ==> id == j
    ensures |m| <= |tags|
    decreases |tags|
  {
    if tags == [] {
      assert m.Keys == {};
      MapSize(m);
    } else {
      var front, x := tags[..|tags| - 1], tags[|tags| - 1];
      assert tags == front + [x];
      if id :| id in m && m[id].routeTag == x {
        MapLess(m, id);
        OnePerTag(m - {id}, front);
      } else {
        OnePerTag(m, front);
      }
    }
  }

  /** No more items are kept than tags were asked for. */
  lemma HonestCount(e: Encrypted, valid: StoredItem -> bool, stored: seq<StoredItem>, tags: seq<Bytes>, answers: seq<Answer>)
    requires StoredFor(e, valid, stored) && Covering(stored, tags, answers) && Distinct(e.manifest.chunks)
    ensures |FirstWins(Offers(tags, valid, answers))| <= |tags|
  {
    var m := FirstWins(Offers(tags, valid, answers));
    forall id | id in m ensures m[id].itemId == id && m[id] in stored && m[id].routeTag in tags {
      HonestKept(e, valid, stored, tags, answers, id);
    }
    forall id, j | id in m && j in m && m[id].routeTag == m[j].routeTag ensures id == j {
      SameTagSameItem(e, valid, stored, m[id], m[j]);
    }
    OnePerTag(m, tags);
  }

  /** And together they have at most so many times the bytes of one chunk. */
  lemma HonestBytes(e: Encrypted, valid: StoredItem -> bool, stored: seq<StoredItem>, tags: seq<Bytes>, answers: seq<Answer>, c: nat)
    requires StoredFor(e, valid, stored) && Covering(stored, tags, answers)
    requires forall k :: 0 <= k < |e.payloads| ==> |e.payloads[k]| == c
    ensures var m := FirstWins(Offers(tags, valid, answers)); Total(Sizes(m)) <= |m| * c
  {
    var m := FirstWins(Offers(tags, valid, answers));
    forall id | id in Sizes(m) ensures Sizes(m)[id] <= c {
      HonestKept(e, valid, stored, tags, answers, id);
    }
    TotalBounded(Sizes(m), c);
    MapSize(m);
    MapSize(Sizes(m));
    assert m.Keys == Sizes(m).Keys;
  }

  /** A batch of honest answers stays within both limits of a fetch. */
  lemma HonestFits(t: Tools, e: Encrypted, valid: StoredItem -> bool, stored: seq<StoredItem>, tags: seq<Bytes>, answers: seq<Answer>)
    requires StoredFor(e, valid, stored) && Covering(stored, tags, answers) && Askable(e.manifest, tags)
    requires ValidManifest(t, e.secret, e.manifest)
    requires forall k :: 0 <= k < |e.payloads| ==> |e.payloads[k]| == e.manifest.chunks[0].cipherSize
    ensures !Excessive(FirstWins(Offers(tags, valid, answers)))
  {
    var m, c := FirstWins(Offers(tags, valid, answers)), e.manifest.chunks[0].cipherSize;
    BatchFits(t, e.secret, e.manifest);
    HonestCount(e, valid, stored, tags, answers);
    HonestBytes(e, valid, stored, tags, answers, c);
    ProductOrder(|m|, BatchSize(c), c);
  }

  lemma SomeAnswerClean(e: Encrypted, valid: StoredItem -> bool, stored: seq<StoredItem>, tags: seq<Bytes>, answers: seq<Answer>)
    requires StoredFor(e, valid, stored) && Covering(stored, tags, answers) && Askable(e.manifest, tags)
    ensures SomeClean(tags, valid, answers)
  {
    assert tags[0] in Tags(e.manifest.chunks);
    var j :| 0 <= j < |e.manifest.chunks| && Tags(e.manifest.chunks)[j] == tags[0];
    var i := stored[j];
    assert Returned(answers, i);
    var k :| 0 <= k < |answers| && answers[k].Some? && i in answers[k].value;
    assert Honest(stored, tags, answers[k]);
    assert Clean(tags, valid, answers[k]);
  }

  /** So a fetch of a batch returns exactly its chunks. */
  lemma HonestBatch(t: Tools, e: Encrypted, valid: StoredItem -> bool, stored: seq<StoredItem>, tags: seq<Bytes>, answers: seq<Answer>, r: Answer)
    requires StoredFor(e, valid, stored) && Covering(stored, tags, answers) && Askable(e.manifest, tags)
    requires ValidManifest(t, e.secret, e.manifest)
    requires forall k :: 0 <= k < |e.payloads| ==> |e.payloads[k]| == e.manifest.chunks[0].cipherSize
    requires Fetched(t.validCapability, valid, tags, answers, r)
    ensures r.Some? && forall i :: i in r.value <==> i in stored && i.routeTag in tags
  {
    AskableAdmitted(t, e.secret, e.manifest, tags);
    HonestFits(t, e, valid, stored, tags, answers);
    SomeAnswerClean(e, valid, stored, tags, answers);
    HonestPool(e, valid, stored, tags, answers);
  }

  lemma PayloadsMatch(t: Tools, e: Encrypted)
    requires |e.payloads| == |e.manifest.chunks| && Decrypted(t, e.secret, e.manifest, Payloads(e)).Some?
    ensures Described(t, e) && forall k :: 0 <= k < |e.payloads| ==> |e.payloads[k]| == e.manifest.chunks[0].cipherSize
  {
    var m := e.manifest;
    BatchFits(t, e.secret, m);
    forall k | 0 <= k < |e.payloads|
      ensures m.chunks[k].index == k && m.chunks[k].cipherHash == t.sha256(e.payloads[k]) && |e.payloads[k]| == m.chunks[0].cipherSize
    {
      assert ValidChunk(t, e.secret, m, k);
      JoinedHas(t, e.secret, m, Payloads(e), |m.chunks|, k);
    }
  }

  /** A file stored at nodes that fail or answer honestly comes back whole, as long as every chunk is held by
      some node that answers: the batches never meet a limit of the client's own fetch. */
  lemma HonestNodesDeliver(t: Tools, e: Encrypted, valid: StoredItem -> bool, stored: seq<StoredItem>, network: Network, fetch: Fetcher, plaintext: Bytes)
    requires StoredFor(e, valid, stored) && ThroughNodes(t, valid, e.manifest, network, fetch)
    requires Decrypted(t, e.secret, e.manifest, Payloads(e)) == Some(plaintext)
    requires forall b: seq<Bytes> :: Asked(e.manifest, b) ==> Covering(stored, b, network(b))
    ensures Retrieved(t, e.secret, e.manifest, fetch) == Some(plaintext)
  {
    PayloadsMatch(t, e);
    forall b: seq<Bytes> | Asked(e.manifest, b)
      ensures fetch(b).Some? && Supplied(e, b, fetch(b).value)
      ensures forall i :: 0 <= i < |fetch(b).value| ==> NoImpostor(t, e, fetch(b).value[i])
    {
      AskedAskable(e.manifest, b);
      HonestBatch(t, e, valid, stored, b, network(b), fetch(b));
      BatchSupplied(t, e, valid, stored, b, fetch(b).value);
    }
    RetrievalSucceeds(t, e, fetch, plaintext);
  }

  lemma BatchSupplied(t: Tools, e: Encrypted, valid: StoredItem -> bool, stored: seq<StoredItem>, tags: seq<Bytes>, items: seq<StoredItem>)
    requires StoredFor(e, valid, stored) && Described(t, e) && Distinct(e.manifest.chunks)
    requires forall i :: i in items <==> i in stored && i.routeTag in tags
    ensures Supplied(e, tags, items) && forall i :: 0 <= i < |items| ==> NoImpostor(t, e, items[i])
  {
    forall k | 0 <= k < |e.payloads| && e.manifest.chunks[k].routeTag in tags
      ensures Supplies(items, e.manifest.chunks[k].routeTag, e.payloads[k])
    {
      assert stored[k] in items;
    }
    forall i | 0 <= i < |items| ensures NoImpostor(t, e, items[i]) {
      assert items[i] in items;
      var j :| 0 <= j < |stored| && stored[j] == items[i];
      forall k | 0 <= k < |e.payloads| ensures NoCollision(t.sha256, items[i].payload, e.payloads[k]) {
        assert j != k ==> e.manifest.chunks[j].cipherHash != e.manifest.chunks[k].cipherHash;
      }
    }
  }

  // ---------- nodes that answer anything ----------

  /** What the item check guarantees: an item carries the ID of its own commitment. */
  ghost predicate Committing(sha256: Bytes -> Bytes, valid: StoredItem -> bool)
  {
    forall i :: valid(i) ==> i.itemId == ComputeItemId(sha256, i) && BoundedItem(sha256, i)
  }

  /** Every chunk asked for is in some answer that counts. */
  ghost predicate Present(stored: seq<StoredItem>, tags: seq<Bytes>, answers: seq<Answer>)
  {
    forall i :: i in stored && i.routeTag in tags ==> CountedIn(answers, i)
  }

  /** Nothing offered collides with a chunk, in its payload or in its commitment. */
  ghost predicate Distinguishable(t: Tools, e: Encrypted, stored: seq<StoredItem>, offers: seq<StoredItem>)
  {
    forall i, j :: i in offers && j in stored ==>
      NoImpostor(t, e, i) && NoCollision(t.sha256, Commitment(t.sha256, i), Commitment(t.sha256, j))
  }

  /** Some node sends only what was asked for, and all nodes together stay within the limits. */
  ghost predicate Answerable(valid: StoredItem -> bool, tags: seq<Bytes>, answers: seq<Answer>)
  {
    SomeClean(tags, valid, answers) && !Excessive(FirstWins(Offers(tags, valid, answers)))
  }

  /** Whoever sends it first, what is kept under a chunk's ID is that chunk. */
  lemma KeptIsChunk(t: Tools, e: Encrypted, valid: StoredItem -> bool, stored: seq<StoredItem>, tags: seq<Bytes>, answers: seq<Answer>, k: nat)
    requires HoldsChunks(e, valid, stored) && Committing(t.sha256, valid) && Present(stored, tags, answers)
    requires Distinguishable(t, e, stored, Offers(tags, valid, answers))
    requires k < |stored| && stored[k].routeTag in tags
    ensures var m, id := FirstWins(Offers(tags, valid, answers)), stored[k].itemId;
      id in m && m[id].itemId == id && m[id].routeTag == stored[k].routeTag && m[id].payload == e.payloads[k]
  {
    var offers, chunk := Offers(tags, valid, answers), stored[k];
    OffersAre(tags, valid, answers, chunk);
    FirstWinsKeyed(offers);
    var kept := FirstWins(offers)[chunk.itemId];
    OffersAre(tags, valid, answers, kept);
    assert NoImpostor(t, e, kept) && NoCollision(t.sha256, Commitment(t.sha256, kept), Commitment(t.sha256, chunk));
    ItemIdCommits(t.sha256, kept, chunk);
    assert NoCollision(t.sha256, kept.payload, e.payloads[k]);
  }

  /** A fetched batch supplies its chunks, among items that pass for no other chunk. */
  lemma BatchHolds(t: Tools, e: Encrypted, valid: StoredItem -> bool, stored: seq<StoredItem>, tags: seq<Bytes>, answers: seq<Answer>, items: seq<StoredItem>)
    requires HoldsChunks(e, valid, stored) && Committing(t.sha256, valid) && Present(stored, tags, answers)
    requires Distinguishable(t, e, stored, Offers(tags, valid, answers)) && stored != []
    requires Lists(items, FirstWins(Offers(tags, valid, answers)))
    ensures Supplied(e, tags, items) && forall i :: 0 <= i < |items| ==> NoImpostor(t, e, items[i])
  {
    var m := FirstWins(Offers(tags, valid, answers));
    FirstWinsKeyed(Offers(tags, valid, answers));
    forall k | 0 <= k < |e.payloads| && e.manifest.chunks[k].routeTag in tags
      ensures Supplies(items, e.manifest.chunks[k].routeTag, e.payloads[k])
    {
      KeptIsChunk(t, e, valid, stored, tags, answers, k);
      assert m[stored[k].itemId] in items;
    }
    forall i | 0 <= i < |items| ensures NoImpostor(t, e, items[i]) {
      assert items[i] in items && stored[0] in stored;
    }
  }

  lemma SomethingAnswered(e: Encrypted, valid: StoredItem -> bool, stored: seq<StoredItem>, tags: seq<Bytes>, answers: seq<Answer>)
    requires HoldsChunks(e, valid, stored) && Askable(e.manifest, tags) && Present(stored, tags, answers)
    ensures answers != []
  {
    assert tags[0] in Tags(e.manifest.chunks);
    var k :| 0 <= k < |e.manifest.chunks| && Tags(e.manifest.chunks)[k] == tags[0];
    assert stored[k] in stored;
  }

  /** Whatever else the nodes send, a file whose chunks are all among the counted answers comes back if and only if every
      batch finds one node that sends only what was asked for and the usable items of all nodes within the limits;
      otherwise the retrieval fails. */
  lemma DeliveredIff(t: Tools, e: Encrypted, valid: StoredItem -> bool, stored: seq<StoredItem>, network: Network, fetch: Fetcher, plaintext: Bytes)
    requires HoldsChunks(e, valid, stored) && ThroughNodes(t, valid, e.manifest, network, fetch) && Committing(t.sha256, valid)
    requires Decrypted(t, e.secret, e.manifest, Payloads(e)) == Some(plaintext)
    requires forall b: seq<Bytes> :: Asked(e.manifest, b) ==>
      Present(stored, b, network(b)) && Distinguishable(t, e, stored, Offers(b, valid, network(b)))
    ensures Retrieved(t, e.secret, e.manifest, fetch) ==
      if forall b: seq<Bytes> :: Asked(e.manifest, b) ==> Answerable(valid, b, network(b)) then Some(plaintext) else None
  {
    PayloadsMatch(t, e);
    BatchFits(t, e.secret, e.manifest);
    if forall b: seq<Bytes> :: Asked(e.manifest, b) ==> Answerable(valid, b, network(b)) {
      forall b: seq<Bytes> | Asked(e.manifest, b)
        ensures fetch(b).Some? && Supplied(e, b, fetch(b).value)
        ensures forall i :: 0 <= i < |fetch(b).value| ==> NoImpostor(t, e, fetch(b).value[i])
      {
        AskedAskable(e.manifest, b);
        AskableAdmitted(t, e.secret, e.manifest, b);
        assert Answerable(valid, b, network(b)) && Fetched(t.validCapability, valid, b, network(b), fetch(b));
        BatchHolds(t, e, valid, stored, b, network(b), fetch(b).value);
      }
      RetrievalSucceeds(t, e, fetch, plaintext);
    } else {
      var b: seq<Bytes> :| Asked(e.manifest, b) && !Answerable(valid, b, network(b));
      AskedAskable(e.manifest, b);
      SomethingAnswered(e, valid, stored, b, network(b));
      assert Fetched(t.validCapability, valid, b, network(b), fetch(b));
      FailedBatchFails(t, e.secret, e.manifest, fetch, b);
    }
  }

  // ---------- too much of anything ----------

  function PayloadSum(items: seq<StoredItem>): nat
  {
    if items == [] then 0 else PayloadSum(items[..|items| - 1]) + |items[|items| - 1].payload|
  }

  ghost predicate DistinctIds(items: seq<StoredItem>)
  {
    forall j, k :: 0 <= j < k < |items| ==> items[j].itemId != items[k].itemId
  }

  lemma {:induction false} AllKept(items: seq<StoredItem>)
    requires DistinctIds(items)
    ensures |FirstWins(items)| == |items| && Total(Sizes(FirstWins(items))) == PayloadSum(items)
  {
    if items == [] {
      assert Sizes(FirstWins(items)) == map[];
    } else {
      var front, last := items[..|items| - 1], items[|items| - 1];
      AllKept(front);
      FirstWinsKeyed(front);
      assert forall id :: id in FirstWins(front) ==> FirstWins(front)[id].itemId != last.itemId;
      OneItemMore(FirstWins(front), last);
    }
  }

  lemma {:induction false} WantedAll(tags: seq<Bytes>, valid: StoredItem -> bool, items: seq<StoredItem>)
    requires AllWanted(tags, valid, items)
    ensures WantedOf(tags, valid, items) == items
  {
    if items != [] {
      WantedAll(tags, valid, items[..|items| - 1]);
      assert items == items[..|items| - 1] + [items[|items| - 1]];
    }
  }

  /** One answer of valid items under the requested tags, within the item limit but over the byte limit, makes the fetch of
      a batch fail and the retrieval with it, whatever the other nodes hold. */
  lemma OversizedAnswerFails(t: Tools, s: Secret, m: Manifest, valid: StoredItem -> bool, network: Network, fetch: Fetcher,
                             b: seq<Bytes>, items: seq<StoredItem>)
    requires ThroughNodes(t, valid, m, network, fetch) && Asked(m, b)
    requires network(b) != [] && network(b)[0] == Some(items) && |items| <= MAX_FETCH_ITEMS
    requires AllWanted(b, valid, items) && DistinctIds(items) && PayloadSum(items) > MAX_FETCH_BYTES
    ensures fetch(b).None? && Retrieved(t, s, m, fetch).None?
  {
    var answers := network(b);
    assert Fetched(t.validCapability, valid, b, answers, fetch(b));
    OffersNext(b, valid, answers, 0);
    WantedAll(b, valid, items);
    assert Offers(b, valid, answers[..1]) == items;
    AllKept(items);
    OffersGrow(b, valid, answers, 1);
    PrefixExcessive(items, Offers(b, valid, answers));
    FailedBatchFails(t, s, m, fetch, b);
  }
}
