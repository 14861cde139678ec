/** Downloading a file in bounded batches and deleting it afterwards (media/file.go, `Retrieve`). */
module MediaRetrieval {
  import opened Bytes
  import opened Identities
  import opened ClientFetch
  import opened Items
  import opened Media
  import opened MediaRoundTrip
  import opened Sorting

  datatype Deletion = Deletion(itemId: Bytes, token: Bytes)

  /** What the network returns for a batch of route tags; nothing if the fetch fails. */
  type Fetcher = seq<Bytes> -> Answer

  function Tags(chunks: seq<ChunkInfo>): seq<Bytes>
  {
    seq(|chunks|, i requires 0 <= i < |chunks| => chunks[i].routeTag)
  }

  /** The chunk metadata by digest; a later chunk replaces an earlier one. */
  function HashIndex(chunks: seq<ChunkInfo>): map<Bytes, ChunkInfo>
  {
    if chunks == [] then map[]
    else
      var last := chunks[|chunks| - 1];
      HashIndex(chunks[..|chunks| - 1])[last.cipherHash := last]
  }

  lemma {:induction false} HashIndexFinds(chunks: seq<ChunkInfo>, k: nat)
    requires Distinct(chunks) && k < |chunks|
    ensures chunks[k].cipherHash in HashIndex(chunks) && HashIndex(chunks)[chunks[k].cipherHash] == chunks[k]
  {
    if k < |chunks| - 1 {
      var front := chunks[..|chunks| - 1];
      assert Distinct(front);
      HashIndexFinds(front, k);
    }
  }

  lemma {:induction false} HashIndexOnly(chunks: seq<ChunkInfo>, h: Bytes) returns (k: nat)
    requires h in HashIndex(chunks)
    ensures k < |chunks| && HashIndex(chunks)[h] == chunks[k] && chunks[k].cipherHash == h
  {
    if chunks[|chunks| - 1].cipherHash == h {
      k := |chunks| - 1;
    } else {
      k := HashIndexOnly(chunks[..|chunks| - 1], h);
    }
  }

  // ---------- one pass over the network ----------

  /** Keep an item whose payload and route tag match one chunk's metadata. */
  function Accept(t: Tools, index: map<Bytes, ChunkInfo>, got: map<int, StoredItem>, item: StoredItem): map<int, StoredItem>
  {
    var h := t.sha256(item.payload);
    if h in index && index[h].routeTag == item.routeTag then got[index[h].index := item] else got
  }

  function AcceptAll(t: Tools, index: map<Bytes, ChunkInfo>, got: map<int, StoredItem>, items: seq<StoredItem>): map<int, StoredItem>
  {
    if items == [] then got
    else Accept(t, index, AcceptAll(t, index, got, items[..|items| - 1]), items[|items| - 1])
  }

  /** As many chunks as fit into one answer of the network. */
  function BatchSize(cipherSize: int): int
    requires cipherSize > 0
  {
    Lower(MAX_TAGS_PER_FETCH, MAX_FETCH_BYTES / cipherSize)
  }

  /** Fetch the tags batch by batch, stopping at the first failure. */
  function GatherFrom(t: Tools, index: map<Bytes, ChunkInfo>, tags: seq<Bytes>, size: nat, fetch: Fetcher, got: map<int, StoredItem>): Option<map<int, StoredItem>>
    requires size > 0
    decreases |tags|
  {
    if tags == [] then Some(got)
    else
      var b := Lower(size, |tags|);
      match fetch(tags[..b])
      case None => None
      case Some(items) => GatherFrom(t, index, tags[b..], size, fetch, AcceptAll(t, index, got, items))
  }

  function Gathered(t: Tools, m: Manifest, fetch: Fetcher): Option<map<int, StoredItem>>
  {
    if m.chunks == [] || m.chunks[0].cipherSize <= 0 || BatchSize(m.chunks[0].cipherSize) <= 0 then None
    else GatherFrom(t, HashIndex(m.chunks), Tags(m.chunks), BatchSize(m.chunks[0].cipherSize), fetch, map[])
  }

  function PayloadsOf(got: map<int, StoredItem>): map<int, Bytes>
  {
    map k | k in got :: got[k].payload
  }

  lemma Quotient(n: int, c: int)
    requires 0 < c <= n
    ensures 1 <= n / c && n / c * c <= n
  {
  }

  lemma BatchArithmetic(c: int)
    requires 0 < c <= MAX_ITEM_BYTES
    ensures 0 < BatchSize(c) <= MAX_TAGS_PER_FETCH && BatchSize(c) * c <= MAX_FETCH_BYTES
  {
    Quotient(MAX_FETCH_BYTES, c);
    ProductOrder(BatchSize(c), MAX_FETCH_BYTES / c, c);
  }

  lemma BatchFits(t: Tools, s: Secret, m: Manifest)
    requires ValidManifest(t, s, m)
    ensures m.chunks != [] && 0 < m.chunks[0].cipherSize <= MAX_ITEM_BYTES
    ensures 0 < BatchSize(m.chunks[0].cipherSize) <= MAX_TAGS_PER_FETCH
    ensures BatchSize(m.chunks[0].cipherSize) * m.chunks[0].cipherSize <= MAX_FETCH_BYTES
    ensures forall k :: 0 <= k < |m.chunks| ==> m.chunks[k].cipherSize == m.chunks[0].cipherSize
  {
    assert ValidChunk(t, s, m, 0);
    BatchArithmetic(m.chunks[0].cipherSize);
    forall k | 0 <= k < |m.chunks| ensures m.chunks[k].cipherSize == m.chunks[0].cipherSize {
      assert ValidChunk(t, s, m, k);
    }
  }

  /** The file that a retrieval returns, if any. */
  ghost function Retrieved(t: Tools, s: Secret, m: Manifest, fetch: Fetcher): Option<Bytes>
  {
    if !ValidManifest(t, s, m) then None
    else
      match Gathered(t, m, fetch)
      case None => None
      case Some(got) => Decrypted(t, s, m, PayloadsOf(got))
  }

  // ---------- the method ----------

  function Flatten(calls: seq<seq<Bytes>>): seq<Bytes>
  {
    if calls == [] then [] else Flatten(calls[..|calls| - 1]) + calls[|calls| - 1]
  }

  method BuildIndex(chunks: seq<ChunkInfo>) returns (index: map<Bytes, ChunkInfo>)
    ensures index == HashIndex(chunks)
  {
    index := map[];
    for i := 0 to |chunks|
      invariant index == HashIndex(chunks[..i])
    {
      assert chunks[..i + 1][..i] == chunks[..i];
      index := index[chunks[i].cipherHash := chunks[i]];
    }
    assert chunks[..|chunks|] == chunks;
  }

  method AcceptItems(t: Tools, index: map<Bytes, ChunkInfo>, before: map<int, StoredItem>, items: seq<StoredItem>) returns (got: map<int, StoredItem>)
    ensures got == AcceptAll(t, index, before, items)
  {
    got := before;
    for i := 0 to |items|
      invariant got == AcceptAll(t, index, before, items[..i])
    {
      assert items[..i + 1][..i] == items[..i];
      got := Accept(t, index, got, items[i]);
    }
    assert items[..|items|] == items;
  }

  lemma FlattenSnoc(calls: seq<seq<Bytes>>, batch: seq<Bytes>)
    ensures Flatten(calls + [batch]) == Flatten(calls) + batch
  {
    assert (calls + [batch])[..|calls|] == calls;
  }

  /** One batch further. */
  lemma GatherStep(t: Tools, index: map<Bytes, ChunkInfo>, tags: seq<Bytes>, start: nat, size: nat, fetch: Fetcher, got: map<int, StoredItem>)
    requires size > 0 && start < |tags|
    ensures var end := Lower(start + size, |tags|);
      GatherFrom(t, index, tags[start..], size, fetch, got) ==
        match fetch(tags[start..end])
        case None => None
        case Some(items) => GatherFrom(t, index, tags[end..], size, fetch, AcceptAll(t, index, got, items))
  {
    var end := Lower(start + size, |tags|);
    assert tags[start..end] == tags[start..][..end - start] && tags[end..] == tags[start..][end - start..];
  }

  /** Every tag is asked for exactly once and in order, in batches no larger than the given size. */
  method Gather(t: Tools, index: map<Bytes, ChunkInfo>, tags: seq<Bytes>, size: nat, fetch: Fetcher)
    returns (r: Option<map<int, StoredItem>>, calls: seq<seq<Bytes>>)
    requires size > 0
    ensures r == GatherFrom(t, index, tags, size, fetch, map[])
    ensures Flatten(calls) <= tags && (r.Some? ==> Flatten(calls) == tags)
    ensures forall b :: b in calls ==> 0 < |b| <= size
  {
    calls := [];
    var got := map[];
    var start := 0;
    while start < |tags|
      invariant 0 <= start <= |tags| && Flatten(calls) == tags[..start]
      invariant GatherFrom(t, index, tags[start..], size, fetch, got) == GatherFrom(t, index, tags, size, fetch, map[])
      invariant forall b :: b in calls ==> 0 < |b| <= size
    {
      var end := Lower(start + size, |tags|);
      var batch := tags[start..end];
      GatherStep(t, index, tags, start, size, fetch, got);
      FlattenSnoc(calls, batch);
      assert tags[..start] + batch == tags[..end];
      calls := calls + [batch];
      var items := fetch(batch);
      if items.None? {
        return None, calls;
      }
      got := AcceptItems(t, index, got, items.value);
      start := end;
    }
    assert tags[..start] == tags;
    r := Some(got);
  }

  method Deletions(t: Tools, s: Secret, m: Manifest, got: map<int, StoredItem>) returns (deletions: seq<Deletion>)
    requires Decrypted(t, s, m, PayloadsOf(got)).Some?
    ensures |deletions| == |m.chunks| == |s.tokens|
    ensures forall k :: 0 <= k < |deletions| ==> k in got && deletions[k] == Deletion(got[k].itemId, s.tokens[k].deleteToken)
  {
    deletions := [];
    for i := 0 to |s.tokens|
      invariant |deletions| == i
      invariant forall k :: 0 <= k < i ==> k in got && deletions[k] == Deletion(got[k].itemId, s.tokens[k].deleteToken)
    {
      assert ValidChunk(t, s, m, i);
      JoinedHas(t, s, m, PayloadsOf(got), |m.chunks|, i);
      assert i in got;
      var token := s.tokens[i];
      if token.index in got {
        deletions := deletions + [Deletion(got[token.index].itemId, token.deleteToken)];
      }
    }
  }

  /** Route tags of the file, none twice. */
  ghost predicate FileTags(m: Manifest, tags: seq<Bytes>)
  {
    NoDuplicates(tags) && forall x :: x in tags ==> x in Tags(m.chunks)
  }

  /** The tag lists a retrieval may ask for: at most one batch of the file's own tags. */
  ghost predicate Askable(m: Manifest, tags: seq<Bytes>)
  {
    && m.chunks != [] && m.chunks[0].cipherSize > 0
    && 0 < |tags| <= BatchSize(m.chunks[0].cipherSize) && FileTags(m, tags)
  }

  /** A call's tags are a stretch of all the tags asked for. */
  lemma {:induction false} FlattenPart(calls: seq<seq<Bytes>>, b: seq<Bytes>)
    requires b in calls && NoDuplicates(Flatten(calls))
    ensures NoDuplicates(b) && forall x :: x in b ==> x in Flatten(calls)
  {
    var front, last := calls[..|calls| - 1], calls[|calls| - 1];
    var all := Flatten(front);
    assert Flatten(calls)[|all|..] == last && Flatten(calls)[..|all|] == all;
    if b != last {
      FlattenPart(front, b);
    } else {
      assert forall i :: 0 <= i < |last| ==> last[i] == Flatten(calls)[|all| + i];
    }
  }

  /** The lists a retrieval asks for, in order. */
  function Batches(tags: seq<Bytes>, size: nat): seq<seq<Bytes>>
    requires size > 0
    decreases |tags|
  {
    if tags == [] then []
    else
      var b := Lower(size, |tags|);
      [tags[..b]] + Batches(tags[b..], size)
  }

  predicate Asked(m: Manifest, b: seq<Bytes>)
  {
    && m.chunks != [] && m.chunks[0].cipherSize > 0 && BatchSize(m.chunks[0].cipherSize) > 0
    && b in Batches(Tags(m.chunks), BatchSize(m.chunks[0].cipherSize))
  }

  ghost predicate AllAsked(m: Manifest, tags: seq<Bytes>, size: nat)
    requires size > 0
  {
    forall b :: b in Batches(tags, size) ==> Asked(m, b)
  }

  lemma NextBatch(m: Manifest, tags: seq<Bytes>, size: nat)
    requires size > 0 && tags != [] && AllAsked(m, tags, size)
    ensures var b := Lower(size, |tags|); Asked(m, tags[..b]) && AllAsked(m, tags[b..], size)
  {
    var b := Lower(size, |tags|);
    assert Batches(tags, size)[0] == tags[..b] && Batches(tags, size)[1..] == Batches(tags[b..], size);
  }

  lemma {:induction false} BatchesAskable(m: Manifest, tags: seq<Bytes>, size: nat, b: seq<Bytes>)
    requires FileTags(m, tags) && m.chunks != [] && m.chunks[0].cipherSize > 0 && 0 < size == BatchSize(m.chunks[0].cipherSize)
    requires b in Batches(tags, size)
    ensures Askable(m, b)
    decreases |tags|
  {
    var n := Lower(size, |tags|);
    if b != tags[..n] {
      BatchesAskable(m, tags[n..], size, b);
    }
  }

  lemma AskedAskable(m: Manifest, b: seq<Bytes>)
    requires Distinct(m.chunks) && Asked(m, b)
    ensures Askable(m, b)
  {
    AllFileTags(m);
    BatchesAskable(m, Tags(m.chunks), BatchSize(m.chunks[0].cipherSize), b);
  }

  lemma AllFileTags(m: Manifest)
    requires Distinct(m.chunks)
    ensures FileTags(m, Tags(m.chunks))
  {
  }

  /** The calls of a download: their tags in order, within both limits, each a list that a fetch admits. */
  ghost predicate BoundedCalls(t: Tools, m: Manifest, calls: seq<seq<Bytes>>)
  {
    && Flatten(calls) <= Tags(m.chunks)
    && forall b :: b in calls ==> Admits(t.validCapability, b) && m.chunks != [] && |b| * m.chunks[0].cipherSize <= MAX_FETCH_BYTES
  }

  /** Every list a retrieval may ask for passes the argument checks of a fetch. */
  lemma AskableAdmitted(t: Tools, s: Secret, m: Manifest, tags: seq<Bytes>)
    requires ValidManifest(t, s, m) && Askable(m, tags)
    ensures Admits(t.validCapability, tags)
  {
    BatchFits(t, s, m);
    forall x | x in tags ensures t.validCapability(x) {
      var k :| 0 <= k < |m.chunks| && Tags(m.chunks)[k] == x;
      assert ValidChunk(t, s, m, k);
    }
  }

  method Download(t: Tools, s: Secret, m: Manifest, fetch: Fetcher) returns (got: Option<map<int, StoredItem>>, calls: seq<seq<Bytes>>)
    requires ValidManifest(t, s, m)
    ensures got == Gathered(t, m, fetch)
    ensures BoundedCalls(t, m, calls) && (got.Some? ==> Flatten(calls) == Tags(m.chunks))
  {
    BatchFits(t, s, m);
    AllFileTags(m);
    var index := BuildIndex(m.chunks);
    var size := BatchSize(m.chunks[0].cipherSize);
    got, calls := Gather(t, index, Tags(m.chunks), size, fetch);
    forall b | b in calls ensures Admits(t.validCapability, b) && |b| * m.chunks[0].cipherSize <= MAX_FETCH_BYTES {
      FlattenPart(calls, b);
      AskableAdmitted(t, s, m, b);
      ProductOrder(|b|, size, m.chunks[0].cipherSize);
    }
  }

  /** Deletion is asked for only after the file has been rebuilt, once per chunk and with that chunk's token. */
  method Retrieve(t: Tools, s: Secret, m: Manifest, fetch: Fetcher, deleteAfterSuccess: bool)
    returns (r: Option<Bytes>, calls: seq<seq<Bytes>>, deletions: seq<Deletion>)
    ensures r == Retrieved(t, s, m, fetch)
    ensures BoundedCalls(t, m, calls) && (r.Some? ==> Flatten(calls) == Tags(m.chunks))
    ensures deletions != [] ==> r.Some? && deleteAfterSuccess
    ensures r.Some? && deleteAfterSuccess ==> |deletions| == |m.chunks| == |s.tokens|
    ensures r.Some? ==> Gathered(t, m, fetch).Some?
    ensures r.Some? && deleteAfterSuccess ==>
      forall k :: 0 <= k < |deletions| ==>
        var got := Gathered(t, m, fetch).value; k in got && deletions[k] == Deletion(got[k].itemId, s.tokens[k].deleteToken)
  {
    calls, deletions := [], [];
    var valid := ValidateManifest(t, s, m);
    if !valid {
      return None, calls, deletions;
    }
    var got;
    got, calls := Download(t, s, m, fetch);
    if got.None? {
      return None, calls, deletions;
    }
    r := DecryptFile(t, s, m, PayloadsOf(got.value));
    if r.Some? && deleteAfterSuccess {
      deletions := Deletions(t, s, m, got.value);
    }
  }

  // ---------- what a retrieval returns ----------

  /** Every item a network hands out that passes for a chunk of `e` is that chunk. */
  ghost predicate NoImpostor(t: Tools, e: Encrypted, item: StoredItem)
  {
    forall k :: 0 <= k < |e.payloads| ==> NoCollision(t.sha256, item.payload, e.payloads[k])
  }

  /** The items kept so far are chunks of `e`. */
  ghost predicate Genuine(e: Encrypted, got: map<int, StoredItem>)
  {
    forall k :: k in got ==> 0 <= k < |e.payloads| && got[k].payload == e.payloads[k]
  }

  /** The metadata of `e` describes its payloads. */
  ghost predicate Described(t: Tools, e: Encrypted)
  {
    && |e.payloads| == |e.manifest.chunks|
    && forall k :: 0 <= k < |e.payloads| ==> e.manifest.chunks[k].index == k && e.manifest.chunks[k].cipherHash == t.sha256(e.payloads[k])
  }

  lemma AcceptGenuine(t: Tools, e: Encrypted, got: map<int, StoredItem>, item: StoredItem)
    requires Described(t, e) && Genuine(e, got) && NoImpostor(t, e, item)
    ensures Genuine(e, Accept(t, HashIndex(e.manifest.chunks), got, item))
  {
    var h := t.sha256(item.payload);
    if h in HashIndex(e.manifest.chunks) {
      var k := HashIndexOnly(e.manifest.chunks, h);
      assert NoCollision(t.sha256, item.payload, e.payloads[k]);
    }
  }

  lemma {:induction false} AcceptAllGenuine(t: Tools, e: Encrypted, got: map<int, StoredItem>, items: seq<StoredItem>)
    requires Described(t, e) && Genuine(e, got) && forall i :: 0 <= i < |items| ==> NoImpostor(t, e, items[i])
    ensures Genuine(e, AcceptAll(t, HashIndex(e.manifest.chunks), got, items))
  {
    if items != [] {
      AcceptAllGenuine(t, e, got, items[..|items| - 1]);
      AcceptGenuine(t, e, AcceptAll(t, HashIndex(e.manifest.chunks), got, items[..|items| - 1]), items[|items| - 1]);
    }
  }

  /** Nothing that a batch brings has the digest of a chunk without being it. */
  ghost predicate Trusty(t: Tools, e: Encrypted, fetch: Fetcher)
  {
    forall b: seq<Bytes>, i :: Asked(e.manifest, b) && fetch(b).Some? && 0 <= i < |fetch(b).value| ==> NoImpostor(t, e, fetch(b).value[i])
  }

  lemma {:induction false} GatherGenuine(t: Tools, e: Encrypted, tags: seq<Bytes>, size: nat, fetch: Fetcher, got: map<int, StoredItem>)
    requires Described(t, e) && Genuine(e, got) && Trusty(t, e, fetch) && size > 0 && AllAsked(e.manifest, tags, size)
    ensures var r := GatherFrom(t, HashIndex(e.manifest.chunks), tags, size, fetch, got); r.Some? ==> Genuine(e, r.value)
    decreases |tags|
  {
    if tags != [] {
      var b := Lower(size, |tags|);
      var items := fetch(tags[..b]);
      if items.Some? {
        NextBatch(e.manifest, tags, size);
        AcceptAllGenuine(t, e, got, items.value);
        GatherGenuine(t, e, tags[b..], size, fetch, AcceptAll(t, HashIndex(e.manifest.chunks), got, items.value));
      }
    }
  }

  /** Whatever the nodes return, a retrieval that succeeds returns the file that was stored. */
  lemma RetrievalIsFaithful(t: Tools, e: Encrypted, fetch: Fetcher, plaintext: Bytes)
    requires Described(t, e) && Trusty(t, e, fetch)
    requires Decrypted(t, e.secret, e.manifest, Payloads(e)) == Some(plaintext)
    requires Retrieved(t, e.secret, e.manifest, fetch).Some?
    ensures Retrieved(t, e.secret, e.manifest, fetch) == Some(plaintext)
  {
    var m := e.manifest;
    BatchFits(t, e.secret, m);
    GatherGenuine(t, e, Tags(m.chunks), BatchSize(m.chunks[0].cipherSize), fetch, map[]);
    DecryptionUnique(t, e.secret, m, PayloadsOf(Gathered(t, m, fetch).value), Payloads(e));
  }

  /** Among the items of every batch that the retrieval asks for are the chunks asked for. */
  ghost predicate Serves(e: Encrypted, fetch: Fetcher)
    requires |e.payloads| == |e.manifest.chunks|
  {
    forall b: seq<Bytes> :: Asked(e.manifest, b) ==> fetch(b).Some? && Supplied(e, b, fetch(b).value)
  }

  ghost predicate Supplied(e: Encrypted, tags: seq<Bytes>, items: seq<StoredItem>)
    requires |e.payloads| == |e.manifest.chunks|
  {
    forall k :: 0 <= k < |e.payloads| && e.manifest.chunks[k].routeTag in tags ==> Supplies(items, e.manifest.chunks[k].routeTag, e.payloads[k])
  }

  ghost predicate Supplies(items: seq<StoredItem>, tag: Bytes, payload: Bytes)
  {
    exists i :: 0 <= i < |items| && items[i].routeTag == tag && items[i].payload == payload
  }

  /** An item for chunk k, once handed out, leaves chunk k among the kept ones. */
  lemma {:induction false} AcceptAllKeeps(t: Tools, e: Encrypted, got: map<int, StoredItem>, items: seq<StoredItem>, k: nat)
    requires Described(t, e) && Distinct(e.manifest.chunks) && k < |e.payloads|
    requires k in got || Supplies(items, e.manifest.chunks[k].routeTag, e.payloads[k])
    ensures k in AcceptAll(t, HashIndex(e.manifest.chunks), got, items)
  {
    if items != [] {
      HashIndexFinds(e.manifest.chunks, k);
      var front := items[..|items| - 1];
      if k in got {
        AcceptAllKeeps(t, e, got, front, k);
      } else {
        var i :| 0 <= i < |items| && items[i].routeTag == e.manifest.chunks[k].routeTag && items[i].payload == e.payloads[k];
        if i < |front| {
          assert front[i] == items[i];
          AcceptAllKeeps(t, e, got, front, k);
        }
      }
    }
  }

  lemma BatchKeeps(t: Tools, e: Encrypted, got: map<int, StoredItem>, tags: seq<Bytes>, items: seq<StoredItem>, k: nat)
    requires Described(t, e) && Distinct(e.manifest.chunks) && k < |e.payloads| && Supplied(e, tags, items)
    ensures k in got || e.manifest.chunks[k].routeTag in tags ==> k in AcceptAll(t, HashIndex(e.manifest.chunks), got, items)
  {
    if k in got || e.manifest.chunks[k].routeTag in tags {
      AcceptAllKeeps(t, e, got, items, k);
    }
  }

  lemma {:induction false} GatherComplete(t: Tools, e: Encrypted, tags: seq<Bytes>, size: nat, fetch: Fetcher, got: map<int, StoredItem>, k: nat)
    requires Described(t, e) && Distinct(e.manifest.chunks) && k < |e.payloads| && Serves(e, fetch)
    requires size > 0 && AllAsked(e.manifest, tags, size)
    ensures var r := GatherFrom(t, HashIndex(e.manifest.chunks), tags, size, fetch, got);
      r.Some? && (k in got || e.manifest.chunks[k].routeTag in tags ==> k in r.value)
    decreases |tags|
  {
    if tags != [] {
      var b := Lower(size, |tags|);
      NextBatch(e.manifest, tags, size);
      var items := fetch(tags[..b]).value;
      assert Supplied(e, tags[..b], items);
      var next := AcceptAll(t, HashIndex(e.manifest.chunks), got, items);
      GatherComplete(t, e, tags[b..], size, fetch, next, k);
      BatchKeeps(t, e, got, tags[..b], items, k);
      assert tags == tags[..b] + tags[b..];
    }
  }

  lemma {:induction false} GatherStops(t: Tools, index: map<Bytes, ChunkInfo>, tags: seq<Bytes>, size: nat, fetch: Fetcher,
                                       got: map<int, StoredItem>, b: seq<Bytes>)
    requires size > 0 && b in Batches(tags, size) && fetch(b).None?
    ensures GatherFrom(t, index, tags, size, fetch, got).None?
    decreases |tags|
  {
    var n := Lower(size, |tags|);
    if b != tags[..n] && fetch(tags[..n]).Some? {
      GatherStops(t, index, tags[n..], size, fetch, AcceptAll(t, index, got, fetch(tags[..n]).value), b);
    }
  }

  /** One failed batch fails the retrieval. */
  lemma FailedBatchFails(t: Tools, s: Secret, m: Manifest, fetch: Fetcher, b: seq<Bytes>)
    requires Asked(m, b) && fetch(b).None?
    ensures Retrieved(t, s, m, fetch).None?
  {
    GatherStops(t, HashIndex(m.chunks), Tags(m.chunks), BatchSize(m.chunks[0].cipherSize), fetch, map[], b);
  }

  /** If every batch brings the chunks asked for, in any order and among anything else, the file comes back. */
  lemma RetrievalSucceeds(t: Tools, e: Encrypted, fetch: Fetcher, plaintext: Bytes)
    requires Described(t, e) && Trusty(t, e, fetch) && Serves(e, fetch)
    requires Decrypted(t, e.secret, e.manifest, Payloads(e)) == Some(plaintext)
    ensures Retrieved(t, e.secret, e.manifest, fetch) == Some(plaintext)
  {
    var m := e.manifest;
    BatchFits(t, e.secret, m);
    var size := BatchSize(m.chunks[0].cipherSize);
    GatherComplete(t, e, Tags(m.chunks), size, fetch, map[], 0);
    GatherGenuine(t, e, Tags(m.chunks), size, fetch, map[]);
    var got := Gathered(t, m, fetch).value;
    forall k | 0 <= k < |m.chunks| ensures k in got {
      assert Tags(m.chunks)[k] == m.chunks[k].routeTag;
      GatherComplete(t, e, Tags(m.chunks), size, fetch, map[], k);
    }
    assert PayloadsOf(got) == Payloads(e);
  }

  /** Encrypt, store, retrieve: the caller's bytes come back, whatever else the nodes return. */
  lemma EndToEnd(t: Tools, e: Encrypted, name: Bytes, mediaType: Bytes, plaintext: Bytes, maxBytes: int, chunkSize: int,
                 draws: nat -> Draw, fetch: Fetcher)
    requires Sane(t) && Encryptable(name, mediaType, plaintext, maxBytes, chunkSize) && WellDrawn(t, e, draws)
    requires IsEncryption(t, e, name, mediaType, plaintext, chunkSize, e.secret.key, e.secret.fileId, draws)
    requires Distinct(e.manifest.chunks) && Trusty(t, e, fetch)
    ensures Retrieved(t, e.secret, e.manifest, fetch) in {None, Some(plaintext)}
    ensures Serves(e, fetch) ==> Retrieved(t, e.secret, e.manifest, fetch) == Some(plaintext)
  {
    forall k | 0 <= k < |e.payloads|
      ensures e.manifest.chunks[k].index == k && e.manifest.chunks[k].cipherHash == t.sha256(e.payloads[k])
    {
      assert IsChunk(t, e, plaintext, draws, k);
    }
    RoundTrip(t, e, name, mediaType, plaintext, maxBytes, chunkSize, draws);
    if Retrieved(t, e.secret, e.manifest, fetch).Some? {
      RetrievalIsFaithful(t, e, fetch, plaintext);
    }
    if Serves(e, fetch) {
      RetrievalSucceeds(t, e, fetch, plaintext);
    }
  }
}
