/** Encrypted file chunking (media/file.go). */
module Media {
  import opened Bytes
  import opened Identities

  const PROTOCOL_VERSION: Byte := 1
  const MAX_FILE_BYTES := 64 * 1024 * 1024
  const DEFAULT_CHUNK_SIZE := 256 * 1024
  const MIN_CHUNK_SIZE := 16 * 1024
  const MAX_ITEM_BYTES := 320 * 1024
  const CAPABILITY_BYTES := 32
  const NONCE_BYTES := 12
  const TAG_BYTES := 16
  const MAX_NAME_BYTES := 255

  /** AES-256-GCM under one key, SHA-256 and the text checks, taken as given. `seal` and `open` take the
      nonce, the text and the chunk's associated data (file ID and index). */
  datatype Tools = Tools(
    seal: (Bytes, Bytes, Bytes, Bytes, nat) -> Bytes,
    open: (Bytes, Bytes, Bytes, Bytes, nat) -> Option<Bytes>,
    sha256: Bytes -> Bytes,
    validCapability: Bytes -> bool)

  /** Opening undoes sealing, sealing adds a tag, and digests have 32 bytes. */
  ghost predicate Sane(t: Tools)
  {
    && (forall key, nonce, text, file, k: nat :: t.open(key, nonce, t.seal(key, nonce, text, file, k), file, k) == Some(text))
    && (forall key, nonce, text, file, k: nat :: |t.seal(key, nonce, text, file, k)| == |text| + TAG_BYTES)
    && (forall x :: |t.sha256(x)| == 32)
  }

  datatype ChunkInfo = ChunkInfo(index: int, routeTag: Bytes, cipherHash: Bytes, cipherSize: int)

  datatype Manifest = Manifest(version: Byte, fileId: Bytes, name: Bytes, mediaType: Bytes, plaintextBytes: int, chunkSize: int, chunks: seq<ChunkInfo>)

  datatype ChunkSecret = ChunkSecret(index: int, deleteToken: Bytes)

  datatype Secret = Secret(fileId: Bytes, key: Bytes, tokens: seq<ChunkSecret>)

  /** The random values drawn for one chunk. */
  datatype Draw = Draw(nonce: Bytes, padding: Bytes, routeTag: Bytes, deleteToken: Bytes)

  datatype Encrypted = Encrypted(secret: Secret, manifest: Manifest, payloads: seq<Bytes>)

  // ---------- file names ----------

  const SLASH: Byte := 47

  function TrimSlashes(p: Bytes): Bytes
  {
    if p != [] && p[|p| - 1] == SLASH then TrimSlashes(p[..|p| - 1]) else p
  }

  function AfterLastSlash(p: Bytes): Bytes
  {
    if p == [] || p[|p| - 1] == SLASH then [] else AfterLastSlash(p[..|p| - 1]) + [p[|p| - 1]]
  }

  /** `filepath.Base` on a Unix path. */
  function BaseName(p: Bytes): Bytes
  {
    if p == [] then ['.' as int]
    else
      var t := TrimSlashes(p);
      if t == [] then [SLASH] else AfterLastSlash(t)
  }

  lemma {:induction false} AfterLastSlashClean(p: Bytes)
    ensures SLASH !in AfterLastSlash(p)
    ensures p != [] && p[|p| - 1] != SLASH ==> AfterLastSlash(p) != []
  {
    if p != [] && p[|p| - 1] != SLASH {
      AfterLastSlashClean(p[..|p| - 1]);
    }
  }

  lemma {:induction false} CleanUnchanged(p: Bytes)
    requires SLASH !in p
    ensures TrimSlashes(p) == p && AfterLastSlash(p) == p
  {
    if p != [] {
      CleanUnchanged(p[..|p| - 1]);
      assert p == p[..|p| - 1] + [p[|p| - 1]];
    }
  }

  lemma {:induction false} TrimmedEnds(p: Bytes)
    ensures TrimSlashes(p) != [] ==> TrimSlashes(p)[|TrimSlashes(p)| - 1] != SLASH
  {
    if p != [] && p[|p| - 1] == SLASH {
      TrimmedEnds(p[..|p| - 1]);
    }
  }

  /** A base name is its own base name, which is what manifest validation asks for. */
  lemma BaseNameIdempotent(p: Bytes)
    ensures BaseName(p) != [] && BaseName(BaseName(p)) == BaseName(p)
  {
    if p == [] {
      CleanUnchanged(BaseName(p));
    } else {
      var t := TrimSlashes(p);
      if t == [] {
        assert TrimSlashes([SLASH][..0]) == [];
        assert TrimSlashes([SLASH]) == [];
      } else {
        TrimmedEnds(p);
        AfterLastSlashClean(t);
        CleanUnchanged(AfterLastSlash(t));
      }
    }
  }

  predicate HasControl(b: Bytes)
  {
    0 in b || 13 in b || 10 in b
  }

  // ---------- chunks ----------

  /** The length of a chunk's plaintext, the plaintext, and random filler up to the fixed size. */
  function Padded(text: Bytes, filler: Bytes): Bytes
    requires |text| < TWO32
  {
    BigEndian(|text|, 4) + text + filler
  }

  /** What DecryptFile takes out of an opened chunk, or nothing if its length field is out of range. */
  function Unpadded(padded: Bytes, chunkSize: nat): Option<Bytes>
  {
    if |padded| != chunkSize + 4 then None
    else
      var length := Value(padded[..4]);
      if length > chunkSize then None else Some(padded[4..4 + length])
  }

  lemma PaddingUndone(text: Bytes, filler: Bytes, chunkSize: nat)
    requires |text| + |filler| == chunkSize < TWO32
    ensures Unpadded(Padded(text, filler), chunkSize) == Some(text)
  {
    var p := Padded(text, filler);
    assert p[..4] == BigEndian(|text|, 4);
    PowersOfTwo();
    BigEndianRoundTrip(|text|, 4);
    assert p[4..4 + |text|] == text;
  }

  /** The k-th chunk of a file. */
  function Slice(plaintext: Bytes, chunkSize: nat, k: nat): Bytes
    requires chunkSize > 0 && k * chunkSize <= |plaintext|
  {
    if (k + 1) * chunkSize <= |plaintext| then plaintext[k * chunkSize..(k + 1) * chunkSize] else plaintext[k * chunkSize..]
  }

  function ChunkCount(bytes: nat, chunkSize: nat): nat
    requires chunkSize > 0
  {
    (bytes + chunkSize - 1) / chunkSize
  }

  lemma ProductOrder(a: int, b: int, c: int)
    requires a <= b && c >= 0
    ensures a * c <= b * c
  {
  }

  lemma CeilingBounds(bytes: nat, chunkSize: nat)
    requires chunkSize > 0
    ensures var n := ChunkCount(bytes, chunkSize); bytes <= n * chunkSize < bytes + chunkSize
  {
    var n := ChunkCount(bytes, chunkSize);
    assert bytes + chunkSize - 1 == chunkSize * n + (bytes + chunkSize - 1) % chunkSize;
  }

  /** Ceiling division counts the loop's rounds exactly. */
  lemma ChunkCountIs(bytes: nat, chunkSize: nat, k: nat)
    requires chunkSize > 0
    ensures k < ChunkCount(bytes, chunkSize) <==> k * chunkSize < bytes
  {
    var n := ChunkCount(bytes, chunkSize);
    CeilingBounds(bytes, chunkSize);
    if k < n {
      ProductOrder(k + 1, n, chunkSize);
      assert (k + 1) * chunkSize == k * chunkSize + chunkSize;
    } else {
      ProductOrder(n, k, chunkSize);
    }
  }

  // ---------- encryption ----------

  function EffectiveLimit(maxBytes: int): int
  {
    if maxBytes <= 0 then MAX_FILE_BYTES else maxBytes
  }

  function EffectiveChunk(chunkSize: int): nat
  {
    if chunkSize <= 0 then DEFAULT_CHUNK_SIZE else chunkSize
  }

  predicate Encryptable(name: Bytes, mediaType: Bytes, plaintext: Bytes, maxBytes: int, chunkSize: int)
  {
    && EffectiveLimit(maxBytes) <= MAX_FILE_BYTES
    && 0 < |plaintext| <= EffectiveLimit(maxBytes)
    && BaseName(name) != ['.' as int] && BaseName(name) != [] && |BaseName(name)| <= MAX_NAME_BYTES
    && 0 < |mediaType| <= MAX_NAME_BYTES && !HasControl(BaseName(name) + mediaType)
    && MIN_CHUNK_SIZE <= EffectiveChunk(chunkSize) <= MAX_ITEM_BYTES - 1024
  }

  /** What the random source delivers for every chunk. */
  ghost predicate GoodDraws(draws: nat -> Draw, chunkSize: nat)
  {
    forall k :: |draws(k).nonce| == NONCE_BYTES && |draws(k).padding| == chunkSize && |draws(k).deleteToken| == CAPABILITY_BYTES
  }

  function Payload(t: Tools, key: Bytes, fileId: Bytes, text: Bytes, chunkSize: nat, d: Draw, k: nat): Bytes
    requires |text| <= chunkSize < TWO32 && |d.padding| == chunkSize
  {
    d.nonce + t.seal(key, d.nonce, Padded(text, d.padding[..chunkSize - |text|]), fileId, k)
  }

  lemma SliceShort(plaintext: Bytes, chunkSize: nat, k: nat)
    requires chunkSize > 0 && k * chunkSize < |plaintext|
    ensures 0 < |Slice(plaintext, chunkSize, k)| <= chunkSize
    ensures |plaintext[..Lower((k + 1) * chunkSize, |plaintext|)]| == Lower((k + 1) * chunkSize, |plaintext|)
    ensures plaintext[..k * chunkSize] + Slice(plaintext, chunkSize, k) == plaintext[..Lower((k + 1) * chunkSize, |plaintext|)]
  {
    assert (k + 1) * chunkSize == k * chunkSize + chunkSize;
  }

  function Lower(a: int, b: int): int
  {
    if a < b then a else b
  }

  /** The k-th payload and its metadata are what encrypting the k-th slice gives. */
  ghost predicate IsChunk(t: Tools, e: Encrypted, plaintext: Bytes, draws: nat -> Draw, k: nat)
    requires k < |e.payloads| && k < |e.manifest.chunks| && k < |e.secret.tokens|
  {
    var c := e.manifest.chunkSize;
    && 0 < c < TWO32 && k * c < |plaintext| && |draws(k).padding| == c
    && |Slice(plaintext, c, k)| <= c
    && e.payloads[k] == Payload(t, e.secret.key, e.secret.fileId, Slice(plaintext, c, k), c, draws(k), k)
    && e.manifest.chunks[k] == ChunkInfo(k, draws(k).routeTag, t.sha256(e.payloads[k]), |e.payloads[k]|)
    && e.secret.tokens[k] == ChunkSecret(k, draws(k).deleteToken)
  }

  ghost predicate Chunked(t: Tools, e: Encrypted, plaintext: Bytes, draws: nat -> Draw, n: nat)
  {
    && |e.payloads| == |e.manifest.chunks| == |e.secret.tokens| == n
    && forall k :: 0 <= k < n ==> IsChunk(t, e, plaintext, draws, k)
  }

  ghost predicate IsEncryption(t: Tools, e: Encrypted, name: Bytes, mediaType: Bytes, plaintext: Bytes, chunkSize: int,
                               key: Bytes, fileId: Bytes, draws: nat -> Draw)
  {
    && e.secret.fileId == fileId && e.secret.key == key
    && e.manifest == Manifest(PROTOCOL_VERSION, fileId, BaseName(name), mediaType, |plaintext|, EffectiveChunk(chunkSize), e.manifest.chunks)
    && Chunked(t, e, plaintext, draws, ChunkCount(|plaintext|, EffectiveChunk(chunkSize)))
  }

  /** One round of the chunk loop. */
  function AddChunk(t: Tools, e: Encrypted, text: Bytes, c: nat, d: Draw, index: nat): Encrypted
    requires |text| <= c < TWO32 && |d.padding| == c
  {
    var payload := Payload(t, e.secret.key, e.secret.fileId, text, c, d, index);
    var info := ChunkInfo(index, d.routeTag, t.sha256(payload), |payload|);
    Encrypted(e.secret.(tokens := e.secret.tokens + [ChunkSecret(index, d.deleteToken)]),
              e.manifest.(chunks := e.manifest.chunks + [info]),
              e.payloads + [payload])
  }

  lemma AddChunkKeeps(t: Tools, e: Encrypted, text: Bytes, plaintext: Bytes, draws: nat -> Draw, index: nat)
    requires Chunked(t, e, plaintext, draws, index)
    requires 0 < e.manifest.chunkSize < TWO32 && index * e.manifest.chunkSize < |plaintext|
    requires text == Slice(plaintext, e.manifest.chunkSize, index) && |draws(index).padding| == e.manifest.chunkSize
    requires |text| <= e.manifest.chunkSize
    ensures Chunked(t, AddChunk(t, e, text, e.manifest.chunkSize, draws(index), index), plaintext, draws, index + 1)
  {
    var next := AddChunk(t, e, text, e.manifest.chunkSize, draws(index), index);
    assert IsChunk(t, next, plaintext, draws, index);
    forall k | 0 <= k < index ensures IsChunk(t, next, plaintext, draws, k) {
      assert IsChunk(t, e, plaintext, draws, k);
    }
  }

  method EncryptFile(t: Tools, name: Bytes, mediaType: Bytes, plaintext: Bytes, maxBytes: int, chunkSize: int,
                     key: Bytes, fileId: Bytes, draws: nat -> Draw) returns (r: Option<Encrypted>)
    requires GoodDraws(draws, EffectiveChunk(chunkSize))
    ensures r.Some? <==> Encryptable(name, mediaType, plaintext, maxBytes, chunkSize)
    ensures r.Some? ==> IsEncryption(t, r.value, name, mediaType, plaintext, chunkSize, key, fileId, draws)
  {
    if !Encryptable(name, mediaType, plaintext, maxBytes, chunkSize) {
      return None;
    }
    var e := EncryptChunks(t, BaseName(name), mediaType, plaintext, EffectiveChunk(chunkSize), key, fileId, draws);
    return Some(e);
  }

  method EncryptChunks(t: Tools, name: Bytes, mediaType: Bytes, plaintext: Bytes, c: nat,
                       key: Bytes, fileId: Bytes, draws: nat -> Draw) returns (e: Encrypted)
    requires 0 < c < TWO32 && GoodDraws(draws, c)
    ensures e.secret.fileId == fileId && e.secret.key == key
    ensures e.manifest == Manifest(PROTOCOL_VERSION, fileId, name, mediaType, |plaintext|, c, e.manifest.chunks)
    ensures Chunked(t, e, plaintext, draws, ChunkCount(|plaintext|, c))
  {
    ghost var empty := Manifest(PROTOCOL_VERSION, fileId, name, mediaType, |plaintext|, c, []);
    e := Encrypted(Secret(fileId, key, []), Manifest(PROTOCOL_VERSION, fileId, name, mediaType, |plaintext|, c, []), []);
    var index, start := 0, 0;
    while start < |plaintext|
      invariant 0 <= start == index * c
      invariant e.secret.fileId == fileId && e.secret.key == key
      invariant e.manifest == empty.(chunks := e.manifest.chunks)
      invariant Chunked(t, e, plaintext, draws, index)
      decreases |plaintext| - start
    {
      SliceShort(plaintext, c, index);
      var text := plaintext[start..Lower(start + c, |plaintext|)];
      assert text == Slice(plaintext, c, index) by {
        assert (index + 1) * c == start + c;
      }
      AddChunkKeeps(t, e, text, plaintext, draws, index);
      e := AddChunk(t, e, text, c, draws(index), index);
      index, start := index + 1, start + c;
    }
    ChunkCountIs(|plaintext|, c, index);
    if index > 0 {
      assert IsChunk(t, e, plaintext, draws, index - 1);
      ChunkCountIs(|plaintext|, c, index - 1);
    }
  }

  // ---------- manifests ----------

  predicate ValidHeader(t: Tools, s: Secret, m: Manifest)
  {
    && t.validCapability(m.fileId) && m.version == PROTOCOL_VERSION && m.fileId == s.fileId && |s.key| == 32
    && 0 < m.plaintextBytes <= MAX_FILE_BYTES
    && MIN_CHUNK_SIZE <= m.chunkSize <= MAX_ITEM_BYTES - 1024
    && 0 < |m.name| <= MAX_NAME_BYTES && BaseName(m.name) == m.name
    && 0 < |m.mediaType| <= MAX_NAME_BYTES && !HasControl(m.name + m.mediaType)
  }

  predicate ValidCount(s: Secret, m: Manifest)
    requires m.plaintextBytes > 0 && m.chunkSize > 0
  {
    && 0 < ChunkCount(m.plaintextBytes, m.chunkSize) <= MAX_FILE_BYTES / MIN_CHUNK_SIZE + 1
    && |m.chunks| == ChunkCount(m.plaintextBytes, m.chunkSize) && |s.tokens| == |m.chunks|
  }

  predicate ValidChunk(t: Tools, s: Secret, m: Manifest, k: nat)
    requires k < |m.chunks| && k < |s.tokens|
  {
    && m.chunks[k].index == k && t.validCapability(m.chunks[k].routeTag) && |m.chunks[k].cipherHash| == 32
    && m.chunks[k].cipherSize == m.chunkSize + 4 + NONCE_BYTES + TAG_BYTES
    && s.tokens[k].index == k && |s.tokens[k].deleteToken| == CAPABILITY_BYTES
  }

  /** No route tag and no ciphertext digest occurs twice. */
  ghost predicate Distinct(chunks: seq<ChunkInfo>)
  {
    forall i, j :: 0 <= i < j < |chunks| ==> chunks[i].routeTag != chunks[j].routeTag && chunks[i].cipherHash != chunks[j].cipherHash
  }

  ghost predicate ValidManifest(t: Tools, s: Secret, m: Manifest)
  {
    && ValidHeader(t, s, m) && ValidCount(s, m)
    && (forall k :: 0 <= k < |m.chunks| ==> ValidChunk(t, s, m, k))
    && Distinct(m.chunks)
  }

  /** The two sets of seen values decide distinctness. */
  method ValidateManifest(t: Tools, s: Secret, m: Manifest) returns (ok: bool)
    ensures ok <==> ValidManifest(t, s, m)
  {
    if !ValidHeader(t, s, m) || !ValidCount(s, m) {
      return false;
    }
    ok := ValidateChunks(t, s, m);
  }

  method ValidateChunks(t: Tools, s: Secret, m: Manifest) returns (ok: bool)
    requires |m.chunks| == |s.tokens|
    ensures ok <==> Distinct(m.chunks) && forall k :: 0 <= k < |m.chunks| ==> ValidChunk(t, s, m, k)
  {
    var seenRoutes, seenHashes := {}, {};
    for i := 0 to |m.chunks|
      invariant forall k :: 0 <= k < i ==> ValidChunk(t, s, m, k)
      invariant Distinct(m.chunks[..i])
      invariant seenRoutes == set k | 0 <= k < i :: m.chunks[k].routeTag
      invariant seenHashes == set k | 0 <= k < i :: m.chunks[k].cipherHash
    {
      if !ValidChunk(t, s, m, i) || m.chunks[i].routeTag in seenRoutes || m.chunks[i].cipherHash in seenHashes {
        return false;
      }
      seenRoutes, seenHashes := seenRoutes + {m.chunks[i].routeTag}, seenHashes + {m.chunks[i].cipherHash};
    }
    assert m.chunks[..|m.chunks|] == m.chunks;
    return true;
  }

  // ---------- decryption ----------

  /** The plaintext of one chunk, if its ciphertext is present, intact and well padded. */
  function ChunkText(t: Tools, s: Secret, m: Manifest, chunks: map<int, Bytes>, info: ChunkInfo): Option<Bytes>
    requires m.chunkSize >= 0
  {
    if info.index < 0 || info.index !in chunks then None
    else
      var c := chunks[info.index];
      if t.sha256(c) != info.cipherHash || |c| != info.cipherSize || |c| < NONCE_BYTES then None
      else
        match t.open(s.key, c[..NONCE_BYTES], c[NONCE_BYTES..], m.fileId, info.index)
        case None => None
        case Some(padded) => Unpadded(padded, m.chunkSize)
  }

  /** The plaintexts of the first n chunks, joined, if all of them are there. */
  function Joined(t: Tools, s: Secret, m: Manifest, chunks: map<int, Bytes>, n: nat): Option<Bytes>
    requires m.chunkSize >= 0 && n <= |m.chunks|
  {
    if n == 0 then Some([])
    else
      match Joined(t, s, m, chunks, n - 1)
      case None => None
      case Some(before) =>
        match ChunkText(t, s, m, chunks, m.chunks[n - 1])
        case None => None
        case Some(text) => Some(before + text)
  }

  ghost function Decrypted(t: Tools, s: Secret, m: Manifest, chunks: map<int, Bytes>): Option<Bytes>
  {
    if !ValidManifest(t, s, m) || |chunks| != |m.chunks| then None
    else
      match Joined(t, s, m, chunks, |m.chunks|)
      case None => None
      case Some(text) => if |text| == m.plaintextBytes then Some(text) else None
  }

  lemma {:induction false} JoinedStops(t: Tools, s: Secret, m: Manifest, chunks: map<int, Bytes>, i: nat, n: nat)
    requires m.chunkSize >= 0 && i <= n <= |m.chunks| && Joined(t, s, m, chunks, i).None?
    ensures Joined(t, s, m, chunks, n).None?
  {
    if i < n {
      JoinedStops(t, s, m, chunks, i, n - 1);
    }
  }

  method DecryptFile(t: Tools, s: Secret, m: Manifest, chunks: map<int, Bytes>) returns (r: Option<Bytes>)
    ensures r == Decrypted(t, s, m, chunks)
  {
    var valid := ValidateManifest(t, s, m);
    if !valid || |chunks| != |m.chunks| {
      return None;
    }
    var output := [];
    for i := 0 to |m.chunks|
      invariant Joined(t, s, m, chunks, i) == Some(output)
    {
      var text := ChunkText(t, s, m, chunks, m.chunks[i]);
      if text.None? {
        JoinedStops(t, s, m, chunks, i + 1, |m.chunks|);
        return None;
      }
      output := output + text.value;
    }
    return if |output| == m.plaintextBytes then Some(output) else None;
  }
}
