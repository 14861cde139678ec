/** What encrypting a file guarantees to whoever decrypts it (media/file.go). */
module MediaRoundTrip {
  import opened Bytes
  import opened Identities
  import opened Media
  import Totals

  /** The random values the code itself draws: a 32-byte key and well-formed capabilities. */
  ghost predicate WellDrawn(t: Tools, e: Encrypted, draws: nat -> Draw)
  {
    && |e.secret.key| == 32 && t.validCapability(e.secret.fileId) && e.manifest.chunkSize >= 0
    && GoodDraws(draws, e.manifest.chunkSize) && forall k :: t.validCapability(draws(k).routeTag)
  }

  /** The ciphertexts of a file by chunk index. */
  function Payloads(e: Encrypted): map<int, Bytes>
  {
    map k: int | 0 <= k < |e.payloads| :: e.payloads[k]
  }

  lemma PayloadSize(t: Tools, e: Encrypted, plaintext: Bytes, draws: nat -> Draw, n: nat, k: nat)
    requires Sane(t) && Chunked(t, e, plaintext, draws, n) && k < n && WellDrawn(t, e, draws)
    ensures |e.payloads[k]| == e.manifest.chunkSize + 4 + NONCE_BYTES + TAG_BYTES
  {
    assert IsChunk(t, e, plaintext, draws, k);
  }

  lemma FewChunks(bytes: nat, chunkSize: nat)
    requires 0 < bytes <= MAX_FILE_BYTES && MIN_CHUNK_SIZE <= chunkSize
    ensures 0 < ChunkCount(bytes, chunkSize) <= MAX_FILE_BYTES / MIN_CHUNK_SIZE + 1
  {
    ChunkCountIs(bytes, chunkSize, 0);
    var top := MAX_FILE_BYTES / MIN_CHUNK_SIZE + 1;
    assert top * MIN_CHUNK_SIZE <= top * chunkSize;
    ChunkCountIs(bytes, chunkSize, top);
  }

  /** An encrypted file's manifest passes validation exactly when no route tag and no digest was drawn twice,
      and its payloads fit the item limit of the nodes. */
  lemma EncryptionValidIff(t: Tools, e: Encrypted, name: Bytes, mediaType: Bytes, plaintext: Bytes, maxBytes: int, chunkSize: int,
                           draws: nat -> Draw)
    requires Sane(t) && Encryptable(name, mediaType, plaintext, maxBytes, chunkSize) && WellDrawn(t, e, draws)
    requires IsEncryption(t, e, name, mediaType, plaintext, chunkSize, e.secret.key, e.secret.fileId, draws)
    ensures ValidManifest(t, e.secret, e.manifest) <==> Distinct(e.manifest.chunks)
    ensures forall k :: 0 <= k < |e.payloads| ==> |e.payloads[k]| <= MAX_ITEM_BYTES
  {
    BaseNameIdempotent(name);
    FewChunks(|plaintext|, e.manifest.chunkSize);
    var n := |e.manifest.chunks|;
    forall k | 0 <= k < n ensures ValidChunk(t, e.secret, e.manifest, k) && |e.payloads[k]| <= MAX_ITEM_BYTES {
      PayloadSize(t, e, plaintext, draws, n, k);
      assert IsChunk(t, e, plaintext, draws, k);
    }
  }

  /** Fresh nonces and route tags are enough, as long as no two of the ciphertexts collide. */
  lemma FreshDrawsSuffice(t: Tools, e: Encrypted, plaintext: Bytes, draws: nat -> Draw, n: nat)
    requires Chunked(t, e, plaintext, draws, n) && WellDrawn(t, e, draws)
    requires forall i, j :: 0 <= i < j < n ==> draws(i).nonce != draws(j).nonce && draws(i).routeTag != draws(j).routeTag
    requires forall i, j :: 0 <= i < n && 0 <= j < n ==> NoCollision(t.sha256, e.payloads[i], e.payloads[j])
    ensures Distinct(e.manifest.chunks)
  {
    forall i, j | 0 <= i < j < n
      ensures e.manifest.chunks[i].routeTag != e.manifest.chunks[j].routeTag && e.manifest.chunks[i].cipherHash != e.manifest.chunks[j].cipherHash
    {
      assert IsChunk(t, e, plaintext, draws, i) && IsChunk(t, e, plaintext, draws, j);
      assert e.payloads[i][..NONCE_BYTES] == draws(i).nonce && e.payloads[j][..NONCE_BYTES] == draws(j).nonce;
      assert NoCollision(t.sha256, e.payloads[i], e.payloads[j]);
    }
  }

  lemma ChunkOpens(t: Tools, e: Encrypted, plaintext: Bytes, draws: nat -> Draw, n: nat, k: nat)
    requires Sane(t) && Chunked(t, e, plaintext, draws, n) && k < n && WellDrawn(t, e, draws)
    requires e.manifest.fileId == e.secret.fileId
    requires k * e.manifest.chunkSize <= |plaintext| && e.manifest.chunkSize > 0
    ensures ChunkText(t, e.secret, e.manifest, Payloads(e), e.manifest.chunks[k]) == Some(Slice(plaintext, e.manifest.chunkSize, k))
  {
    assert IsChunk(t, e, plaintext, draws, k);
    var c: nat := e.manifest.chunkSize;
    var text := Slice(plaintext, c, k);
    var filler := draws(k).padding[..c - |text|];
    var p := e.payloads[k];
    var sealed := t.seal(e.secret.key, draws(k).nonce, Padded(text, filler), e.secret.fileId, k);
    assert p[..NONCE_BYTES] == draws(k).nonce && p[NONCE_BYTES..] == sealed;
    PaddingUndone(text, filler, c);
  }

  lemma {:induction false} JoinsTo(t: Tools, e: Encrypted, plaintext: Bytes, draws: nat -> Draw, n: nat, k: nat)
    requires Sane(t) && Chunked(t, e, plaintext, draws, n) && k <= n && WellDrawn(t, e, draws)
    requires e.manifest.fileId == e.secret.fileId && e.manifest.chunkSize > 0
    ensures k * e.manifest.chunkSize >= 0
    ensures Joined(t, e.secret, e.manifest, Payloads(e), k) == Some(plaintext[..Lower(k * e.manifest.chunkSize, |plaintext|)])
  {
    if k > 0 {
      var c: nat := e.manifest.chunkSize;
      JoinsTo(t, e, plaintext, draws, n, k - 1);
      assert IsChunk(t, e, plaintext, draws, k - 1);
      ChunkOpens(t, e, plaintext, draws, n, k - 1);
      SliceShort(plaintext, c, k - 1);
    }
  }

  /** Decrypting what was encrypted gives back the file, byte for byte. */
  lemma RoundTrip(t: Tools, e: Encrypted, name: Bytes, mediaType: Bytes, plaintext: Bytes, maxBytes: int, chunkSize: int,
                  draws: nat -> Draw)
    requires Sane(t) && Encryptable(name, mediaType, plaintext, maxBytes, chunkSize) && WellDrawn(t, e, draws)
    requires IsEncryption(t, e, name, mediaType, plaintext, chunkSize, e.secret.key, e.secret.fileId, draws)
    requires Distinct(e.manifest.chunks)
    ensures Decrypted(t, e.secret, e.manifest, Payloads(e)) == Some(plaintext)
  {
    EncryptionValidIff(t, e, name, mediaType, plaintext, maxBytes, chunkSize, draws);
    var n := |e.manifest.chunks|;
    Totals.IndexCount(Payloads(e), n);
    JoinsTo(t, e, plaintext, draws, n, n);
    ChunkCountIs(|plaintext|, e.manifest.chunkSize, n);
    assert plaintext[..|plaintext|] == plaintext;
  }

  // ---------- integrity ----------

  lemma {:induction false} JoinedHas(t: Tools, s: Secret, m: Manifest, chunks: map<int, Bytes>, n: nat, k: nat)
    requires m.chunkSize >= 0 && k < n <= |m.chunks| && Joined(t, s, m, chunks, n).Some?
    ensures ChunkText(t, s, m, chunks, m.chunks[k]).Some?
  {
    if k < n - 1 {
      JoinedHas(t, s, m, chunks, n - 1, k);
    }
  }

  lemma {:induction false} JoinedAgrees(t: Tools, s: Secret, m: Manifest, a: map<int, Bytes>, b: map<int, Bytes>, n: nat)
    requires m.chunkSize >= 0 && n <= |m.chunks|
    requires Joined(t, s, m, a, n).Some? && Joined(t, s, m, b, n).Some?
    requires forall i :: i in a && i in b ==> NoCollision(t.sha256, a[i], b[i])
    ensures Joined(t, s, m, a, n) == Joined(t, s, m, b, n)
  {
    if n > 0 {
      JoinedAgrees(t, s, m, a, b, n - 1);
      var i := m.chunks[n - 1].index;
      assert NoCollision(t.sha256, a[i], b[i]);
    }
  }

  /** Whatever ciphertexts arrive, a manifest decrypts to at most one file. */
  lemma DecryptionUnique(t: Tools, s: Secret, m: Manifest, a: map<int, Bytes>, b: map<int, Bytes>)
    requires Decrypted(t, s, m, a).Some? && Decrypted(t, s, m, b).Some?
    requires forall i :: i in a && i in b ==> NoCollision(t.sha256, a[i], b[i])
    ensures Decrypted(t, s, m, a) == Decrypted(t, s, m, b)
  {
    JoinedAgrees(t, s, m, a, b, |m.chunks|);
  }
}
