/** Per-chunk sealing: compress, encrypt under a key and nonce derived from the
    plaintext hash, and address the result by the hash of its ciphertext. */
module Crypto {
  import opened Prelude
  import Chunker

  const CTX_CHUNK := "git-storage 2026-07-16 chunk key v1"
  const CTX_NONCE := "git-storage 2026-07-16 chunk nonce v1"
  const FORMAT_VERSION := 1

  /** "git-storage/v" and the format version, 32 bits little-endian: bound into
      every seal. */
  const AAD: Bytes := [0x67, 0x69, 0x74, 0x2d, 0x73, 0x74, 0x6f, 0x72, 0x61, 0x67, 0x65, 0x2f, 0x76,
                       FORMAT_VERSION as Byte, 0, 0, 0]

  /** The external primitives, as functions. */
  datatype Primitives = Primitives(
    derive: (Bytes, string) -> Bytes,
    prf: (Bytes, Digest) -> Bytes,
    encrypt: (Bytes, Bytes, Bytes, Bytes) -> Bytes,
    decrypt: (Bytes, Bytes, Bytes, Bytes) -> Option<Bytes>,
    compress: (Bytes, int) -> Bytes,
    decompress: (Bytes, nat) -> Option<Bytes>)
  {
    /** What is assumed of them: authenticated decryption undoes encryption under
        the same key, nonce and associated data; decompression undoes
        compression up to the given output cap and fails beyond it; the keyed
        hash is 32 bytes long. */
    ghost predicate Laws() {
      && (forall k, n, a, m :: decrypt(k, n, a, encrypt(k, n, a, m)) == Some(m))
      && (forall m, level, cap ::
            decompress(compress(m, level), cap) == if |m| <= cap then Some(m) else None)
      && (forall k, d :: |prf(k, d)| == 32)
    }
  }

  datatype SealedChunk = SealedChunk(chunkId: Digest, plaintextHash: Digest, ciphertext: Bytes)

  datatype OpenError = AuthenticationFailed | DecompressionFailed | PlaintextHashMismatch

  datatype Keys = Keys(master: Bytes, prims: Primitives, level: int) {
    ghost predicate Valid() { prims.Laws() }

    function ChunkKey(plaintextHash: Digest): Bytes {
      prims.prf(prims.derive(master, CTX_CHUNK), plaintextHash)
    }

    function ChunkNonce(plaintextHash: Digest): Bytes
      requires Valid()
    {
      prims.prf(prims.derive(master, CTX_NONCE), plaintextHash)[..24]
    }

    /** The stored form of a plaintext chunk. */
    function Ciphertext(plaintext: Bytes): Bytes
      requires Valid()
    {
      var h := Blake3(plaintext);
      prims.encrypt(ChunkKey(h), ChunkNonce(h), AAD, prims.compress(plaintext, level))
    }

    function SealChunk(plaintext: Bytes): SealedChunk
      requires Valid()
    {
      var ciphertext := Ciphertext(plaintext);
      SealedChunk(Blake3(ciphertext), Blake3(plaintext), ciphertext)
    }

    function OpenChunk(ciphertext: Bytes, plaintextHash: Digest): (r: Result<Bytes, OpenError>)
      requires Valid()
      ensures r.Ok? ==> Blake3(r.value) == plaintextHash
    {
      match prims.decrypt(ChunkKey(plaintextHash), ChunkNonce(plaintextHash), AAD, ciphertext)
      case None => Err(AuthenticationFailed)
      case Some(compressed) =>
        match prims.decompress(compressed, Chunker.ABS_MAX_CHUNK)
        case None => Err(DecompressionFailed)
        case Some(plaintext) =>
          if Blake3(plaintext) != plaintextHash then Err(PlaintextHashMismatch) else Ok(plaintext)
    }
  }

  /** Opening undoes sealing exactly for the plaintexts within the decompression
      cap; a longer one is sealed but can never be opened again. */
  lemma SealThenOpen(keys: Keys, plaintext: Bytes)
    requires keys.Valid()
    ensures var s := keys.SealChunk(plaintext);
      keys.OpenChunk(s.ciphertext, s.plaintextHash) ==
        if |plaintext| <= 64 * 1024 * 1024 then Ok(plaintext) else Err(DecompressionFailed)
  {
    var h := Blake3(plaintext);
    var compressed := keys.prims.compress(plaintext, keys.level);
    assert keys.prims.decrypt(keys.ChunkKey(h), keys.ChunkNonce(h), AAD, keys.Ciphertext(plaintext)) == Some(compressed);
  }

  /** Convergence: the sealed form is a function of the plaintext, so equal chunks
      share an id, and whatever opens under a recorded hash is that plaintext. */
  lemma OpenIsSound(keys: Keys, plaintext: Bytes, ciphertext: Bytes)
    requires keys.Valid()
    ensures keys.OpenChunk(ciphertext, Blake3(plaintext)).Ok?
        ==> keys.OpenChunk(ciphertext, Blake3(plaintext)) == Ok(plaintext)
  {
  }

  // ---------- who can open a chunk ----------

  /** What key separation needs of the primitives, at the sizes in use: 32-byte
      masters derive different 32-byte keys, different keys hash a digest
      differently, and a ciphertext authenticates under its own key, nonce and
      associated data alone. */
  ghost predicate Separate(p: Primitives) {
    && (forall m, n, c :: DerivesApart(p, m, n, c))
    && (forall k, l, d :: HashesApart(p, k, l, d))
    && (forall k, n, a, m, l, o, b :: OpensAlone(p, k, n, a, m, l, o, b))
  }

  predicate DerivesApart(p: Primitives, m: Bytes, n: Bytes, c: string) {
    |m| == 32 && |n| == 32 && m != n ==> |p.derive(m, c)| == 32 && p.derive(m, c) != p.derive(n, c)
  }

  predicate HashesApart(p: Primitives, k: Bytes, l: Bytes, d: Digest) {
    |k| == 32 && |l| == 32 && k != l ==> p.prf(k, d) != p.prf(l, d)
  }

  predicate OpensAlone(p: Primitives, k: Bytes, n: Bytes, a: Bytes, m: Bytes, l: Bytes, o: Bytes, b: Bytes) {
    |k| == |l| == 32 && |n| == |o| == 24 && |a| == |b| && (k, n, a) != (l, o, b) ==>
      p.decrypt(l, o, b, p.encrypt(k, n, a, m)).None?
  }

  /** Different masters give every chunk different keys, and nothing sealed under the
      one opens under the other. */
  lemma OtherMasterCannotOpen(keys: Keys, other: Keys, plaintext: Bytes)
    requires keys.Valid() && Separate(keys.prims) && other.prims == keys.prims
    requires |keys.master| == 32 && |other.master| == 32 && other.master != keys.master
    ensures var h := Blake3(plaintext);
      && other.ChunkKey(h) != keys.ChunkKey(h)
      && other.OpenChunk(keys.Ciphertext(plaintext), h) == Err(AuthenticationFailed)
  {
    var h, p := Blake3(plaintext), keys.prims;
    assert DerivesApart(p, keys.master, other.master, CTX_CHUNK) && DerivesApart(p, other.master, keys.master, CTX_CHUNK);
    assert HashesApart(p, p.derive(keys.master, CTX_CHUNK), p.derive(other.master, CTX_CHUNK), h);
    assert OpensAlone(p, keys.ChunkKey(h), keys.ChunkNonce(h), AAD, p.compress(plaintext, keys.level),
                      other.ChunkKey(h), other.ChunkNonce(h), AAD);
  }

  /** Nor does anything sealed for one plaintext open under the hash of another that
      the keyed hash tells apart from it. */
  lemma OtherHashCannotOpen(keys: Keys, plaintext: Bytes, h: Digest)
    requires keys.Valid() && Separate(keys.prims)
    requires var sub := keys.prims.derive(keys.master, CTX_CHUNK);
      keys.prims.prf(sub, h) != keys.prims.prf(sub, Blake3(plaintext))
    ensures keys.OpenChunk(keys.Ciphertext(plaintext), h) == Err(AuthenticationFailed)
  {
    var own, p := Blake3(plaintext), keys.prims;
    assert OpensAlone(p, keys.ChunkKey(own), keys.ChunkNonce(own), AAD, p.compress(plaintext, keys.level),
                      keys.ChunkKey(h), keys.ChunkNonce(h), AAD);
  }

  /** Primitives with those properties that also obey the assumed laws. */
  const FRAMED := Primitives(
    (k, c) => if |k| == 32 then k else seq(32, _ => 0),
    (k, d) => if |k| == 32 then k else seq(32, _ => 0),
    (k, n, a, m) => (k + n + a) + m,
    (k, n, a, m) => if k + n + a <= m then Some(m[|k + n + a|..]) else None,
    (m, level) => m,
    (m, cap) => if |m| <= cap then Some(m) else None)

  lemma FramedSeparates()
    ensures FRAMED.Laws() && Separate(FRAMED)
  {
    forall k, n, a, m
      ensures FRAMED.decrypt(k, n, a, FRAMED.encrypt(k, n, a, m)) == Some(m)
    {
      assert ((k + n + a) + m)[|k + n + a|..] == m;
    }
    forall k, n, a, m, l, o, b
      ensures OpensAlone(FRAMED, k, n, a, m, l, o, b)
    {
      if |k| == |l| && |n| == |o| && |a| == |b| && l + o + b <= (k + n + a) + m {
        FrameIsUnique(k, n, a, m, l, o, b);
      }
    }
  }

  lemma FrameIsUnique(k: Bytes, n: Bytes, a: Bytes, m: Bytes, l: Bytes, o: Bytes, b: Bytes)
    requires |k| == |l| && |n| == |o| && |a| == |b| && l + o + b <= (k + n + a) + m
    ensures l == k && o == n && b == a
  {
    var f, g := k + n + a, l + o + b;
    assert g == f;
    assert f[..|k|] == k && g[..|k|] == l;
    assert f[|k|..|k| + |n|] == n && g[|k|..|k| + |n|] == o;
    assert f[|k| + |n|..] == a && g[|k| + |n|..] == b;
  }

  /** The nonce depends on the master as well, and on a subkey of its own: for any
      two masters there are lawful primitives that give a chunk different nonces
      under them, and under each a nonce that is no part of the key. */
  lemma NonceUsesMaster(a: Bytes, b: Bytes, h: Digest) returns (p: Primitives)
    requires a != b
    ensures p.Laws() && Keys(a, p, 0).ChunkNonce(h) != Keys(b, p, 0).ChunkNonce(h)
    ensures Keys(a, p, 0).ChunkNonce(h) != Keys(a, p, 0).ChunkKey(h)[..24]
  {
    p := PLAIN.(derive := (k, c) => if c == CTX_NONCE && k == a then [1] else [],
                prf := (k, d) => if k == [1] then seq(32, _ => 1) else seq(32, _ => 0));
    assert CTX_NONCE != CTX_CHUNK by {
      assert CTX_NONCE[|CTX_NONCE| - 8] != CTX_CHUNK[|CTX_CHUNK| - 8] || |CTX_NONCE| != |CTX_CHUNK|;
    }
    assert Keys(a, p, 0).ChunkNonce(h)[0] == 1;
    assert Keys(b, p, 0).ChunkNonce(h)[0] == 0;
    assert Keys(a, p, 0).ChunkKey(h)[..24][0] == 0;
  }

  /** Primitives that change nothing: the assumed laws do not contradict each
      other. */
  const PLAIN := Primitives(
    (k, c) => k,
    (k, d) => seq(32, _ => 0),
    (k, n, a, m) => m,
    (k, n, a, m) => Some(m),
    (m, level) => m,
    (m, cap) => if |m| <= cap then Some(m) else None)

  lemma LawsHaveAModel()
    ensures PLAIN.Laws()
  {
  }
}
