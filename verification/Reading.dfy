/** When the read path accepts a stored file. */
module Reading {
  import opened Prelude
  import opened Manifests
  import opened StoreInvariant
  import Chunker
  import ChunkerTheory
  import Crypto

  /** A chunk that every check of the read path accepts. */
  ghost predicate ChunkReadable(store: Store, disk: Disk, c: ChunkRef)
    requires store.Valid()
  {
    && c.vol in store.Ids() && Resolves(disk, c)
    && Blake3(disk[c.Key()].blobs[c.id]) == c.id
    && store.keys.OpenChunk(disk[c.Key()].blobs[c.id], c.plaintextHash) == Ok(c.plaintextHash.of)
    && c.len == |c.plaintextHash.of|
  }

  ghost predicate Readable(store: Store, disk: Disk, m: Manifest)
    requires store.Valid()
  {
    && (forall i :: 0 <= i < |m.chunks| ==> ChunkReadable(store, disk, m.chunks[i]))
    && Concat(PlainChunks(m)) == m.fileHash.of
  }

  /** Placement, sealing and chunking together: a sound manifest whose chunks are
      in place passes every check on the read path. */
  lemma SoundIsReadable(store: Store, disk: Disk, m: Manifest)
    requires store.Valid() && Sound(store, m) && WellFormedDisk(disk)
    requires forall c :: c in ManifestRefs(m) ==> Resolves(disk, c) && c.vol in store.Ids()
    ensures Readable(store, disk, m)
  {
    ChunkerTheory.ChunksConcat(store.cdc, m.fileHash.of);
    forall i | 0 <= i < |m.chunks|
      ensures ChunkReadable(store, disk, m.chunks[i])
    {
      var c := m.chunks[i];
      assert c in ManifestRefs(m);
      assert WellFormedSegment(c.Key(), disk[c.Key()]);
      assert ChunkSound(store.keys, c);
      assert PlainChunks(m)[i] == c.plaintextHash.of;
      ChunkerTheory.ChunkSizes(store.cdc, m.fileHash.of, i);
      Crypto.SealThenOpen(store.keys, c.plaintextHash.of);
    }
  }

  /** Every file of a consistent store reads back. */
  lemma StoredIsReadable(store: Store, st: State, disk: Disk, issued: nat, name: Name)
    requires store.Valid() && Consistent(store, st, disk, issued) && name in st.ns
    ensures Readable(store, disk, st.ns[name])
  {
    RefsOfManifest(st.ns, name);
    forall c | c in ManifestRefs(st.ns[name])
      ensures Resolves(disk, c) && c.vol in store.Ids()
    {
      assert Resolves(disk, c);
      assert InFleet(store, c.Key(), issued);
    }
    SoundIsReadable(store, disk, st.ns[name]);
  }
}
