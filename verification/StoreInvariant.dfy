/** What holds of a store used by one process at a time, and how each committed
    operation keeps it: every file decodes to its bytes, chunk ids have one
    placement each, and the byte accounting is exact. */
module StoreInvariant {
  import opened Prelude
  import opened Manifests
  import opened Log
  import opened Repoint
  import opened Accounting
  import Chunker
  import ChunkerTheory
  import Crypto

  datatype Volume = Volume(id: VolId, threshold: nat, spare: bool)

  datatype Store = Store(keys: Crypto.Keys, cdc: Chunker.FastCdc, volumes: seq<Volume>, interval: nat)
  {
    ghost predicate Valid() {
      && keys.Valid() && cdc.Valid() && interval >= 1
      && (forall i, j :: 0 <= i < j < |volumes| ==> volumes[i].id != volumes[j].id)
    }

    ghost function Ids(): set<VolId> { set i | 0 <= i < |volumes| :: volumes[i].id }

    /** The volumes that take ordinary data. */
    ghost function Ordinary(): set<VolId> { set i | 0 <= i < |volumes| && !volumes[i].spare :: volumes[i].id }
  }

  const SPARE_SLOT_MIN_VOLUMES := 3

  /** Opening the declared volumes reserves the last one as the compaction spare
      when there are at least three. */
  function OpenVolumes(declared: seq<(VolId, nat)>): seq<Volume> {
    seq(|declared|, i requires 0 <= i < |declared| =>
      Volume(declared[i].0, declared[i].1, |declared| >= SPARE_SLOT_MIN_VOLUMES && i == |declared| - 1))
  }

  function OpenStore(keys: Crypto.Keys, cdc: Chunker.FastCdc, declared: seq<(VolId, nat)>, interval: nat): Store {
    Store(keys, cdc, OpenVolumes(declared), interval)
  }

  // ---------- what a manifest stands for ----------

  function PlainChunks(m: Manifest): seq<Bytes> {
    seq(|m.chunks|, i requires 0 <= i < |m.chunks| => m.chunks[i].plaintextHash.of)
  }

  ghost predicate ChunkSound(keys: Crypto.Keys, c: ChunkRef)
    requires keys.Valid()
  {
    && c.id == Blake3(keys.Ciphertext(c.plaintextHash.of))
    && c.len == |c.plaintextHash.of| && c.clen == |c.id.of|
  }

  /** The manifest describes the chunking of the bytes its file hash names. */
  ghost predicate Sound(store: Store, m: Manifest)
    requires store.Valid()
  {
    && PlainChunks(m) == Chunker.Chunks(store.cdc, m.fileHash.of)
    && (forall i :: 0 <= i < |m.chunks| ==> ChunkSound(store.keys, m.chunks[i]))
    && m.size == |m.fileHash.of| && m.avgChunkSize == store.cdc.params.avgSize
  }

  /** The logical contents of the store: the bytes of every file. */
  ghost function Contents(ns: Namespace): map<Name, Bytes> {
    map n | n in ns :: ns[n].fileHash.of
  }

  ghost predicate AllSound(store: Store, ns: Namespace)
    requires store.Valid()
  {
    forall n :: n in ns ==> ns[n].name == n && Sound(store, ns[n])
  }

  /** All references to a chunk id, across all files, name the same segment. */
  ghost predicate OnePlacement(ns: Namespace) {
    forall c, d :: c in Refs(ns) && d in Refs(ns) && c.id == d.id ==> c.Key() == d.Key()
  }

  ghost predicate InFleet(store: Store, key: SegKey, issued: nat) {
    key.vol in store.Ids() && (key.seg.Random? ==> key.seg.nonce < issued && key.vol in store.Ordinary())
  }

  ghost predicate Housed(store: Store, st: State, disk: Disk, issued: nat) {
    && WellFormedDisk(disk)
    && (forall key :: key in disk ==> InFleet(store, key, issued))
    && (forall key :: key in st.seg ==> InFleet(store, key, issued))
    && DerivedExact(st.seg)
  }

  /** A content-named segment's record is the weight of the chunks it is named for. */
  ghost predicate DerivedExact(seg: SegIndex) {
    forall key :: key in seg && key.seg.Derived? ==> seg[key] == Weigh(key.seg.live)
  }

  ghost predicate Consistent(store: Store, st: State, disk: Disk, issued: nat)
    requires store.Valid()
  {
    && AllSound(store, st.ns)
    && OnePlacement(st.ns)
    && Accounted(st, disk)
    && Housed(store, st, disk, issued)
  }

  // ---------- planning a manifest ----------

  function RefFor(keys: Crypto.Keys, plain: Bytes, key: SegKey): ChunkRef
    requires keys.Valid()
  {
    var s := keys.SealChunk(plain);
    ChunkRef(s.chunkId, s.plaintextHash, |plain|, |s.ciphertext|, key.vol, key.seg)
  }

  ghost predicate Places(store: Store, content: Bytes, place: map<Digest, SegKey>)
    requires store.Valid()
  {
    AllPlaced(store.keys, Chunker.Chunks(store.cdc, content), place)
  }

  ghost predicate AllPlaced(keys: Crypto.Keys, parts: seq<Bytes>, place: map<Digest, SegKey>)
    requires keys.Valid()
  {
    forall i :: 0 <= i < |parts| ==> keys.SealChunk(parts[i]).chunkId in place
  }

  ghost function RefsFor(keys: Crypto.Keys, parts: seq<Bytes>, place: map<Digest, SegKey>): seq<ChunkRef>
    requires keys.Valid() && AllPlaced(keys, parts, place)
  {
    seq(|parts|, i requires 0 <= i < |parts| => RefFor(keys, parts[i], place[keys.SealChunk(parts[i]).chunkId]))
  }

  /** The manifest of `content` when every chunk id has the placement `place`. */
  ghost function ManifestFor(store: Store, name: Name, content: Bytes, place: map<Digest, SegKey>): Manifest
    requires store.Valid() && Places(store, content, place)
  {
    Manifest(name, |content|, store.cdc.params.avgSize, Blake3(content),
      RefsFor(store.keys, Chunker.Chunks(store.cdc, content), place))
  }

  lemma ManifestForSound(store: Store, name: Name, content: Bytes, place: map<Digest, SegKey>)
    requires store.Valid() && Places(store, content, place)
    ensures Sound(store, ManifestFor(store, name, content, place))
    ensures forall c :: c in ManifestRefs(ManifestFor(store, name, content, place)) ==>
      c.id in place && c.Key() == place[c.id]
  {
    var m := ManifestFor(store, name, content, place);
    assert PlainChunks(m) == Chunker.Chunks(store.cdc, content);
  }

  /** A manifest is determined by the file's bytes and where its chunks are. */
  lemma SoundDetermines(store: Store, m: Manifest, place: map<Digest, SegKey>)
    requires store.Valid() && Sound(store, m)
    requires forall c :: c in ManifestRefs(m) ==> c.id in place && c.Key() == place[c.id]
    ensures Places(store, m.fileHash.of, place)
    ensures ManifestFor(store, m.name, m.fileHash.of, place) == m
  {
    var parts := Chunker.Chunks(store.cdc, m.fileHash.of);
    forall i | 0 <= i < |parts|
      ensures store.keys.SealChunk(parts[i]).chunkId in place
      ensures RefFor(store.keys, parts[i], place[store.keys.SealChunk(parts[i]).chunkId]) == m.chunks[i]
    {
      assert PlainChunks(m)[i] == parts[i];
      assert m.chunks[i] in ManifestRefs(m);
      assert ChunkSound(store.keys, m.chunks[i]);
    }
    assert ManifestFor(store, m.name, m.fileHash.of, place).chunks == m.chunks;
  }

  // ---------- put ----------

  /** `place` follows the current placement of every live chunk and sends the
      `staged` ones, which are not live, to the new segment `own`. */
  ghost predicate PlacesLike(ns: Namespace, place: map<Digest, SegKey>, own: SegKey, staged: set<Digest>) {
    && staged !! LiveIds(ns)
    && forall id :: id in place ==>
         (|| (id in staged && place[id] == own)
          || (id !in staged && exists c :: c in Refs(ns) && c.id == id && c.Key() == place[id]))
  }

  lemma PlacedRefs(ns: Namespace, m: Manifest, place: map<Digest, SegKey>, own: SegKey, staged: set<Digest>, c: ChunkRef)
    requires PlacesLike(ns, place, own, staged)
    requires forall r :: r in ManifestRefs(m) ==> r.id in place && r.Key() == place[r.id]
    requires c in Refs(ns[m.name := m])
    ensures (c.id in staged && c.Key() == own)
         || (c.id !in staged && exists o :: o in Refs(ns) && o.id == c.id && o.Key() == c.Key())
  {
    RefsInsert(ns, m.name, m);
    if c in Refs(ns) {
      assert c.id in LiveIds(ns);
    }
  }

  /** Committing a put keeps the store consistent. */
  lemma PutKeeps(store: Store, st: State, disk: Disk, issued: nat,
                 m: Manifest, place: map<Digest, SegKey>, own: SegKey, staged: set<Digest>)
    requires store.Valid() && Consistent(store, st, disk, issued)
    requires Sound(store, m) && PlacesLike(st.ns, place, own, staged)
    requires forall r :: r in ManifestRefs(m) ==> r.id in place && r.Key() == place[r.id]
    requires staged != {} ==> own in disk && disk[own].blobs.Keys == staged && own.seg.Random?
    requires forall c :: c in Refs(st.ns) ==> c.Key() != own
    ensures Consistent(store, ApplyOp(st, PutOp(m, SealFor(own, staged, Weigh(staged)))), disk, issued)
  {
    if staged != {} {
      InsertOne(st.seg, SegRec(own.vol, own.seg, Weigh(staged)));
    }
    PutOnePlacement(st.ns, m, place, own, staged);
    PutAccounted(st, disk, m, place, own, staged);
  }

  lemma PutAccounted(st: State, disk: Disk, m: Manifest, place: map<Digest, SegKey>, own: SegKey, staged: set<Digest>)
    requires Accounted(st, disk) && PlacesLike(st.ns, place, own, staged)
    requires forall r :: r in ManifestRefs(m) ==> r.id in place && r.Key() == place[r.id]
    requires WellFormedDisk(disk) && (staged != {} ==> own in disk && disk[own].blobs.Keys == staged)
    requires forall c :: c in Refs(st.ns) ==> c.Key() != own
    ensures Accounted(ApplyOp(st, PutOp(m, SealFor(own, staged, Weigh(staged)))), disk)
  {
    var t := ApplyOp(st, PutOp(m, SealFor(own, staged, Weigh(staged))));
    if staged != {} {
      InsertOne(st.seg, SegRec(own.vol, own.seg, Weigh(staged)));
    }
    forall c | c in Refs(t.ns)
      ensures Resolves(disk, c) && SealExact(t.seg, disk, c.Key())
    {
      PlacedRefs(st.ns, m, place, own, staged, c);
      if c.id !in staged {
        var o :| o in Refs(st.ns) && o.id == c.id && o.Key() == c.Key();
        assert Resolves(disk, o) && SealExact(st.seg, disk, o.Key());
      }
    }
  }

  lemma PutOnePlacement(ns: Namespace, m: Manifest, place: map<Digest, SegKey>, own: SegKey, staged: set<Digest>)
    requires OnePlacement(ns) && PlacesLike(ns, place, own, staged)
    requires forall r :: r in ManifestRefs(m) ==> r.id in place && r.Key() == place[r.id]
    ensures OnePlacement(ns[m.name := m])
  {
    forall c, d | c in Refs(ns[m.name := m]) && d in Refs(ns[m.name := m]) && c.id == d.id
      ensures c.Key() == d.Key()
    {
      PlacedRefs(ns, m, place, own, staged, c);
      PlacedRefs(ns, m, place, own, staged, d);
    }
  }

  // ---------- remove ----------

  lemma RemoveKeeps(store: Store, st: State, disk: Disk, issued: nat, name: Name)
    requires store.Valid() && Consistent(store, st, disk, issued)
    ensures Consistent(store, ApplyOp(st, RemoveOp(name)), disk, issued)
  {
    RefsShrink(st.ns, st.ns - {name});
  }

  // ---------- retirement ----------

  lemma MoveKeepsSound(store: Store, m: Manifest, v: VolId, dest: SegKey)
    requires store.Valid() && Sound(store, m)
    ensures Sound(store, MoveManifest(m, v, dest))
  {
    assert PlainChunks(MoveManifest(m, v, dest)) == PlainChunks(m);
    forall i | 0 <= i < |m.chunks|
      ensures ChunkSound(store.keys, MoveManifest(m, v, dest).chunks[i])
    {
      assert ChunkSound(store.keys, m.chunks[i]);
    }
  }

  /** Committing a retirement keeps the store consistent, provided the rewritten
      segment holds every chunk that moves. */
  lemma RetireKeeps(store: Store, st: State, disk: Disk, issued: nat, v: VolId, dest: SegKey, moved: set<Digest>)
    requires store.Valid() && Consistent(store, st, disk, issued)
    requires dest.vol != v && dest.vol in store.Ids() && dest.seg == Derived(v, moved)
    requires IdsOn(st.ns, v) <= moved && (moved != {} ==> dest in disk)
    ensures Consistent(store, Retire(st, v, dest, SealFor(dest, moved, Weigh(moved))), disk, issued)
    ensures Contents(Repointed(st.ns, v, dest)) == Contents(st.ns)
  {
    RetireSound(store, st.ns, v, dest);
    RetireOnePlacement(st.ns, v, dest);
    RetireAccounted(st, disk, v, dest, moved);
    RetireHoused(store, st, disk, issued, v, dest, moved);
  }

  lemma RetireSound(store: Store, ns: Namespace, v: VolId, dest: SegKey)
    requires store.Valid() && AllSound(store, ns)
    ensures AllSound(store, Repointed(ns, v, dest)) && Contents(Repointed(ns, v, dest)) == Contents(ns)
  {
    forall n | n in ns
      ensures Sound(store, MoveManifest(ns[n], v, dest))
    {
      MoveKeepsSound(store, ns[n], v, dest);
    }
  }

  lemma RetireHoused(store: Store, st: State, disk: Disk, issued: nat, v: VolId, dest: SegKey, moved: set<Digest>)
    requires Housed(store, st, disk, issued)
    requires dest.vol in store.Ids() && dest.seg == Derived(v, moved)
    ensures Housed(store, Retire(st, v, dest, SealFor(dest, moved, Weigh(moved))), disk, issued)
  {
    if moved != {} {
      InsertOne(st.seg, SegRec(dest.vol, dest.seg, Weigh(moved)));
    }
  }

  lemma RetireOnePlacement(ns: Namespace, v: VolId, dest: SegKey)
    requires OnePlacement(ns)
    ensures OnePlacement(Repointed(ns, v, dest))
  {
    forall c, d | c in Refs(Repointed(ns, v, dest)) && d in Refs(Repointed(ns, v, dest)) && c.id == d.id
      ensures c.Key() == d.Key()
    {
      RepointedRefs(ns, v, dest, c);
      RepointedRefs(ns, v, dest, d);
      var o :| o in Refs(ns) && c == MoveRef(o, v, dest);
      var p :| p in Refs(ns) && d == MoveRef(p, v, dest);
      assert o.Key() == p.Key();
    }
  }

  lemma RetireAccounted(st: State, disk: Disk, v: VolId, dest: SegKey, moved: set<Digest>)
    requires Accounted(st, disk) && WellFormedDisk(disk)
    requires dest.vol != v && dest.seg == Derived(v, moved)
    requires IdsOn(st.ns, v) <= moved && (moved != {} ==> dest in disk)
    ensures Accounted(Retire(st, v, dest, SealFor(dest, moved, Weigh(moved))), disk)
  {
    var t := Retire(st, v, dest, SealFor(dest, moved, Weigh(moved)));
    if moved != {} {
      InsertOne(st.seg, SegRec(dest.vol, dest.seg, Weigh(moved)));
      assert WellFormedSegment(dest, disk[dest]);
    }
    forall c | c in Refs(t.ns)
      ensures Resolves(disk, c) && SealExact(t.seg, disk, c.Key())
    {
      RepointedRefs(st.ns, v, dest, c);
      var o :| o in Refs(st.ns) && c == MoveRef(o, v, dest);
      assert Resolves(disk, o) && SealExact(st.seg, disk, o.Key());
      if o.vol == v {
        assert o.id in IdsOn(st.ns, v);
        assert c.Key() == dest;
      }
    }
  }

  // ---------- changes to the volumes alone ----------

  /** Pushing a segment nothing refers to yet. */
  lemma PushKeeps(store: Store, st: State, disk: Disk, issued: nat, key: SegKey, s: Segment)
    requires store.Valid() && Consistent(store, st, disk, issued)
    requires key !in disk && InFleet(store, key, issued) && WellFormedSegment(key, s)
    ensures Consistent(store, st, disk[key := s], issued)
  {
    forall c | c in Refs(st.ns)
      ensures Resolves(disk[key := s], c) && SealExact(st.seg, disk[key := s], c.Key())
    {
      assert Resolves(disk, c) && SealExact(st.seg, disk, c.Key());
    }
  }

  /** Deleting segments nothing refers to any more. */
  lemma WipeKeeps(store: Store, st: State, disk: Disk, small: Disk, issued: nat)
    requires store.Valid() && Consistent(store, st, disk, issued)
    requires forall key :: key in small ==> key in disk && small[key] == disk[key]
    requires forall c :: c in Refs(st.ns) && c.Key() in disk ==> c.Key() in small
    ensures Consistent(store, st, small, issued)
  {
    forall c | c in Refs(st.ns)
      ensures Resolves(small, c) && SealExact(st.seg, small, c.Key())
    {
      assert Resolves(disk, c) && SealExact(st.seg, disk, c.Key());
    }
  }

  /** Drawing another random segment id. */
  lemma IssueKeeps(store: Store, st: State, disk: Disk, issued: nat)
    requires store.Valid() && Consistent(store, st, disk, issued)
    ensures Consistent(store, st, disk, issued + 1)
  {
  }

  // ---------- consequences ----------

  /** Putting a file's bytes back under its name plans exactly the manifest that
      is already there, wherever compaction has moved its chunks meanwhile. */
  lemma ReputIsIdentical(store: Store, st: State, disk: Disk, issued: nat, name: Name, place: map<Digest, SegKey>)
    requires store.Valid() && Consistent(store, st, disk, issued) && name in st.ns
    requires forall id :: id in place ==> exists c :: c in Refs(st.ns) && c.id == id && c.Key() == place[id]
    requires LiveIds(st.ns) <= place.Keys
    ensures Places(store, Contents(st.ns)[name], place)
    ensures ManifestFor(store, name, Contents(st.ns)[name], place) == st.ns[name]
  {
    var m := st.ns[name];
    RefsOfManifest(st.ns, name);
    forall c | c in ManifestRefs(m)
      ensures c.id in place && c.Key() == place[c.id]
    {
      assert c in Refs(st.ns) && c.id in LiveIds(st.ns);
      var d :| d in Refs(st.ns) && d.id == c.id && d.Key() == place[c.id];
    }
    SoundDetermines(store, m, place);
  }

  /** The spare stays the spare: in every consistent store the last of at least
      three declared volumes has nothing but compaction's rewrites on it, neither
      segments, nor records, nor references. */
  lemma SpareTakesOnlyRewrites(store: Store, declared: seq<(VolId, nat)>, st: State, disk: Disk, issued: nat, key: SegKey)
    requires store.Valid() && Consistent(store, st, disk, issued)
    requires store.volumes == OpenVolumes(declared) && |declared| >= SPARE_SLOT_MIN_VOLUMES
    requires key.vol == declared[|declared| - 1].0
    requires key in disk || key in st.seg || exists c :: c in Refs(st.ns) && c.Key() == key
    ensures key.seg.Derived?
  {
    var last := |declared| - 1;
    assert store.volumes[last].id == key.vol && store.volumes[last].spare;
    assert InFleet(store, key, issued);
  }

  // ---------- what the committed operations intend ----------

  /** The contents the committed operations call for: puts store bytes, removes
      drop names, compactions change nothing. */
  function Intended(ops: seq<Op>): map<Name, Bytes> {
    if ops == [] then map[]
    else
      var before := Intended(ops[..|ops| - 1]);
      match ops[|ops| - 1]
      case PutOp(m, _) => before[m.name := m.fileHash.of]
      case RemoveOp(name) => before - {name}
      case CompactOp(_, _, _) => before
  }

  predicate Concerns(op: Op, name: Name) {
    match op
    case PutOp(m, _) => m.name == name
    case RemoveOp(n) => n == name
    case CompactOp(_, _, _) => false
  }

  /** The last committed operation on a name decides: its bytes if it was a put,
      absence if it was a remove, whatever else was committed since. */
  lemma {:induction false} LastOperationDecides(ops: seq<Op>, name: Name, i: nat)
    requires i < |ops| && Concerns(ops[i], name)
    requires forall j :: i < j < |ops| ==> !Concerns(ops[j], name)
    ensures ops[i].PutOp? ==> name in Intended(ops) && Intended(ops)[name] == ops[i].m.fileHash.of
    ensures ops[i].RemoveOp? ==> name !in Intended(ops)
    decreases |ops|
  {
    if i == |ops| - 1 {
    } else {
      LastOperationDecides(ops[..|ops| - 1], name, i);
    }
  }

  lemma {:induction false} UntouchedNameAbsent(ops: seq<Op>, name: Name)
    requires forall j :: 0 <= j < |ops| ==> !Concerns(ops[j], name)
    ensures name !in Intended(ops)
    decreases |ops|
  {
    if ops == [] {
    } else {
      UntouchedNameAbsent(ops[..|ops| - 1], name);
    }
  }

  /** Only compactions were committed in between. */
  ghost predicate OnlyCompactions(before: seq<Op>, after: seq<Op>) {
    && |before| <= |after| && after[..|before|] == before
    && forall i :: |before| <= i < |after| ==> after[i].CompactOp?
  }

  lemma {:induction false} CompactionsIntendNothing(before: seq<Op>, after: seq<Op>)
    requires OnlyCompactions(before, after)
    ensures Intended(after) == Intended(before)
    decreases |after|
  {
    if |after| == |before| {
      assert after == before;
    } else {
      var front := after[..|after| - 1];
      assert front[..|before|] == before;
      CompactionsIntendNothing(before, front);
    }
  }

  lemma CompactionsCompose(a: seq<Op>, b: seq<Op>, c: seq<Op>)
    requires OnlyCompactions(a, b) && OnlyCompactions(b, c)
    ensures OnlyCompactions(a, c)
  {
    assert c[..|a|] == c[..|b|][..|a|];
    forall i | |a| <= i < |c|
      ensures c[i].CompactOp?
    {
      assert i < |b| ==> c[i] == c[..|b|][i];
    }
  }

  lemma IntendedStep(ops: seq<Op>, op: Op, st: State)
    requires Intended(ops) == Contents(st.ns) && !op.CompactOp?
    ensures Intended(ops + [op]) == Contents(ApplyOp(st, op).ns)
  {
    assert (ops + [op])[..|ops|] == ops;
  }

  /** Files with the same meaning have the same bytes. */
  lemma SameMeaningSameContents(a: Namespace, b: Namespace)
    requires EraseAll(a) == EraseAll(b)
    ensures Contents(a) == Contents(b)
  {
    forall n | n in a
      ensures n in b && a[n].fileHash == b[n].fileHash
    {
      assert EraseAll(a)[n].fileHash == a[n].fileHash;
      assert n in EraseAll(b) && EraseAll(b)[n].fileHash == b[n].fileHash;
    }
    forall n | n in b
      ensures n in a
    {
      assert n in EraseAll(a);
    }
  }
}
