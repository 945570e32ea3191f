/** The data every transaction carries: chunk references with their placement,
    file manifests, seal records, and the ref stores of the volumes. */
module Manifests {
  import opened Prelude

  type Name = string
  type VolId = string

  /** A segment is named either by a random 128-bit number (an ordinary put) or
      by a hash of the volume being retired and the ids it rewrites. */
  datatype SegId = Random(nonce: nat) | Derived(retiring: VolId, live: set<Digest>)

  /** Where a segment lives. */
  datatype SegKey = SegKey(vol: VolId, seg: SegId)

  datatype ChunkRef = ChunkRef(
    id: Digest,
    plaintextHash: Digest,
    len: nat,
    clen: nat,
    vol: VolId,
    seg: SegId)
  {
    function Key(): SegKey { SegKey(vol, seg) }

    /** The same reference with its placement erased. */
    function Erase(): ChunkRef { this.(vol := "", seg := Random(0)) }
  }

  datatype Manifest = Manifest(
    name: Name,
    size: nat,
    avgChunkSize: nat,
    fileHash: Digest,
    chunks: seq<ChunkRef>)

  type Namespace = map<Name, Manifest>
  type SegIndex = map<SegKey, nat>

  datatype SegRec = SegRec(vol: VolId, seg: SegId, bytes: nat)
  {
    function Key(): SegKey { SegKey(vol, seg) }
  }

  /** Logical store state: the namespace and the per-segment byte index. */
  datatype State = State(ns: Namespace, seg: SegIndex)

  const EMPTY := State(map[], map[])

  /** A sealed segment: ciphertext blobs by chunk id, and its commit time. */
  datatype Segment = Segment(blobs: map<Digest, Bytes>, time: int)

  /** All segment refs of all volumes. */
  type Disk = map<SegKey, Segment>

  /** Every chunk reference of the namespace. */
  ghost function Refs(ns: Namespace): set<ChunkRef> {
    set n, c | n in ns && c in ns[n].chunks :: c
  }

  /** The distinct chunk ids placed on volume `v`. */
  ghost function IdsOn(ns: Namespace, v: VolId): set<Digest> {
    set c | c in Refs(ns) && c.vol == v :: c.id
  }

  ghost function ManifestRefs(m: Manifest): set<ChunkRef> {
    set c | c in m.chunks
  }

  /** A reference resolves when its segment is there and holds its chunk. */
  ghost predicate Resolves(disk: Disk, c: ChunkRef) {
    c.Key() in disk && c.id in disk[c.Key()].blobs
  }

  ghost predicate AllResolve(disk: Disk, refs: set<ChunkRef>) {
    forall c :: c in refs ==> Resolves(disk, c)
  }

  /** Blobs are stored under the hash of their bytes, and a content-named
      segment holds exactly the chunks its name lists. */
  ghost predicate WellFormedSegment(key: SegKey, s: Segment) {
    && (forall id :: id in s.blobs ==> id == Blake3(s.blobs[id]))
    && (key.seg.Derived? ==> s.blobs.Keys == key.seg.live)
  }

  ghost predicate WellFormedDisk(disk: Disk) {
    forall key :: key in disk ==> WellFormedSegment(key, disk[key])
  }

  /** Removing volume `v` wipes all of its refs. */
  function WithoutVolume(disk: Disk, v: VolId): Disk {
    map key | key in disk && key.vol != v :: disk[key]
  }

  // ---------- how references change ----------

  lemma RefAt(ns: Namespace, n: Name, i: nat)
    requires n in ns && i < |ns[n].chunks|
    ensures ns[n].chunks[i] in Refs(ns)
  {
    assert ns[n].chunks[i] in ns[n].chunks;
  }

  lemma RefsOfManifest(ns: Namespace, n: Name)
    requires n in ns
    ensures ManifestRefs(ns[n]) <= Refs(ns)
  {
  }

  lemma RefsInsert(ns: Namespace, n: Name, m: Manifest)
    ensures Refs(ns[n := m]) <= Refs(ns) + ManifestRefs(m)
  {
    forall c | c in Refs(ns[n := m])
      ensures c in Refs(ns) + ManifestRefs(m)
    {
      var k :| k in ns[n := m] && c in ns[n := m][k].chunks;
      if k != n {
        assert k in ns && c in ns[k].chunks;
      }
    }
  }

  lemma RefsShrink(big: Namespace, small: Namespace)
    requires forall n :: n in small ==> n in big && small[n] == big[n]
    ensures Refs(small) <= Refs(big)
  {
    forall c | c in Refs(small)
      ensures c in Refs(big)
    {
      var k :| k in small && c in small[k].chunks;
      assert k in big && c in big[k].chunks;
    }
  }
}
