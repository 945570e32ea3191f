/** The read-only passes over the namespace that the engine's operations share.
    Files are visited in an arbitrary order. */
module Scans {
  import opened Prelude
  import opened Manifests
  import opened Accounting
  import opened StoreInvariant
  import opened Pass
  import opened Attempts
  import opened Backends

  /** The chunk lists of all files, one after the other. */
  method AllChunks(ns: Namespace) returns (cs: seq<ChunkRef>)
    ensures (set c | c in cs) == Refs(ns)
  {
    cs := [];
    var todo := ns.Keys;
    while todo != {}
      invariant todo <= ns.Keys
      invariant forall c :: c in cs <==> exists n :: n in ns && n !in todo && c in ns[n].chunks
      decreases |todo|
    {
      var n :| n in todo;
      cs := cs + ns[n].chunks;
      todo := todo - {n};
    }
    forall c
      ensures c in cs <==> c in Refs(ns)
    {
    }
  }

  ghost function Seen(cs: seq<ChunkRef>, i: nat): set<ChunkRef>
    requires i <= |cs|
  {
    set c | c in cs[..i]
  }

  lemma SeenNext(cs: seq<ChunkRef>, i: nat)
    requires i < |cs|
    ensures Seen(cs, i + 1) == Seen(cs, i) + {cs[i]}
  {
    assert cs[..i + 1] == cs[..i] + [cs[i]];
  }

  lemma SeenAll(cs: seq<ChunkRef>)
    ensures Seen(cs, |cs|) == set c | c in cs
  {
    assert cs[..|cs|] == cs;
  }

  ghost function IdsAmong(refs: set<ChunkRef>, v: VolId): set<Digest> {
    set c | c in refs && c.vol == v :: c.id
  }

  /** Where each live chunk id is placed. */
  method KnownPlacements(ns: Namespace) returns (known: map<Digest, SegKey>)
    ensures known.Keys == LiveIds(ns)
    ensures forall id :: id in known ==> exists c :: c in Refs(ns) && c.id == id && c.Key() == known[id]
  {
    var cs := AllChunks(ns);
    known := map[];
    for i := 0 to |cs|
      invariant known.Keys == set c | c in Seen(cs, i) :: c.id
      invariant forall id :: id in known ==> exists c :: c in Seen(cs, i) && c.id == id && c.Key() == known[id]
    {
      SeenNext(cs, i);
      known := known[cs[i].id := cs[i].Key()];
    }
    SeenAll(cs);
  }

  /** The segments the namespace references. */
  method ReferencedSegments(ns: Namespace) returns (keys: set<SegKey>)
    ensures keys == set c | c in Refs(ns) :: c.Key()
  {
    var cs := AllChunks(ns);
    keys := {};
    for i := 0 to |cs|
      invariant keys == set c | c in Seen(cs, i) :: c.Key()
    {
      SeenNext(cs, i);
      keys := keys + {cs[i].Key()};
    }
    SeenAll(cs);
  }

  /** The stored length recorded in every reference is the chunk's size. */
  ghost predicate LengthsRecorded(ns: Namespace) {
    forall c :: c in Refs(ns) ==> c.clen == |c.id.of|
  }

  /** The distinct live chunks on one volume and their total stored size. */
  method LiveChunks(ns: Namespace, v: VolId) returns (ids: set<Digest>, bytes: nat)
    requires LengthsRecorded(ns)
    ensures ids == IdsOn(ns, v) && bytes == Live(ns, v)
  {
    var cs := AllChunks(ns);
    ids, bytes := {}, 0;
    for i := 0 to |cs|
      invariant ids == IdsAmong(Seen(cs, i), v)
      invariant bytes == Weigh(ids)
    {
      SeenNext(cs, i);
      var c := cs[i];
      assert c in cs;
      if c.vol == v && c.id !in ids {
        WeighInsert(ids, c.id);
        ids := ids + {c.id};
        bytes := bytes + c.clen;
      }
    }
    SeenAll(cs);
  }

  function GetOr(m: map<VolId, nat>, v: VolId): nat {
    if v in m then m[v] else 0
  }

  /** Live bytes per volume: each distinct chunk counts once, on the volume of the
      first reference met. */
  method LiveByVolume(ns: Namespace) returns (live: map<VolId, nat>)
    requires LengthsRecorded(ns) && OnePlacement(ns)
    ensures forall v :: GetOr(live, v) == Live(ns, v)
  {
    var cs := AllChunks(ns);
    var counted: set<Digest> := {};
    live := map[];
    for i := 0 to |cs|
      invariant counted == set c | c in Seen(cs, i) :: c.id
      invariant Tallies(live, Seen(cs, i))
    {
      var c := cs[i];
      assert c in cs;
      TallyStep(ns, cs, i, counted, live);
      SeenNext(cs, i);
      if c.id !in counted {
        counted := counted + {c.id};
        live := live[c.vol := GetOr(live, c.vol) + c.clen];
      }
    }
    SeenAll(cs);
  }

  ghost predicate Tallies(live: map<VolId, nat>, refs: set<ChunkRef>) {
    forall v :: GetOr(live, v) == Weigh(IdsAmong(refs, v))
  }

  lemma TallyStep(ns: Namespace, cs: seq<ChunkRef>, i: nat, counted: set<Digest>, live: map<VolId, nat>)
    requires OnePlacement(ns) && (set c | c in cs) == Refs(ns) && i < |cs|
    requires counted == set c | c in Seen(cs, i) :: c.id
    requires Tallies(live, Seen(cs, i)) && cs[i].clen == |cs[i].id.of|
    ensures var c := cs[i];
      Tallies(if c.id in counted then live else live[c.vol := GetOr(live, c.vol) + c.clen], Seen(cs, i + 1))
  {
    forall v { CountStep(ns, cs, i, counted, v); }
  }

  lemma CountStep(ns: Namespace, cs: seq<ChunkRef>, i: nat, counted: set<Digest>, v: VolId)
    requires OnePlacement(ns) && (set c | c in cs) == Refs(ns) && i < |cs|
    requires counted == set c | c in Seen(cs, i) :: c.id
    ensures Weigh(IdsAmong(Seen(cs, i + 1), v)) == Weigh(IdsAmong(Seen(cs, i), v))
      + (if cs[i].vol == v && cs[i].id !in counted then |cs[i].id.of| else 0)
  {
    SeenNext(cs, i);
    var c := cs[i];
    assert c in cs;
    var before, after := IdsAmong(Seen(cs, i), v), IdsAmong(Seen(cs, i + 1), v);
    if c.vol != v {
      assert after == before;
    } else if c.id in counted {
      var d :| d in Seen(cs, i) && d.id == c.id;
      assert d in cs;
      assert d.Key() == c.Key();
      assert after == before;
    } else {
      assert after == before + {c.id};
      WeighInsert(before, c.id);
    }
  }

  /** Per-volume accounting from the log alone. */
  method VolumeStatsOf(store: Store, st: State) returns (stats: seq<VolumeStats>)
    requires LengthsRecorded(st.ns) && OnePlacement(st.ns)
    ensures |stats| == |store.volumes|
    ensures forall i :: 0 <= i < |stats| ==> stats[i] == StatsOf(st, store.volumes[i])
  {
    var live := LiveByVolume(st.ns);
    stats := [];
    for i := 0 to |store.volumes|
      invariant |stats| == i
      invariant forall j :: 0 <= j < i ==> stats[j] == StatsOf(st, store.volumes[j])
    {
      var v := store.volumes[i];
      var total := VolumeUsed(v.id, st.seg);
      var alive := GetOr(live, v.id);
      var dead := if alive <= total then total - alive else 0;
      stats := stats + [VolumeStats(v.id, total, alive, dead, v.threshold, v.spare)];
    }
  }

  lemma BackedIsReadable(disk: Disk, ns: Namespace, c: ChunkRef)
    requires c in Refs(ns)
    ensures WellFormedDisk(disk) && BackedOn(disk, ns, c.vol) ==>
      Resolves(disk, c) && Blake3(disk[c.Key()].blobs[c.id]) == c.id
  {
    assert WellFormedDisk(disk) && c.Key() in disk ==> WellFormedSegment(c.Key(), disk[c.Key()]);
  }

  /** Reads every live chunk of volume `v` from where `ns` places it, checking its
      content address; fails only when one is missing or does not match. */
  method ReadLive(volumes: Volumes, ns: Namespace, v: VolId) returns (ok: bool, blobs: map<Digest, Bytes>)
    ensures ok ==> blobs.Keys == IdsOn(ns, v)
    ensures ok ==> forall id :: id in blobs ==> id == Blake3(blobs[id])
    ensures WellFormedDisk(volumes.refs) && BackedOn(volumes.refs, ns, v) ==> ok
  {
    var cs := AllChunks(ns);
    blobs := map[];
    for i := 0 to |cs|
      invariant blobs.Keys == IdsAmong(Seen(cs, i), v)
      invariant forall id :: id in blobs ==> id == Blake3(blobs[id])
    {
      SeenNext(cs, i);
      var c := cs[i];
      assert c in cs;
      if c.vol == v && c.id !in blobs {
        BackedIsReadable(volumes.refs, ns, c);
        var blob := volumes.ReadBlobAt(c.Key(), c.id);
        if blob.None? || Blake3(blob.value) != c.id {
          return false, blobs;
        }
        blobs := blobs[c.id := blob.value];
      }
    }
    SeenAll(cs);
    ok := true;
  }

  lemma ConsistentLengths(store: Store, ns: Namespace)
    requires store.Valid() && AllSound(store, ns)
    ensures LengthsRecorded(ns)
  {
    forall c | c in Refs(ns)
      ensures c.clen == |c.id.of|
    {
      var n :| n in ns && c in ns[n].chunks;
      var i :| 0 <= i < |ns[n].chunks| && ns[n].chunks[i] == c;
      assert ChunkSound(store.keys, ns[n].chunks[i]);
    }
  }

  lemma PressedMeans(store: Store, g: Gates, st: State, stats: seq<VolumeStats>)
    requires |stats| == |store.volumes|
    requires forall i :: 0 <= i < |stats| ==> stats[i] == StatsOf(st, store.volumes[i])
    ensures (exists s <- stats :: Pressed(g, s)) <==>
      exists i :: 0 <= i < |store.volumes| && !store.volumes[i].spare
        && g.pressed(Total(st.seg, store.volumes[i].id), store.volumes[i].threshold)
  {
    if i :| 0 <= i < |store.volumes| && !store.volumes[i].spare && g.pressed(Total(st.seg, store.volumes[i].id), store.volumes[i].threshold) {
      assert stats[i] in stats;
    }
  }
}
