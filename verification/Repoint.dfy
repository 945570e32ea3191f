/** What a compaction does to the namespace: references to the retired volume
    move to the rewritten segment, and nothing else changes. */
module Repoint {
  import opened Prelude
  import opened Manifests
  import opened Log

  function MoveRef(c: ChunkRef, v: VolId, dest: SegKey): ChunkRef {
    if c.vol == v then c.(vol := dest.vol, seg := dest.seg) else c
  }

  function MoveManifest(m: Manifest, v: VolId, dest: SegKey): Manifest {
    m.(chunks := seq(|m.chunks|, i requires 0 <= i < |m.chunks| => MoveRef(m.chunks[i], v, dest)))
  }

  function Repointed(ns: Namespace, v: VolId, dest: SegKey): Namespace {
    map n | n in ns :: MoveManifest(ns[n], v, dest)
  }

  predicate Touches(m: Manifest, v: VolId) {
    exists i :: 0 <= i < |m.chunks| && m.chunks[i].vol == v
  }

  /** The state after the retirement of `v` commits. */
  function Retire(st: State, v: VolId, dest: SegKey, seals: seq<SegRec>): State {
    State(Repointed(st.ns, v, dest), DropVolumes(InsertSeals(st.seg, seals), [v]))
  }

  lemma UntouchedStays(m: Manifest, v: VolId, dest: SegKey)
    requires !Touches(m, v)
    ensures MoveManifest(m, v, dest) == m
  {
    assert MoveManifest(m, v, dest).chunks == m.chunks;
  }

  // ---------- references after a repoint ----------

  lemma RepointedRefs(ns: Namespace, v: VolId, dest: SegKey, c: ChunkRef)
    requires c in Refs(Repointed(ns, v, dest))
    ensures exists o :: o in Refs(ns) && c == MoveRef(o, v, dest)
  {
    var n :| n in Repointed(ns, v, dest) && c in Repointed(ns, v, dest)[n].chunks;
    var i :| 0 <= i < |ns[n].chunks| && c == MoveManifest(ns[n], v, dest).chunks[i];
    RefAt(ns, n, i);
  }

  lemma RepointedRefsConverse(ns: Namespace, v: VolId, dest: SegKey, o: ChunkRef)
    requires o in Refs(ns)
    ensures MoveRef(o, v, dest) in Refs(Repointed(ns, v, dest))
  {
    var n :| n in ns && o in ns[n].chunks;
    var i :| 0 <= i < |ns[n].chunks| && o == ns[n].chunks[i];
    assert Repointed(ns, v, dest)[n].chunks[i] == MoveRef(o, v, dest);
    RefAt(Repointed(ns, v, dest), n, i);
  }

  /** No reference to the retired volume is left. */
  lemma NothingLeftOn(ns: Namespace, v: VolId, dest: SegKey)
    requires dest.vol != v
    ensures forall c :: c in Refs(Repointed(ns, v, dest)) ==> c.vol != v
    ensures IdsOn(Repointed(ns, v, dest), v) == {}
  {
    forall c | c in Refs(Repointed(ns, v, dest))
      ensures c.vol != v
    {
      RepointedRefs(ns, v, dest, c);
    }
  }

  // ---------- meaning is preserved ----------

  function EraseManifest(m: Manifest): Manifest {
    m.(chunks := seq(|m.chunks|, i requires 0 <= i < |m.chunks| => m.chunks[i].Erase()))
  }

  /** The namespace without placements: names, sizes, hashes, ordered chunks. */
  function EraseAll(ns: Namespace): Namespace {
    map n | n in ns :: EraseManifest(ns[n])
  }

  lemma RepointPreservesMeaning(ns: Namespace, v: VolId, dest: SegKey)
    ensures EraseAll(Repointed(ns, v, dest)) == EraseAll(ns)
  {
    forall n | n in ns
      ensures EraseManifest(MoveManifest(ns[n], v, dest)) == EraseManifest(ns[n])
    {
      assert EraseManifest(MoveManifest(ns[n], v, dest)).chunks == EraseManifest(ns[n]).chunks;
    }
  }

  /** A repoint keeps every reference resolvable when the target segment holds
      all the chunks that move. */
  lemma RepointResolves(disk: Disk, ns: Namespace, v: VolId, dest: SegKey)
    requires AllResolve(disk, Refs(ns))
    requires IdsOn(ns, v) != {} ==> dest in disk && IdsOn(ns, v) <= disk[dest].blobs.Keys
    ensures AllResolve(disk, Refs(Repointed(ns, v, dest)))
  {
    forall c | c in Refs(Repointed(ns, v, dest))
      ensures Resolves(disk, c)
    {
      RepointedRefs(ns, v, dest, c);
      var o :| o in Refs(ns) && c == MoveRef(o, v, dest);
      if o.vol == v {
        assert o.id in IdsOn(ns, v);
        assert c.Key() == dest;
      }
    }
  }

  /** Rebuilds the manifests that reference `retired` from the given namespace,
      or reports a reference to a chunk that was never rewritten. Whatever the
      order in which files are visited, inserting the rebuilt manifests yields
      the repointed namespace. */
  method BuildRepoint(ns: Namespace, retired: VolId, dest: SegKey, moved: set<Digest>)
    returns (unmoved: bool, referenced: bool, repoint: seq<Manifest>)
    requires forall n :: n in ns ==> ns[n].name == n
    ensures unmoved <==> !(IdsOn(ns, retired) <= moved)
    ensures !unmoved ==> (referenced <==> IdsOn(ns, retired) != {})
    ensures !unmoved ==> InsertAll(ns, repoint) == Repointed(ns, retired, dest)
  {
    unmoved, referenced, repoint := false, false, [];
    var todo := ns.Keys;
    while todo != {}
      invariant todo <= ns.Keys
      invariant InsertAll(ns, repoint) == RepointedExcept(ns, retired, dest, todo)
      invariant forall n :: n in ns && n !in todo ==> AllMoved(ns[n], retired, moved)
      invariant referenced <==> exists n :: n in ns && n !in todo && Touches(ns[n], retired)
      decreases |todo|
    {
      var n :| n in todo;
      var m := ns[n];
      var touches := false;
      for i := 0 to |m.chunks|
        invariant touches <==> exists j :: 0 <= j < i && m.chunks[j].vol == retired
        invariant forall j :: 0 <= j < i && m.chunks[j].vol == retired ==> m.chunks[j].id in moved
      {
        if m.chunks[i].vol == retired {
          touches := true;
          if m.chunks[i].id !in moved {
            RefAt(ns, n, i);
            assert m.chunks[i].id in IdsOn(ns, retired);
            return true, referenced, repoint;
          }
        }
      }
      RepointStep(ns, retired, dest, todo, n, repoint);
      if touches {
        referenced := true;
        repoint := repoint + [MoveManifest(m, retired, dest)];
      }
      todo := todo - {n};
    }
    AllMovedMeans(ns, retired, moved);
    assert RepointedExcept(ns, retired, dest, {}) == Repointed(ns, retired, dest);
  }

  ghost predicate AllMoved(m: Manifest, v: VolId, moved: set<Digest>) {
    forall j :: 0 <= j < |m.chunks| && m.chunks[j].vol == v ==> m.chunks[j].id in moved
  }

  ghost function RepointedExcept(ns: Namespace, v: VolId, dest: SegKey, todo: set<Name>): Namespace {
    map n | n in ns :: if n in todo then ns[n] else MoveManifest(ns[n], v, dest)
  }

  lemma RepointStep(ns: Namespace, v: VolId, dest: SegKey, todo: set<Name>, n: Name, repoint: seq<Manifest>)
    requires n in ns && n in todo && ns[n].name == n
    requires InsertAll(ns, repoint) == RepointedExcept(ns, v, dest, todo)
    ensures Touches(ns[n], v) ==>
      InsertAll(ns, repoint + [MoveManifest(ns[n], v, dest)]) == RepointedExcept(ns, v, dest, todo - {n})
    ensures !Touches(ns[n], v) ==> InsertAll(ns, repoint) == RepointedExcept(ns, v, dest, todo - {n})
  {
    if Touches(ns[n], v) {
      InsertAllSnoc(ns, repoint, MoveManifest(ns[n], v, dest));
    } else {
      UntouchedStays(ns[n], v, dest);
    }
  }

  lemma AllMovedMeans(ns: Namespace, v: VolId, moved: set<Digest>)
    requires forall n :: n in ns ==> AllMoved(ns[n], v, moved)
    ensures IdsOn(ns, v) <= moved
    ensures IdsOn(ns, v) != {} <==> exists n :: n in ns && Touches(ns[n], v)
  {
    forall id | id in IdsOn(ns, v)
      ensures id in moved && exists n :: n in ns && Touches(ns[n], v)
    {
      var c :| c in Refs(ns) && c.vol == v && c.id == id;
      var n :| n in ns && c in ns[n].chunks;
      var j :| 0 <= j < |ns[n].chunks| && ns[n].chunks[j] == c;
      assert AllMoved(ns[n], v, moved);
    }
    if n :| n in ns && Touches(ns[n], v) {
      var j :| 0 <= j < |ns[n].chunks| && ns[n].chunks[j].vol == v;
      RefAt(ns, n, j);
      assert ns[n].chunks[j].id in IdsOn(ns, v);
    }
  }
}
