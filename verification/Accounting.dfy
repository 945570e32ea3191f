/** Byte accounting derived from the log alone: stored, live and dead bytes. */
module Accounting {
  import opened Prelude
  import opened Manifests
  import opened Log
  import opened Repoint

  /** Stored size of a set of distinct chunks. */
  ghost function Weigh(ids: set<Digest>): nat {
    Sum(map id | id in ids :: |id.of|)
  }

  lemma WeighInsert(ids: set<Digest>, id: Digest)
    requires id !in ids
    ensures Weigh(ids + {id}) == Weigh(ids) + |id.of|
  {
    var m := map i | i in ids :: |i.of|;
    SumInsert(m, id, |id.of|);
    assert (map i | i in ids + {id} :: |i.of|) == m[id := |id.of|];
  }

  lemma WeighSplit(a: set<Digest>, b: set<Digest>)
    requires a !! b
    ensures Weigh(a + b) == Weigh(a) + Weigh(b)
  {
    var ma, mb: map<Digest, nat> := map i | i in a :: |i.of|, map i | i in b :: |i.of|;
    SumUnion(ma, mb);
    assert (map i | i in a + b :: |i.of|) == ma + mb;
  }

  lemma WeighMonotone(a: set<Digest>, b: set<Digest>)
    requires a <= b
    ensures Weigh(a) <= Weigh(b)
  {
    SumMonotone(map i | i in a :: |i.of|, map i | i in b :: |i.of|);
  }

  // ---------- totals ----------

  function OnVolume(seg: SegIndex, v: VolId): SegIndex {
    map key | key in seg && key.vol == v :: seg[key]
  }

  /** Bytes stored on `v` according to its seal records. */
  ghost function Total(seg: SegIndex, v: VolId): nat {
    Sum(OnVolume(seg, v))
  }

  ghost function Live(ns: Namespace, v: VolId): nat {
    Weigh(IdsOn(ns, v))
  }

  ghost function LiveIds(ns: Namespace): set<Digest> {
    set c | c in Refs(ns) :: c.id
  }

  /** Every referenced segment is on disk with a seal record equal to the stored
      size of the distinct chunks it holds. */
  ghost predicate Accounted(st: State, disk: Disk) {
    forall c :: c in Refs(st.ns) ==> Resolves(disk, c) && SealExact(st.seg, disk, c.Key())
  }

  ghost predicate SealExact(seg: SegIndex, disk: Disk, key: SegKey) {
    key in seg && key in disk && seg[key] == Weigh(disk[key].blobs.Keys)
  }

  // ---------- live never exceeds stored ----------

  /** Distinct chunks spread over some exactly sealed segments weigh no more than
      those segments' records. */
  lemma {:induction false} CoveredWeight(ids: set<Digest>, keys: set<SegKey>, seg: SegIndex, disk: Disk)
    requires forall key :: key in keys ==> key in seg && SealExact(seg, disk, key)
    requires forall id :: id in ids ==> exists key :: key in keys && key in disk && id in disk[key].blobs
    ensures Weigh(ids) <= Sum(map key | key in keys :: seg[key])
    decreases |keys|
  {
    if keys == {} {
      assert ids == {};
      assert (map id | id in ids :: |id.of|) == map[];
    } else {
      var key :| key in keys;
      var here := ids * disk[key].blobs.Keys;
      CoveredWeight(ids - here, keys - {key}, seg, disk);
      WeighSplit(here, ids - here);
      assert here + (ids - here) == ids;
      WeighMonotone(here, disk[key].blobs.Keys);
      SumWithout(keys, key, seg);
    }
  }

  lemma SumWithout(keys: set<SegKey>, key: SegKey, seg: SegIndex)
    requires key in keys && forall k :: k in keys ==> k in seg
    ensures Sum(map k | k in keys :: seg[k]) == seg[key] + Sum(map k | k in keys - {key} :: seg[k])
  {
    var m := map k | k in keys :: seg[k];
    SumRemove(m, key);
    assert m - {key} == map k | k in keys - {key} :: seg[k];
  }

  lemma LiveAtMostTotal(st: State, disk: Disk, v: VolId)
    requires Accounted(st, disk)
    ensures Live(st.ns, v) <= Total(st.seg, v)
  {
    var keys := set c | c in Refs(st.ns) && c.vol == v :: c.Key();
    forall id | id in IdsOn(st.ns, v)
      ensures exists key :: key in keys && key in disk && id in disk[key].blobs
    {
      var c :| c in Refs(st.ns) && c.vol == v && c.id == id;
      assert c.Key() in keys && Resolves(disk, c);
    }
    CoveredWeight(IdsOn(st.ns, v), keys, st.seg, disk);
    SumMonotone(map key | key in keys :: st.seg[key], OnVolume(st.seg, v));
  }

  lemma LiveAtMostStored(st: State, disk: Disk)
    requires Accounted(st, disk)
    ensures Weigh(LiveIds(st.ns)) <= Sum(st.seg)
  {
    var keys := set c | c in Refs(st.ns) :: c.Key();
    forall id | id in LiveIds(st.ns)
      ensures exists key :: key in keys && key in disk && id in disk[key].blobs
    {
      var c :| c in Refs(st.ns) && c.id == id;
      assert c.Key() in keys && Resolves(disk, c);
    }
    CoveredWeight(LiveIds(st.ns), keys, st.seg, disk);
    SumMonotone(map key | key in keys :: st.seg[key], st.seg);
  }

  /** Store-wide dead bytes: recorded bytes minus distinct live ones. */
  ghost function Dead(st: State): int {
    Sum(st.seg) - Weigh(LiveIds(st.ns))
  }

  // ---------- what a retirement does to the books ----------

  function SealFor(dest: SegKey, moved: set<Digest>, bytes: nat): seq<SegRec> {
    if moved == {} then [] else [SegRec(dest.vol, dest.seg, bytes)]
  }

  lemma SumUpdate(seg: SegIndex, key: SegKey, n: nat)
    ensures Sum(seg[key := n]) <= Sum(seg) + n
  {
    if key in seg {
      SumRemove(seg, key);
      SumRemove(seg[key := n], key);
      assert seg[key := n] - {key} == seg - {key};
    } else {
      SumInsert(seg, key, n);
    }
  }

  lemma SumPartition(seg: SegIndex, v: VolId)
    ensures Sum(seg) == Total(seg, v) + Sum(DropVolumes(seg, [v]))
  {
    SumUnion(OnVolume(seg, v), DropVolumes(seg, [v]));
    assert OnVolume(seg, v) + DropVolumes(seg, [v]) == seg;
  }

  lemma SealElsewhere(seg: SegIndex, v: VolId, dest: SegKey, moved: set<Digest>, bytes: nat)
    requires dest.vol != v
    ensures OnVolume(InsertSeals(seg, SealFor(dest, moved, bytes)), v) == OnVolume(seg, v)
    ensures Sum(InsertSeals(seg, SealFor(dest, moved, bytes))) <= Sum(seg) + (if moved == {} then 0 else bytes)
  {
    if moved != {} {
      InsertOne(seg, SegRec(dest.vol, dest.seg, bytes));
      SumUpdate(seg, dest, bytes);
    }
  }

  lemma InsertOne(seg: SegIndex, s: SegRec)
    ensures InsertSeals(seg, [s]) == seg[s.Key() := s.bytes]
  {
    InsertSealsSnoc(seg, [], s);
    assert [] + [s] == [s];
  }

  lemma LiveIdsUnmoved(ns: Namespace, v: VolId, dest: SegKey)
    ensures LiveIds(Repointed(ns, v, dest)) == LiveIds(ns)
  {
    forall id | id in LiveIds(Repointed(ns, v, dest))
      ensures id in LiveIds(ns)
    {
      var c :| c in Refs(Repointed(ns, v, dest)) && c.id == id;
      RepointedRefs(ns, v, dest, c);
    }
    forall id | id in LiveIds(ns)
      ensures id in LiveIds(Repointed(ns, v, dest))
    {
      var c :| c in Refs(ns) && c.id == id;
      RepointedRefsConverse(ns, v, dest, c);
      assert MoveRef(c, v, dest).id == id;
    }
  }

  lemma TotalAfterDrop(seg: SegIndex, v: VolId)
    ensures Total(DropVolumes(seg, [v]), v) == 0
  {
    assert OnVolume(DropVolumes(seg, [v]), v) == map[];
  }

  /** Retiring a volume reclaims: its accounted bytes become zero, the store's
      recorded bytes fall by at least its dead bytes, and so do the dead bytes. */
  lemma RetireReclaims(st: State, v: VolId, dest: SegKey)
    requires dest.vol != v
    ensures var moved := IdsOn(st.ns, v);
      var t := Retire(st, v, dest, SealFor(dest, moved, Weigh(moved)));
      && Total(t.seg, v) == 0
      && Sum(t.seg) <= Sum(st.seg) - (Total(st.seg, v) - Live(st.ns, v))
      && Dead(t) <= Dead(st) - (Total(st.seg, v) - Live(st.ns, v))
  {
    var moved := IdsOn(st.ns, v);
    var sealed := InsertSeals(st.seg, SealFor(dest, moved, Weigh(moved)));
    SealElsewhere(st.seg, v, dest, moved, Weigh(moved));
    SumPartition(sealed, v);
    TotalAfterDrop(sealed, v);
    LiveIdsUnmoved(st.ns, v, dest);
  }

  // ---------- the loops that compute these figures ----------

  /** Adds up the records of one volume. */
  method VolumeUsed(v: VolId, seg: SegIndex) returns (used: nat)
    ensures used == Total(seg, v)
  {
    used := 0;
    var todo := seg.Keys;
    ghost var done: SegIndex := map[];
    while todo != {}
      invariant todo <= seg.Keys
      invariant done == map key | key in seg && key !in todo && key.vol == v :: seg[key]
      invariant used == Sum(done)
      decreases |todo|
    {
      var key :| key in todo;
      if key.vol == v {
        SumInsert(done, key, seg[key]);
        used := used + seg[key];
        done := done[key := seg[key]];
      }
      todo := todo - {key};
    }
    assert done == OnVolume(seg, v);
  }
}
