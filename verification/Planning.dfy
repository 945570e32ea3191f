/** How a put decides what to store and where, before it touches the backends,
    and why committing that plan is right. */
module Planning {
  import opened Prelude
  import opened Manifests
  import opened Log
  import opened Repoint
  import opened Accounting
  import opened StoreInvariant
  import opened Placement
  import opened Pass
  import Chunker
  import ChunkerTheory
  import Crypto
  import Protocol

  // ---------- sealing the chunks ----------

  /** Seals the chunks of a file: references with the placement still open for
      new chunks, and the distinct new ciphertexts to store. */
  method PlanChunks(store: Store, parts: seq<Bytes>, known: map<Digest, SegKey>, segId: SegId)
    returns (meta: seq<(ChunkRef, bool)>, staged: map<Digest, Bytes>, stagedBytes: nat, size: nat)
    requires store.Valid()
    ensures AllPlanned(store, parts, known, segId, staged, meta)
    ensures staged.Keys == ChunkIds(store, parts) - known.Keys && stagedBytes == Weigh(staged.Keys)
    ensures forall id :: id in staged ==> id == Blake3(staged[id])
    ensures size == |Concat(parts)|
  {
    meta, staged, stagedBytes, size := [], map[], 0, 0;
    for i := 0 to |parts|
      invariant SoFar(store, parts[..i], known, segId, staged, meta, size)
      invariant stagedBytes == Weigh(staged.Keys)
      invariant forall id :: id in staged ==> id == Blake3(staged[id])
    {
      ghost var before := staged;
      var ref, isNew;
      ref, isNew, staged, stagedBytes := PlanChunk(store, parts[i], known, segId, staged, stagedBytes);
      SoFarNext(store, parts, i, known, segId, before, staged, meta, (ref, isNew), size);
      meta := meta + [(ref, isNew)];
      size := size + |parts[i]|;
    }
    assert parts[..|parts|] == parts;
  }

  /** What holds once these chunks have been sealed. */
  ghost predicate SoFar(store: Store, parts: seq<Bytes>, known: map<Digest, SegKey>, segId: SegId,
                        staged: map<Digest, Bytes>, meta: seq<(ChunkRef, bool)>, size: nat)
    requires store.Valid()
  {
    && AllPlanned(store, parts, known, segId, staged, meta)
    && staged.Keys == ChunkIds(store, parts) - known.Keys
    && size == |Concat(parts)|
  }

  lemma SoFarNext(store: Store, parts: seq<Bytes>, i: nat, known: map<Digest, SegKey>, segId: SegId, before: map<Digest, Bytes>,
                  staged: map<Digest, Bytes>, meta: seq<(ChunkRef, bool)>, next: (ChunkRef, bool), size: nat)
    requires store.Valid() && i < |parts| && SoFar(store, parts[..i], known, segId, before, meta, size)
    requires Planned(store, parts[i], known, segId, staged, next)
    requires staged.Keys == before.Keys + ({store.keys.SealChunk(parts[i]).chunkId} - known.Keys)
    ensures SoFar(store, parts[..i + 1], known, segId, staged, meta + [next], size + |parts[i]|)
  {
    PlannedNext(store, parts, i, known, segId, before, staged, meta, next);
    SizeNext(parts, i);
    ChunkIdsNext(store, parts, i);
  }

  ghost predicate AllPlanned(store: Store, parts: seq<Bytes>, known: map<Digest, SegKey>, segId: SegId,
                             staged: map<Digest, Bytes>, meta: seq<(ChunkRef, bool)>)
    requires store.Valid()
  {
    |meta| == |parts| && forall i :: 0 <= i < |parts| ==> Planned(store, parts[i], known, segId, staged, meta[i])
  }

  lemma PlannedNext(store: Store, parts: seq<Bytes>, i: nat, known: map<Digest, SegKey>, segId: SegId, before: map<Digest, Bytes>,
                    staged: map<Digest, Bytes>, meta: seq<(ChunkRef, bool)>, next: (ChunkRef, bool))
    requires store.Valid() && i < |parts| && before.Keys <= staged.Keys
    requires AllPlanned(store, parts[..i], known, segId, before, meta) && Planned(store, parts[i], known, segId, staged, next)
    ensures AllPlanned(store, parts[..i + 1], known, segId, staged, meta + [next])
  {
    forall j | 0 <= j < i
      ensures Planned(store, parts[j], known, segId, staged, meta[j])
    {
      assert Planned(store, parts[..i][j], known, segId, before, meta[j]);
    }
  }

  /** The ids the sealed chunks get. */
  ghost function ChunkIds(store: Store, parts: seq<Bytes>): set<Digest>
    requires store.Valid()
  {
    set p | p in parts :: store.keys.SealChunk(p).chunkId
  }

  lemma ChunkIdsNext(store: Store, parts: seq<Bytes>, i: nat)
    requires store.Valid() && i < |parts|
    ensures ChunkIds(store, parts[..i + 1]) == ChunkIds(store, parts[..i]) + {store.keys.SealChunk(parts[i]).chunkId}
  {
    assert parts[..i + 1] == parts[..i] + [parts[i]];
  }

  lemma SizeNext(parts: seq<Bytes>, i: nat)
    requires i < |parts|
    ensures |Concat(parts[..i + 1])| == |Concat(parts[..i])| + |parts[i]|
  {
    assert parts[..i + 1] == parts[..i] + [parts[i]];
    ConcatSnoc(parts[..i], parts[i]);
  }

  /** Seals one chunk and stages its ciphertext unless it is known or staged. */
  method PlanChunk(store: Store, part: Bytes, known: map<Digest, SegKey>, segId: SegId, staged0: map<Digest, Bytes>, bytes0: nat)
    returns (ref: ChunkRef, isNew: bool, staged: map<Digest, Bytes>, bytes: nat)
    requires store.Valid() && staged0.Keys !! known.Keys && bytes0 == Weigh(staged0.Keys)
    requires forall id :: id in staged0 ==> id == Blake3(staged0[id])
    ensures Planned(store, part, known, segId, staged, (ref, isNew))
    ensures staged.Keys !! known.Keys && bytes == Weigh(staged.Keys)
    ensures forall id :: id in staged ==> id == Blake3(staged[id])
    ensures staged.Keys == staged0.Keys + ({store.keys.SealChunk(part).chunkId} - known.Keys)
  {
    var sealed := store.keys.SealChunk(part);
    isNew, staged, bytes := sealed.chunkId !in known, staged0, bytes0;
    if isNew && sealed.chunkId !in staged {
      WeighInsert(staged.Keys, sealed.chunkId);
      assert staged[sealed.chunkId := sealed.ciphertext].Keys == staged.Keys + {sealed.chunkId};
      staged := staged[sealed.chunkId := sealed.ciphertext];
      bytes := bytes + |sealed.ciphertext|;
    }
    ref := RefFor(store.keys, part, if isNew then SegKey("", segId) else known[sealed.chunkId]);
  }

  ghost predicate Planned(store: Store, part: Bytes, known: map<Digest, SegKey>, segId: SegId,
                          staged: map<Digest, Bytes>, meta: (ChunkRef, bool))
    requires store.Valid()
  {
    var id := store.keys.SealChunk(part).chunkId;
    && (meta.1 <==> id !in known)
    && (meta.1 ==> id in staged)
    && meta.0 == RefFor(store.keys, part, if meta.1 then SegKey("", segId) else known[id])
  }

  // ---------- placing them ----------

  datatype PutPlan = PutPlan(m: Manifest, own: SegKey, staged: map<Digest, Bytes>, bytes: nat,
                             target: Option<nat>, asIs: bool)
  {
    function Op(): Op { PutOp(m, SealFor(own, staged.Keys, bytes)) }
  }

  /** The distinct chunk ids of `content` that are not live yet. */
  ghost function NewIds(store: Store, ns: Namespace, content: Bytes): set<Digest>
    requires store.Valid()
  {
    ChunkIds(store, Chunker.Chunks(store.cdc, content)) - LiveIds(ns)
  }

  ghost predicate NoRoom(store: Store, seg: SegIndex, bytes: nat) {
    forall j :: 0 <= j < |store.volumes| ==>
      store.volumes[j].spare || Total(seg, store.volumes[j].id) + bytes > store.volumes[j].threshold
  }

  /** A put is refused for lack of budget when it brings new chunks that no
      ordinary volume can take as one segment. */
  ghost predicate Refused(store: Store, st: State, content: Bytes)
    requires store.Valid()
  {
    NewIds(store, st.ns, content) != {} && NoRoom(store, st.seg, Weigh(NewIds(store, st.ns, content)))
  }

  ghost predicate Placements(ns: Namespace, known: map<Digest, SegKey>) {
    && known.Keys == LiveIds(ns)
    && forall id :: id in known ==> exists c :: c in Refs(ns) && c.id == id && c.Key() == known[id]
  }

  /** Known chunks keep their placement; staged ones go to the new segment. */
  ghost function PlaceOf(known: map<Digest, SegKey>, staged: map<Digest, Bytes>, own: SegKey): map<Digest, SegKey> {
    map id | id in known.Keys + staged.Keys :: if id in staged then own else known[id]
  }

  /** Every chunk of the file has its reference, placed. */
  ghost predicate Filled(store: Store, parts: seq<Bytes>, known: map<Digest, SegKey>,
                         staged: map<Digest, Bytes>, own: SegKey, chunks: seq<ChunkRef>)
    requires store.Valid()
  {
    && |chunks| == |parts|
    && forall i :: 0 <= i < |parts| ==>
         var id := store.keys.SealChunk(parts[i]).chunkId;
         id in PlaceOf(known, staged, own) && chunks[i] == RefFor(store.keys, parts[i], PlaceOf(known, staged, own)[id])
  }

  /** The plan is the chunking of `content`, with live chunks where they already
      are and the others in one new segment on the volume the budget allows. */
  ghost predicate PlanOf(store: Store, st: State, name: Name, content: Bytes, segId: SegId, plan: PutPlan)
    requires store.Valid()
  {
    && plan.own.seg == segId
    && plan.bytes == Weigh(plan.staged.Keys)
    && plan.staged.Keys == NewIds(store, st.ns, content)
    && (forall id :: id in plan.staged ==> id == Blake3(plan.staged[id]))
    && (exists known :: Placements(st.ns, known)
          && Places(store, content, PlaceOf(known, plan.staged, plan.own))
          && plan.m == ManifestFor(store, name, content, PlaceOf(known, plan.staged, plan.own)))
    && (plan.asIs <==> plan.staged == map[] && name in st.ns && st.ns[name] == plan.m)
    && (plan.target.None? <==> plan.staged == map[])
    && (plan.target.Some? ==>
          && plan.target == Best(store.volumes, st.seg, plan.bytes, None, |store.volumes|)
          && plan.own.vol == store.volumes[plan.target.value].id)
  }

  /** Fills in the new segment as the placement of the new chunks. */
  method FillPlacements(store: Store, ghost parts: seq<Bytes>, ghost known: map<Digest, SegKey>,
                        ghost staged: map<Digest, Bytes>, meta: seq<(ChunkRef, bool)>, own: SegKey)
    returns (chunks: seq<ChunkRef>)
    requires store.Valid() && staged.Keys !! known.Keys
    requires AllPlanned(store, parts, known, own.seg, staged, meta)
    ensures Filled(store, parts, known, staged, own, chunks)
  {
    chunks := [];
    for i := 0 to |meta|
      invariant |chunks| == i
      invariant Filled(store, parts[..i], known, staged, own, chunks)
    {
      assert Planned(store, parts[i], known, own.seg, staged, meta[i]);
      var (c, isNew) := meta[i];
      chunks := chunks + [if isNew then c.(vol := own.vol) else c];
    }
    assert parts[..|parts|] == parts;
  }

  /** Chooses the volume for the new segment and completes the manifest; fails
      exactly when the budget refuses the file. */
  method PlaceFile(store: Store, name: Name, ghost content: Bytes, st: State, ghost known: map<Digest, SegKey>,
                   digest: Digest, meta: seq<(ChunkRef, bool)>, staged: map<Digest, Bytes>,
                   bytes: nat, size: nat, segId: SegId)
    returns (plan: Option<PutPlan>)
    requires store.Valid() && Placements(st.ns, known)
    requires AllPlanned(store, Chunker.Chunks(store.cdc, content), known, segId, staged, meta)
    requires staged.Keys == NewIds(store, st.ns, content) && staged.Keys !! known.Keys && bytes == Weigh(staged.Keys)
    requires forall id :: id in staged ==> id == Blake3(staged[id])
    requires digest == Blake3(content) && size == |content|
    ensures plan.Some? ==> PlanOf(store, st, name, content, segId, plan.value)
    ensures plan.None? <==> Refused(store, st, content)
  {
    var target: Option<nat> := None;
    if staged != map[] {
      target := SelectVolume(store.volumes, bytes, st.seg);
      if target.None? {
        return None;
      }
    }
    var own := SegKey(if target.Some? then store.volumes[target.value].id else "", segId);
    var chunks := FillPlacements(store, Chunker.Chunks(store.cdc, content), known, staged, meta, own);
    AssemblePlan(store, st, name, content, known, staged, own, chunks, bytes, target);
    var m := Manifest(name, size, store.cdc.params.avgSize, digest, chunks);
    var asIs := staged == map[] && name in st.ns && st.ns[name] == m;
    plan := Some(PutPlan(m, own, staged, bytes, target, asIs));
  }

  lemma AssemblePlan(store: Store, st: State, name: Name, content: Bytes, known: map<Digest, SegKey>,
                     staged: map<Digest, Bytes>, own: SegKey, chunks: seq<ChunkRef>, bytes: nat, target: Option<nat>)
    requires store.Valid() && Placements(st.ns, known)
    requires staged.Keys == NewIds(store, st.ns, content) && bytes == Weigh(staged.Keys)
    requires forall id :: id in staged ==> id == Blake3(staged[id])
    requires Filled(store, Chunker.Chunks(store.cdc, content), known, staged, own, chunks)
    requires target.None? <==> staged == map[]
    requires target.Some? ==>
      && target == Best(store.volumes, st.seg, bytes, None, |store.volumes|)
      && own.vol == store.volumes[target.value].id
    ensures var m := Manifest(name, |content|, store.cdc.params.avgSize, Blake3(content), chunks);
      PlanOf(store, st, name, content, own.seg,
        PutPlan(m, own, staged, bytes, target, staged == map[] && name in st.ns && st.ns[name] == m))
  {
    FilledIsManifest(store, name, content, known, staged, own, chunks);
  }

  lemma FilledIsManifest(store: Store, name: Name, content: Bytes, known: map<Digest, SegKey>,
                         staged: map<Digest, Bytes>, own: SegKey, chunks: seq<ChunkRef>)
    requires store.Valid() && Filled(store, Chunker.Chunks(store.cdc, content), known, staged, own, chunks)
    ensures Places(store, content, PlaceOf(known, staged, own))
    ensures ManifestFor(store, name, content, PlaceOf(known, staged, own))
         == Manifest(name, |content|, store.cdc.params.avgSize, Blake3(content), chunks)
  {
    FilledIsPlaced(store, Chunker.Chunks(store.cdc, content), known, staged, own, chunks);
  }

  lemma FilledIsPlaced(store: Store, parts: seq<Bytes>, known: map<Digest, SegKey>,
                       staged: map<Digest, Bytes>, own: SegKey, chunks: seq<ChunkRef>)
    requires store.Valid() && Filled(store, parts, known, staged, own, chunks)
    ensures AllPlaced(store.keys, parts, PlaceOf(known, staged, own))
    ensures chunks == RefsFor(store.keys, parts, PlaceOf(known, staged, own))
  {
  }

  /** What the plan says about the file: its chunks, the new ones among them,
      and the volume the new ones go to. */
  ghost predicate Counts(store: Store, st: State, content: Bytes, plan: PutPlan)
    requires store.Valid()
  {
    var added := NewIds(store, st.ns, content);
    && |plan.m.chunks| == |Chunker.Chunks(store.cdc, content)|
    && |plan.staged| == |added| && plan.bytes == Weigh(added)
    && (plan.target.Some? <==> added != {})
    && (added != {} ==> Roomiest(store, st.seg, Weigh(added), plan.own.vol))
  }

  /** `v` is the ordinary volume with the most free bytes, and has at least `bytes`. */
  ghost predicate Roomiest(store: Store, seg: SegIndex, bytes: nat, v: VolId) {
    exists i :: 0 <= i < |store.volumes| && store.volumes[i].id == v && IsRoomiest(store.volumes, seg, bytes, i)
  }

  lemma PlanCounts(store: Store, st: State, name: Name, content: Bytes, segId: SegId, plan: PutPlan)
    requires store.Valid() && PlanOf(store, st, name, content, segId, plan)
    ensures Counts(store, st, content, plan)
  {
    var known := PlanKnown(store, st, name, content, segId, plan);
    assert plan.staged.Keys == {} <==> plan.staged == map[];
    assert |plan.staged| == |plan.staged.Keys|;
    if plan.target.Some? {
      BestIsRoomiest(store.volumes, st.seg, plan.bytes, plan.target);
    }
  }

  // ---------- committing the plan ----------

  ghost function Pushed(disk: Disk, plan: PutPlan, now: int): Disk {
    if plan.target.Some? then disk[plan.own := Segment(plan.staged, now)] else disk
  }

  lemma PlanKnown(store: Store, st: State, name: Name, content: Bytes, segId: SegId, plan: PutPlan)
    returns (known: map<Digest, SegKey>)
    requires store.Valid() && PlanOf(store, st, name, content, segId, plan)
    ensures Placements(st.ns, known)
    ensures Places(store, content, PlaceOf(known, plan.staged, plan.own))
    ensures plan.m == ManifestFor(store, name, content, PlaceOf(known, plan.staged, plan.own))
  {
    known :| Placements(st.ns, known)
      && Places(store, content, PlaceOf(known, plan.staged, plan.own))
      && plan.m == ManifestFor(store, name, content, PlaceOf(known, plan.staged, plan.own));
  }

  lemma PlanIsPlaced(store: Store, st: State, name: Name, content: Bytes, segId: SegId, plan: PutPlan)
    returns (place: map<Digest, SegKey>)
    requires store.Valid() && PlanOf(store, st, name, content, segId, plan)
    ensures Sound(store, plan.m) && PlacesLike(st.ns, place, plan.own, plan.staged.Keys)
    ensures forall r :: r in ManifestRefs(plan.m) ==> r.id in place && r.Key() == place[r.id]
    ensures plan.m.name == name && plan.m.fileHash == Blake3(content) && plan.m.size == |content|
  {
    var known := PlanKnown(store, st, name, content, segId, plan);
    place := PlaceOf(known, plan.staged, plan.own);
    ManifestForSound(store, name, content, place);
  }

  /** A segment named by the next random id is nowhere yet. */
  lemma IssuedIsNew(store: Store, st: State, disk: Disk, issued: nat, key: SegKey)
    requires store.Valid() && Consistent(store, st, disk, issued) && key.seg == Random(issued)
    ensures key !in disk && forall c :: c in Refs(st.ns) ==> c.Key() != key
  {
    assert key in disk ==> InFleet(store, key, issued);
    forall c | c in Refs(st.ns)
      ensures c.Key() != key
    {
      assert Resolves(disk, c);
    }
  }

  lemma PlanSegmentFits(store: Store, st: State, name: Name, content: Bytes, issued: nat, plan: PutPlan, now: int)
    requires store.Valid() && issued > 0 && plan.target.Some?
    requires PlanOf(store, st, name, content, Random(issued - 1), plan)
    ensures InFleet(store, plan.own, issued) && WellFormedSegment(plan.own, Segment(plan.staged, now))
  {
    assert Fits(store.volumes, st.seg, plan.bytes, None, plan.target.value);
    assert plan.own.vol in store.Ordinary();
  }

  lemma PlanPushes(store: Store, st: State, disk: Disk, issued: nat, name: Name, content: Bytes, plan: PutPlan, now: int)
    requires store.Valid() && issued > 0 && Consistent(store, st, disk, issued - 1)
    requires PlanOf(store, st, name, content, Random(issued - 1), plan)
    ensures Consistent(store, st, Pushed(disk, plan, now), issued)
    ensures plan.own !in disk && forall c :: c in Refs(st.ns) ==> c.Key() != plan.own
  {
    IssueKeeps(store, st, disk, issued - 1);
    IssuedIsNew(store, st, disk, issued - 1, plan.own);
    if plan.target.Some? {
      PlanSegmentFits(store, st, name, content, issued, plan, now);
      PushKeeps(store, st, disk, issued, plan.own, Segment(plan.staged, now));
    }
  }

  /** Every chunk of a stored file is live. */
  lemma StoredHasNoNewIds(store: Store, st: State, name: Name)
    requires store.Valid() && AllSound(store, st.ns) && name in st.ns
    ensures NewIds(store, st.ns, st.ns[name].fileHash.of) == {}
  {
    var m := st.ns[name];
    var parts := Chunker.Chunks(store.cdc, m.fileHash.of);
    forall p | p in parts
      ensures store.keys.SealChunk(p).chunkId in LiveIds(st.ns)
    {
      var i :| 0 <= i < |parts| && parts[i] == p;
      assert PlainChunks(m)[i] == parts[i];
      assert ChunkSound(store.keys, m.chunks[i]);
      RefAt(st.ns, name, i);
      assert m.chunks[i].id in LiveIds(st.ns);
    }
  }

  /** A file that is already stored plans no new chunk and the same manifest. */
  lemma ReputPlansNothing(store: Store, st: State, disk: Disk, issued: nat, name: Name, content: Bytes, segId: SegId, plan: PutPlan)
    requires store.Valid() && Consistent(store, st, disk, issued) && PlanOf(store, st, name, content, segId, plan)
    requires name in st.ns && st.ns[name].fileHash.of == content
    ensures plan.asIs
  {
    StoredHasNoNewIds(store, st, name);
    var known := PlanKnown(store, st, name, content, segId, plan);
    assert plan.staged.Keys == {};
    NothingStaged(known, plan.staged, plan.own);
    ReputIsIdentical(store, st, disk, issued, name, known);
  }

  lemma NothingStaged(known: map<Digest, SegKey>, staged: map<Digest, Bytes>, own: SegKey)
    requires staged.Keys == {}
    ensures PlaceOf(known, staged, own) == known && staged == map[]
  {
  }

  lemma PutWithinBudget(store: Store, st: State, m: Manifest, own: SegKey, staged: set<Digest>, target: nat)
    requires WithinBudget(store, st) && target < |store.volumes|
    requires staged != {} ==>
      own.vol == store.volumes[target].id && Total(st.seg, own.vol) + Weigh(staged) <= store.volumes[target].threshold
    requires store.Valid()
    ensures WithinBudget(store, ApplyOp(st, PutOp(m, SealFor(own, staged, Weigh(staged)))))
  {
    if staged != {} {
      InsertOne(st.seg, SealFor(own, staged, Weigh(staged))[0]);
      forall i | 0 <= i < |store.volumes|
        ensures Total(InsertSeals(st.seg, SealFor(own, staged, Weigh(staged))), store.volumes[i].id) <= store.volumes[i].threshold
      {
        TotalInsert(st.seg, own, Weigh(staged), store.volumes[i].id);
      }
    }
  }

  lemma PlanWithinBudget(store: Store, st: State, name: Name, content: Bytes, segId: SegId, plan: PutPlan)
    requires store.Valid() && PlanOf(store, st, name, content, segId, plan) && WithinBudget(store, st)
    ensures WithinBudget(store, ApplyOp(st, plan.Op()))
  {
    if plan.target.Some? {
      assert Fits(store.volumes, st.seg, plan.bytes, None, plan.target.value);
      PutWithinBudget(store, st, plan.m, plan.own, plan.staged.Keys, plan.target.value);
    } else {
      assert plan.staged.Keys == {};
    }
  }

  /** Pushing the planned segment, and then committing the planned record, both
      keep the store consistent. */
  lemma PlanIsCommittable(store: Store, st: State, disk: Disk, issued: nat, name: Name, content: Bytes, plan: PutPlan, now: int)
    requires store.Valid() && issued > 0 && Consistent(store, st, disk, issued - 1)
    requires PlanOf(store, st, name, content, Random(issued - 1), plan)
    ensures Consistent(store, st, disk, issued)
    ensures Consistent(store, st, Pushed(disk, plan, now), issued)
    ensures Consistent(store, ApplyOp(st, plan.Op()), Pushed(disk, plan, now), issued)
    ensures plan.m.name == name && plan.m.fileHash == Blake3(content) && plan.m.size == |content|
    ensures WithinBudget(store, st) ==> WithinBudget(store, ApplyOp(st, plan.Op()))
    ensures name in st.ns && st.ns[name].fileHash.of == content ==> plan.asIs
    ensures plan.own !in disk
  {
    IssueKeeps(store, st, disk, issued - 1);
    PlanPushes(store, st, disk, issued, name, content, plan, now);
    var place := PlanIsPlaced(store, st, name, content, Random(issued - 1), plan);
    PutKeeps(store, st, Pushed(disk, plan, now), issued, plan.m, place, plan.own, plan.staged.Keys);
    if WithinBudget(store, st) {
      PlanWithinBudget(store, st, name, content, Random(issued - 1), plan);
    }
    if name in st.ns && st.ns[name].fileHash.of == content {
      ReputPlansNothing(store, st, disk, issued, name, content, Random(issued - 1), plan);
    }
  }

  // ---------- the effect ----------

  /** A put has pushed its segment: one new ref, on the ordinary volume with the most
      free bytes, holding exactly the file's chunks that were not live, dated `made`. */
  ghost predicate OneSegmentPushed(store: Store, st: State, content: Bytes, key: SegKey, was: Disk, now: Disk, made: int)
    requires store.Valid()
  {
    var added := NewIds(store, st.ns, content);
    && key !in was && now.Keys == was.Keys + {key} && (forall k :: k in was ==> now[k] == was[k])
    && now[key].time == made && now[key].blobs.Keys == added != {}
    && (forall id :: id in added ==> id == Blake3(now[key].blobs[id]))
    && Roomiest(store, st.seg, Weigh(added), key.vol)
  }

  /** What a put leaves on the volumes: nothing new, or its segment under the id drawn
      for it. */
  ghost predicate PutLeaves(store: Store, st: State, content: Bytes, nonce: nat, was: Disk, now: Disk, made: int)
    requires store.Valid()
  {
    || now == was
    || exists v :: OneSegmentPushed(store, st, content, SegKey(v, Random(nonce)), was, now, made)
  }

  lemma PlanPushesOne(store: Store, st: State, disk: Disk, name: Name, content: Bytes, segId: SegId, plan: PutPlan, now: int)
    requires store.Valid() && PlanOf(store, st, name, content, segId, plan) && plan.own !in disk
    ensures plan.asIs ==> plan.target.None?
    ensures plan.target.Some? ==> OneSegmentPushed(store, st, content, plan.own, disk, Pushed(disk, plan, now), now)
  {
    if plan.target.Some? {
      PlanCounts(store, st, name, content, segId, plan);
      PushedIsOne(store, st, content, plan, disk, now);
    }
  }

  lemma PushedIsOne(store: Store, st: State, content: Bytes, plan: PutPlan, disk: Disk, now: int)
    requires store.Valid() && Counts(store, st, content, plan) && plan.target.Some? && plan.own !in disk
    requires plan.staged.Keys == NewIds(store, st.ns, content)
    requires forall id :: id in plan.staged ==> id == Blake3(plan.staged[id])
    ensures OneSegmentPushed(store, st, content, plan.own, disk, Pushed(disk, plan, now), now)
  {
    var after := Pushed(disk, plan, now);
    assert after == disk[plan.own := Segment(plan.staged, now)];
    assert after.Keys == disk.Keys + {plan.own};
  }

  /** The contents after a put: unchanged, or with the file stored; the latter for
      certain when the call reports success. */
  ghost predicate PutOutcome(before: map<Name, Bytes>, after: map<Name, Bytes>, name: Name, content: Bytes, done: bool) {
    (after == before && !done) || after == before[name := content]
  }

  /** At most one record was committed: a put of `content` under `name`. */
  ghost predicate AtMostOnePut(before: seq<Op>, after: seq<Op>, name: Name, content: Bytes) {
    || after == before
    || (|after| == |before| + 1 && before == after[..|before|]
        && after[|before|].PutOp? && after[|before|].m.name == name && after[|before|].m.fileHash == Blake3(content))
  }

  /** The plan's record was committed, or nothing was. */
  ghost predicate PutLanded(st0: State, ops0: seq<Op>, st1: State, ops1: seq<Op>, plan: PutPlan) {
    || (ops1 == ops0 && st1 == st0)
    || (ops1 == ops0 + [plan.Op()] && st1 == ApplyOp(st0, plan.Op()))
  }

  /** What committing the plan, or not, means for the contents. */
  lemma PutMeans(store: Store, st0: State, ops0: seq<Op>, st1: State, ops1: seq<Op>, plan: PutPlan, content: Bytes)
    requires plan.m.fileHash == Blake3(content) && PutLanded(st0, ops0, st1, ops1, plan)
    requires Intended(ops0) == Contents(st0.ns)
    ensures Intended(ops1) == Contents(st1.ns)
    ensures AtMostOnePut(ops0, ops1, plan.m.name, content)
    ensures st1.ns - {plan.m.name} == st0.ns - {plan.m.name}
    ensures PutOutcome(Contents(st0.ns), Contents(st1.ns), plan.m.name, content, Protocol.Reflected(st1.ns, plan.Op()))
    ensures WithinBudget(store, st0) && WithinBudget(store, ApplyOp(st0, plan.Op())) ==> WithinBudget(store, st1)
  {
    if st1 != st0 || ops1 != ops0 {
      IntendedStep(ops0, plan.Op(), st0);
      assert (ops0 + [plan.Op()])[..|ops0|] == ops0;
    }
  }

  lemma StoredIsNeverRefused(store: Store, st: State, name: Name, content: Bytes)
    requires store.Valid() && AllSound(store, st.ns)
    ensures name in st.ns && st.ns[name].fileHash.of == content ==> !Refused(store, st, content)
  {
    if name in st.ns {
      StoredHasNoNewIds(store, st, name);
    }
  }
}
