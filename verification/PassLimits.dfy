/** Consequences of the pass over many passes, and the limits of what one pass
    guarantees. */
module PassLimits {
  import opened Prelude
  import opened Manifests
  import opened Log
  import opened Repoint
  import opened Accounting
  import opened StoreInvariant
  import opened Placement
  import opened Pass
  import opened Sweeping
  import Chunker
  import Crypto

  /** In a consistent store the reported figures are exact: live and dead add up
      to the stored bytes, so the saturating subtraction never clamps. */
  lemma StatsAreExact(st: State, disk: Disk, v: Volume)
    requires Accounted(st, disk)
    ensures var s := StatsOf(st, v);
      s.live <= s.total && s.live + s.dead == s.total
      && s.live == Weigh(IdsOn(st.ns, v.id)) && s.total == Sum(OnVolume(st.seg, v.id))
  {
    LiveAtMostTotal(st, disk, v.id);
  }

  // ---------- what is left on a retired volume ----------

  function ApplyOps(st: State, ops: seq<Op>): State
    decreases |ops|
  {
    if ops == [] then st else ApplyOps(ApplyOp(st, ops[0]), ops[1..])
  }

  function SealsOfOp(op: Op): seq<SegRec> {
    match op
    case PutOp(_, seals) => seals
    case RemoveOp(_) => []
    case CompactOp(_, seals, _) => seals
  }

  ghost predicate NoRecordOn(seg: SegIndex, v: VolId) {
    forall key :: key in seg ==> key.vol != v
  }

  /** The operation records a new segment on `v`. */
  ghost predicate SealsOn(op: Op, v: VolId) {
    exists i :: 0 <= i < |SealsOfOp(op)| && SealsOfOp(op)[i].vol == v
  }

  lemma {:induction false} InsertSealsElsewhere(seg: SegIndex, seals: seq<SegRec>, v: VolId)
    requires NoRecordOn(seg, v) && forall i :: 0 <= i < |seals| ==> seals[i].vol != v
    ensures NoRecordOn(InsertSeals(seg, seals), v)
    decreases |seals|
  {
    if seals == [] {
    } else {
      InsertSealsElsewhere(seg[seals[0].Key() := seals[0].bytes], seals[1..], v);
    }
  }

  lemma {:induction false} NoRecordStays(st: State, ops: seq<Op>, v: VolId)
    requires NoRecordOn(st.seg, v) && forall i :: 0 <= i < |ops| ==> !SealsOn(ops[i], v)
    ensures NoRecordOn(ApplyOps(st, ops).seg, v)
    decreases |ops|
  {
    if ops == [] {
    } else {
      assert !SealsOn(ops[0], v);
      InsertSealsElsewhere(st.seg, SealsOfOp(ops[0]), v);
      NoRecordStays(ApplyOp(st, ops[0]), ops[1..], v);
    }
  }

  /** A volume whose retirement has committed becomes a candidate again only if a
      later operation records a segment on it, whatever else is committed. */
  lemma RetiredIsNoCandidate(g: Gates, st: State, v: Volume, dest: SegKey, ops: seq<Op>)
    requires dest.vol != v.id
    ensures var moved := IdsOn(st.ns, v.id);
      var later := ApplyOps(Retire(st, v.id, dest, SealFor(dest, moved, Weigh(moved))), ops);
      Candidate(g, later, v) ==> exists i :: 0 <= i < |ops| && SealsOn(ops[i], v.id)
  {
    var moved := IdsOn(st.ns, v.id);
    var retired := Retire(st, v.id, dest, SealFor(dest, moved, Weigh(moved)));
    if forall i :: 0 <= i < |ops| ==> !SealsOn(ops[i], v.id) {
      NoRecordStays(retired, ops, v.id);
      NotWithoutRecord(g, ApplyOps(retired, ops), v);
    }
  }

  lemma NotWithoutRecord(g: Gates, st: State, v: Volume)
    requires NoRecordOn(st.seg, v.id)
    ensures !Candidate(g, st, v)
  {
    assert OnVolume(st.seg, v.id) == map[];
  }

  /** What an interrupted wipe left there is for the sweep: on a volume without
      records, the sweep of a finished pass leaves exactly the refs younger than
      the window. */
  lemma SweepCleansRetired(st: State, disk: Disk, v: VolId, window: int, now: int)
    requires Accounted(st, disk) && NoRecordOn(st.seg, v)
    ensures forall key: SegKey :: key.vol == v ==>
      (key in AfterSweep(disk, st.ns, window, now) <==> key in disk && now - disk[key].time < window)
  {
    forall c | c in Refs(st.ns)
      ensures c.vol != v
    {
      assert SealExact(st.seg, disk, c.Key());
    }
  }

  /** Any number of passes, one after the other. */
  ghost predicate Passes(store: Store, g: Gates, states: seq<State>, landed: seq<seq<bool>>)
    requires SpareIsLast(store.volumes)
  {
    && |states| == |landed| + 1
    && forall i :: 0 <= i < |landed| ==> PassFrom(store, g, states[i], landed[i], states[i + 1])
  }

  /** A pass from one consistent state to another. */
  ghost predicate PassFrom(store: Store, g: Gates, base: State, landed: seq<bool>, end: State)
    requires SpareIsLast(store.volumes)
  {
    OnePlacement(base.ns) && IsPass(store, g, base, landed) && end == PassState(store, base, landed)
  }

  function Retirements(landed: seq<seq<bool>>): nat {
    if landed == [] then 0 else Retirements(landed[..|landed| - 1]) + Count(landed[|landed| - 1])
  }

  lemma {:induction false} PassesReclaim(store: Store, g: Gates, states: seq<State>, landed: seq<seq<bool>>)
    requires store.Valid() && SpareIsLast(store.volumes) && g.Valid()
    requires Passes(store, g, states, landed)
    ensures Dead(states[|landed|]) + Retirements(landed) <= Dead(states[0])
    decreases |landed|
  {
    if landed == [] {
    } else {
      var n := |landed| - 1;
      assert Passes(store, g, states[..n + 1], landed[..n]);
      PassesReclaim(store, g, states[..n + 1], landed[..n]);
      assert PassFrom(store, g, states[n], landed[n], states[n + 1]);
      PassReclaims(store, g, states[n], landed[n]);
    }
  }

  /** Repeated forced compaction with no other writer ends: over any number of
      passes, at most as many retirements land as there were dead bytes. */
  lemma RepeatedCompactionEnds(store: Store, g: Gates, states: seq<State>, landed: seq<seq<bool>>, disk: Disk)
    requires store.Valid() && SpareIsLast(store.volumes) && g.Valid()
    requires Passes(store, g, states, landed) && Accounted(states[|landed|], disk)
    ensures Retirements(landed) <= Dead(states[0])
  {
    PassesReclaim(store, g, states, landed);
    LiveAtMostStored(states[|landed|], disk);
  }

  // ---------- two retirements in one pass can breach the wall ----------

  /** A store that seals nothing, with room for ten bytes on two ordinary volumes
      and for one on the spare. */
  const SMALL := OpenStore(
    Crypto.Keys([], Crypto.PLAIN, 0),
    Chunker.FastCdc(seq(256, _ => 0), Chunker.Params(512, 1024, 4096), 12, 8),
    [("v0", 10), ("v1", 10), ("v2", 1)], 128)

  const A := ChunkRef(Blake3([1]), Blake3([1]), 1, 1, "v0", Random(2))
  const B := ChunkRef(Blake3([2]), Blake3([2]), 1, 1, "v1", Random(3))
  const X := ChunkRef(Blake3([3, 3]), Blake3([3, 3]), 2, 2, "v0", Random(0))
  const Y := ChunkRef(Blake3([4, 4]), Blake3([4, 4]), 2, 2, "v1", Random(1))

  function FileOf(name: Name, c: ChunkRef): Manifest {
    Manifest(name, c.len, 1024, c.plaintextHash, [c])
  }

  function PutOf(name: Name, c: ChunkRef): Op {
    PutOp(FileOf(name, c), [SegRec(c.vol, c.seg, c.clen)])
  }

  /** Four files are stored, each in a segment of its own, and the two larger ones
      are removed again. */
  const HISTORY: seq<Op> := [PutOf("x", X), PutOf("y", Y), PutOf("a", A), PutOf("b", B), RemoveOp("x"), RemoveOp("y")]

  const TWO_FILES: Namespace := map["a" := FileOf("a", A), "b" := FileOf("b", B)]
  const FOUR_SEGMENTS: SegIndex := map[X.Key() := 2, Y.Key() := 2, A.Key() := 1, B.Key() := 1]
  const MOSTLY_DEAD := State(TWO_FILES, FOUR_SEGMENTS)
  const DISK: Disk := map[X.Key() := SegmentOf(X), Y.Key() := SegmentOf(Y), A.Key() := SegmentOf(A), B.Key() := SegmentOf(B)]

  function SegmentOf(c: ChunkRef): Segment { Segment(map[c.id := c.id.of], 0) }

  /** Half dead is the gate; the other gates do not matter when forced. */
  const HALF := RatioGates(1, 2, 4, 5, 0, 3600)

  lemma DistinctNames()
    ensures "v0" != "v1" && "v0" != "v2" && "v1" != "v2"
    ensures "a" != "b" && "a" != "x" && "a" != "y" && "b" != "x" && "b" != "y" && "x" != "y"
  {
    assert "v0"[1] != "v1"[1] && "v0"[1] != "v2"[1] && "v1"[1] != "v2"[1];
    assert "a"[0] != "b"[0] && "a"[0] != "x"[0] && "a"[0] != "y"[0];
    assert "b"[0] != "x"[0] && "b"[0] != "y"[0] && "x"[0] != "y"[0];
  }

  lemma SmallIsValid()
    ensures SMALL.Valid() && SpareIsLast(SMALL.volumes)
    ensures SMALL.volumes == [Volume("v0", 10, false), Volume("v1", 10, false), Volume("v2", 1, true)]
    ensures SMALL.Ordinary() == {"v0", "v1"} && SMALL.Ids() == {"v0", "v1", "v2"}
  {
    DistinctNames();
    Crypto.LawsHaveAModel();
    OpenedStoreIsValid(SMALL.keys, SMALL.cdc, [("v0", 10), ("v1", 10), ("v2", 1)], 128);
    var vs := SMALL.volumes;
    assert vs == [Volume("v0", 10, false), Volume("v1", 10, false), Volume("v2", 1, true)];
    assert vs[0].id == "v0" && vs[1].id == "v1" && vs[2].id == "v2";
  }

  // ----- the state is reachable and consistent -----

  lemma ReplayNext(ops: seq<Op>, op: Op)
    ensures Replay(ops + [op]) == ApplyOp(Replay(ops), op)
  {
    assert (ops + [op])[..|ops|] == ops;
  }

  lemma PutStep(st: State, name: Name, c: ChunkRef)
    ensures ApplyOp(st, PutOf(name, c)) == State(st.ns[name := FileOf(name, c)], st.seg[c.Key() := c.clen])
  {
    InsertOne(st.seg, SegRec(c.vol, c.seg, c.clen));
  }

  lemma HistoryLeadsThere()
    ensures Replay(HISTORY) == MOSTLY_DEAD
  {
    DistinctNames();
    var h := HISTORY;
    ReplayNext([], h[0]);
    ReplayNext(h[..1], h[1]);
    ReplayNext(h[..2], h[2]);
    ReplayNext(h[..3], h[3]);
    ReplayNext(h[..4], h[4]);
    ReplayNext(h[..5], h[5]);
    assert [] + [h[0]] == h[..1] && h[..1] + [h[1]] == h[..2] && h[..2] + [h[2]] == h[..3];
    assert h[..3] + [h[3]] == h[..4] && h[..4] + [h[4]] == h[..5] && h[..5] + [h[5]] == h;
    FourPuts();
  }

  lemma FourPuts()
    ensures var s4 := ApplyOp(ApplyOp(ApplyOp(ApplyOp(EMPTY, PutOf("x", X)), PutOf("y", Y)), PutOf("a", A)), PutOf("b", B));
      ApplyOp(ApplyOp(s4, RemoveOp("x")), RemoveOp("y")) == MOSTLY_DEAD
  {
    DistinctNames();
    PutStep(EMPTY, "x", X);
    var s1 := ApplyOp(EMPTY, PutOf("x", X));
    PutStep(s1, "y", Y);
    var s2 := ApplyOp(s1, PutOf("y", Y));
    PutStep(s2, "a", A);
    var s3 := ApplyOp(s2, PutOf("a", A));
    PutStep(s3, "b", B);
    assert map["x" := FileOf("x", X), "y" := FileOf("y", Y), "a" := FileOf("a", A), "b" := FileOf("b", B)] - {"x"} - {"y"} == TWO_FILES;
  }

  lemma SmallFileIsOneChunk(name: Name, c: ChunkRef)
    requires SMALL.Valid() && c.id == c.plaintextHash && 0 < |c.id.of| <= 512
    requires c.len == |c.id.of| && c.clen == |c.id.of|
    ensures Sound(SMALL, FileOf(name, c))
  {
    var s := c.plaintextHash.of;
    assert Chunker.CutLen(SMALL.cdc, s) == |s|;
    assert s[|s|..] == [] && s[..|s|] == s;
    assert Chunker.Chunks(SMALL.cdc, s) == [s];
    assert ChunkSound(SMALL.keys, c);
  }

  lemma TwoRefs()
    ensures Refs(TWO_FILES) == {A, B}
    ensures IdsOn(TWO_FILES, "v0") == {A.id} && IdsOn(TWO_FILES, "v1") == {B.id}
  {
    DistinctNames();
    RefAt(TWO_FILES, "a", 0);
    RefAt(TWO_FILES, "b", 0);
    forall c | c in Refs(TWO_FILES)
      ensures c == A || c == B
    {
      var n :| n in TWO_FILES && c in TWO_FILES[n].chunks;
    }
  }

  lemma WeighOne(id: Digest)
    ensures Weigh({id}) == |id.of|
  {
    WeighInsert({}, id);
    WeighNothing();
    assert {} + {id} == {id};
  }

  lemma MostlyDeadIsConsistent()
    ensures SMALL.Valid() && Consistent(SMALL, MOSTLY_DEAD, DISK, 4)
  {
    MostlyDeadIsSound();
    MostlyDeadIsAccounted();
    MostlyDeadIsHoused();
  }

  lemma MostlyDeadIsSound()
    ensures SMALL.Valid() && AllSound(SMALL, TWO_FILES) && OnePlacement(TWO_FILES)
  {
    SmallIsValid();
    TwoPlacements();
    SmallFileIsOneChunk("a", A);
    SmallFileIsOneChunk("b", B);
  }

  lemma TwoPlacements()
    ensures OnePlacement(TWO_FILES)
  {
    TwoRefs();
  }

  lemma Backed(c: ChunkRef)
    requires c == A || c == B
    ensures Resolves(DISK, c) && SealExact(FOUR_SEGMENTS, DISK, c.Key())
  {
    WeighOne(c.id);
    assert SegmentOf(c).blobs.Keys == {c.id};
    assert DISK[c.Key()] == SegmentOf(c) && FOUR_SEGMENTS[c.Key()] == 1;
  }

  lemma MostlyDeadIsAccounted()
    ensures Accounted(MOSTLY_DEAD, DISK)
  {
    TwoRefs();
    Backed(A);
    Backed(B);
  }

  lemma FourKeys(key: SegKey)
    requires key in {X.Key(), Y.Key(), A.Key(), B.Key()}
    ensures InFleet(SMALL, key, 4) && key.seg.Random?
  {
    SmallIsValid();
  }

  lemma DiskIsWellFormed()
    ensures WellFormedDisk(DISK) && FOUR_SEGMENTS.Keys == DISK.Keys == {X.Key(), Y.Key(), A.Key(), B.Key()}
  {
  }

  lemma MostlyDeadIsHoused()
    ensures Housed(SMALL, MOSTLY_DEAD, DISK, 4)
  {
    DiskIsWellFormed();
    forall key | key in {X.Key(), Y.Key(), A.Key(), B.Key()}
      ensures InFleet(SMALL, key, 4) && key.seg.Random?
    {
      FourKeys(key);
    }
  }

  // ----- both volumes are retired onto the spare -----

  lemma SumOfTwo(j: SegKey, m: nat, k: SegKey, n: nat)
    requires j != k
    ensures Sum(map[j := m, k := n]) == m + n
  {
    SumInsert(map[], j, m);
    SumInsert(map[][j := m], k, n);
    assert map[][j := m][k := n] == map[j := m, k := n];
  }

  lemma MostlyDeadTotals()
    ensures Total(FOUR_SEGMENTS, "v0") == 3 && Total(FOUR_SEGMENTS, "v1") == 3 && Total(FOUR_SEGMENTS, "v2") == 0
  {
    DistinctNames();
    assert OnVolume(FOUR_SEGMENTS, "v0") == map[X.Key() := 2, A.Key() := 1];
    assert OnVolume(FOUR_SEGMENTS, "v1") == map[Y.Key() := 2, B.Key() := 1];
    assert OnVolume(FOUR_SEGMENTS, "v2") == map[];
    SumOfTwo(X.Key(), 2, A.Key(), 1);
    SumOfTwo(Y.Key(), 2, B.Key(), 1);
  }

  lemma MostlyDeadLive()
    ensures Live(TWO_FILES, "v0") == 1 && Live(TWO_FILES, "v1") == 1
  {
    TwoRefs();
    WeighOne(A.id);
    WeighOne(B.id);
  }

  ghost function SpareKey(v: VolId, id: Digest): SegKey { SegKey("v2", Derived(v, {id})) }

  /** Each of the two volumes alone would be sent to the spare. */
  lemma BothPickTheSpare()
    ensures SpareIsLast(SMALL.volumes) && |SMALL.volumes| == 3
    ensures DestOf(SMALL, MOSTLY_DEAD, "v0") == Some(SpareKey("v0", A.id))
    ensures DestOf(SMALL, MOSTLY_DEAD, "v1") == Some(SpareKey("v1", B.id))
  {
    DistinctNames();
    SmallIsValid();
    TwoRefs();
    MostlyDeadTotals();
    MostlyDeadLive();
  }

  lemma BothAreCandidates()
    ensures |SMALL.volumes| == 3 && SMALL.volumes[0].id == "v0" && SMALL.volumes[1].id == "v1"
    ensures Candidate(HALF, MOSTLY_DEAD, SMALL.volumes[0]) && Candidate(HALF, MOSTLY_DEAD, SMALL.volumes[1])
  {
    SmallIsValid();
    MostlyDeadTotals();
    MostlyDeadLive();
  }

  /** The first retirement puts nothing on the second volume. */
  lemma SecondIsFree()
    ensures SpareIsLast(SMALL.volumes)
    ensures !Blocked(MOSTLY_DEAD, Compacted(SMALL, MOSTLY_DEAD, MOSTLY_DEAD, "v0"), "v1")
  {
    DistinctNames();
    BothPickTheSpare();
    IdsAfterRetire(TWO_FILES, "v0", SpareKey("v0", A.id), "v1");
  }

  lemma BothLand()
    ensures SpareIsLast(SMALL.volumes) && |SMALL.volumes| == 3
    ensures IsPass(SMALL, HALF, MOSTLY_DEAD, [true, true]) && Count([true, true]) == 2
  {
    BothPickTheSpare();
    BothAreCandidates();
    SecondIsFree();
    PassNext(SMALL, HALF, MOSTLY_DEAD, [], true);
    assert [] + [true] == [true];
    PassNext(SMALL, HALF, MOSTLY_DEAD, [true], true);
    assert [true] + [true] == [true, true];
  }

  lemma SentToNext(store: Store, base: State, landed: seq<bool>, w: VolId)
    requires SpareIsLast(store.volumes) && |landed| < |store.volumes|
    ensures SentTo(store, base, landed + [true], w, false) == SentTo(store, base, landed, w, false)
      + (if Sends(store, base, store.volumes[|landed|].id, w, false) then Live(base.ns, store.volumes[|landed|].id) else 0)
  {
    assert (landed + [true])[..|landed|] == landed;
  }

  lemma BothSend()
    ensures SpareIsLast(SMALL.volumes)
    ensures Sends(SMALL, MOSTLY_DEAD, "v0", "v2", false) && Sends(SMALL, MOSTLY_DEAD, "v1", "v2", false)
  {
    BothPickTheSpare();
    assert forall key :: key in FOUR_SEGMENTS ==> key.seg.Random?;
  }

  lemma SpareStays()
    ensures |SMALL.volumes| == 3 && !Retires(SMALL, [true, true], "v2")
  {
    DistinctNames();
    SmallIsValid();
  }

  lemma SpareHoldsBoth()
    ensures SpareIsLast(SMALL.volumes) && |SMALL.volumes| == 3
    ensures Held(SMALL, MOSTLY_DEAD, [true, true], "v2") == 2
  {
    BothSend();
    BothAreCandidates();
    SpareStays();
    MostlyDeadTotals();
    MostlyDeadLive();
    SentToNext(SMALL, MOSTLY_DEAD, [], "v2");
    SentToNext(SMALL, MOSTLY_DEAD, [true], "v2");
    assert [] + [true] == [true] && [true] + [true] == [true, true];
  }

  lemma StartsWithinBudget()
    ensures WithinBudget(SMALL, MOSTLY_DEAD)
  {
    SmallIsValid();
    MostlyDeadTotals();
  }

  lemma EndsOverBudget()
    ensures SpareIsLast(SMALL.volumes) && |SMALL.volumes| == 3
    ensures !WithinBudget(SMALL, PassState(SMALL, MOSTLY_DEAD, [true, true]))
  {
    BothLand();
    MostlyDeadIsConsistent();
    SpareHoldsBoth();
    SmallIsValid();
    PassTotalExact(SMALL, HALF, MOSTLY_DEAD, [true, true], SMALL.volumes[2].id);
  }

  /** Undisturbed, the pass does just that. */
  lemma UndisturbedPassRetiresBoth()
    ensures SpareIsLast(SMALL.volumes) && |SMALL.volumes| == 3
    ensures WillLand(SMALL, HALF, MOSTLY_DEAD, 2) == [true, true]
    ensures RunPass(SMALL, HALF, MOSTLY_DEAD) == PassState(SMALL, MOSTLY_DEAD, [true, true])
  {
    SmallIsValid();
    SecondLands();
    WillLandNext(SMALL, HALF, MOSTLY_DEAD, 2);
    PassStateSnoc(SMALL, MOSTLY_DEAD, [true, true], false);
    assert !Candidate(HALF, MOSTLY_DEAD, SMALL.volumes[2]);
  }

  lemma SecondLands()
    ensures SpareIsLast(SMALL.volumes) && |SMALL.volumes| == 3
    ensures WillLand(SMALL, HALF, MOSTLY_DEAD, 2) == [true, true]
  {
    BothPickTheSpare();
    BothAreCandidates();
    SecondIsFree();
    FirstLands();
    WillLandNext(SMALL, HALF, MOSTLY_DEAD, 1);
    assert [true] + [true] == [true, true];
  }

  lemma FirstLands()
    ensures SpareIsLast(SMALL.volumes) && |SMALL.volumes| == 3
    ensures WillLand(SMALL, HALF, MOSTLY_DEAD, 1) == [true]
    ensures PassState(SMALL, MOSTLY_DEAD, [true]) == Compacted(SMALL, MOSTLY_DEAD, MOSTLY_DEAD, "v0")
  {
    BothPickTheSpare();
    BothAreCandidates();
    PassStateSnoc(SMALL, MOSTLY_DEAD, [], true);
    WillLandNext(SMALL, HALF, MOSTLY_DEAD, 0);
    assert [] + [true] == [true];
  }

  /** Both volumes are two thirds dead and have one live byte each; the spare has
      room for one byte. Sized from one snapshot, both retirements pick the spare,
      and it ends up over its threshold although no volume was before. The store
      is consistent, and a short history of puts and removes leads to it. */
  lemma TwoRetirementsOverfill()
    ensures SMALL.Valid() && SpareIsLast(SMALL.volumes) && |SMALL.volumes| == 3
    ensures Replay(HISTORY) == MOSTLY_DEAD && Consistent(SMALL, MOSTLY_DEAD, DISK, 4)
    ensures WithinBudget(SMALL, MOSTLY_DEAD)
    ensures IsPass(SMALL, HALF, MOSTLY_DEAD, [true, true]) && Count([true, true]) == 2
    ensures RunPass(SMALL, HALF, MOSTLY_DEAD) == PassState(SMALL, MOSTLY_DEAD, [true, true])
    ensures !WithinBudget(SMALL, RunPass(SMALL, HALF, MOSTLY_DEAD))
  {
    HistoryLeadsThere();
    MostlyDeadIsConsistent();
    StartsWithinBudget();
    BothLand();
    UndisturbedPassRetiresBoth();
    EndsOverBudget();
  }
}
