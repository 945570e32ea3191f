/** Whole-store mirroring: volumes are pushed before the index, pushes overwrite
    but never delete, and a run can stop after any push, while the primary goes
    on working. */
module Mirror {
  import opened Prelude
  import opened Manifests
  import opened Log
  import opened Repoint
  import opened Protocol
  import opened ProtocolSafety

  datatype Progress = NotRunning | Running(pushed: set<VolId>, begun: seq<Txn>)

  /** A push of one volume, and the segments the primary had at that moment. */
  datatype Push = Push(vol: VolId, disk: Disk)

  /** The primary, what has reached the mirror, and every volume push so far. */
  datatype Pair = Pair(primary: Sys, disk: Disk, log: seq<Txn>, run: Progress, pushes: seq<Push>)

  datatype Step =
    | Primary(a: Action)
    | Begin
    | PushVolume(v: VolId)
    | PushIndex
    | Interrupt

  /** Force-pushing volume `v`: its segments replace the mirror's copies; segments
      only the mirror still has stay. */
  function Overlay(mirror: Disk, disk: Disk, v: VolId): Disk {
    mirror + map key | key in disk && key.vol == v :: disk[key]
  }

  ghost predicate MayStep(cfg: Config, s: Pair, step: Step) {
    match step
    case Primary(a) => Enabled(cfg, s.primary, a)
    case Begin => s.run.NotRunning?
    case PushVolume(_) => s.run.Running?
    case PushIndex => s.run.Running? && forall key :: key in s.primary.disk ==> key.vol in s.run.pushed
    case Interrupt => true
  }

  ghost function Next(cfg: Config, s: Pair, step: Step): Pair
    requires MayStep(cfg, s, step)
  {
    match step
    case Primary(a) => s.(primary := Do(cfg, s.primary, a))
    case Begin => s.(run := Running({}, s.primary.log))
    case PushVolume(v) => s.(disk := Overlay(s.disk, s.primary.disk, v), run := s.run.(pushed := s.run.pushed + {v}),
                               pushes := s.pushes + [Push(v, s.primary.disk)])
    case PushIndex => s.(log := s.primary.log, run := NotRunning)
    case Interrupt => s.(run := NotRunning)
  }

  /** The segment was on the primary at some push of its volume. */
  ghost predicate Copied(pushes: seq<Push>, key: SegKey) {
    exists k :: 0 <= k < |pushes| && pushes[k].vol == key.vol && key in pushes[k].disk
  }

  /** The environment condition: the primary's own, and, when the index is pushed,
      that every segment the primary's tip references was on the primary at some
      push of its volume. */
  ghost predicate Orderly(cfg: Config, s: Pair, step: Step)
    requires MayStep(cfg, s, step)
  {
    match step
    case Primary(a) => Guarded(cfg, s.primary, a)
    case PushIndex => forall c :: c in Refs(s.primary.Tip().ns) ==> Copied(s.pushes, c.Key())
    case _ => true
  }

  /** Every file of the mirror's own log tip is fully present on the mirror. */
  ghost predicate MirrorSafe(s: Pair) {
    AllResolve(s.disk, Refs(Load(s.log).ns))
  }

  // ---------- the invariant ----------

  /** Segments never change content: where both sides have one, it is the same. */
  ghost predicate Agree(s: Pair) {
    forall key :: key in s.disk && key in s.primary.disk ==> s.disk[key].blobs == s.primary.disk[key].blobs
  }

  ghost predicate MirrorDiskOk(s: Pair) {
    && WellFormedDisk(s.disk)
    && (forall key :: key in s.disk && key.seg.Random? ==> key.seg.nonce < s.primary.issued)
    && (forall i, key :: i in s.primary.clients && OwnKey(s.primary.clients[i], key) ==> key !in s.disk)
  }

  /** The mirror holds what was pushed, and nothing is ever deleted there. */
  ghost predicate Mirrored(s: Pair) {
    forall key :: key in s.disk <==> Copied(s.pushes, key)
  }

  /** While no commit intervenes, what the run has pushed covers the tip. */
  ghost predicate RunOk(s: Pair) {
    s.run.Running? && s.primary.log == s.run.begun ==>
      forall c :: c in Refs(s.primary.Tip().ns) && c.vol in s.run.pushed ==> Copied(s.pushes, c.Key())
  }

  /** The log only grows, so a run once overtaken stays overtaken. */
  ghost predicate RunStarted(s: Pair) {
    s.run.Running? ==> |s.run.begun| <= |s.primary.log|
  }

  ghost predicate PairInv(cfg: Config, s: Pair) {
    Inv(cfg, s.primary) && MirrorSafe(s) && Agree(s) && MirrorDiskOk(s) && Mirrored(s) && RunOk(s) && RunStarted(s)
  }

  const FRESH := Pair(INIT, map[], [], NotRunning, [])

  lemma FreshInv(cfg: Config)
    ensures PairInv(cfg, FRESH)
  {
    InitInv(cfg);
  }

  // ---------- primary steps ----------

  lemma {:induction false} BlobsDetermined(a: map<Digest, Bytes>, b: map<Digest, Bytes>)
    requires a.Keys == b.Keys
    requires forall id :: id in a ==> id == Blake3(a[id])
    requires forall id :: id in b ==> id == Blake3(b[id])
    ensures a == b
  {
    forall id | id in a
      ensures a[id] == b[id]
    {
      assert id == Blake3(a[id]) && id == Blake3(b[id]);
    }
  }

  /** A segment the primary writes is either absent from the mirror or the same. */
  lemma PrimaryKeepsAgreement(cfg: Config, s: Pair, a: Action)
    requires cfg.Valid() && PairInv(cfg, s) && Enabled(cfg, s.primary, a) && Guarded(cfg, s.primary, a)
    ensures Agree(s.(primary := Do(cfg, s.primary, a)))
  {
    StepKeepsInv(cfg, s.primary, a);
    var p, q := s.primary, Do(cfg, s.primary, a);
    forall key | key in s.disk && key in q.disk
      ensures s.disk[key].blobs == q.disk[key].blobs
    {
      if key !in p.disk || q.disk[key] != p.disk[key] {
        WrittenKey(cfg, p, a, key);
        if key.seg.Derived? {
          assert WellFormedSegment(key, q.disk[key]) && WellFormedSegment(key, s.disk[key]);
          BlobsDetermined(s.disk[key].blobs, q.disk[key].blobs);
        }
      }
    }
  }

  /** The only segments a step writes are a put's own new one and a rewrite. */
  lemma WrittenKey(cfg: Config, p: Sys, a: Action, key: SegKey)
    requires Inv(cfg, p) && Enabled(cfg, p, a)
    requires key in Do(cfg, p, a).disk && (key !in p.disk || Do(cfg, p, a).disk[key] != p.disk[key])
    ensures key.seg.Derived? || (exists i :: i in p.clients && OwnKey(p.clients[i], key))
  {
    match a
    case PutPush(i, _) => assert OwnKey(p.clients[i], key);
    case CRewrite(v, destVol, _, _) => assert key == SegKey(destVol, Derived(v, IdsOn(p.compactor.snap.ns, v)));
    case _ =>
  }

  lemma PrimaryKeepsFreshness(cfg: Config, s: Pair, a: Action)
    requires PairInv(cfg, s) && Enabled(cfg, s.primary, a)
    ensures MirrorDiskOk(s.(primary := Do(cfg, s.primary, a)))
  {
    var p, q := s.primary, Do(cfg, s.primary, a);
    forall i, key | i in q.clients && OwnKey(q.clients[i], key)
      ensures key !in s.disk
    {
      if !(i in p.clients && OwnKey(p.clients[i], key)) {
        assert a.PutPlan? && key.seg == Random(p.issued);
      }
    }
  }

  lemma PrimaryStep(cfg: Config, s: Pair, a: Action)
    requires cfg.Valid() && PairInv(cfg, s) && Enabled(cfg, s.primary, a) && Guarded(cfg, s.primary, a)
    ensures PairInv(cfg, s.(primary := Do(cfg, s.primary, a)))
  {
    StepKeepsInv(cfg, s.primary, a);
    PrimaryKeepsAgreement(cfg, s, a);
    PrimaryKeepsFreshness(cfg, s, a);
  }

  // ---------- mirror steps ----------

  lemma OverlayKeepsResolved(s: Pair, v: VolId, refs: set<ChunkRef>)
    requires Agree(s) && AllResolve(s.disk, refs)
    ensures AllResolve(Overlay(s.disk, s.primary.disk, v), refs)
  {
    forall c | c in refs
      ensures Resolves(Overlay(s.disk, s.primary.disk, v), c)
    {
      assert Resolves(s.disk, c);
    }
  }

  lemma PushKeepsFreshness(cfg: Config, s: Pair, v: VolId)
    requires Inv(cfg, s.primary) && MirrorDiskOk(s)
    ensures MirrorDiskOk(s.(disk := Overlay(s.disk, s.primary.disk, v)))
  {
    var disk := Overlay(s.disk, s.primary.disk, v);
    forall i, key | i in s.primary.clients && OwnKey(s.primary.clients[i], key)
      ensures key !in disk
    {
      assert ClientOk(cfg, s.primary, s.primary.clients[i]);
    }
  }

  lemma PushKeepsMirrored(s: Pair, v: VolId)
    requires Mirrored(s) && Agree(s)
    ensures var t := s.(disk := Overlay(s.disk, s.primary.disk, v), pushes := s.pushes + [Push(v, s.primary.disk)]);
      Mirrored(t) && Agree(t)
  {
    PushCopies(s.pushes, Push(v, s.primary.disk));
  }

  lemma PushKeepsRun(s: Pair, v: VolId)
    requires s.run.Running? && RunOk(s) && AllResolve(s.primary.disk, Refs(s.primary.Tip().ns))
    ensures RunOk(s.(disk := Overlay(s.disk, s.primary.disk, v), run := s.run.(pushed := s.run.pushed + {v}),
                     pushes := s.pushes + [Push(v, s.primary.disk)]))
  {
    PushCopies(s.pushes, Push(v, s.primary.disk));
    if s.primary.log == s.run.begun {
      forall c | c in Refs(s.primary.Tip().ns) && c.vol in s.run.pushed + {v}
        ensures Copied(s.pushes + [Push(v, s.primary.disk)], c.Key())
      {
        assert Resolves(s.primary.disk, c);
      }
    }
  }

  lemma PushStep(cfg: Config, s: Pair, v: VolId)
    requires PairInv(cfg, s) && s.run.Running?
    ensures PairInv(cfg, Next(cfg, s, PushVolume(v)))
  {
    OverlayKeepsResolved(s, v, Refs(Load(s.log).ns));
    PushKeepsFreshness(cfg, s, v);
    PushKeepsMirrored(s, v);
    PushKeepsRun(s, v);
  }

  lemma PushCopies(pushes: seq<Push>, push: Push)
    ensures forall key :: Copied(pushes + [push], key) <==> Copied(pushes, key) || (key.vol == push.vol && key in push.disk)
  {
    forall key
      ensures Copied(pushes + [push], key) <==> Copied(pushes, key) || (key.vol == push.vol && key in push.disk)
    {
      if k :| 0 <= k < |pushes| && pushes[k].vol == key.vol && key in pushes[k].disk {
        assert (pushes + [push])[k] == pushes[k];
      }
      assert (pushes + [push])[|pushes|] == push;
    }
  }

  /** Exactly when pushing the index is safe: when every segment the primary's tip
      references was on the primary at some push of its volume. */
  lemma PushIndexSafeIff(cfg: Config, s: Pair)
    requires PairInv(cfg, s) && MayStep(cfg, s, PushIndex)
    ensures Orderly(cfg, s, PushIndex) <==> MirrorSafe(Next(cfg, s, PushIndex))
  {
    forall c | c in Refs(s.primary.Tip().ns)
      ensures Copied(s.pushes, c.Key()) <==> Resolves(s.disk, c)
    {
      assert Resolves(s.primary.disk, c);
      assert c.Key() in s.disk <==> Copied(s.pushes, c.Key());
    }
  }

  /** A run in which the primary commits nothing is one such case, whatever else
      the primary does during it. */
  lemma QuietRunIsOrderly(cfg: Config, s: Pair)
    requires PairInv(cfg, s) && MayStep(cfg, s, PushIndex) && s.primary.log == s.run.begun
    ensures Orderly(cfg, s, PushIndex)
  {
    forall c | c in Refs(s.primary.Tip().ns)
      ensures Copied(s.pushes, c.Key())
    {
      assert Resolves(s.primary.disk, c);
    }
  }

  lemma IndexStep(cfg: Config, s: Pair)
    requires PairInv(cfg, s) && MayStep(cfg, s, PushIndex) && Orderly(cfg, s, PushIndex)
    ensures PairInv(cfg, Next(cfg, s, PushIndex))
  {
    PushIndexSafeIff(cfg, s);
  }

  lemma StepKeepsPairInv(cfg: Config, s: Pair, step: Step)
    requires cfg.Valid() && PairInv(cfg, s) && MayStep(cfg, s, step) && Orderly(cfg, s, step)
    ensures PairInv(cfg, Next(cfg, s, step))
  {
    match step
    case Primary(a) => PrimaryStep(cfg, s, a);
    case Begin =>
    case PushVolume(v) => PushStep(cfg, s, v);
    case PushIndex => IndexStep(cfg, s);
    case Interrupt =>
  }

  // ---------- runs ----------

  ghost predicate OrderlyRun(cfg: Config, s: Pair, steps: seq<Step>)
    decreases |steps|
  {
    steps == [] ||
      (MayStep(cfg, s, steps[0]) && Orderly(cfg, s, steps[0]) && OrderlyRun(cfg, Next(cfg, s, steps[0]), steps[1..]))
  }

  ghost function PairAfter(cfg: Config, s: Pair, steps: seq<Step>): Pair
    requires OrderlyRun(cfg, s, steps)
    decreases |steps|
  {
    if steps == [] then s else PairAfter(cfg, Next(cfg, s, steps[0]), steps[1..])
  }

  lemma {:induction false} RunKeepsPairInv(cfg: Config, s: Pair, steps: seq<Step>)
    requires cfg.Valid() && PairInv(cfg, s) && OrderlyRun(cfg, s, steps)
    ensures PairInv(cfg, PairAfter(cfg, s, steps))
    decreases |steps|
  {
    if steps == [] {
    } else {
      StepKeepsPairInv(cfg, s, steps[0]);
      RunKeepsPairInv(cfg, Next(cfg, s, steps[0]), steps[1..]);
    }
  }

  /** For any mix of primary steps and mirror runs, each interrupted after any
      push, the mirror's own log tip never dangles, even when the primary has
      compacted and swept since. */
  lemma MirrorNeverDangles(cfg: Config, steps: seq<Step>)
    requires cfg.Valid() && OrderlyRun(cfg, FRESH, steps)
    ensures MirrorSafe(PairAfter(cfg, FRESH, steps))
  {
    FreshInv(cfg);
    RunKeepsPairInv(cfg, FRESH, steps);
  }

  // ---------- overlapping a commit is not safe ----------

  ghost predicate OrderlyReach(cfg: Config, s: Pair) {
    exists steps :: OrderlyRun(cfg, FRESH, steps) && PairAfter(cfg, FRESH, steps) == s
  }

  lemma {:induction false} RunSnoc(cfg: Config, s: Pair, steps: seq<Step>, step: Step)
    requires OrderlyRun(cfg, s, steps)
    requires MayStep(cfg, PairAfter(cfg, s, steps), step) && Orderly(cfg, PairAfter(cfg, s, steps), step)
    ensures OrderlyRun(cfg, s, steps + [step])
    ensures PairAfter(cfg, s, steps + [step]) == Next(cfg, PairAfter(cfg, s, steps), step)
    decreases |steps|
  {
    if steps == [] {
      assert steps + [step] == [step];
      assert [step][1..] == [];
    } else {
      assert (steps + [step])[1..] == steps[1..] + [step];
      RunSnoc(cfg, Next(cfg, s, steps[0]), steps[1..], step);
    }
  }

  lemma StepReach(cfg: Config, s: Pair, step: Step)
    requires OrderlyReach(cfg, s) && MayStep(cfg, s, step) && Orderly(cfg, s, step)
    ensures OrderlyReach(cfg, Next(cfg, s, step))
  {
    var steps :| OrderlyRun(cfg, FRESH, steps) && PairAfter(cfg, FRESH, steps) == s;
    RunSnoc(cfg, FRESH, steps, step);
  }

  /** A file is stored on "v0" after the run has pushed that volume but before it
      pushes the index: the code pushes the index all the same, and the mirror's
      log references a segment the mirror does not have. Pushing data before the
      log protects a mirror run against interruption, not against a commit in
      its midst. */
  lemma OverlappedRunDangles()
    ensures exists s :: OrderlyReach(Config(128, 3600), s) && MayStep(Config(128, 3600), s, PushIndex)
                        && !MirrorSafe(Next(Config(128, 3600), s, PushIndex))
  {
    var cfg := Config(128, 3600);
    var c := ChunkRef(Blake3([1]), Blake3([2]), 1, 1, "v0", Random(0));
    var m := Manifest("a", 1, 1024, Blake3([2]), [c]);
    var own := Own(c.Key(), map[c.id := [1]]);
    assert c.id in own.blobs;
    assert OrderlyRun(cfg, FRESH, []) && PairAfter(cfg, FRESH, []) == FRESH;
    StepReach(cfg, FRESH, Begin);
    var s1 := Next(cfg, FRESH, Begin);
    StepReach(cfg, s1, PushVolume("v0"));
    var s2 := Next(cfg, s1, PushVolume("v0"));
    assert Overlay(map[], map[], "v0") == map[];
    var s := StoreDuringRun(cfg, s2, m, own, c);
    var t := Next(cfg, s, PushIndex);
    RefAt(Load(t.log).ns, "a", 0);
    assert c in Refs(Load(t.log).ns) && !Resolves(t.disk, c);
  }

  lemma StoreDuringRun(cfg: Config, s: Pair, m: Manifest, own: Own, c: ChunkRef) returns (t: Pair)
    requires cfg == Config(128, 3600) && OrderlyReach(cfg, s)
    requires s.primary == INIT && s.disk == map[] && s.run == Running({"v0"}, [])
    requires m.name == "a" && m.chunks == [c] && own.key == c.Key() && own.key == SegKey("v0", Random(0))
    requires own.blobs.Keys == {c.id} && own.blobs != map[] && c.id == Blake3(own.blobs[c.id])
    ensures OrderlyReach(cfg, t) && MayStep(cfg, t, PushIndex)
    ensures t.disk == map[] && Load(t.primary.log).ns == map["a" := m]
  {
    var plan := Primary(PutPlan(0, m, Some(own)));
    StepReach(cfg, s, plan);
    var s1 := Next(cfg, s, plan);
    StepReach(cfg, s1, Primary(PutPush(0, 0)));
    var s2 := Next(cfg, s1, Primary(PutPush(0, 0)));
    t := CommitDuringRun(cfg, s2, m, SealsOf(Some(own)));
  }

  lemma CommitDuringRun(cfg: Config, s: Pair, m: Manifest, seals: seq<SegRec>) returns (t: Pair)
    requires cfg == Config(128, 3600) && OrderlyReach(cfg, s) && s.run == Running({"v0"}, [])
    requires s.primary.log == [] && s.primary.At(0) == Ready(PutOp(m, seals), 0) && s.disk == map[] && m.name == "a"
    requires forall key :: key in s.primary.disk ==> key.vol == "v0"
    ensures OrderlyReach(cfg, t) && MayStep(cfg, t, PushIndex)
    ensures t.disk == map[] && Load(t.primary.log).ns == map["a" := m]
  {
    var op := PutOp(m, seals);
    var txn := Delta(Some(m), None, seals);
    assert Encodes([], txn, op, 128);
    StepReach(cfg, s, Primary(ReadTip(0, txn)));
    var s1 := Next(cfg, s, Primary(ReadTip(0, txn)));
    StepReach(cfg, s1, Primary(Cas(0, Won)));
    t := Next(cfg, s1, Primary(Cas(0, Won)));
    EncodedStep([], txn, op, 128);
  }
}
