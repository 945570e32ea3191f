/** The concurrent store end to end: over all guarded runs every file at the tip
    reads back as the bytes of the last committed put under its name. */
module ProtocolReading {
  import opened Prelude
  import opened Manifests
  import opened Log
  import opened Repoint
  import opened Accounting
  import opened StoreInvariant
  import opened Placement
  import opened Planning
  import opened Reading
  import opened Protocol
  import opened ProtocolSafety

  /** What planning a put and choosing volumes guarantee of a step: the manifest
      describes the chunking of the file's bytes, and new segments go to volumes
      of the store. */
  ghost predicate WellPlanned(store: Store, a: Action)
    requires store.Valid()
  {
    match a
    case PutPlan(_, m, own) => Sound(store, m) && (own.Some? ==> own.value.key.vol in store.Ids())
    case CRewrite(_, destVol, _, _) => destVol in store.Ids()
    case _ => true
  }

  function OwnOf(plan: PutPlan): Option<Own> {
    if plan.target.Some? then Some(Own(plan.own, plan.staged)) else None
  }

  /** The plan a put computes from the tip is a step the protocol allows, is well
      planned, and goes on to the record the engine commits. */
  lemma PlanIsAStep(cfg: Config, store: Store, s: Sys, i: ClientId, name: Name, content: Bytes, plan: PutPlan)
    requires store.Valid() && s.At(i).Idle? && PlanOf(store, s.Tip(), name, content, Random(s.issued), plan)
    ensures var a := Action.PutPlan(i, plan.m, OwnOf(plan));
      && Enabled(cfg, s, a) && WellPlanned(store, a)
      && PutOp(plan.m, SealsOf(OwnOf(plan))) == plan.Op()
  {
    var place := PlanIsPlaced(store, s.Tip(), name, content, Random(s.issued), plan);
    assert plan.staged == map[] <==> plan.staged.Keys == {};
    if plan.target.Some? {
      assert Fits(store.volumes, s.Tip().seg, plan.bytes, None, plan.target.value);
    }
    forall c | c in ManifestRefs(plan.m)
      ensures || (exists r :: r in Refs(s.Tip().ns) && r.id == c.id && r.Key() == c.Key())
              || (plan.target.Some? && c.Key() == plan.own && c.id in plan.staged)
    {
      assert c.id in place && c.Key() == place[c.id];
    }
  }

  ghost predicate ClientSound(store: Store, c: Client)
    requires store.Valid()
  {
    match c
    case Idle => true
    case Planned(m, own, _) => Sound(store, m) && (own.Some? ==> own.value.key.vol in store.Ids())
    case Ready(op, _) => op.PutOp? ==> Sound(store, op.m)
    case Built(op, _, _, _) => op.PutOp? ==> Sound(store, op.m)
  }

  ghost predicate ReadInv(store: Store, s: Sys)
    requires store.Valid()
  {
    && AllSound(store, s.Tip().ns)
    && Contents(s.Tip().ns) == Intended(s.ops)
    && (forall i :: i in s.clients ==> ClientSound(store, s.clients[i]))
    && (forall key :: key in s.disk ==> key.vol in store.Ids())
  }

  /** A put or remove record lands. */
  lemma ClientRecordKeeps(store: Store, s: Sys, op: Op)
    requires store.Valid() && AllSound(store, s.Tip().ns) && Contents(s.Tip().ns) == Intended(s.ops)
    requires !op.CompactOp? && (op.PutOp? ==> Sound(store, op.m))
    ensures var after := ApplyOp(s.Tip(), op).ns;
      AllSound(store, after) && Contents(after) == Intended(s.ops + [op])
  {
    IntendedStep(s.ops, op, s.Tip());
  }

  /** A retirement lands: placements change, bytes do not. */
  lemma RetirementKeeps(store: Store, s: Sys, v: VolId, dest: SegKey, moved: set<Digest>, op: Op)
    requires store.Valid() && AllSound(store, s.Tip().ns) && Contents(s.Tip().ns) == Intended(s.ops)
    requires RetiresFrom(s.Tip(), v, dest, moved, op)
    ensures var after := ApplyOp(s.Tip(), op).ns;
      AllSound(store, after) && Contents(after) == Intended(s.ops + [op])
  {
    RetireSound(store, s.Tip().ns, v, dest);
    assert (s.ops + [op])[..|s.ops|] == s.ops;
  }

  lemma AppendKeepsReading(cfg: Config, store: Store, s: Sys, a: Action)
    requires store.Valid() && Inv(cfg, s) && ReadInv(store, s) && Enabled(cfg, s, a)
    requires (a.Cas? || a.CCas?) && a.outcome != Lost
    ensures var t := Do(cfg, s, a);
      AllSound(store, t.Tip().ns) && Contents(t.Tip().ns) == Intended(t.ops)
  {
    assert s.log[..|s.log|] == s.log;
    if a.Cas? {
      var c := s.At(a.i);
      assert ClientOk(cfg, s, c);
      EncodedStep(s.log, c.txn, c.op, cfg.interval);
      ClientRecordKeeps(store, s, c.op);
    } else {
      var c := s.compactor;
      EncodedStep(s.log, c.txn, c.op, cfg.interval);
      RetirementKeeps(store, s, c.v, c.dest, c.moved, c.op);
    }
  }

  lemma StepKeepsReading(cfg: Config, store: Store, s: Sys, a: Action)
    requires store.Valid() && Inv(cfg, s) && ReadInv(store, s)
    requires Enabled(cfg, s, a) && WellPlanned(store, a)
    ensures ReadInv(store, Do(cfg, s, a))
  {
    if (a.Cas? || a.CCas?) && a.outcome != Lost {
      AppendKeepsReading(cfg, store, s, a);
    } else {
      assert Do(cfg, s, a).log == s.log && Do(cfg, s, a).ops == s.ops;
    }
    ClientsStaySound(cfg, store, s, a);
    VolumesStayKnown(cfg, store, s, a);
  }

  lemma ClientsStaySound(cfg: Config, store: Store, s: Sys, a: Action)
    requires store.Valid() && ReadInv(store, s) && Enabled(cfg, s, a) && WellPlanned(store, a)
    ensures var t := Do(cfg, s, a);
      forall i :: i in t.clients ==> ClientSound(store, t.clients[i])
  {
    var t := Do(cfg, s, a);
    forall i | i in t.clients
      ensures ClientSound(store, t.clients[i])
    {
      assert i in s.clients ==> ClientSound(store, s.clients[i]);
    }
  }

  lemma VolumesStayKnown(cfg: Config, store: Store, s: Sys, a: Action)
    requires store.Valid() && ReadInv(store, s) && Enabled(cfg, s, a) && WellPlanned(store, a)
    ensures forall key :: key in Do(cfg, s, a).disk ==> key.vol in store.Ids()
  {
    if a.PutPush? {
      assert ClientSound(store, s.clients[a.i]);
    }
  }

  lemma {:induction false} RunKeepsReading(cfg: Config, store: Store, s: Sys, run: seq<Action>)
    requires cfg.Valid() && store.Valid() && Inv(cfg, s) && ReadInv(store, s)
    requires Legal(cfg, s, run) && Disciplined(cfg, s, run)
    requires forall k :: 0 <= k < |run| ==> WellPlanned(store, run[k])
    ensures Inv(cfg, After(cfg, s, run)) && ReadInv(store, After(cfg, s, run))
    decreases |run|
  {
    if run == [] {
    } else {
      StepKeepsInv(cfg, s, run[0]);
      StepKeepsReading(cfg, store, s, run[0]);
      RunKeepsReading(cfg, store, Do(cfg, s, run[0]), run[1..]);
    }
  }

  /** End to end, under any interleaving: after any guarded run the tip has exactly
      the files the committed operations call for, and each passes every check of
      the read path and decodes to the bytes last put. */
  lemma ConcurrentStoreReads(cfg: Config, store: Store, run: seq<Action>)
    requires cfg.Valid() && store.Valid() && Legal(cfg, INIT, run) && Disciplined(cfg, INIT, run)
    requires forall k :: 0 <= k < |run| ==> WellPlanned(store, run[k])
    ensures var s := After(cfg, INIT, run);
      && Contents(s.Tip().ns) == Intended(Effective(cfg, INIT, run))
      && forall name :: name in s.Tip().ns ==> Readable(store, s.disk, s.Tip().ns[name])
  {
    InitInv(cfg);
    assert INIT.Tip() == EMPTY;
    RunKeepsReading(cfg, store, INIT, run);
    RunKeepsLogInv(cfg, INIT, run);
    var s := After(cfg, INIT, run);
    assert [] + Effective(cfg, INIT, run) == Effective(cfg, INIT, run);
    forall name | name in s.Tip().ns
      ensures Readable(store, s.disk, s.Tip().ns[name])
    {
      RefsOfManifest(s.Tip().ns, name);
      SoundIsReadable(store, s.disk, s.Tip().ns[name]);
    }
  }
}
