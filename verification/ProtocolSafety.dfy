/** The inductive invariant of the protocol and what it gives over whole runs. */
module ProtocolSafety {
  import opened Prelude
  import opened Manifests
  import opened Log
  import opened Repoint
  import opened Accounting
  import opened Protocol

  // ---------- the invariant, one concern at a time ----------

  ghost predicate DiskOk(s: Sys) {
    && WellFormedDisk(s.disk)
    && forall key :: key in s.disk && key.seg.Random? ==> key.seg.nonce < s.issued
  }

  ghost predicate OwnOk(s: Sys, own: Own) {
    && own.key.seg.Random? && own.key.seg.nonce < s.issued
    && own.key !in s.disk
    && forall id :: id in own.blobs ==> id == Blake3(own.blobs[id])
  }

  ghost predicate BuiltOk(cfg: Config, s: Sys, op: Op, base: nat, txn: Txn) {
    base <= |s.log| && Encodes(s.log[..base], txn, op, cfg.interval)
  }

  ghost predicate PlannedOk(s: Sys, m: Manifest, own: Option<Own>) {
    && (own.Some? ==> OwnOk(s, own.value))
    && forall c :: c in ManifestRefs(m) ==>
         Resolves(s.disk, c) || (own.Some? && c.Key() == own.value.key && c.id in own.value.blobs)
  }

  ghost predicate ClientOk(cfg: Config, s: Sys, c: Client) {
    match c
    case Idle => true
    case Planned(m, own, at) => at <= s.now && PlannedOk(s, m, own)
    case Ready(op, _) => !op.CompactOp? && AllResolve(s.disk, PutRefs(op))
    case Built(op, base, txn, _) =>
      !op.CompactOp? && AllResolve(s.disk, Pending(c, |s.log|)) && BuiltOk(cfg, s, op, base, txn)
  }

  ghost predicate ClientsOk(cfg: Config, s: Sys) {
    forall i :: i in s.clients ==> ClientOk(cfg, s, s.clients[i])
  }

  ghost predicate OwnKey(c: Client, key: SegKey) {
    c.Planned? && c.own.Some? && c.own.value.key == key
  }

  /** No two planned puts drew the same segment id. */
  ghost predicate OwnDistinct(s: Sys) {
    forall i, j, key :: i in s.clients && j in s.clients && OwnKey(s.clients[i], key) && OwnKey(s.clients[j], key) ==> i == j
  }

  ghost predicate RewrittenOk(s: Sys, v: VolId, dest: SegKey, moved: set<Digest>) {
    dest.vol != v && dest.seg == Derived(v, moved) && (moved != {} ==> dest in s.disk)
  }

  ghost predicate RetiredOk(s: Sys, v: VolId) {
    Quiet(s, |s.log|, v) && forall c :: c in Refs(s.Tip().ns) ==> c.vol != v
  }

  ghost predicate SweepingOk(cfg: Config, s: Sys, referenced: set<SegKey>, since: int) {
    && since <= s.now
    && (forall c :: c in Refs(s.Tip().ns) ==> Kept(s.disk, referenced, since, cfg.window, c.Key()))
    && (forall i, c :: i in s.clients && c in Pending(s.clients[i], |s.log|) ==> Kept(s.disk, referenced, since, cfg.window, c.Key()))
  }

  ghost predicate CompactorOk(cfg: Config, s: Sys) {
    match s.compactor
    case Resting => true
    case Passing(_) => true
    case Rewritten(_, v, dest, moved, _) => RewrittenOk(s, v, dest, moved)
    case Committing(_, v, dest, moved, _, op, base, txn) =>
      && RewrittenOk(s, v, dest, moved)
      && BuiltOk(cfg, s, op, base, txn)
      && RetiresFrom(Load(s.log[..base]), v, dest, moved, op)
    case Retired(_, v) => RetiredOk(s, v)
    case Sweeping(referenced, since) => SweepingOk(cfg, s, referenced, since)
  }

  ghost predicate Inv(cfg: Config, s: Sys) {
    && Committed(s.log, s.ops, cfg.interval)
    && DiskOk(s)
    && AllResolve(s.disk, Refs(s.Tip().ns))
    && ClientsOk(cfg, s)
    && OwnDistinct(s)
    && CompactorOk(cfg, s)
  }

  lemma InitInv(cfg: Config)
    ensures Inv(cfg, INIT)
  {
  }

  // ---------- frames ----------

  /** The disk only gains segments. */
  ghost predicate Grows(a: Disk, b: Disk) {
    forall key :: key in a ==> key in b && b[key] == a[key]
  }

  lemma ResolvesGrows(a: Disk, b: Disk, refs: set<ChunkRef>)
    requires Grows(a, b) && AllResolve(a, refs)
    ensures AllResolve(b, refs)
  {
  }

  lemma ResolvesKept(a: Disk, b: Disk, refs: set<ChunkRef>)
    requires AllResolve(a, refs)
    requires forall c :: c in refs && c.Key() in a ==> c.Key() in b && b[c.Key()] == a[c.Key()]
    ensures AllResolve(b, refs)
  {
  }

  lemma EncodesStillOnPrefix(cfg: Config, h: seq<Txn>, more: seq<Txn>, base: nat)
    requires base <= |h|
    ensures (h + more)[..base] == h[..base]
  {
  }

  /** Changing one client, with everything shared untouched. */
  lemma LocalStep(cfg: Config, s: Sys, i: ClientId, c: Client)
    requires Inv(cfg, s) && ClientOk(cfg, s, c)
    requires Pending(c, |s.log|) <= Pending(s.At(i), |s.log|) || (!s.compactor.Retired? && !s.compactor.Sweeping?)
    requires forall key :: !OwnKey(c, key)
    ensures Inv(cfg, s.With(i, c))
  {
    var t := s.With(i, c);
    assert t.Tip() == s.Tip();
    match s.compactor {
      case Resting =>
      case Passing(_) =>
      case Rewritten(_, v, dest, moved, _) =>
      case Committing(_, v, dest, moved, _, op, base, txn) =>
      case Retired(_, v) =>
        forall j, r | j in t.clients && r in Pending(t.clients[j], |t.log|)
          ensures r.vol != v
        {
          assert j == i ==> r in Pending(s.At(i), |s.log|);
        }
      case Sweeping(referenced, since) =>
        forall j, r | j in t.clients && r in Pending(t.clients[j], |t.log|)
          ensures Kept(t.disk, referenced, since, cfg.window, r.Key())
        {
          assert j == i ==> r in Pending(s.At(i), |s.log|);
        }
    }
  }

  // ---------- client steps ----------

  lemma TickStep(cfg: Config, s: Sys, dt: nat)
    requires Inv(cfg, s)
    ensures Inv(cfg, s.(now := s.now + dt))
  {
    assert s.(now := s.now + dt).Tip() == s.Tip();
  }

  lemma PlanKeepsClients(cfg: Config, s: Sys, i: ClientId, m: Manifest, own: Option<Own>)
    requires Inv(cfg, s) && Enabled(cfg, s, PutPlan(i, m, own))
    ensures ClientsOk(cfg, Do(cfg, s, PutPlan(i, m, own)))
  {
    var t := Do(cfg, s, PutPlan(i, m, own));
    PlanIsBacked(s, m, own);
    forall j | j in t.clients
      ensures ClientOk(cfg, t, t.clients[j])
    {
      if j != i {
        assert ClientOk(cfg, s, s.clients[j]);
      }
    }
  }

  lemma PutPlanStep(cfg: Config, s: Sys, i: ClientId, m: Manifest, own: Option<Own>)
    requires cfg.Valid() && Inv(cfg, s)
    requires Enabled(cfg, s, PutPlan(i, m, own)) && Guarded(cfg, s, PutPlan(i, m, own))
    ensures Inv(cfg, Do(cfg, s, PutPlan(i, m, own)))
  {
    var t := Do(cfg, s, PutPlan(i, m, own));
    assert t.Tip() == s.Tip();
    PlanKeepsClients(cfg, s, i, m, own);
    PlanIsDistinct(cfg, s, i, m, own);
    if s.compactor.Sweeping? {
      forall j, c | j in t.clients && c in Pending(t.clients[j], |t.log|)
        ensures Kept(t.disk, s.compactor.referenced, s.compactor.since, cfg.window, c.Key())
      {
        if j == i {
          PlannedRefs(s, m, own, c);
        }
      }
    }
  }

  lemma PlannedRefs(s: Sys, m: Manifest, own: Option<Own>, c: ChunkRef)
    requires PlansFrom(s.Tip().ns, m, own) && c in ManifestRefs(m)
    ensures (exists r :: r in Refs(s.Tip().ns) && r.id == c.id && r.Key() == c.Key())
         || (own.Some? && c.Key() == own.value.key && c.id in own.value.blobs)
  {
  }

  lemma PlanIsBacked(s: Sys, m: Manifest, own: Option<Own>)
    requires DiskOk(s) && AllResolve(s.disk, Refs(s.Tip().ns)) && PlansFrom(s.Tip().ns, m, own)
    requires own.Some? ==>
      && own.value.key.seg == Random(s.issued)
      && forall id :: id in own.value.blobs ==> id == Blake3(own.value.blobs[id])
    ensures PlannedOk(s.(issued := if own.Some? then s.issued + 1 else s.issued), m, own)
  {
    forall c | c in ManifestRefs(m)
      ensures Resolves(s.disk, c) || (own.Some? && c.Key() == own.value.key && c.id in own.value.blobs)
    {
      PlannedRefs(s, m, own, c);
    }
  }

  lemma PlanIsDistinct(cfg: Config, s: Sys, i: ClientId, m: Manifest, own: Option<Own>)
    requires ClientsOk(cfg, s) && OwnDistinct(s)
    requires own.Some? ==> own.value.key.seg == Random(s.issued)
    ensures OwnDistinct(s.With(i, Planned(m, own, s.now)))
  {
    var t := s.With(i, Planned(m, own, s.now));
    forall j, key | j in s.clients && OwnKey(s.clients[j], key)
      ensures !OwnKey(t.clients[i], key)
    {
      assert ClientOk(cfg, s, s.clients[j]);
    }
    forall j, k, key | j in t.clients && k in t.clients && OwnKey(t.clients[j], key) && OwnKey(t.clients[k], key)
      ensures j == k
    {
    }
  }

  lemma PutPushStep(cfg: Config, s: Sys, i: ClientId, made: int)
    requires cfg.Valid() && Inv(cfg, s) && Enabled(cfg, s, PutPush(i, made)) && Guarded(cfg, s, PutPush(i, made))
    ensures Inv(cfg, Do(cfg, s, PutPush(i, made)))
  {
    var c := s.At(i);
    assert ClientOk(cfg, s, c);
    var next := Ready(PutOp(c.m, SealsOf(c.own)), 0);
    if c.own.None? {
      LocalStep(cfg, s, i, next);
    } else {
      var own := c.own.value;
      var t := s.With(i, next).(disk := s.disk[own.key := Segment(own.blobs, made)]);
      assert t.Tip() == s.Tip();
      assert Grows(s.disk, t.disk);
      ResolvesGrows(s.disk, t.disk, Refs(s.Tip().ns));
      assert AllResolve(t.disk, ManifestRefs(c.m));
      PushKeepsClients(cfg, s, i, made);
      PushKeepsCompactor(cfg, s, i, made);
    }
  }

  lemma PushKeepsClients(cfg: Config, s: Sys, i: ClientId, made: int)
    requires Inv(cfg, s) && Enabled(cfg, s, PutPush(i, made)) && s.At(i).own.Some?
    requires var own := s.At(i).own.value;
      AllResolve(s.disk[own.key := Segment(own.blobs, made)], ManifestRefs(s.At(i).m))
    ensures ClientsOk(cfg, Do(cfg, s, PutPush(i, made)))
  {
    var t := Do(cfg, s, PutPush(i, made));
    var key := s.At(i).own.value.key;
    assert ClientOk(cfg, s, s.At(i));
    assert OwnKey(s.clients[i], key);
    forall j | j in t.clients && j != i
      ensures ClientOk(cfg, t, t.clients[j])
    {
      assert ClientOk(cfg, s, s.clients[j]);
      assert !OwnKey(s.clients[j], key);
    }
  }

  /** A segment not pushed yet is referenced by its own put alone. */
  lemma UnpushedIsPrivate(cfg: Config, s: Sys, i: ClientId, key: SegKey)
    requires ClientsOk(cfg, s) && OwnDistinct(s) && i in s.clients && OwnKey(s.clients[i], key)
    ensures forall j, c :: j in s.clients && j != i && c in Pending(s.clients[j], |s.log|) ==> c.Key() != key
  {
    assert ClientOk(cfg, s, s.clients[i]);
    forall j, c | j in s.clients && j != i && c in Pending(s.clients[j], |s.log|)
      ensures c.Key() != key
    {
      assert ClientOk(cfg, s, s.clients[j]);
      assert !OwnKey(s.clients[j], key);
      assert c.Key() in s.disk || OwnKey(s.clients[j], c.Key());
    }
  }

  lemma PushKeepsCompactor(cfg: Config, s: Sys, i: ClientId, made: int)
    requires Inv(cfg, s) && Enabled(cfg, s, PutPush(i, made)) && Guarded(cfg, s, PutPush(i, made)) && s.At(i).own.Some?
    ensures CompactorOk(cfg, Do(cfg, s, PutPush(i, made)))
  {
    var t := Do(cfg, s, PutPush(i, made));
    assert t.Tip() == s.Tip();
    var key := s.At(i).own.value.key;
    assert ClientOk(cfg, s, s.clients[i]) && OwnKey(s.clients[i], key);
    UnpushedIsPrivate(cfg, s, i, key);
    forall j, c | j in t.clients && c in Pending(t.clients[j], |t.log|)
      ensures j in s.clients && c in Pending(s.clients[j], |s.log|)
      ensures j != i ==> c.Key() != key
    {
    }
    assert forall c :: c in Refs(s.Tip().ns) ==> c.Key() in s.disk && c.Key() != key;
  }

  // ---------- commits ----------

  /** Appending one record: what was built on a prefix still is. */
  lemma AppendKeepsBuilt(cfg: Config, s: Sys, txn: Txn, op: Op)
    requires ClientsOk(cfg, s)
    ensures ClientsOk(cfg, s.(log := s.log + [txn], ops := s.ops + [op]))
  {
    var t := s.(log := s.log + [txn], ops := s.ops + [op]);
    forall j | j in t.clients
      ensures ClientOk(cfg, t, t.clients[j])
    {
      assert ClientOk(cfg, s, s.clients[j]);
      if s.clients[j].Built? {
        EncodesStillOnPrefix(cfg, s.log, [txn], s.clients[j].base);
      }
    }
  }

  lemma AppendEffect(cfg: Config, s: Sys, txn: Txn, op: Op)
    requires Committed(s.log, s.ops, cfg.interval) && Encodes(s.log, txn, op, cfg.interval)
    ensures Committed(s.log + [txn], s.ops + [op], cfg.interval)
    ensures Load(s.log + [txn]) == ApplyOp(s.Tip(), op)
  {
    CommittedSnoc(s.log, s.ops, txn, op, cfg.interval);
    EncodedStep(s.log, txn, op, cfg.interval);
  }

  /** A put or remove adds no reference beyond the ones the client carried. */
  lemma ClientOpRefs(st: State, op: Op)
    requires !op.CompactOp?
    ensures Refs(ApplyOp(st, op).ns) <= Refs(st.ns) + (if op.PutOp? then ManifestRefs(op.m) else {})
  {
    match op
    case PutOp(m, _) => RefsInsert(st.ns, m.name, m);
    case RemoveOp(name) => RefsShrink(st.ns, st.ns - {name});
  }

  /** A record by one client can only end what the others may still commit. */
  lemma PendingShrinks(cfg: Config, s: Sys)
    requires ClientsOk(cfg, s)
    ensures forall j, r :: j in s.clients && r in Pending(s.clients[j], |s.log| + 1) ==> r in Pending(s.clients[j], |s.log|)
  {
    forall j, r | j in s.clients && r in Pending(s.clients[j], |s.log| + 1)
      ensures r in Pending(s.clients[j], |s.log|)
    {
      assert ClientOk(cfg, s, s.clients[j]);
    }
  }

  /** A client's record lands: its references join the tip. */
  lemma CommitStep(cfg: Config, s: Sys, i: ClientId)
    requires Inv(cfg, s) && s.At(i).Built? && s.At(i).base == |s.log|
    ensures Inv(cfg, s.(log := s.log + [s.At(i).txn], ops := s.ops + [s.At(i).op]))
  {
    var c := s.At(i);
    var t := s.(log := s.log + [c.txn], ops := s.ops + [c.op]);
    assert ClientOk(cfg, s, c);
    assert s.log[..c.base] == s.log;
    AppendEffect(cfg, s, c.txn, c.op);
    AppendKeepsBuilt(cfg, s, c.txn, c.op);
    ClientOpRefs(s.Tip(), c.op);
    assert forall r :: r in Refs(t.Tip().ns) ==> r in Refs(s.Tip().ns) || r in Pending(s.clients[i], |s.log|);
    PendingShrinks(cfg, s);
    if s.compactor.Committing? {
      EncodesStillOnPrefix(cfg, s.log, [c.txn], s.compactor.base);
    }
  }

  lemma CasStep(cfg: Config, s: Sys, i: ClientId, outcome: Outcome)
    requires Inv(cfg, s) && Enabled(cfg, s, Cas(i, outcome))
    ensures Inv(cfg, Do(cfg, s, Cas(i, outcome)))
  {
    var c := s.At(i);
    assert ClientOk(cfg, s, c);
    var next := Do(cfg, s, Cas(i, outcome)).clients[i];
    if outcome == Lost {
      LocalStep(cfg, s, i, next);
    } else {
      CommitStep(cfg, s, i);
      var t := s.(log := s.log + [c.txn], ops := s.ops + [c.op]);
      assert ClientOk(cfg, t, t.clients[i]);
      LocalStep(cfg, t, i, next);
    }
  }

  // ---------- compactor steps ----------

  lemma RewriteStep(cfg: Config, s: Sys, v: VolId, destVol: VolId, blobs: map<Digest, Bytes>, made: int)
    requires Inv(cfg, s) && Enabled(cfg, s, CRewrite(v, destVol, blobs, made))
    ensures Inv(cfg, Do(cfg, s, CRewrite(v, destVol, blobs, made)))
  {
    var t := Do(cfg, s, CRewrite(v, destVol, blobs, made));
    assert t.Tip() == s.Tip();
    assert Grows(s.disk, t.disk);
    ResolvesGrows(s.disk, t.disk, Refs(s.Tip().ns));
    forall j | j in t.clients
      ensures ClientOk(cfg, t, t.clients[j])
    {
      assert ClientOk(cfg, s, s.clients[j]);
    }
    if t.disk != s.disk {
      RewriteIsWellFormed(s, v, destVol, blobs);
    }
  }

  lemma RewriteIsWellFormed(s: Sys, v: VolId, destVol: VolId, blobs: map<Digest, Bytes>)
    requires DiskOk(s) && s.compactor.Passing?
    requires ReadFrom(s.disk, s.compactor.snap.ns, v, blobs)
    ensures var ids := IdsOn(s.compactor.snap.ns, v);
      WellFormedSegment(SegKey(destVol, Derived(v, ids)), Segment(blobs, s.now))
  {
    var ns := s.compactor.snap.ns;
    forall id | id in blobs
      ensures id == Blake3(blobs[id])
    {
      var c :| c in Refs(ns) && c.vol == v && c.id == id && Resolves(s.disk, c)
               && blobs[id] == s.disk[c.Key()].blobs[id];
      assert WellFormedSegment(c.Key(), s.disk[c.Key()]);
    }
  }

  /** The retirement lands: moved references now resolve at the destination. */
  lemma RetireStep(cfg: Config, s: Sys)
    requires Inv(cfg, s) && s.compactor.Committing? && s.compactor.base == |s.log|
    ensures var c := s.compactor;
      var t := s.(log := s.log + [c.txn], ops := s.ops + [c.op], compactor := Rewritten(c.snap, c.v, c.dest, c.moved, c.tries));
      Inv(cfg, t) && forall r :: r in Refs(t.Tip().ns) ==> r.vol != c.v
  {
    var c := s.compactor;
    var t := s.(log := s.log + [c.txn], ops := s.ops + [c.op], compactor := Rewritten(c.snap, c.v, c.dest, c.moved, c.tries));
    assert s.log[..c.base] == s.log;
    AppendEffect(cfg, s, c.txn, c.op);
    AppendKeepsBuilt(cfg, s, c.txn, c.op);
    assert t.Tip().ns == Repointed(s.Tip().ns, c.v, c.dest);
    NothingLeftOn(s.Tip().ns, c.v, c.dest);
    assert IdsOn(s.Tip().ns, c.v) != {} ==> c.moved != {};
    if c.dest in s.disk {
      assert WellFormedSegment(c.dest, s.disk[c.dest]);
    }
    RepointResolves(s.disk, s.Tip().ns, c.v, c.dest);
    forall j | j in t.clients
      ensures ClientOk(cfg, t, t.clients[j])
    {
      assert ClientOk(cfg, s.(log := s.log + [c.txn], ops := s.ops + [c.op]), s.clients[j]);
    }
  }

  lemma CCasStep(cfg: Config, s: Sys, outcome: Outcome)
    requires Inv(cfg, s) && Enabled(cfg, s, CCas(outcome)) && Guarded(cfg, s, CCas(outcome))
    ensures Inv(cfg, Do(cfg, s, CCas(outcome)))
  {
    var c := s.compactor;
    if outcome == Lost {
      CompactorMove(cfg, s, AfterSwap(c, outcome));
    } else {
      RetireStep(cfg, s);
      var t := s.(log := s.log + [c.txn], ops := s.ops + [c.op], compactor := Rewritten(c.snap, c.v, c.dest, c.moved, c.tries));
      CompactorMove(cfg, t, AfterSwap(c, outcome));
    }
  }

  /** Only the compactor's own position changes. */
  lemma CompactorMove(cfg: Config, s: Sys, c: Compactor)
    requires Inv(cfg, s) && CompactorOk(cfg, s.(compactor := c))
    ensures Inv(cfg, s.(compactor := c))
  {
    var t := s.(compactor := c);
    assert t.Tip() == s.Tip();
    forall j | j in t.clients
      ensures ClientOk(cfg, t, t.clients[j])
    {
      assert ClientOk(cfg, s, s.clients[j]);
    }
  }

  lemma ReflectedStep(cfg: Config, s: Sys)
    requires Inv(cfg, s) && Enabled(cfg, s, CReflected) && Guarded(cfg, s, CReflected)
    ensures Inv(cfg, Do(cfg, s, CReflected))
  {
    var v := s.compactor.v;
    var t := s.(compactor := Retired(s.compactor.snap, v));
    forall c | c in Refs(s.Tip().ns)
      ensures c.vol != v
    {
      assert c.vol == v ==> c.id in IdsOn(s.Tip().ns, v);
    }
    assert t.Tip() == s.Tip();
    CompactorMove(cfg, s, Retired(s.compactor.snap, v));
  }

  lemma CReadTipStep(cfg: Config, s: Sys, repoint: seq<Manifest>)
    requires Inv(cfg, s) && Enabled(cfg, s, CReadTip(repoint))
    ensures Inv(cfg, Do(cfg, s, CReadTip(repoint)))
  {
    var c := s.compactor;
    assert s.log[..|s.log|] == s.log;
    CompactorMove(cfg, s, Do(cfg, s, CReadTip(repoint)).compactor);
  }

  /** Deleting segments that neither the tip nor a client in flight uses. */
  lemma WipeStep(cfg: Config, s: Sys, disk: Disk)
    requires Inv(cfg, s) && (s.compactor.Retired? || s.compactor.Sweeping?)
    requires forall key :: key in disk ==> key in s.disk && disk[key] == s.disk[key]
    requires forall c :: c in Refs(s.Tip().ns) && c.Key() in s.disk ==> c.Key() in disk
    requires forall i, c :: i in s.clients && c in Pending(s.clients[i], |s.log|) && c.Key() in s.disk ==> c.Key() in disk
    ensures Inv(cfg, s.(disk := disk))
  {
    var t := s.(disk := disk);
    assert t.Tip() == s.Tip();
    ResolvesKept(s.disk, disk, Refs(s.Tip().ns));
    forall j | j in t.clients
      ensures ClientOk(cfg, t, t.clients[j])
    {
      assert ClientOk(cfg, s, s.clients[j]);
      WipeKeepsClient(cfg, s, disk, s.clients[j]);
    }
  }

  lemma WipeKeepsClient(cfg: Config, s: Sys, disk: Disk, c: Client)
    requires ClientOk(cfg, s, c)
    requires forall key :: key in disk ==> key in s.disk && disk[key] == s.disk[key]
    requires forall r :: r in Pending(c, |s.log|) && r.Key() in s.disk ==> r.Key() in disk
    ensures ClientOk(cfg, s.(disk := disk), c)
  {
  }

  lemma DestroyStep(cfg: Config, s: Sys)
    requires Inv(cfg, s) && s.compactor.Retired?
    ensures Inv(cfg, Do(cfg, s, CDestroy))
  {
    var disk := WithoutVolume(s.disk, s.compactor.v);
    WipeStep(cfg, s, disk);
    CompactorMove(cfg, s.(disk := disk), Passing(s.compactor.snap));
  }

  lemma SweepBeginStep(cfg: Config, s: Sys)
    requires Inv(cfg, s) && Enabled(cfg, s, CSweepBegin) && Guarded(cfg, s, CSweepBegin)
    ensures Inv(cfg, Do(cfg, s, CSweepBegin))
  {
    var referenced := Keys(Refs(s.Tip().ns));
    var t := s.(compactor := Sweeping(referenced, s.now));
    assert t.Tip() == s.Tip();
    CompactorMove(cfg, s, Sweeping(referenced, s.now));
  }

  /** The compactor moves between phases that promise nothing. */
  lemma IdleStep(cfg: Config, s: Sys, a: Action)
    requires Inv(cfg, s) && Enabled(cfg, s, a)
    requires a.CBegin? || a.CAbort? || a.CDone? || a.CSweepEnd? || a.CCrash?
    ensures Inv(cfg, Do(cfg, s, a))
  {
    CompactorMove(cfg, s, Do(cfg, s, a).compactor);
  }

  lemma DeleteStep(cfg: Config, s: Sys, a: Action, key: SegKey)
    requires Inv(cfg, s) && Enabled(cfg, s, a) && (a == CDelete(key) || a == CSweep(key))
    ensures Inv(cfg, Do(cfg, s, a))
  {
    WipeStep(cfg, s, s.disk - {key});
  }

  // ---------- the invariant is inductive ----------

  lemma StepKeepsInv(cfg: Config, s: Sys, a: Action)
    requires cfg.Valid() && Inv(cfg, s) && Enabled(cfg, s, a) && Guarded(cfg, s, a)
    ensures Inv(cfg, Do(cfg, s, a))
  {
    match a
    case Tick(dt) => TickStep(cfg, s, dt);
    case Crash(i) => LocalStep(cfg, s, i, Idle);
    case PutPlan(i, m, own) => PutPlanStep(cfg, s, i, m, own);
    case PutPush(i, made) => PutPushStep(cfg, s, i, made);
    case RemoveStart(i, name) => LocalStep(cfg, s, i, Ready(RemoveOp(name), 0));
    case ReadTip(i, txn) => ReadTipStep(cfg, s, i, txn);
    case Cas(i, outcome) => CasStep(cfg, s, i, outcome);
    case CBegin => IdleStep(cfg, s, a);
    case CRewrite(v, destVol, blobs, made) => RewriteStep(cfg, s, v, destVol, blobs, made);
    case CAbort => IdleStep(cfg, s, a);
    case CReflected => ReflectedStep(cfg, s);
    case CReadTip(repoint) => CReadTipStep(cfg, s, repoint);
    case CCas(outcome) => CCasStep(cfg, s, outcome);
    case CDestroy => DestroyStep(cfg, s);
    case CDelete(key) => DeleteStep(cfg, s, a, key);
    case CDone => IdleStep(cfg, s, a);
    case CSweepBegin => SweepBeginStep(cfg, s);
    case CSweep(key) => DeleteStep(cfg, s, a, key);
    case CSweepEnd => IdleStep(cfg, s, a);
    case CCrash => IdleStep(cfg, s, a);
  }

  lemma ReadTipStep(cfg: Config, s: Sys, i: ClientId, txn: Txn)
    requires Inv(cfg, s) && Enabled(cfg, s, ReadTip(i, txn))
    ensures Inv(cfg, Do(cfg, s, ReadTip(i, txn)))
  {
    var op := s.At(i).op;
    assert ClientOk(cfg, s, s.At(i));
    assert s.log[..|s.log|] == s.log;
    LocalStep(cfg, s, i, Do(cfg, s, ReadTip(i, txn)).clients[i]);
  }

  lemma {:induction false} RunKeepsInv(cfg: Config, s: Sys, run: seq<Action>)
    requires cfg.Valid() && Inv(cfg, s) && Legal(cfg, s, run) && Disciplined(cfg, s, run)
    ensures Inv(cfg, After(cfg, s, run))
    decreases |run|
  {
    if run == [] {
    } else {
      StepKeepsInv(cfg, s, run[0]);
      RunKeepsInv(cfg, Do(cfg, s, run[0]), run[1..]);
    }
  }

  lemma InvIsSafe(cfg: Config, s: Sys)
    requires Inv(cfg, s)
    ensures TipSafe(s)
  {
    forall c | c in Refs(s.Tip().ns)
      ensures Resolves(s.disk, c) && Blake3(s.disk[c.Key()].blobs[c.id]) == c.id
    {
      assert WellFormedSegment(c.Key(), s.disk[c.Key()]);
    }
  }

  // ---------- what every disciplined run guarantees ----------

  /** The manifest never references data that is gone: for any number of clients,
      any interleaving and any crashes, every placement at the tip resolves to
      the ciphertext it names. */
  lemma RunsAreSafe(cfg: Config, run: seq<Action>)
    requires cfg.Valid() && Legal(cfg, INIT, run) && Disciplined(cfg, INIT, run)
    ensures TipSafe(After(cfg, INIT, run))
  {
    InitInv(cfg);
    RunKeepsInv(cfg, INIT, run);
    InvIsSafe(cfg, After(cfg, INIT, run));
  }

  // ---------- log guarantees need no discipline ----------

  ghost predicate LogInv(cfg: Config, s: Sys) {
    && Committed(s.log, s.ops, cfg.interval)
    && (forall i :: i in s.clients && s.clients[i].Built? ==>
          BuiltOk(cfg, s, s.clients[i].op, s.clients[i].base, s.clients[i].txn))
    && (s.compactor.Committing? ==>
          BuiltOk(cfg, s, s.compactor.op, s.compactor.base, s.compactor.txn))
  }

  /** The record a step appends, if any. */
  ghost function Appended(s: Sys, a: Action): seq<Op> {
    match a
    case Cas(i, outcome) => if s.At(i).Built? && outcome != Lost then [s.At(i).op] else []
    case CCas(outcome) => if s.compactor.Committing? && outcome != Lost then [s.compactor.op] else []
    case _ => []
  }

  lemma StepKeepsLogInv(cfg: Config, s: Sys, a: Action)
    requires LogInv(cfg, s) && Enabled(cfg, s, a)
    ensures LogInv(cfg, Do(cfg, s, a))
    ensures Do(cfg, s, a).ops == s.ops + Appended(s, a)
  {
    assert s.log[..|s.log|] == s.log;
    match a
    case Cas(i, outcome) =>
      if outcome != Lost { AppendKeepsLogInv(cfg, s, s.At(i).txn, s.At(i).op); }
    case CCas(outcome) =>
      if outcome != Lost { AppendKeepsLogInv(cfg, s, s.compactor.txn, s.compactor.op); }
    case _ =>
  }

  lemma AppendKeepsLogInv(cfg: Config, s: Sys, txn: Txn, op: Op)
    requires LogInv(cfg, s) && Encodes(s.log, txn, op, cfg.interval)
    ensures LogInv(cfg, s.(log := s.log + [txn], ops := s.ops + [op]))
  {
    CommittedSnoc(s.log, s.ops, txn, op, cfg.interval);
    var t := s.(log := s.log + [txn], ops := s.ops + [op]);
    forall i | i in t.clients && t.clients[i].Built?
      ensures BuiltOk(cfg, t, t.clients[i].op, t.clients[i].base, t.clients[i].txn)
    {
      EncodesStillOnPrefix(cfg, s.log, [txn], s.clients[i].base);
    }
    if s.compactor.Committing? {
      EncodesStillOnPrefix(cfg, s.log, [txn], s.compactor.base);
    }
  }

  /** The operations whose CAS took effect along a run, in that order. */
  ghost function Effective(cfg: Config, s: Sys, run: seq<Action>): seq<Op>
    requires Legal(cfg, s, run)
    decreases |run|
  {
    if run == [] then [] else Appended(s, run[0]) + Effective(cfg, Do(cfg, s, run[0]), run[1..])
  }

  lemma {:induction false} RunKeepsLogInv(cfg: Config, s: Sys, run: seq<Action>)
    requires LogInv(cfg, s) && Legal(cfg, s, run)
    ensures LogInv(cfg, After(cfg, s, run))
    ensures After(cfg, s, run).ops == s.ops + Effective(cfg, s, run)
    decreases |run|
  {
    if run == [] {
    } else {
      StepKeepsLogInv(cfg, s, run[0]);
      RunKeepsLogInv(cfg, Do(cfg, s, run[0]), run[1..]);
      Associate(s.ops, Appended(s, run[0]), Effective(cfg, Do(cfg, s, run[0]), run[1..]));
    }
  }

  lemma Associate<T>(a: seq<T>, b: seq<T>, c: seq<T>)
    ensures a + b + c == a + (b + c)
  {
  }

  /** No lost update: under every interleaving, with spurious failures and lost
      acknowledgements, reading the log at the tip or at any pinned ancestor is
      replaying exactly the operations whose CAS took effect, in CAS order; and
      fewer than `interval` deltas follow the newest checkpoint. */
  lemma LogIsLinearizable(cfg: Config, run: seq<Action>, pin: nat)
    requires cfg.Valid() && Legal(cfg, INIT, run)
    requires pin <= |After(cfg, INIT, run).log|
    ensures var s := After(cfg, INIT, run);
      && s.ops == Effective(cfg, INIT, run) && |s.ops| == |s.log|
      && Load(s.log[..pin]) == Replay(s.ops[..pin])
      && DeltasSince(s.log) <= cfg.interval - 1
  {
    RunKeepsLogInv(cfg, INIT, run);
    var s := After(cfg, INIT, run);
    PinnedLoadIsReplay(s.log, s.ops, cfg.interval, pin);
    DeltaTailBounded(s.log, s.ops, cfg.interval);
    assert [] + Effective(cfg, INIT, run) == Effective(cfg, INIT, run);
  }
}
