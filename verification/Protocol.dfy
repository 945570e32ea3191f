/** The store as a concurrent protocol: any number of put and remove clients and
    one compactor take atomic steps on shared volumes and one log reference.
    Each client can crash between any two steps, every compare-and-swap may
    fail spuriously, and a successful one may be reported as lost. */
module Protocol {
  import opened Prelude
  import opened Manifests
  import opened Log
  import opened Repoint
  import opened Accounting

  type ClientId = nat

  datatype Config = Config(interval: nat, window: int) {
    ghost predicate Valid() { interval >= 1 }
  }

  /** A retry loop gives up after this many compare-and-swaps. */
  const MAX_CAS_RETRIES := 32

  /** Swaps issued so far by a loop that has not given up. */
  type Tries = t: nat | t < MAX_CAS_RETRIES

  /** The new segment of a put: where it goes and what it holds. */
  datatype Own = Own(key: SegKey, blobs: map<Digest, Bytes>)

  datatype Client =
    | Idle
    | Planned(m: Manifest, own: Option<Own>, at: int)   // snapshot read at that time, nothing pushed
    | Ready(op: Op, tries: Tries)                       // data durable, about to read the tip
    | Built(op: Op, base: nat, txn: Txn, tries: Tries)  // record built on the first `base` records

  datatype Compactor =
    | Resting
    | Passing(snap: State)                       // one snapshot serves the whole pass
    | Rewritten(snap: State, v: VolId, dest: SegKey, moved: set<Digest>, tries: Tries)
    | Committing(snap: State, v: VolId, dest: SegKey, moved: set<Digest>, tries: Tries,
                 op: Op, base: nat, txn: Txn)
    | Retired(snap: State, v: VolId)             // retirement committed, `v` being wiped
    | Sweeping(referenced: set<SegKey>, since: int)

  datatype Sys = Sys(
    disk: Disk,
    log: seq<Txn>,
    ops: seq<Op>,          // what each record was meant to do, in commit order
    clients: map<ClientId, Client>,
    compactor: Compactor,
    issued: nat,           // random segment ids below this have been drawn
    now: int)
  {
    function Tip(): State { Load(log) }

    function At(i: ClientId): Client { if i in clients then clients[i] else Idle }

    function With(i: ClientId, c: Client): Sys { this.(clients := clients[i := c]) }
  }

  const INIT := Sys(map[], [], [], map[], Resting, 0, 0)

  datatype Outcome = Won | Lost | AckLost

  datatype Action =
    | Tick(dt: nat)
    | Crash(i: ClientId)
    | PutPlan(i: ClientId, m: Manifest, own: Option<Own>)
    | PutPush(i: ClientId, made: int)                   // of a segment commit built at that time
    | RemoveStart(i: ClientId, name: Name)
    | ReadTip(i: ClientId, txn: Txn)
    | Cas(i: ClientId, outcome: Outcome)
    | CBegin
    | CRewrite(v: VolId, destVol: VolId, blobs: map<Digest, Bytes>, made: int)
    | CAbort
    | CReflected
    | CReadTip(repoint: seq<Manifest>)
    | CCas(outcome: Outcome)
    | CDestroy
    | CDelete(key: SegKey)
    | CDone
    | CSweepBegin
    | CSweep(key: SegKey)
    | CSweepEnd
    | CCrash

  // ---------- clients ----------

  /** The retry loop's test for "my change is already in the namespace". */
  predicate Reflected(ns: Namespace, op: Op) {
    match op
    case PutOp(m, _) => m.name in ns && ns[m.name] == m
    case RemoveOp(name) => name !in ns
    case CompactOp(_, _, _) => false
  }

  /** A planned manifest refers only to chunks placed in the snapshot it was
      planned from, or staged in its own new segment. */
  ghost predicate PlansFrom(ns: Namespace, m: Manifest, own: Option<Own>) {
    forall c :: c in ManifestRefs(m) ==>
      || (exists r :: r in Refs(ns) && r.id == c.id && r.Key() == c.Key())
      || (own.Some? && c.Key() == own.value.key && c.id in own.value.blobs)
  }

  ghost function SealsOf(own: Option<Own>): seq<SegRec> {
    if own.None? then [] else SealFor(own.value.key, own.value.blobs.Keys, Weigh(own.value.blobs.Keys))
  }

  ghost function PutRefs(op: Op): set<ChunkRef> {
    if op.PutOp? then ManifestRefs(op.m) else {}
  }

  /** References a client may still commit when the log has `n` records. A record
      built on an older tip can no longer win, so on the last try it is dead. */
  ghost function Pending(c: Client, n: nat): set<ChunkRef> {
    match c
    case Idle => {}
    case Planned(m, _, _) => ManifestRefs(m)
    case Ready(op, _) => PutRefs(op)
    case Built(op, base, _, tries) => if base == n || tries + 1 < MAX_CAS_RETRIES then PutRefs(op) else {}
  }

  // ---------- compactor ----------

  /** `blobs` are the chunks `moved`, each read from a place the snapshot names. */
  ghost predicate ReadFrom(disk: Disk, ns: Namespace, v: VolId, blobs: map<Digest, Bytes>) {
    && blobs.Keys == IdsOn(ns, v)
    && forall id :: id in blobs ==>
         exists c :: c in Refs(ns) && c.vol == v && c.id == id && Resolves(disk, c)
                     && blobs[id] == disk[c.Key()].blobs[id]
  }

  /** The retirement of `v` prepared against state `st`. */
  ghost predicate RetiresFrom(st: State, v: VolId, dest: SegKey, moved: set<Digest>, op: Op) {
    && op.CompactOp? && op.retired == [v] && op.compactSeals == SealFor(dest, moved, Weigh(moved))
    && IdsOn(st.ns, v) <= moved
    && InsertAll(st.ns, op.repoint) == Repointed(st.ns, v, dest)
  }

  ghost predicate NothingOn(st: State, v: VolId) {
    IdsOn(st.ns, v) == {} && forall key :: key in st.seg ==> key.vol != v
  }

  /** A sweep that began at `since` spares the segments it found referenced and
      the young ones. */
  predicate Kept(disk: Disk, referenced: set<SegKey>, since: int, window: int, key: SegKey) {
    key in referenced || (key in disk ==> since - disk[key].time < window)
  }

  ghost function Keys(refs: set<ChunkRef>): set<SegKey> {
    set c | c in refs :: c.Key()
  }

  /** Where a put's push leaves the volumes. A segment is dated when its commit is
      built, which can be long before the push makes it visible. */
  function DiskPushed(s: Sys, own: Option<Own>, made: int): Disk {
    if own.None? then s.disk else s.disk[own.value.key := Segment(own.value.blobs, made)]
  }

  /** The compactor after one swap: it goes on to wipe the volume, tries again, or
      leaves the volume to a later pass. */
  function AfterSwap(c: Compactor, outcome: Outcome): Compactor
    requires c.Committing?
  {
    if outcome == Won then Retired(c.snap, c.v)
    else if c.tries + 1 == MAX_CAS_RETRIES then Passing(c.snap)
    else Rewritten(c.snap, c.v, c.dest, c.moved, c.tries + 1)
  }

  // ---------- steps ----------

  ghost predicate Enabled(cfg: Config, s: Sys, a: Action) {
    match a
    case Tick(_) => true
    case Crash(_) => true
    case PutPlan(i, m, own) =>
      && s.At(i).Idle?
      && PlansFrom(s.Tip().ns, m, own)
      && (own.Some? ==>
            && own.value.key.seg == Random(s.issued) && own.value.blobs != map[]
            && forall id :: id in own.value.blobs ==> id == Blake3(own.value.blobs[id]))
    case PutPush(i, made) => s.At(i).Planned? && s.At(i).at <= made <= s.now
    case RemoveStart(i, name) => s.At(i).Idle? && name in s.Tip().ns
    case ReadTip(i, txn) =>
      && s.At(i).Ready?
      && (Reflected(s.Tip().ns, s.At(i).op) || Encodes(s.log, txn, s.At(i).op, cfg.interval))
    case Cas(i, outcome) => s.At(i).Built? && (outcome != Lost ==> |s.log| == s.At(i).base)
    case CBegin => s.compactor.Resting?
    case CRewrite(v, destVol, blobs, made) =>
      && s.compactor.Passing?
      && destVol != v && made <= s.now
      && var ids := IdsOn(s.compactor.snap.ns, v);
         (ids == {} || SegKey(destVol, Derived(v, ids)) in s.disk || ReadFrom(s.disk, s.compactor.snap.ns, v, blobs))
    case CAbort => s.compactor.Rewritten? && !(IdsOn(s.Tip().ns, s.compactor.v) <= s.compactor.moved)
    case CReflected => s.compactor.Rewritten? && NothingOn(s.Tip(), s.compactor.v)
    case CReadTip(repoint) =>
      && s.compactor.Rewritten?
      && !NothingOn(s.Tip(), s.compactor.v)
      && var c := s.compactor;
         RetiresFrom(s.Tip(), c.v, c.dest, c.moved, CompactOp([c.v], SealFor(c.dest, c.moved, Weigh(c.moved)), repoint))
    case CCas(outcome) => s.compactor.Committing? && (outcome != Lost ==> |s.log| == s.compactor.base)
    case CDestroy => s.compactor.Retired?
    case CDelete(key) => s.compactor.Retired? && key.vol == s.compactor.v
    case CDone => s.compactor.Retired?
    case CSweepBegin => s.compactor.Passing?
    case CSweep(key) =>
      && s.compactor.Sweeping?
      && !Kept(s.disk, s.compactor.referenced, s.compactor.since, cfg.window, key)
    case CSweepEnd => s.compactor.Sweeping?
    case CCrash => true
  }

  ghost function Do(cfg: Config, s: Sys, a: Action): Sys
    requires Enabled(cfg, s, a)
  {
    match a
    case Tick(dt) => s.(now := s.now + dt)
    case Crash(i) => s.With(i, Idle)
    case PutPlan(i, m, own) =>
      s.With(i, Planned(m, own, s.now)).(issued := if own.Some? then s.issued + 1 else s.issued)
    case PutPush(i, made) =>
      var c := s.At(i);
      s.With(i, Ready(PutOp(c.m, SealsOf(c.own)), 0)).(disk := DiskPushed(s, c.own, made))
    case RemoveStart(i, name) => s.With(i, Ready(RemoveOp(name), 0))
    case ReadTip(i, txn) =>
      var op := s.At(i).op;
      s.With(i, if Reflected(s.Tip().ns, op) then Idle else Built(op, |s.log|, txn, s.At(i).tries))
    case Cas(i, outcome) =>
      var c := s.At(i);
      var over := outcome == Won || c.tries + 1 == MAX_CAS_RETRIES;
      var t := s.With(i, if over then Idle else Ready(c.op, c.tries + 1));
      if outcome == Lost then t else t.(log := s.log + [c.txn], ops := s.ops + [c.op])
    case CBegin => s.(compactor := Passing(s.Tip()))
    case CRewrite(v, destVol, blobs, made) =>
      var snap := s.compactor.snap;
      var ids := IdsOn(snap.ns, v);
      var dest := SegKey(destVol, Derived(v, ids));
      s.(compactor := Rewritten(snap, v, dest, ids, 0),
         disk := if ids == {} || dest in s.disk then s.disk else s.disk[dest := Segment(blobs, made)])
    case CAbort => s.(compactor := Passing(s.compactor.snap))
    case CReflected => s.(compactor := Retired(s.compactor.snap, s.compactor.v))
    case CReadTip(repoint) =>
      var c := s.compactor;
      var seals := SealFor(c.dest, c.moved, Weigh(c.moved));
      s.(compactor := Committing(c.snap, c.v, c.dest, c.moved, c.tries,
                                 CompactOp([c.v], seals, repoint), |s.log|, Compact([c.v], seals, repoint)))
    case CCas(outcome) =>
      var c := s.compactor;
      var t := s.(compactor := AfterSwap(c, outcome));
      if outcome == Lost then t else t.(log := s.log + [c.txn], ops := s.ops + [c.op])
    case CDestroy => s.(disk := WithoutVolume(s.disk, s.compactor.v), compactor := Passing(s.compactor.snap))
    case CDelete(key) => s.(disk := s.disk - {key})
    case CDone => s.(compactor := Passing(s.compactor.snap))
    case CSweepBegin => s.(compactor := Sweeping(Keys(Refs(s.Tip().ns)), s.now))
    case CSweep(key) => s.(disk := s.disk - {key})
    case CSweepEnd => s.(compactor := Resting)
    case CCrash => s.(compactor := Resting)
  }

  // ---------- the environment condition ----------

  /** No put that can still commit once the log has `n` records references
      volume `v`. */
  ghost predicate Quiet(s: Sys, n: nat, v: VolId) {
    forall i, c :: i in s.clients && c in Pending(s.clients[i], n) ==> c.vol != v
  }

  /** Every put in flight references only segments a sweep starting now keeps. */
  ghost predicate SweepSafe(cfg: Config, s: Sys) {
    forall i, c :: i in s.clients && c in Pending(s.clients[i], |s.log|) ==>
      Kept(s.disk, Keys(Refs(s.Tip().ns)), s.now, cfg.window, c.Key())
  }

  /** A sweep under way spares everything the manifest being pushed references. */
  ghost predicate PushSafe(cfg: Config, s: Sys, c: Client, made: int)
    requires c.Planned? && s.compactor.Sweeping?
  {
    forall r :: r in ManifestRefs(c.m) ==>
      Kept(DiskPushed(s, c.own, made), s.compactor.referenced, s.compactor.since, cfg.window, r.Key())
  }

  /** What the code itself does not check, stated as a test made before a step:
      no put in flight still points at a volume whose wiping is about to start,
      no put chooses a volume that is being wiped, no put in flight when a sweep
      starts relies on a segment the sweep would collect, and none pushes, in the
      midst of a sweep, a segment the sweep would collect: one whose commit was
      built a whole window before the sweep began. */
  ghost predicate Guarded(cfg: Config, s: Sys, a: Action)
    requires Enabled(cfg, s, a)
  {
    match a
    case CCas(outcome) => outcome == Won ==> Quiet(s, |s.log| + 1, s.compactor.v)
    case CReflected => Quiet(s, |s.log|, s.compactor.v)
    case PutPush(i, made) => s.compactor.Sweeping? ==> PushSafe(cfg, s, s.At(i), made)
    case PutPlan(_, m, _) => s.compactor.Retired? ==> forall c :: c in ManifestRefs(m) ==> c.vol != s.compactor.v
    case CSweepBegin => SweepSafe(cfg, s)
    case _ => true
  }

  // ---------- runs ----------

  ghost predicate Legal(cfg: Config, s: Sys, run: seq<Action>)
    decreases |run|
  {
    run == [] || (Enabled(cfg, s, run[0]) && Legal(cfg, Do(cfg, s, run[0]), run[1..]))
  }

  ghost function After(cfg: Config, s: Sys, run: seq<Action>): Sys
    requires Legal(cfg, s, run)
    decreases |run|
  {
    if run == [] then s else After(cfg, Do(cfg, s, run[0]), run[1..])
  }

  /** A legal run in which every step also met the environment condition. */
  ghost predicate Disciplined(cfg: Config, s: Sys, run: seq<Action>)
    requires Legal(cfg, s, run)
    decreases |run|
  {
    run == [] || (Guarded(cfg, s, run[0]) && Disciplined(cfg, Do(cfg, s, run[0]), run[1..]))
  }

  /** Every placement at the tip resolves to its stored ciphertext. */
  ghost predicate TipSafe(s: Sys) {
    forall c :: c in Refs(s.Tip().ns) ==> Resolves(s.disk, c) && Blake3(s.disk[c.Key()].blobs[c.id]) == c.id
  }
}
