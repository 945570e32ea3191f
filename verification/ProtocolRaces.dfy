/** The environment condition is not only sufficient but necessary: where it is
    violated, the very next steps of the clients lose data. */
module ProtocolRaces {
  import opened Prelude
  import opened Manifests
  import opened Log
  import opened Repoint
  import opened Accounting
  import opened Protocol
  import opened ProtocolSafety

  // ---------- appending to runs ----------

  lemma {:induction false} ExtendRun(cfg: Config, s: Sys, run: seq<Action>, a: Action)
    requires Legal(cfg, s, run) && Disciplined(cfg, s, run)
    requires Enabled(cfg, After(cfg, s, run), a) && Guarded(cfg, After(cfg, s, run), a)
    ensures Legal(cfg, s, run + [a]) && Disciplined(cfg, s, run + [a])
    ensures After(cfg, s, run + [a]) == Do(cfg, After(cfg, s, run), a)
    decreases |run|
  {
    if run == [] {
      assert run + [a] == [a];
      assert [a][1..] == [];
    } else {
      assert (run + [a])[1..] == run[1..] + [a];
      ExtendRun(cfg, Do(cfg, s, run[0]), run[1..], a);
    }
  }

  lemma PrependStep(cfg: Config, s: Sys, a: Action, run: seq<Action>)
    requires Enabled(cfg, s, a) && Guarded(cfg, s, a)
    requires Legal(cfg, Do(cfg, s, a), run) && Disciplined(cfg, Do(cfg, s, a), run)
    ensures Legal(cfg, s, [a] + run) && Disciplined(cfg, s, [a] + run)
    ensures After(cfg, s, [a] + run) == After(cfg, Do(cfg, s, a), run)
  {
    assert ([a] + run)[1..] == run;
  }

  lemma OneStep(cfg: Config, s: Sys, a: Action)
    requires Enabled(cfg, s, a) && Guarded(cfg, s, a)
    ensures Legal(cfg, s, [a]) && Disciplined(cfg, s, [a]) && After(cfg, s, [a]) == Do(cfg, s, a)
  {
    assert [a][1..] == [];
  }

  // ---------- a put in flight can always go on to commit ----------

  /** A put of `m` that can still commit when the log has `n` records. */
  ghost predicate InFlightPut(c: Client, m: Manifest, n: nat) {
    match c
    case Idle => false
    case Planned(p, _, _) => p == m
    case Ready(op, _) => op.PutOp? && op.m == m
    case Built(op, base, _, tries) => op.PutOp? && op.m == m && (base == n || tries + 1 < MAX_CAS_RETRIES)
  }

  /** How far along the put is, counting down to its commit. */
  ghost function Distance(s: Sys, c: Client): nat {
    match c
    case Idle => 4
    case Planned(_, _, _) => 3
    case Ready(_, _) => 1
    case Built(_, base, _, _) => if base == |s.log| then 0 else 2
  }

  /** Nothing but client `i`, its own new segment and the log has changed. */
  ghost predicate OnlyPutAdvanced(s: Sys, t: Sys, m: Manifest) {
    && t.compactor == s.compactor
    && m.name in t.Tip().ns && t.Tip().ns[m.name] == m
    && (forall key :: key in t.disk && key !in s.disk ==>
          (key.seg.Random? && key.seg.nonce < s.issued && exists i :: i in s.clients && OwnKey(s.clients[i], key)))
  }

  lemma CommitNow(cfg: Config, s: Sys, i: ClientId, m: Manifest)
    requires i in s.clients && s.clients[i].Built? && s.clients[i].base == |s.log|
    requires s.clients[i].op.PutOp? && s.clients[i].op.m == m
    requires BuiltOk(cfg, s, s.clients[i].op, s.clients[i].base, s.clients[i].txn)
    ensures Legal(cfg, s, [Cas(i, Won)]) && Disciplined(cfg, s, [Cas(i, Won)])
    ensures OnlyPutAdvanced(s, After(cfg, s, [Cas(i, Won)]), m)
  {
    var c := s.clients[i];
    assert s.log[..c.base] == s.log;
    EncodedStep(s.log, c.txn, c.op, cfg.interval);
    OneStep(cfg, s, Cas(i, Won));
  }

  lemma {:induction false} DriveToCommit(cfg: Config, s: Sys, i: ClientId, m: Manifest) returns (run: seq<Action>)
    requires i in s.clients && InFlightPut(s.clients[i], m, |s.log|) && !s.compactor.Sweeping?
    requires m.name in s.Tip().ns ==> s.Tip().ns[m.name] != m
    requires s.clients[i].Built? ==> BuiltOk(cfg, s, s.clients[i].op, s.clients[i].base, s.clients[i].txn)
    requires s.clients[i].Planned? ==>
      s.clients[i].at <= s.now && (s.clients[i].own.Some? ==> OwnOk(s, s.clients[i].own.value))
    ensures Legal(cfg, s, run) && Disciplined(cfg, s, run)
    ensures OnlyPutAdvanced(s, After(cfg, s, run), m)
    decreases Distance(s, s.clients[i])
  {
    var a: Action;
    match s.clients[i] {
      case Planned(_, _, _) =>
        a := PutPush(i, s.now);
      case Ready(op, _) =>
        var txn := SomeEncoding(s.log, op, cfg.interval);
        a := ReadTip(i, txn);
        assert s.log[..|s.log|] == s.log;
      case Built(op, base, txn, _) =>
        a := Cas(i, if base == |s.log| then Won else Lost);
        if base == |s.log| {
          CommitNow(cfg, s, i, m);
          return [a];
        }
    }
    var t := Do(cfg, s, a);
    assert t.Tip() == s.Tip();
    var rest := DriveToCommit(cfg, t, i, m);
    PrependStep(cfg, s, a, rest);
    run := [a] + rest;
  }

  // ---------- wiping a retired volume ----------

  ghost predicate AllRunsSafe(cfg: Config, s: Sys) {
    forall run :: Legal(cfg, s, run) && Disciplined(cfg, s, run) ==> TipSafe(After(cfg, s, run))
  }

  lemma PendingIsPut(c: Client, n: nat, r: ChunkRef) returns (m: Manifest)
    requires r in Pending(c, n)
    ensures InFlightPut(c, m, n) && r in ManifestRefs(m)
  {
    match c
    case Planned(p, _, _) => m := p;
    case Ready(op, _) => m := op.m;
    case Built(op, _, _, _) => m := op.m;
  }

  /** A put that still points at the volume being wiped commits, then the wipe
      removes what it points at. */
  lemma WipeRaceLosesData(cfg: Config, s: Sys, i: ClientId, c: ChunkRef)
    requires s.compactor.Retired? && ClientsOk(cfg, s)
    requires i in s.clients && c in Pending(s.clients[i], |s.log|) && c.vol == s.compactor.v
    requires forall r :: r in Refs(s.Tip().ns) ==> r.vol != s.compactor.v
    ensures !AllRunsSafe(cfg, s)
  {
    var m := PendingIsPut(s.clients[i], |s.log|, c);
    if m.name in s.Tip().ns && s.Tip().ns[m.name] == m {
      RefsOfManifest(s.Tip().ns, m.name);
    }
    assert ClientOk(cfg, s, s.clients[i]);
    var run := DriveToCommit(cfg, s, i, m);
    var t := After(cfg, s, run);
    ExtendRun(cfg, s, run, CDestroy);
    var u := Do(cfg, t, CDestroy);
    assert u.Tip() == t.Tip();
    RefsOfManifest(u.Tip().ns, m.name);
    assert c in Refs(u.Tip().ns) && !Resolves(u.disk, c);
    assert !TipSafe(After(cfg, s, run + [CDestroy]));
  }

  /** Exactly when committing a retirement is safe against the puts in flight:
      from that step on no run loses data if and only if, at that step, no put
      that can still commit references the retired volume. */
  lemma RetirementSafeIffQuiet(cfg: Config, s: Sys)
    requires cfg.Valid() && Inv(cfg, s) && Enabled(cfg, s, CCas(Won))
    ensures Quiet(s, |s.log| + 1, s.compactor.v) <==> AllRunsSafe(cfg, Do(cfg, s, CCas(Won)))
  {
    var t := Do(cfg, s, CCas(Won));
    if Quiet(s, |s.log| + 1, s.compactor.v) {
      StepKeepsInv(cfg, s, CCas(Won));
      SafeFrom(cfg, t);
    } else {
      var i, c :| i in s.clients && c in Pending(s.clients[i], |s.log| + 1) && c.vol == s.compactor.v;
      RetireStep(cfg, s);
      var c0 := s.compactor;
      var u := s.(log := s.log + [c0.txn], ops := s.ops + [c0.op], compactor := Rewritten(c0.snap, c0.v, c0.dest, c0.moved, c0.tries));
      assert t == u.(compactor := Retired(c0.snap, c0.v));
      assert t.Tip() == u.Tip();
      SameClients(cfg, u, t);
      WipeRaceLosesData(cfg, t, i, c);
    }
  }

  /** The same when the retry finds that the retirement has already landed. */
  lemma ReflectedSafeIffQuiet(cfg: Config, s: Sys)
    requires cfg.Valid() && Inv(cfg, s) && Enabled(cfg, s, CReflected)
    ensures Quiet(s, |s.log|, s.compactor.v) <==> AllRunsSafe(cfg, Do(cfg, s, CReflected))
  {
    var t, v := Do(cfg, s, CReflected), s.compactor.v;
    if Quiet(s, |s.log|, s.compactor.v) {
      StepKeepsInv(cfg, s, CReflected);
      SafeFrom(cfg, t);
    } else {
      var i, c :| i in s.clients && c in Pending(s.clients[i], |s.log|) && c.vol == s.compactor.v;
      SameClients(cfg, s, t);
      assert forall r :: r in Refs(s.Tip().ns) && r.vol == v ==> r.id in IdsOn(s.Tip().ns, v);
      assert t.Tip() == s.Tip();
      WipeRaceLosesData(cfg, t, i, c);
    }
  }

  /** Exactly when planning a put is safe while a volume is being wiped: when the
      plan places nothing on that volume. */
  lemma PlanDuringWipeSafeIff(cfg: Config, s: Sys, i: ClientId, m: Manifest, own: Option<Own>)
    requires cfg.Valid() && Inv(cfg, s) && s.compactor.Retired? && Enabled(cfg, s, PutPlan(i, m, own))
    ensures (forall c :: c in ManifestRefs(m) ==> c.vol != s.compactor.v)
       <==> AllRunsSafe(cfg, Do(cfg, s, PutPlan(i, m, own)))
  {
    var t := Do(cfg, s, PutPlan(i, m, own));
    if forall c :: c in ManifestRefs(m) ==> c.vol != s.compactor.v {
      StepKeepsInv(cfg, s, PutPlan(i, m, own));
      SafeFrom(cfg, t);
    } else {
      var c :| c in ManifestRefs(m) && c.vol == s.compactor.v;
      PlanKeepsClients(cfg, s, i, m, own);
      assert t.Tip() == s.Tip();
      WipeRaceLosesData(cfg, t, i, c);
    }
  }

  lemma SameClients(cfg: Config, s: Sys, t: Sys)
    requires ClientsOk(cfg, s) && t.clients == s.clients && t.disk == s.disk && t.log == s.log && t.issued == s.issued && t.now == s.now
    ensures ClientsOk(cfg, t)
  {
    forall j | j in t.clients
      ensures ClientOk(cfg, t, t.clients[j])
    {
      assert ClientOk(cfg, s, s.clients[j]);
    }
  }

  lemma SafeFrom(cfg: Config, s: Sys)
    requires cfg.Valid() && Inv(cfg, s)
    ensures AllRunsSafe(cfg, s)
  {
    forall run | Legal(cfg, s, run) && Disciplined(cfg, s, run)
      ensures TipSafe(After(cfg, s, run))
    {
      RunKeepsInv(cfg, s, run);
      InvIsSafe(cfg, After(cfg, s, run));
    }
  }

  // ---------- sweeping orphans ----------

  /** What is on disk is no longer any client's segment to push. */
  lemma SweptIsNobodysOwn(cfg: Config, s: Sys, key: SegKey)
    requires Inv(cfg, s.(compactor := Resting)) && key in s.disk
    ensures forall j :: j in s.clients ==> !OwnKey(s.clients[j], key)
  {
    forall j | j in s.clients
      ensures !OwnKey(s.clients[j], key)
    {
      assert ClientOk(cfg, s.(compactor := Resting), s.clients[j]);
    }
  }

  /** A put that relies on a segment the sweep under way would collect: the sweep
      takes it and ends, and the put commits. */
  lemma SweepRaceLosesData(cfg: Config, s: Sys, i: ClientId, c: ChunkRef)
    requires s.compactor.Sweeping? && Inv(cfg, s.(compactor := Resting))
    requires forall r :: r in Refs(s.Tip().ns) ==> Kept(s.disk, s.compactor.referenced, s.compactor.since, cfg.window, r.Key())
    requires i in s.clients && c in Pending(s.clients[i], |s.log|)
    requires !Kept(s.disk, s.compactor.referenced, s.compactor.since, cfg.window, c.Key())
    ensures !AllRunsSafe(cfg, s)
  {
    var m := PendingIsPut(s.clients[i], |s.log|, c);
    if m.name in s.Tip().ns && s.Tip().ns[m.name] == m {
      RefsOfManifest(s.Tip().ns, m.name);
    }
    var a := CSweep(c.Key());
    var t := Do(cfg, Do(cfg, s, a), CSweepEnd);
    assert t.Tip() == s.Tip();
    assert ClientOk(cfg, s.(compactor := Resting), s.clients[i]);
    assert t.clients[i].Planned? && t.clients[i].own.Some? ==> OwnOk(t, t.clients[i].own.value);
    var rest := DriveToCommit(cfg, t, i, m);
    PrependStep(cfg, Do(cfg, s, a), CSweepEnd, rest);
    PrependStep(cfg, s, a, [CSweepEnd] + rest);
    var u := After(cfg, t, rest);
    RefsOfManifest(u.Tip().ns, m.name);
    SweptIsNobodysOwn(cfg, s, c.Key());
    assert c in Refs(u.Tip().ns) && !Resolves(u.disk, c);
    assert !TipSafe(After(cfg, s, [a] + ([CSweepEnd] + rest)));
  }

  /** Exactly when starting a sweep is safe against the puts in flight. */
  lemma SweepSafeIff(cfg: Config, s: Sys)
    requires cfg.Valid() && Inv(cfg, s) && Enabled(cfg, s, CSweepBegin)
    ensures SweepSafe(cfg, s) <==> AllRunsSafe(cfg, Do(cfg, s, CSweepBegin))
  {
    var t := Do(cfg, s, CSweepBegin);
    if SweepSafe(cfg, s) {
      StepKeepsInv(cfg, s, CSweepBegin);
      SafeFrom(cfg, t);
    } else {
      var i, c :| i in s.clients && c in Pending(s.clients[i], |s.log|)
                  && !Kept(s.disk, Keys(Refs(s.Tip().ns)), s.now, cfg.window, c.Key());
      CompactorMove(cfg, s, Resting);
      assert t.(compactor := Resting) == s.(compactor := Resting);
      assert t.Tip() == s.Tip();
      SweepRaceLosesData(cfg, t, i, c);
    }
  }

  /** Exactly when pushing in the midst of a sweep is safe: when the sweep spares
      everything the manifest references. */
  lemma PushDuringSweepSafeIff(cfg: Config, s: Sys, i: ClientId, made: int)
    requires cfg.Valid() && Inv(cfg, s) && s.compactor.Sweeping? && Enabled(cfg, s, PutPush(i, made))
    ensures PushSafe(cfg, s, s.At(i), made) <==> AllRunsSafe(cfg, Do(cfg, s, PutPush(i, made)))
  {
    var t := Do(cfg, s, PutPush(i, made));
    if PushSafe(cfg, s, s.At(i), made) {
      StepKeepsInv(cfg, s, PutPush(i, made));
      SafeFrom(cfg, t);
    } else {
      var c := s.compactor;
      PushedAtRest(cfg, s, i, made);
      var r :| r in ManifestRefs(s.At(i).m) && !Kept(t.disk, c.referenced, c.since, cfg.window, r.Key());
      TipKeptAfterPush(cfg, s, i, made);
      SweepRaceLosesData(cfg, t, i, r);
    }
  }

  lemma PushedAtRest(cfg: Config, s: Sys, i: ClientId, made: int)
    requires cfg.Valid() && Inv(cfg, s) && Enabled(cfg, s, PutPush(i, made))
    ensures Inv(cfg, Do(cfg, s, PutPush(i, made)).(compactor := Resting))
  {
    CompactorMove(cfg, s, Resting);
    StepKeepsInv(cfg, s.(compactor := Resting), PutPush(i, made));
    assert Do(cfg, s.(compactor := Resting), PutPush(i, made)) == Do(cfg, s, PutPush(i, made)).(compactor := Resting);
  }

  /** Only the put's own segment matters: the push is safe exactly when the manifest
      has no chunk in it, or its commit was built less than the window before the
      sweep began. The window says nothing about how long the push took. */
  lemma PushSafeIffYoung(cfg: Config, s: Sys, i: ClientId, made: int)
    requires Inv(cfg, s) && s.compactor.Sweeping? && Enabled(cfg, s, PutPush(i, made))
    ensures var c := s.At(i);
      PushSafe(cfg, s, c, made) <==>
        || c.own.None? || (forall r :: r in ManifestRefs(c.m) ==> r.Key() != c.own.value.key)
        || c.own.value.key in s.compactor.referenced || s.compactor.since - made < cfg.window
  {
    var c := s.At(i);
    assert ClientOk(cfg, s, s.clients[i]);
    forall r | r in ManifestRefs(c.m) && (c.own.None? || r.Key() != c.own.value.key)
      ensures Kept(DiskPushed(s, c.own, made), s.compactor.referenced, s.compactor.since, cfg.window, r.Key())
    {
      assert r in Pending(s.clients[i], |s.log|);
    }
  }

  lemma TipKeptAfterPush(cfg: Config, s: Sys, i: ClientId, made: int)
    requires Inv(cfg, s) && s.compactor.Sweeping? && Enabled(cfg, s, PutPush(i, made))
    ensures var t := Do(cfg, s, PutPush(i, made));
      forall r :: r in Refs(t.Tip().ns) ==> Kept(t.disk, s.compactor.referenced, s.compactor.since, cfg.window, r.Key())
  {
    assert ClientOk(cfg, s, s.clients[i]);
    assert Do(cfg, s, PutPush(i, made)).Tip() == s.Tip();
    assert forall r :: r in Refs(s.Tip().ns) ==> r.Key() in s.disk;
  }

  // ---------- the race, concretely ----------

  /** Some run of the protocol, disciplined or not, gets here. */
  ghost predicate Reachable(cfg: Config, s: Sys) {
    exists run :: Legal(cfg, INIT, run) && After(cfg, INIT, run) == s
  }

  lemma {:induction false} LegalSnoc(cfg: Config, s: Sys, run: seq<Action>, a: Action)
    requires Legal(cfg, s, run) && Enabled(cfg, After(cfg, s, run), a)
    ensures Legal(cfg, s, run + [a]) && After(cfg, s, run + [a]) == Do(cfg, After(cfg, s, run), a)
    decreases |run|
  {
    if run == [] {
      assert run + [a] == [a];
      assert [a][1..] == [];
    } else {
      assert (run + [a])[1..] == run[1..] + [a];
      LegalSnoc(cfg, Do(cfg, s, run[0]), run[1..], a);
    }
  }

  lemma ReachStep(cfg: Config, s: Sys, a: Action)
    requires Reachable(cfg, s) && Enabled(cfg, s, a)
    ensures Reachable(cfg, Do(cfg, s, a))
  {
    var run :| Legal(cfg, INIT, run) && After(cfg, INIT, run) == s;
    LegalSnoc(cfg, INIT, run, a);
  }

  lemma {:induction false} ReachRun(cfg: Config, s: Sys, run: seq<Action>)
    requires Reachable(cfg, s) && Legal(cfg, s, run)
    ensures Reachable(cfg, After(cfg, s, run))
    decreases |run|
  {
    if run == [] {
    } else {
      ReachStep(cfg, s, run[0]);
      ReachRun(cfg, Do(cfg, s, run[0]), run[1..]);
    }
  }

  lemma GuardedReachStep(cfg: Config, s: Sys, a: Action)
    requires cfg.Valid() && Reachable(cfg, s) && Inv(cfg, s)
    requires Enabled(cfg, s, a) && Guarded(cfg, s, a)
    ensures Reachable(cfg, Do(cfg, s, a)) && Inv(cfg, Do(cfg, s, a))
  {
    ReachStep(cfg, s, a);
    StepKeepsInv(cfg, s, a);
  }

  /** A reachable, consistent state in which the compactor rests. */
  ghost predicate AtRest(cfg: Config, s: Sys) {
    cfg.Valid() && Reachable(cfg, s) && Inv(cfg, s) && s.compactor.Resting?
  }

  /** A client in an undisturbed store builds its record on the tip. */
  lemma BuildOp(cfg: Config, s: Sys, i: ClientId, op: Op) returns (t: Sys, txn: Txn)
    requires AtRest(cfg, s) && s.At(i) == Ready(op, 0) && !op.CompactOp? && !Reflected(s.Tip().ns, op)
    ensures AtRest(cfg, t) && Encodes(s.log, txn, op, cfg.interval)
    ensures t == s.With(i, Built(op, |s.log|, txn, 0))
  {
    txn := SomeEncoding(s.log, op, cfg.interval);
    GuardedReachStep(cfg, s, ReadTip(i, txn));
    t := Do(cfg, s, ReadTip(i, txn));
  }

  lemma WinningSwap(cfg: Config, s: Sys, i: ClientId, op: Op, txn: Txn) returns (t: Sys)
    requires Encodes(s.log, txn, op, cfg.interval)
    ensures var u := s.With(i, Built(op, |s.log|, txn, 0));
      Enabled(cfg, u, Cas(i, Won)) && t == Do(cfg, u, Cas(i, Won))
    ensures t.Tip() == ApplyOp(s.Tip(), op) && t.compactor == s.compactor
    ensures t.disk == s.disk && t.issued == s.issued && t.now == s.now && t.clients == s.clients[i := Idle]
  {
    t := Do(cfg, s.With(i, Built(op, |s.log|, txn, 0)), Cas(i, Won));
    EncodedStep(s.log, txn, op, cfg.interval);
    assert t.clients == s.clients[i := Idle];
  }

  /** It then records its operation. */
  lemma RecordOp(cfg: Config, s: Sys, i: ClientId, op: Op) returns (t: Sys)
    requires AtRest(cfg, s) && s.At(i) == Ready(op, 0) && !op.CompactOp? && !Reflected(s.Tip().ns, op)
    ensures AtRest(cfg, t) && t.Tip() == ApplyOp(s.Tip(), op)
    ensures t.disk == s.disk && t.issued == s.issued && t.now == s.now && t.clients == s.clients[i := Idle]
  {
    var u, txn := BuildOp(cfg, s, i, op);
    t := WinningSwap(cfg, s, i, op, txn);
    GuardedReachStep(cfg, u, Cas(i, Won));
  }

  /** A put with all of its chunks in its own new segment, up to the push. */
  lemma PushFile(cfg: Config, s: Sys, i: ClientId, m: Manifest, own: Own) returns (t: Sys)
    requires AtRest(cfg, s) && s.At(i).Idle?
    requires own.key.seg == Random(s.issued) && own.blobs != map[]
    requires forall id :: id in own.blobs ==> id == Blake3(own.blobs[id])
    requires forall c :: c in ManifestRefs(m) ==> c.Key() == own.key && c.id in own.blobs
    ensures AtRest(cfg, t) && t.log == s.log && t.ops == s.ops
    ensures t.disk == s.disk[own.key := Segment(own.blobs, s.now)] && t.issued == s.issued + 1 && t.now == s.now
    ensures t.clients == s.clients[i := Ready(PutOp(m, SealsOf(Some(own))), 0)]
  {
    GuardedReachStep(cfg, s, PutPlan(i, m, Some(own)));
    var u := Do(cfg, s, PutPlan(i, m, Some(own)));
    GuardedReachStep(cfg, u, PutPush(i, s.now));
    t := Do(cfg, u, PutPush(i, s.now));
    assert t.log == s.log;
  }

  /** The same put, start to finish. */
  lemma StoreFile(cfg: Config, s: Sys, i: ClientId, m: Manifest, own: Own) returns (t: Sys)
    requires AtRest(cfg, s) && s.At(i).Idle? && m.name !in s.Tip().ns
    requires own.key.seg == Random(s.issued) && own.blobs != map[]
    requires forall id :: id in own.blobs ==> id == Blake3(own.blobs[id])
    requires forall c :: c in ManifestRefs(m) ==> c.Key() == own.key && c.id in own.blobs
    ensures AtRest(cfg, t) && t.Tip().ns == s.Tip().ns[m.name := m]
    ensures t.disk == s.disk[own.key := Segment(own.blobs, s.now)]
    ensures t.issued == s.issued + 1 && t.now == s.now && t.clients == s.clients[i := Idle]
  {
    var w := PushFile(cfg, s, i, m, own);
    t := RecordOp(cfg, w, i, PutOp(m, SealsOf(Some(own))));
    assert t.clients == s.clients[i := Idle];
  }

  lemma DropFile(cfg: Config, s: Sys, i: ClientId, name: Name) returns (t: Sys)
    requires AtRest(cfg, s) && s.At(i).Idle? && name in s.Tip().ns
    ensures AtRest(cfg, t) && t.Tip().ns == s.Tip().ns - {name}
    ensures t.disk == s.disk && t.now == s.now && t.clients == s.clients[i := Idle]
  {
    GuardedReachStep(cfg, s, RemoveStart(i, name));
    var u := Do(cfg, s, RemoveStart(i, name));
    assert u.Tip() == s.Tip();
    t := RecordOp(cfg, u, i, RemoveOp(name));
    assert t.clients == s.clients[i := Idle];
  }

  ghost predicate AllIdle(s: Sys) {
    forall i :: i in s.clients ==> s.clients[i].Idle?
  }

  /** Client 0 stores two files on "v0" and removes the larger one. */
  lemma StoreAndDrop(cfg: Config, c: ChunkRef, d: ChunkRef, a: Manifest, z: Manifest) returns (s: Sys)
    requires cfg.Valid() && a.chunks == [c] && z.chunks == [d] && a.name != z.name
    requires c.id == Blake3([1]) && c.seg == Random(0) && d.id == Blake3([3, 3]) && d.seg == Random(1)
    ensures AtRest(cfg, s) && s.Tip().ns == map[a.name := a] && AllIdle(s)
  {
    assert Legal(cfg, INIT, []) && After(cfg, INIT, []) == INIT;
    InitInv(cfg);
    assert INIT.Tip() == EMPTY;
    assert c.id in map[c.id := [1]] && d.id in map[d.id := [3, 3]];
    var s1 := StoreFile(cfg, INIT, 0, a, Own(c.Key(), map[c.id := [1]]));
    var s2 := StoreFile(cfg, s1, 0, z, Own(d.Key(), map[d.id := [3, 3]]));
    s := DropFile(cfg, s2, 0, z.name);
    assert s.Tip().ns == map[a.name := a];
  }

  /** Volume "v0" holds one live chunk and a larger dead one; while it is being
      compacted, a second put of the live content deduplicates against the old
      placement and is still in flight when the retirement commits. The code
      allows every one of these steps, and the store can then reach a tip that
      references wiped data. */
  lemma DeduplicationRace()
    ensures exists s :: Reachable(Config(128, 3600), s) && !TipSafe(s)
  {
    var cfg := Config(128, 3600);
    var c := ChunkRef(Blake3([1]), Blake3([2]), 1, 1, "v0", Random(0));
    var d := ChunkRef(Blake3([3, 3]), Blake3([4, 4]), 2, 2, "v0", Random(1));
    var a := Manifest("a", 1, 1024, Blake3([2]), [c]);
    var z := Manifest("z", 2, 1024, Blake3([4, 4]), [d]);
    var s3 := StoreAndDrop(cfg, c, d, a, z);
    OnlyReference(s3.Tip().ns, a, c);
    var s4 := RewriteV0(cfg, s3, c);
    var s5 := PlanAgain(cfg, s4, c, a.(name := "b"));
    var s6 := PrepareRetirement(cfg, s5, c, a);
    assert a.(name := "b").chunks[0] == c;
    RetirementLosesData(cfg, s6, 1, c);
  }

  lemma OnlyReference(ns: Namespace, a: Manifest, c: ChunkRef)
    requires ns == map[a.name := a] && a.chunks == [c]
    ensures c in Refs(ns) && IdsOn(ns, c.vol) == {c.id}
  {
    RefAt(ns, a.name, 0);
  }

  /** Once such a put is in flight, committing the retirement leads to loss. */
  lemma RetirementLosesData(cfg: Config, s: Sys, i: ClientId, c: ChunkRef)
    requires cfg.Valid() && Reachable(cfg, s) && Inv(cfg, s) && Enabled(cfg, s, CCas(Won))
    requires i in s.clients && c in Pending(s.clients[i], |s.log| + 1) && c.vol == s.compactor.v
    ensures exists u :: Reachable(cfg, u) && !TipSafe(u)
  {
    RetirementSafeIffQuiet(cfg, s);
    var t := Do(cfg, s, CCas(Won));
    ReachStep(cfg, s, CCas(Won));
    var run :| Legal(cfg, t, run) && Disciplined(cfg, t, run) && !TipSafe(After(cfg, t, run));
    ReachRun(cfg, t, run);
  }

  /** The compactor copies the live chunk of "v0" to "v1". */
  lemma RewriteV0(cfg: Config, s: Sys, c: ChunkRef) returns (t: Sys)
    requires AtRest(cfg, s) && c in Refs(s.Tip().ns) && c.vol == "v0" && IdsOn(s.Tip().ns, "v0") == {c.id}
    ensures Reachable(cfg, t) && Inv(cfg, t) && t.Tip() == s.Tip() && t.clients == s.clients
    ensures t.compactor == Rewritten(s.Tip(), "v0", SegKey("v1", Derived("v0", {c.id})), {c.id}, 0)
  {
    GuardedReachStep(cfg, s, CBegin);
    var u := Do(cfg, s, CBegin);
    var blobs := map[c.id := s.disk[c.Key()].blobs[c.id]];
    assert ReadFrom(u.disk, u.compactor.snap.ns, "v0", blobs);
    GuardedReachStep(cfg, u, CRewrite("v0", "v1", blobs, u.now));
    t := Do(cfg, u, CRewrite("v0", "v1", blobs, u.now));
  }

  /** Rebuilding the only file is repointing the whole namespace. */
  lemma OneFileRepointed(ns: Namespace, a: Manifest, v: VolId, dest: SegKey)
    requires ns == map[a.name := a]
    ensures InsertAll(ns, [MoveManifest(a, v, dest)]) == Repointed(ns, v, dest)
  {
    var moved := MoveManifest(a, v, dest);
    assert InsertAll(ns, [moved]) == InsertAll(ns[a.name := moved], []);
  }

  /** Client 1 plans a put of the content already placed at `c`. */
  lemma PlanAgain(cfg: Config, s: Sys, c: ChunkRef, b: Manifest) returns (t: Sys)
    requires cfg.Valid() && Reachable(cfg, s) && Inv(cfg, s) && s.At(1).Idle? && !s.compactor.Retired?
    requires b.chunks == [c] && c in Refs(s.Tip().ns)
    ensures Reachable(cfg, t) && Inv(cfg, t) && t.Tip() == s.Tip() && t.compactor == s.compactor
    ensures t.disk == s.disk && t.now == s.now && t.clients == s.clients[1 := Planned(b, None, s.now)]
  {
    assert forall r :: r in ManifestRefs(b) ==> r == c;
    GuardedReachStep(cfg, s, PutPlan(1, b, None));
    t := Do(cfg, s, PutPlan(1, b, None));
  }

  /** The compactor prepares its CAS on a tip that holds one file. */
  lemma PrepareRetirement(cfg: Config, s: Sys, c: ChunkRef, a: Manifest) returns (t: Sys)
    requires cfg.Valid() && Reachable(cfg, s) && Inv(cfg, s)
    requires s.compactor.Rewritten? && s.compactor.moved == {c.id} && s.Tip().ns == map[a.name := a]
    requires c in Refs(s.Tip().ns) && c.vol == s.compactor.v && IdsOn(s.Tip().ns, c.vol) == {c.id}
    ensures Reachable(cfg, t) && Inv(cfg, t) && Enabled(cfg, t, CCas(Won))
    ensures t.compactor.v == c.vol && t.clients == s.clients && t.compactor.tries == s.compactor.tries
    ensures t.Tip() == s.Tip()
  {
    var moved := MoveManifest(a, c.vol, s.compactor.dest);
    OneFileRepointed(s.Tip().ns, a, c.vol, s.compactor.dest);
    GuardedReachStep(cfg, s, CReadTip([moved]));
    t := Do(cfg, s, CReadTip([moved]));
  }

  // ---------- the sweep's race, concretely ----------

  /** A file is stored, a second put of its content deduplicates against it, and
      the file is removed; an hour later, with the put still in flight, a sweep
      starts. The code allows every step, and the store can then reach a tip that
      references a swept segment. */
  lemma SweepRace() returns (s: Sys)
    ensures Reachable(Config(128, 3600), s) && Enabled(Config(128, 3600), s, CSweepBegin)
    ensures !SweepSafe(Config(128, 3600), s)
    ensures exists u :: Reachable(Config(128, 3600), u) && !TipSafe(u)
  {
    var cfg := Config(128, 3600);
    var c := ChunkRef(Blake3([1]), Blake3([2]), 1, 1, "v0", Random(0));
    var a := Manifest("a", 1, 1024, Blake3([2]), [c]);
    var b := a.(name := "b");
    var planned := PlanThenDrop(cfg, c, a, b);
    GuardedReachStep(cfg, planned, Tick(3600));
    var later := Do(cfg, planned, Tick(3600));
    GuardedReachStep(cfg, later, CBegin);
    s := Do(cfg, later, CBegin);
    assert s.Tip() == planned.Tip();
    assert b.chunks[0] == c;
    assert c in Pending(s.clients[1], |s.log|);
    assert !Kept(s.disk, Keys(Refs(s.Tip().ns)), s.now, cfg.window, c.Key());
    SweepSafeIff(cfg, s);
    var t := Do(cfg, s, CSweepBegin);
    ReachStep(cfg, s, CSweepBegin);
    var run :| Legal(cfg, t, run) && Disciplined(cfg, t, run) && !TipSafe(After(cfg, t, run));
    ReachRun(cfg, t, run);
  }

  lemma PlanThenDrop(cfg: Config, c: ChunkRef, a: Manifest, b: Manifest) returns (s: Sys)
    requires cfg.Valid() && a.chunks == [c] && b.chunks == [c] && c.id == Blake3([1]) && c.seg == Random(0)
    ensures AtRest(cfg, s) && s.Tip().ns == map[] && s.now == 0
    ensures 1 in s.clients && s.clients[1] == Planned(b, None, 0)
    ensures c.Key() in s.disk && s.disk[c.Key()].time == 0
  {
    assert Legal(cfg, INIT, []) && After(cfg, INIT, []) == INIT;
    InitInv(cfg);
    assert INIT.Tip() == EMPTY;
    assert c.id in map[c.id := [1]];
    var s1 := StoreFile(cfg, INIT, 0, a, Own(c.Key(), map[c.id := [1]]));
    OnlyReference(s1.Tip().ns, a, c);
    var s2 := PlanAgain(cfg, s1, c, b);
    s := DropFile(cfg, s2, 0, a.name);
    assert s.Tip().ns == map[];
  }

  // ---------- a slow push, concretely ----------

  /** A put plans a file and builds the segment's commit at time 0; the push takes
      as long as the window is wide, and then a sweep starts. The code allows the
      push to become visible in its midst, and the store can go on to a tip that
      references a swept segment. No window is wide enough to prevent that. */
  lemma SlowPushRace(window: int, delay: nat) returns (s: Sys)
    requires window <= delay
    ensures Reachable(Config(128, window), s) && Inv(Config(128, window), s) && s.compactor.Sweeping?
    ensures Enabled(Config(128, window), s, PutPush(0, 0)) && !PushSafe(Config(128, window), s, s.At(0), 0)
    ensures exists u :: Reachable(Config(128, window), u) && !TipSafe(u)
  {
    var cfg := Config(128, window);
    var c := ChunkRef(Blake3([1]), Blake3([2]), 1, 1, "v0", Random(0));
    var m := Manifest("a", 1, 1024, Blake3([2]), [c]);
    s := SweepStarts(cfg, m, Own(c.Key(), map[c.id := [1]]), c, delay);
    assert m.chunks[0] == c;
    assert !Kept(DiskPushed(s, s.At(0).own, 0), s.compactor.referenced, s.compactor.since, cfg.window, c.Key());
    PushDuringSweepSafeIff(cfg, s, 0, 0);
    UnsafeStepIsReached(cfg, s, PutPush(0, 0));
  }

  lemma SweepStarts(cfg: Config, m: Manifest, own: Own, c: ChunkRef, delay: nat) returns (s: Sys)
    requires cfg.Valid() && m.chunks == [c] && own.key == c.Key() && c.seg == Random(0)
    requires own.blobs == map[c.id := [1]] && c.id == Blake3([1])
    ensures Reachable(cfg, s) && Inv(cfg, s) && s.now == delay
    ensures s.compactor == Sweeping({}, delay) && s.At(0) == Planned(m, Some(own), 0)
  {
    assert Legal(cfg, INIT, []) && After(cfg, INIT, []) == INIT;
    InitInv(cfg);
    assert INIT.Tip() == EMPTY;
    assert c.id in own.blobs;
    GuardedReachStep(cfg, INIT, PutPlan(0, m, Some(own)));
    var s1 := Do(cfg, INIT, PutPlan(0, m, Some(own)));
    GuardedReachStep(cfg, s1, Tick(delay));
    var s2 := Do(cfg, s1, Tick(delay));
    GuardedReachStep(cfg, s2, CBegin);
    var s3 := Do(cfg, s2, CBegin);
    assert s3.Tip() == EMPTY && s3.disk == map[];
    GuardedReachStep(cfg, s3, CSweepBegin);
    s := Do(cfg, s3, CSweepBegin);
    assert Keys(Refs(s3.Tip().ns)) == {};
  }

  lemma UnsafeStepIsReached(cfg: Config, s: Sys, a: Action)
    requires Reachable(cfg, s) && Enabled(cfg, s, a) && !AllRunsSafe(cfg, Do(cfg, s, a))
    ensures exists u :: Reachable(cfg, u) && !TipSafe(u)
  {
    var t := Do(cfg, s, a);
    ReachStep(cfg, s, a);
    var run :| Legal(cfg, t, run) && Disciplined(cfg, t, run) && !TipSafe(After(cfg, t, run));
    ReachRun(cfg, t, run);
  }
}
