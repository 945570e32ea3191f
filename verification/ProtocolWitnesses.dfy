/** Runs from the empty store into the states that the theorems on races and
    retries start from. */
module ProtocolWitnesses {
  import opened Prelude
  import opened Manifests
  import opened Log
  import opened Repoint
  import opened Accounting
  import opened Protocol
  import opened ProtocolSafety
  import opened ProtocolRaces
  import opened ProtocolRetries

  const CFG := Config(128, 3600)

  lemma InvGivesLogInv(cfg: Config, s: Sys)
    requires Inv(cfg, s)
    ensures LogInv(cfg, s)
  {
    forall i | i in s.clients && s.clients[i].Built?
      ensures BuiltOk(cfg, s, s.clients[i].op, s.clients[i].base, s.clients[i].txn)
    {
      assert ClientOk(cfg, s, s.clients[i]);
    }
  }

  lemma EmptyStore()
    ensures AtRest(CFG, INIT) && INIT.Tip() == EMPTY
  {
    assert Legal(CFG, INIT, []) && After(CFG, INIT, []) == INIT;
    InitInv(CFG);
  }

  function ChunkOf(b: Byte, nonce: nat): ChunkRef {
    ChunkRef(Blake3([b]), Blake3([b, b]), 2, 1, "v0", Random(nonce))
  }

  function FileOf(name: Name, c: ChunkRef): Manifest {
    Manifest(name, 2, 1024, c.plaintextHash, [c])
  }

  function SegmentOf(c: ChunkRef): Own {
    Own(c.Key(), map[c.id := c.id.of])
  }

  /** A client has pushed a file of one chunk and is ready to commit it. */
  lemma ReadyToCommit(s: Sys, i: ClientId, name: Name, b: Byte) returns (t: Sys)
    requires AtRest(CFG, s) && s.At(i).Idle?
    ensures AtRest(CFG, t) && t.log == s.log && t.ops == s.ops && t.issued == s.issued + 1
    ensures var c := ChunkOf(b, s.issued);
      t.clients == s.clients[i := Ready(PutOp(FileOf(name, c), SealsOf(Some(SegmentOf(c)))), 0)]
  {
    var c := ChunkOf(b, s.issued);
    assert c.id in SegmentOf(c).blobs;
    t := PushFile(CFG, s, i, FileOf(name, c), SegmentOf(c));
  }

  // ---------- retries ----------

  /** The put of the very first file fails, and its record is in the log. */
  lemma FirstPutFailsYetRecorded() returns (t: Sys)
    ensures Reachable(CFG, t) && t.At(0).Idle? && |t.ops| == 1
    ensures t.ops[0].PutOp? && Reflected(t.Tip().ns, t.ops[0])
  {
    EmptyStore();
    var s := ReadyToCommit(INIT, 0, "a", 1);
    var run := LastAttemptFails(CFG, s, 0);
    ReachRun(CFG, s, run);
    t := After(CFG, s, run);
  }

  /** Two clients put different bytes under one name; the second to commit is
      overridden by the first one's retry, and both calls have ended. */
  lemma SecondPutOverridden() returns (t: Sys)
    ensures Reachable(CFG, t) && t.At(0).Idle? && t.At(1).Idle? && |t.ops| == 3
    ensures t.ops[0].PutOp? && t.ops[1].PutOp? && t.ops[2] == t.ops[0]
    ensures t.ops[1].m.name == t.ops[0].m.name && t.ops[1].m.fileHash != t.ops[0].m.fileHash
    ensures Reflected(t.Tip().ns, t.ops[0]) && !Reflected(t.Tip().ns, t.ops[1])
  {
    EmptyStore();
    var s0 := ReadyToCommit(INIT, 0, "a", 1);
    var s1 := ReadyToCommit(s0, 1, "a", 2);
    assert s1.Tip() == EMPTY;
    var s, _ := BuildOp(CFG, s1, 0, s1.At(0).op);
    InvGivesLogInv(CFG, s);
    var run := LostAckOverridesLaterPut(CFG, s, 0, 1);
    ReachRun(CFG, s, run);
    t := After(CFG, s, run);
  }

  // ---------- a retirement about to be committed ----------

  /** "v0" holds a live chunk and a dead one, has been rewritten, and its
      retirement is built on the tip; no client is active. */
  lemma AboutToRetire() returns (s: Sys, c: ChunkRef)
    ensures Reachable(CFG, s) && Inv(CFG, s) && Enabled(CFG, s, CCas(Won)) && s.compactor.tries == 0
    ensures c in Refs(s.Tip().ns) && c.vol == s.compactor.v == "v0" && AllIdle(s)
  {
    c := ChunkRef(Blake3([1]), Blake3([2]), 1, 1, "v0", Random(0));
    var d := ChunkRef(Blake3([3, 3]), Blake3([4, 4]), 2, 2, "v0", Random(1));
    var a := Manifest("a", 1, 1024, Blake3([2]), [c]);
    var z := Manifest("z", 2, 1024, Blake3([4, 4]), [d]);
    var s3 := StoreAndDrop(CFG, c, d, a, z);
    OnlyReference(s3.Tip().ns, a, c);
    var s4 := RewriteV0(CFG, s3, c);
    s := PrepareRetirement(CFG, s4, c, a);
  }

  lemma FreshlyRetired() returns (s: Sys)
    ensures Reachable(CFG, s) && Inv(CFG, s) && s.compactor.Retired? && s.compactor.v == "v0"
    ensures NothingOn(s.Tip(), "v0") && AllIdle(s)
  {
    var r, _ := AboutToRetire();
    GuardedReachStep(CFG, r, CCas(Won));
    s := Do(CFG, r, CCas(Won));
    RetiredLeavesNothing(r);
  }

  /** A put can choose the volume being wiped: it is empty in the accounting by
      then. If it does, the wipe can take its data. */
  lemma PutChoosesWipedVolume() returns (s: Sys, m: Manifest, own: Own)
    ensures Reachable(CFG, s) && s.compactor.Retired? && NothingOn(s.Tip(), s.compactor.v)
    ensures Enabled(CFG, s, PutPlan(0, m, Some(own))) && own.key.vol == s.compactor.v
    ensures exists u :: Reachable(CFG, u) && !TipSafe(u)
  {
    s := FreshlyRetired();
    var c := ChunkOf(5, s.issued);
    m, own := FileOf("b", c), SegmentOf(c);
    assert m.chunks[0] == c && c.id in own.blobs;
    assert c in ManifestRefs(m);
    PlanDuringWipeSafeIff(CFG, s, 0, m, Some(own));
    UnsafeStepIsReached(CFG, s, PutPlan(0, m, Some(own)));
  }

  lemma RetiredLeavesNothing(s: Sys)
    requires Inv(CFG, s) && Enabled(CFG, s, CCas(Won))
    ensures NothingOn(Do(CFG, s, CCas(Won)).Tip(), s.compactor.v)
  {
    InvGivesLogInv(CFG, s);
    SwapRetires(CFG, s);
    assert Do(CFG, s, CCas(Won)).log == Do(CFG, s, CCas(AckLost)).log;
  }

  /** One more refused swap. */
  lemma RefuseOnce(s: Sys) returns (t: Sys)
    requires Reachable(CFG, s) && Inv(CFG, s) && Enabled(CFG, s, CCas(AckLost)) && s.compactor.tries + 1 < MAX_CAS_RETRIES
    requires !NothingOn(s.Tip(), s.compactor.v)
    ensures Reachable(CFG, t) && Inv(CFG, t) && Enabled(CFG, t, CCas(AckLost)) && t.compactor.tries == s.compactor.tries + 1
    ensures t.Tip() == s.Tip() && t.disk == s.disk && t.compactor.v == s.compactor.v
  {
    var repoint := s.compactor.op.repoint;
    assert s.log[..s.compactor.base] == s.log;
    GuardedReachStep(CFG, s, CCas(Lost));
    var u := Do(CFG, s, CCas(Lost));
    assert u.Tip() == s.Tip();
    assert s.compactor.op == CompactOp([s.compactor.v], s.compactor.op.compactSeals, repoint);
    GuardedReachStep(CFG, u, CReadTip(repoint));
    t := Do(CFG, u, CReadTip(repoint));
    assert t.Tip() == s.Tip();
  }

  lemma {:induction false} RefuseAllButLast(s: Sys) returns (t: Sys)
    requires Reachable(CFG, s) && Inv(CFG, s) && Enabled(CFG, s, CCas(AckLost)) && !NothingOn(s.Tip(), s.compactor.v)
    ensures Reachable(CFG, t) && Inv(CFG, t) && Enabled(CFG, t, CCas(AckLost))
    ensures t.compactor.tries + 1 == MAX_CAS_RETRIES && t.disk == s.disk && t.compactor.v == s.compactor.v
    decreases MAX_CAS_RETRIES - s.compactor.tries
  {
    if s.compactor.tries + 1 == MAX_CAS_RETRIES {
      t := s;
    } else {
      var u := RefuseOnce(s);
      t := RefuseAllButLast(u);
    }
  }

  /** A volume retired in the log whose compactor has given up: nothing is left on
      it for a later pass to select, and its segments are all still there. */
  lemma RetiredVolumeLeft() returns (t: Sys, v: VolId)
    ensures Reachable(CFG, t) && t.compactor.Passing? && NothingOn(t.Tip(), v)
    ensures exists key :: key in t.disk && key.vol == v
  {
    var r, c := AboutToRetire();
    assert Resolves(r.disk, c);
    assert c.id in IdsOn(r.Tip().ns, "v0");
    var s := RefuseAllButLast(r);
    v := s.compactor.v;
    InvGivesLogInv(CFG, s);
    LostAckOnLastAttemptLeavesVolume(CFG, s);
    ReachStep(CFG, s, CCas(AckLost));
    t := Do(CFG, s, CCas(AckLost));
    assert c.Key() in t.disk;
  }
}
