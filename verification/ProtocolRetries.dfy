/** What the retry loops make of a compare-and-swap that took effect but was
    reported lost, whatever the other clients do before the tip is read again. */
module ProtocolRetries {
  import opened Prelude
  import opened Manifests
  import opened Log
  import opened Repoint
  import opened Accounting
  import opened Protocol
  import opened ProtocolSafety
  import opened ProtocolRaces

  // ---------- the manifest under one name ----------

  function NameOf(op: Op): Name
    requires !op.CompactOp?
  {
    if op.PutOp? then op.m.name else op.name
  }

  function Lookup(ns: Namespace, name: Name): Option<Manifest> {
    if name in ns then Some(ns[name]) else None
  }

  /** The last manifest of that name in a list, or what there was before. */
  function LastNamed(ms: seq<Manifest>, name: Name, held: Option<Manifest>): Option<Manifest>
    decreases |ms|
  {
    if ms == [] then held else LastNamed(ms[1..], name, if ms[0].name == name then Some(ms[0]) else held)
  }

  /** What one operation leaves under a name. */
  function Leaves(name: Name, held: Option<Manifest>, op: Op): Option<Manifest> {
    match op
    case PutOp(m, _) => if m.name == name then Some(m) else held
    case RemoveOp(n) => if n == name then None else held
    case CompactOp(_, _, repoint) => LastNamed(repoint, name, held)
  }

  function Under(name: Name, held: Option<Manifest>, ops: seq<Op>): Option<Manifest>
    decreases |ops|
  {
    if ops == [] then held else Under(name, Leaves(name, held, ops[0]), ops[1..])
  }

  lemma {:induction false} InsertAllLookup(ns: Namespace, ms: seq<Manifest>, name: Name)
    ensures Lookup(InsertAll(ns, ms), name) == LastNamed(ms, name, Lookup(ns, name))
    decreases |ms|
  {
    if ms == [] {
    } else {
      InsertAllLookup(ns[ms[0].name := ms[0]], ms[1..], name);
    }
  }

  lemma LeavesIsLookup(st: State, op: Op, name: Name)
    ensures Lookup(ApplyOp(st, op).ns, name) == Leaves(name, Lookup(st.ns, name), op)
  {
    if op.CompactOp? {
      InsertAllLookup(st.ns, op.repoint, name);
    }
  }

  /** The operation's effect is what the name holds. */
  predicate Settled(op: Op, held: Option<Manifest>)
    requires !op.CompactOp?
  {
    held == if op.PutOp? then Some(op.m) else None
  }

  // ---------- runs in which one client does not act ----------

  function Actor(a: Action): Option<ClientId> {
    match a
    case Crash(i) => Some(i)
    case PutPlan(i, _, _) => Some(i)
    case PutPush(i, _) => Some(i)
    case RemoveStart(i, _) => Some(i)
    case ReadTip(i, _) => Some(i)
    case Cas(i, _) => Some(i)
    case _ => None
  }

  predicate Bystanders(run: seq<Action>, i: ClientId) {
    forall k :: 0 <= k < |run| ==> Actor(run[k]) != Some(i)
  }

  lemma StepUnder(cfg: Config, s: Sys, a: Action, name: Name)
    requires LogInv(cfg, s) && Enabled(cfg, s, a)
    ensures Lookup(Do(cfg, s, a).Tip().ns, name) == Under(name, Lookup(s.Tip().ns, name), Appended(s, a))
  {
    if Appended(s, a) == [] {
      assert Do(cfg, s, a).log == s.log;
    } else {
      var op := Appended(s, a)[0];
      var txn := if a.Cas? then s.At(a.i).txn else s.compactor.txn;
      assert s.log[..|s.log|] == s.log;
      EncodedStep(s.log, txn, op, cfg.interval);
      LeavesIsLookup(s.Tip(), op, name);
      assert [op][1..] == [];
    }
  }

  lemma {:induction false} UnderConcat(name: Name, held: Option<Manifest>, a: seq<Op>, b: seq<Op>)
    ensures Under(name, held, a + b) == Under(name, Under(name, held, a), b)
    decreases |a|
  {
    if a == [] {
      assert a + b == b;
    } else {
      assert (a + b)[1..] == a[1..] + b;
      UnderConcat(name, Leaves(name, held, a[0]), a[1..], b);
    }
  }

  /** Along any run the name holds what the records appended leave there, and a
      client that does not act stays where it is. */
  lemma {:induction false} RunUnder(cfg: Config, s: Sys, run: seq<Action>, i: ClientId, name: Name)
    requires LogInv(cfg, s) && Legal(cfg, s, run) && Bystanders(run, i) && i in s.clients
    ensures var u := After(cfg, s, run);
      && Lookup(u.Tip().ns, name) == Under(name, Lookup(s.Tip().ns, name), Effective(cfg, s, run))
      && i in u.clients && u.clients[i] == s.clients[i]
    decreases |run|
  {
    if run == [] {
    } else {
      var t := Do(cfg, s, run[0]);
      StepKeepsLogInv(cfg, s, run[0]);
      StepUnder(cfg, s, run[0], name);
      RunUnder(cfg, t, run[1..], i, name);
      UnderConcat(name, Lookup(s.Tip().ns, name), Appended(s, run[0]), Effective(cfg, t, run[1..]));
    }
  }

  // ---------- a put or remove ----------

  /** The client's next read of the tip recognises its own effect. */
  ghost predicate Recognises(cfg: Config, s: Sys, i: ClientId) {
    && (exists txn :: Enabled(cfg, s, ReadTip(i, txn)))
    && forall txn :: Enabled(cfg, s, ReadTip(i, txn)) ==> Do(cfg, s, ReadTip(i, txn)) == s.With(i, Idle)
  }

  /** The client can go on to record its operation once more. */
  ghost predicate RecordsAgain(cfg: Config, s: Sys, i: ClientId) {
    exists txn ::
      && Legal(cfg, s, [ReadTip(i, txn), Cas(i, Won)])
      && Effective(cfg, s, [ReadTip(i, txn), Cas(i, Won)]) == [s.At(i).op]
  }

  lemma RetryOutcome(cfg: Config, s: Sys, i: ClientId)
    requires s.At(i).Ready? && !s.At(i).op.CompactOp?
    ensures var settled := Settled(s.At(i).op, Lookup(s.Tip().ns, NameOf(s.At(i).op)));
      (settled <==> Recognises(cfg, s, i)) && (!settled <==> RecordsAgain(cfg, s, i))
  {
    var op := s.At(i).op;
    var txn := SomeEncoding(s.log, op, cfg.interval);
    assert Enabled(cfg, s, ReadTip(i, txn));
    forall x | Enabled(cfg, s, ReadTip(i, x))
      ensures var t := Do(cfg, s, ReadTip(i, x));
        if Reflected(s.Tip().ns, op) then t == s.With(i, Idle) && !Enabled(cfg, t, Cas(i, Won))
        else t.At(i).Built? && Enabled(cfg, t, Cas(i, Won)) && t.At(i).op == op
    {
    }
    forall x
      ensures Legal(cfg, s, [ReadTip(i, x), Cas(i, Won)]) <==> Enabled(cfg, s, ReadTip(i, x)) && !Reflected(s.Tip().ns, op)
      ensures Legal(cfg, s, [ReadTip(i, x), Cas(i, Won)]) ==> Effective(cfg, s, [ReadTip(i, x), Cas(i, Won)]) == [op]
    {
      TwoLegal(cfg, s, ReadTip(i, x), Cas(i, Won));
    }
  }

  lemma OneLegal(cfg: Config, s: Sys, a: Action)
    ensures Legal(cfg, s, [a]) <==> Enabled(cfg, s, a)
    ensures Legal(cfg, s, [a]) ==> Effective(cfg, s, [a]) == Appended(s, a)
  {
    assert [a][1..] == [];
  }

  lemma TwoLegal(cfg: Config, s: Sys, a: Action, b: Action)
    ensures Legal(cfg, s, [a, b]) <==> Enabled(cfg, s, a) && Enabled(cfg, Do(cfg, s, a), b)
    ensures Legal(cfg, s, [a, b]) ==> Effective(cfg, s, [a, b]) == Appended(s, a) + Appended(Do(cfg, s, a), b)
  {
    assert [a, b][1..] == [b];
    if Enabled(cfg, s, a) {
      OneLegal(cfg, Do(cfg, s, a), b);
    }
  }

  /** A lost acknowledgement, exactly: after any run of the others, the client
      writes a second record if and only if what they recorded meanwhile leaves
      something else under the name; otherwise it finishes without one. */
  lemma SecondRecordIff(cfg: Config, s: Sys, i: ClientId, run: seq<Action>)
    requires LogInv(cfg, s) && Enabled(cfg, s, Cas(i, AckLost)) && !s.At(i).op.CompactOp?
    requires s.At(i).tries + 1 < MAX_CAS_RETRIES
    requires Legal(cfg, Do(cfg, s, Cas(i, AckLost)), run) && Bystanders(run, i)
    ensures var t := Do(cfg, s, Cas(i, AckLost));
      var u, op, meanwhile := After(cfg, t, run), s.At(i).op, Effective(cfg, t, run);
      var settled := Settled(op, Under(NameOf(op), Leaves(NameOf(op), None, op), meanwhile));
      && u.ops == s.ops + [op] + meanwhile
      && (settled <==> Recognises(cfg, u, i)) && (!settled <==> RecordsAgain(cfg, u, i))
  {
    var c := s.At(i);
    var t, name := Do(cfg, s, Cas(i, AckLost)), NameOf(c.op);
    StepKeepsLogInv(cfg, s, Cas(i, AckLost));
    StepUnder(cfg, s, Cas(i, AckLost), name);
    assert [c.op][1..] == [];
    RunUnder(cfg, t, run, i, name);
    RunKeepsLogInv(cfg, t, run);
    RetryOutcome(cfg, After(cfg, t, run), i);
  }

  /** With no record in between, whatever else happens, the client recognises its
      own effect and the log has its operation once. */
  lemma LostAckDetectedByClient(cfg: Config, s: Sys, i: ClientId, run: seq<Action>)
    requires LogInv(cfg, s) && Enabled(cfg, s, Cas(i, AckLost)) && !s.At(i).op.CompactOp?
    requires s.At(i).tries + 1 < MAX_CAS_RETRIES
    requires Legal(cfg, Do(cfg, s, Cas(i, AckLost)), run) && Bystanders(run, i)
    requires Effective(cfg, Do(cfg, s, Cas(i, AckLost)), run) == []
    ensures var u := After(cfg, Do(cfg, s, Cas(i, AckLost)), run);
      Recognises(cfg, u, i) && !RecordsAgain(cfg, u, i) && u.ops == s.ops + [s.At(i).op]
  {
    SecondRecordIff(cfg, s, i, run);
    assert s.ops + [s.At(i).op] + [] == s.ops + [s.At(i).op];
  }

  /** It need not be another put: a retirement that moved one of the file's chunks
      leaves another manifest under its name too. */
  lemma MovedManifestIsAnother(ns: Namespace, m: Manifest, v: VolId, dest: SegKey, seals: seq<SegRec>, repoint: seq<Manifest>)
    requires m.name in ns && ns[m.name] == m && Touches(m, v) && dest.vol != v
    requires InsertAll(ns, repoint) == Repointed(ns, v, dest)
    ensures Leaves(m.name, Some(m), CompactOp([v], seals, repoint)) == Some(MoveManifest(m, v, dest)) != Some(m)
  {
    InsertAllLookup(ns, repoint, m.name);
    var j :| 0 <= j < |m.chunks| && m.chunks[j].vol == v;
    assert MoveManifest(m, v, dest).chunks[j].vol == dest.vol;
  }

  /** The second record can override another client's later put. From any state
      where client `i` is about to win its swap and client `j` is ready to put
      other content under that name, the code can lose the acknowledgement, let
      `j` commit, and then commit `i`'s put once more: both calls end, and the
      later put is gone. */
  lemma LostAckOverridesLaterPut(cfg: Config, s: Sys, i: ClientId, j: ClientId) returns (run: seq<Action>)
    requires LogInv(cfg, s) && i != j
    requires s.At(i).Built? && s.At(i).op.PutOp? && s.At(i).base == |s.log| && s.At(i).tries + 1 < MAX_CAS_RETRIES
    requires s.At(j).Ready? && s.At(j).op.PutOp?
    requires s.At(j).op.m != s.At(i).op.m && s.At(j).op.m.name == s.At(i).op.m.name
    ensures Legal(cfg, s, run)
    ensures var t := After(cfg, s, run);
      var m := s.At(i).op.m;
      && t.ops == s.ops + [s.At(i).op] + [s.At(j).op] + [s.At(i).op]
      && m.name in t.Tip().ns && t.Tip().ns[m.name] == m
      && t.At(i).Idle? && t.At(j).Idle?
  {
    var c := s.At(i);
    assert Legal(cfg, s, []);
    LegalSnoc(cfg, s, [], Cas(i, AckLost));
    var lost := [] + [Cas(i, AckLost)];
    assert s.log[..c.base] == s.log;
    EncodedStep(s.log, c.txn, c.op, cfg.interval);
    var other := CommitReady(cfg, s, lost, j);
    run := CommitReady(cfg, s, other, i);
  }

  /** Extends a run by client `i` recording the operation it is ready to commit. */
  lemma CommitReady(cfg: Config, s: Sys, run: seq<Action>, i: ClientId) returns (longer: seq<Action>)
    requires Legal(cfg, s, run) && After(cfg, s, run).At(i).Ready?
    requires var u := After(cfg, s, run);
      var op := u.At(i).op;
      !op.CompactOp? && !Reflected(u.Tip().ns, op)
    ensures Legal(cfg, s, longer)
    ensures var u := After(cfg, s, run);
      var op := u.At(i).op;
      var t := After(cfg, s, longer);
      t.ops == u.ops + [op] && t.Tip() == ApplyOp(u.Tip(), op) && t.clients == u.clients[i := Idle]
  {
    var u := After(cfg, s, run);
    var op := u.At(i).op;
    var txn := SomeEncoding(u.log, op, cfg.interval);
    LegalSnoc(cfg, s, run, ReadTip(i, txn));
    var w := After(cfg, s, run + [ReadTip(i, txn)]);
    LegalSnoc(cfg, s, run + [ReadTip(i, txn)], Cas(i, Won));
    longer := run + [ReadTip(i, txn)] + [Cas(i, Won)];
    EncodedStep(u.log, txn, op, cfg.interval);
    assert w.clients[i := Idle] == u.clients[i := Idle];
  }

  // ---------- the last attempt ----------

  /** The bound on attempts makes one lost acknowledgement harmful even without
      another writer: if every swap but the last is refused and the last one takes
      effect unacknowledged, the call gives up although its record is in the log. */
  lemma {:induction false} LastAttemptFails(cfg: Config, s: Sys, i: ClientId) returns (run: seq<Action>)
    requires s.At(i).Ready? && !s.At(i).op.CompactOp? && !Reflected(s.Tip().ns, s.At(i).op)
    ensures Legal(cfg, s, run) && |run| == 2 * (MAX_CAS_RETRIES - s.At(i).tries)
    ensures run[|run| - 1] == Cas(i, AckLost)
    ensures var t := After(cfg, s, run);
      t.At(i).Idle? && t.ops == s.ops + [s.At(i).op] && Reflected(t.Tip().ns, s.At(i).op)
    decreases MAX_CAS_RETRIES - s.At(i).tries
  {
    var c := s.At(i);
    var txn := SomeEncoding(s.log, c.op, cfg.interval);
    var t := Do(cfg, s, ReadTip(i, txn));
    if c.tries + 1 == MAX_CAS_RETRIES {
      run := [ReadTip(i, txn), Cas(i, AckLost)];
      TwoSteps(cfg, s, run);
      EncodedStep(s.log, txn, c.op, cfg.interval);
    } else {
      var u := Do(cfg, t, Cas(i, Lost));
      assert u.Tip() == s.Tip();
      var rest := LastAttemptFails(cfg, u, i);
      run := [ReadTip(i, txn), Cas(i, Lost)] + rest;
      TwoStepsThen(cfg, s, ReadTip(i, txn), Cas(i, Lost), rest);
    }
  }

  lemma TwoSteps(cfg: Config, s: Sys, run: seq<Action>)
    requires |run| == 2 && Enabled(cfg, s, run[0]) && Enabled(cfg, Do(cfg, s, run[0]), run[1])
    ensures Legal(cfg, s, run) && After(cfg, s, run) == Do(cfg, Do(cfg, s, run[0]), run[1])
  {
    assert run == [run[0], run[1]] + [];
    TwoStepsThen(cfg, s, run[0], run[1], []);
  }

  lemma TwoStepsThen(cfg: Config, s: Sys, a: Action, b: Action, rest: seq<Action>)
    requires Enabled(cfg, s, a) && Enabled(cfg, Do(cfg, s, a), b)
    requires Legal(cfg, Do(cfg, Do(cfg, s, a), b), rest)
    ensures Legal(cfg, s, [a, b] + rest)
    ensures After(cfg, s, [a, b] + rest) == After(cfg, Do(cfg, Do(cfg, s, a), b), rest)
  {
    assert ([a, b] + rest)[1..] == [b] + rest;
    assert ([b] + rest)[1..] == rest;
  }

  // ---------- a retirement ----------

  /** A committed retirement leaves neither references nor records behind. */
  lemma RetirementLeavesNothing(st: State, v: VolId, dest: SegKey, moved: set<Digest>, op: Op)
    requires dest.vol != v && RetiresFrom(st, v, dest, moved, op)
    ensures NothingOn(ApplyOp(st, op), v)
  {
    NothingLeftOn(st.ns, v, dest);
  }

  /** The compactor does not act. */
  predicate CompactorWaits(run: seq<Action>) {
    forall k :: 0 <= k < |run| ==> Actor(run[k]).Some? || run[k].Tick?
  }

  lemma {:induction false} WaitingCompactor(cfg: Config, s: Sys, run: seq<Action>)
    requires LogInv(cfg, s) && Legal(cfg, s, run) && CompactorWaits(run)
    ensures After(cfg, s, run).compactor == s.compactor
    ensures Effective(cfg, s, run) == [] ==> After(cfg, s, run).log == s.log
    decreases |run|
  {
    if run == [] {
    } else {
      StepKeepsLogInv(cfg, s, run[0]);
      WaitingCompactor(cfg, Do(cfg, s, run[0]), run[1..]);
    }
  }

  /** What the compactor can do next in its retry loop: conclude that the
      retirement has landed if and only if nothing is left on the volume, and
      otherwise go on. */
  ghost predicate Concludes(cfg: Config, s: Sys) {
    && Enabled(cfg, s, CReflected) && !Enabled(cfg, s, CAbort)
    && forall repoint :: !Enabled(cfg, s, CReadTip(repoint))
  }

  lemma ConcludesIff(cfg: Config, s: Sys)
    requires s.compactor.Rewritten?
    ensures Concludes(cfg, s) <==> NothingOn(s.Tip(), s.compactor.v)
  {
  }

  lemma SwapRetires(cfg: Config, s: Sys)
    requires LogInv(cfg, s) && CompactorOk(cfg, s) && Enabled(cfg, s, CCas(AckLost))
    ensures NothingOn(Do(cfg, s, CCas(AckLost)).Tip(), s.compactor.v)
  {
    var c := s.compactor;
    assert s.log[..c.base] == s.log;
    EncodedStep(s.log, c.txn, c.op, cfg.interval);
    RetirementLeavesNothing(s.Tip(), c.v, c.dest, c.moved, c.op);
  }

  /** A retirement that landed unacknowledged, before the last attempt: after any
      steps of the clients the compactor concludes that it landed if and only if
      nothing has come to the volume meanwhile; with no record in between it can
      do nothing else. */
  lemma LostAckDetectedByCompactor(cfg: Config, s: Sys, run: seq<Action>)
    requires LogInv(cfg, s) && CompactorOk(cfg, s) && Enabled(cfg, s, CCas(AckLost))
    requires s.compactor.tries + 1 < MAX_CAS_RETRIES
    requires Legal(cfg, Do(cfg, s, CCas(AckLost)), run) && CompactorWaits(run)
    ensures var t := Do(cfg, s, CCas(AckLost));
      var u := After(cfg, t, run);
      && u.ops == s.ops + [s.compactor.op] + Effective(cfg, t, run)
      && (Concludes(cfg, u) <==> NothingOn(u.Tip(), s.compactor.v))
      && (Effective(cfg, t, run) == [] ==> Concludes(cfg, u))
  {
    var t := Do(cfg, s, CCas(AckLost));
    StepKeepsLogInv(cfg, s, CCas(AckLost));
    SwapRetires(cfg, s);
    WaitingCompactor(cfg, t, run);
    RunKeepsLogInv(cfg, t, run);
    ConcludesIff(cfg, After(cfg, t, run));
  }

  /** On the last attempt it gives up instead: the volume is retired in the log,
      nothing is left on it for a later pass to select, and none of its refs has
      been deleted. */
  lemma LostAckOnLastAttemptLeavesVolume(cfg: Config, s: Sys)
    requires LogInv(cfg, s) && CompactorOk(cfg, s) && Enabled(cfg, s, CCas(AckLost))
    requires s.compactor.tries + 1 == MAX_CAS_RETRIES
    ensures var t := Do(cfg, s, CCas(AckLost));
      && t.compactor.Passing? && t.disk == s.disk && t.ops == s.ops + [s.compactor.op]
      && NothingOn(t.Tip(), s.compactor.v)
      && !Enabled(cfg, t, CDestroy) && forall key :: !Enabled(cfg, t, CDelete(key))
  {
    SwapRetires(cfg, s);
  }
}
