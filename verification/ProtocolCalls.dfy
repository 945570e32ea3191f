/** The engine's calls are runs of the protocol: what the contracts of one process
    say of a call and the answers it got, the protocol does in steps. */
module ProtocolCalls {
  import opened Prelude
  import opened Manifests
  import opened Log
  import opened Repoint
  import opened Accounting
  import opened StoreInvariant
  import opened Planning
  import opened Attempts
  import opened Protocol
  import opened ProtocolSafety
  import opened ProtocolRaces
  import opened ProtocolReading

  lemma TwoSteps(cfg: Config, s: Sys, a: Action, b: Action, rest: seq<Action>) returns (run: seq<Action>)
    requires Enabled(cfg, s, a) && Guarded(cfg, s, a)
    requires Enabled(cfg, Do(cfg, s, a), b) && Guarded(cfg, Do(cfg, s, a), b)
    requires var t := Do(cfg, Do(cfg, s, a), b); Legal(cfg, t, rest) && Disciplined(cfg, t, rest)
    ensures run == [a, b] + rest
    ensures Legal(cfg, s, run) && Disciplined(cfg, s, run)
    ensures After(cfg, s, run) == After(cfg, Do(cfg, Do(cfg, s, a), b), rest)
  {
    var u := Do(cfg, s, a);
    PrependStep(cfg, u, b, rest);
    PrependStep(cfg, s, a, [b] + rest);
    run := [a] + ([b] + rest);
    assert run == [a, b] + rest;
  }

  // ---------- put and remove ----------

  /** Steps a retry loop takes; the last of them leaves it, or is a crash. */
  predicate LoopStep(a: Action) { a.ReadTip? || a.Cas? || a.Crash? }

  predicate LoopSteps(run: seq<Action>) {
    forall k :: 0 <= k < |run| ==> LoopStep(run[k])
  }

  /** Besides client `i` only the log has changed. */
  ghost predicate OnlyLog(s: Sys, t: Sys, i: ClientId) {
    && t == s.(clients := t.clients, log := t.log, ops := t.ops)
    && forall j :: j != i ==> t.At(j) == s.At(j)
  }

  /** One attempt that is answered `outcome`. */
  lemma Attempt(cfg: Config, s: Sys, i: ClientId, op: Op, tries: Tries, outcome: Outcome) returns (a: Action, t: Sys)
    requires s.At(i) == Ready(op, tries) && !op.CompactOp? && !Reflected(s.Tip().ns, op)
    ensures LoopStep(a) && Enabled(cfg, s, a) && Guarded(cfg, s, a)
    ensures Enabled(cfg, Do(cfg, s, a), Cas(i, outcome)) && t == Do(cfg, Do(cfg, s, a), Cas(i, outcome))
    ensures OnlyLog(s, t, i) && Recorded(s.ops, s.Tip(), t.ops, t.Tip(), [outcome], op)
    ensures t.At(i) == if outcome == Won || tries + 1 == MAX_CAS_RETRIES then Idle else Ready(op, tries + 1)
  {
    var txn := SomeEncoding(s.log, op, cfg.interval);
    a := ReadTip(i, txn);
    t := Do(cfg, Do(cfg, s, a), Cas(i, outcome));
    EncodedStep(s.log, txn, op, cfg.interval);
  }

  /** The client leaves the loop: its operation shows at the tip, or it dies. */
  lemma Leave(cfg: Config, s: Sys, i: ClientId) returns (run: seq<Action>)
    requires s.At(i).Ready? || s.At(i).Idle?
    ensures Legal(cfg, s, run) && Disciplined(cfg, s, run) && LoopSteps(run)
    ensures var t := After(cfg, s, run); OnlyLog(s, t, i) && t.log == s.log && t.ops == s.ops && t.At(i).Idle?
  {
    if s.At(i).Idle? {
      return [];
    }
    var a := if Reflected(s.Tip().ns, s.At(i).op) then ReadTip(i, Delta(None, None, [])) else Crash(i);
    OneStep(cfg, s, a);
    run := [a];
  }

  /** Whatever the answers, the retry loop of a put or remove is a guarded run of
      one client, and leaves the log as the loop's contract says. */
  lemma {:induction false} LoopIsARun(cfg: Config, s: Sys, i: ClientId, op: Op, tries: Tries, answers: seq<Outcome>)
    returns (run: seq<Action>)
    requires s.At(i) == Ready(op, tries) && !op.CompactOp?
    requires OneCall(answers) && tries + |answers| <= MAX_CAS_RETRIES
    requires Reflected(s.Tip().ns, op) ==> answers == []
    ensures Legal(cfg, s, run) && Disciplined(cfg, s, run) && LoopSteps(run)
    ensures var t := After(cfg, s, run);
      OnlyLog(s, t, i) && t.At(i).Idle? && Recorded(s.ops, s.Tip(), t.ops, t.Tip(), answers, op)
    decreases |answers|
  {
    if answers == [] {
      run := Leave(cfg, s, i);
    } else {
      var a, t := Attempt(cfg, s, i, op, tries, answers[0]);
      var rest;
      if |answers| == 1 {
        rest := Leave(cfg, t, i);
      } else {
        assert t.Tip() == s.Tip();
        rest := LoopIsARun(cfg, t, i, op, tries + 1, answers[1..]);
      }
      run := TwoSteps(cfg, s, a, Cas(i, answers[0]), rest);
      assert answers == [answers[0]] + answers[1..];
    }
  }

  /** Planning from the tip and pushing. */
  lemma UpToPush(cfg: Config, store: Store, s: Sys, i: ClientId, name: Name, content: Bytes, plan: PutPlan)
    returns (a: Action, t: Sys)
    requires store.Valid() && s.At(i).Idle? && s.compactor.Resting?
    requires PlanOf(store, s.Tip(), name, content, Random(s.issued), plan)
    ensures Enabled(cfg, s, a) && Guarded(cfg, s, a) && WellPlanned(store, a)
    ensures var u, b := Do(cfg, s, a), PutPush(i, s.now);
      Enabled(cfg, u, b) && Guarded(cfg, u, b) && t == Do(cfg, u, b)
    ensures t.At(i) == Ready(plan.Op(), 0) && t.disk == Pushed(s.disk, plan, s.now)
    ensures t.log == s.log && t.ops == s.ops && t.compactor == s.compactor && t.now == s.now
    ensures forall j :: j != i ==> t.At(j) == s.At(j)
  {
    PlanIsAStep(cfg, store, s, i, name, content, plan);
    a := Action.PutPlan(i, plan.m, OwnOf(plan));
    t := Do(cfg, Do(cfg, s, a), PutPush(i, s.now));
  }

  lemma StepsAreWellPlanned(store: Store, a: Action, b: Action, rest: seq<Action>)
    requires store.Valid() && WellPlanned(store, a) && b.PutPush? && LoopSteps(rest)
    ensures forall k :: 0 <= k < |[a, b] + rest| ==> WellPlanned(store, ([a, b] + rest)[k])
  {
  }

  /** The engine's put, from plan to answer. */
  lemma PutIsARun(cfg: Config, store: Store, s: Sys, i: ClientId, name: Name, content: Bytes, plan: PutPlan,
                  answers: seq<Outcome>)
    returns (run: seq<Action>)
    requires store.Valid() && s.At(i).Idle? && s.compactor.Resting?
    requires PlanOf(store, s.Tip(), name, content, Random(s.issued), plan)
    requires OneCall(answers) && (Reflected(s.Tip().ns, plan.Op()) ==> answers == [])
    ensures Legal(cfg, s, run) && Disciplined(cfg, s, run)
    ensures forall k :: 0 <= k < |run| ==> WellPlanned(store, run[k])
    ensures var t := After(cfg, s, run);
      && Recorded(s.ops, s.Tip(), t.ops, t.Tip(), answers, plan.Op())
      && t.disk == Pushed(s.disk, plan, s.now) && t.At(i).Idle?
      && t.compactor.Resting? && t.now == s.now && forall j :: j != i ==> t.At(j) == s.At(j)
  {
    var a, t := UpToPush(cfg, store, s, i, name, content, plan);
    assert t.Tip() == s.Tip();
    var rest := LoopIsARun(cfg, t, i, plan.Op(), 0, answers);
    run := TwoSteps(cfg, s, a, PutPush(i, s.now), rest);
    StepsAreWellPlanned(store, a, PutPush(i, s.now), rest);
  }

  /** The engine's remove of a name that is there. */
  lemma RemoveIsARun(cfg: Config, s: Sys, i: ClientId, name: Name, answers: seq<Outcome>) returns (run: seq<Action>)
    requires s.At(i).Idle? && name in s.Tip().ns && OneCall(answers)
    ensures Legal(cfg, s, run) && Disciplined(cfg, s, run)
    ensures var t := After(cfg, s, run);
      OnlyLog(s, t, i) && t.At(i).Idle? && Recorded(s.ops, s.Tip(), t.ops, t.Tip(), answers, RemoveOp(name))
  {
    var a := RemoveStart(i, name);
    var t := Do(cfg, s, a);
    assert t.Tip() == s.Tip();
    var rest := LoopIsARun(cfg, t, i, RemoveOp(name), 0, answers);
    PrependStep(cfg, s, a, rest);
    run := [a] + rest;
  }

  // ---------- retirement ----------

  /** A namespace can be repointed by inserting some list of rebuilt manifests. */
  lemma SomeRepoint(ns: Namespace, v: VolId, dest: SegKey) returns (repoint: seq<Manifest>)
    requires NamesMatch(ns)
    ensures InsertAll(ns, repoint) == Repointed(ns, v, dest)
  {
    repoint := SomeRepointOf(ns, v, dest, ns.Keys);
    assert RepointedExcept(ns, v, dest, ns.Keys - ns.Keys) == Repointed(ns, v, dest);
  }

  lemma {:induction false} SomeRepointOf(ns: Namespace, v: VolId, dest: SegKey, todo: set<Name>) returns (repoint: seq<Manifest>)
    requires NamesMatch(ns) && todo <= ns.Keys
    ensures InsertAll(ns, repoint) == RepointedExcept(ns, v, dest, ns.Keys - todo)
    decreases |todo|
  {
    if todo == {} {
      repoint := [];
    } else {
      var n :| n in todo;
      repoint := SomeRepointOf(ns, v, dest, todo - {n});
      var left := ns.Keys - (todo - {n});
      RepointStep(ns, v, dest, left, n, repoint);
      assert left - {n} == ns.Keys - todo;
      if Touches(ns[n], v) {
        repoint := repoint + [MoveManifest(ns[n], v, dest)];
      }
    }
  }

  ghost predicate NoPutInFlight(s: Sys) {
    forall i :: i in s.clients ==> s.clients[i].Idle?
  }

  /** `t` is what one swap of the retirement, answered `outcome`, makes of `s`. */
  ghost predicate Tried(s: Sys, t: Sys, outcome: Outcome)
    requires s.compactor.Rewritten?
  {
    var c := s.compactor;
    && t == s.(compactor := t.compactor, log := t.log, ops := t.ops)
    && t.Tip() == (if outcome == Lost then s.Tip()
                   else Retire(s.Tip(), c.v, c.dest, SealFor(c.dest, c.moved, Weigh(c.moved))))
    && |t.ops| == |s.ops| + (if outcome == Lost then 0 else 1)
    && t.compactor == (if outcome == Won then Retired(c.snap, c.v)
                       else if c.tries + 1 == MAX_CAS_RETRIES then Passing(c.snap)
                       else Rewritten(c.snap, c.v, c.dest, c.moved, c.tries + 1))
  }

  /** One attempt at the retirement that is answered `outcome`. */
  lemma RetireAttempt(cfg: Config, s: Sys, outcome: Outcome) returns (a: Action, t: Sys)
    requires s.compactor.Rewritten? && NamesMatch(s.Tip().ns) && NoPutInFlight(s)
    requires !NothingOn(s.Tip(), s.compactor.v) && IdsOn(s.Tip().ns, s.compactor.v) <= s.compactor.moved
    ensures Enabled(cfg, s, a) && Guarded(cfg, s, a)
    ensures var u := Do(cfg, s, a);
      Enabled(cfg, u, CCas(outcome)) && Guarded(cfg, u, CCas(outcome)) && t == Do(cfg, u, CCas(outcome))
    ensures Tried(s, t, outcome)
  {
    var c, ns := s.compactor, s.Tip().ns;
    var repoint := SomeRepoint(ns, c.v, c.dest);
    a := CReadTip(repoint);
    var u := Do(cfg, s, a);
    t := Do(cfg, u, CCas(outcome));
    assert Encodes(s.log, u.compactor.txn, u.compactor.op, cfg.interval);
    EncodedStep(s.log, u.compactor.txn, u.compactor.op, cfg.interval);
  }

  /** The compactor after its loop: it knows that the retirement landed, has used up
      its attempts, or died before the next one. */
  ghost function AfterLoop(c: Compactor, answers: seq<Outcome>): Compactor
    requires c.Rewritten? && c.tries + |answers| <= MAX_CAS_RETRIES
  {
    if Acknowledged(answers) then Retired(c.snap, c.v)
    else if c.tries + |answers| == MAX_CAS_RETRIES then Passing(c.snap)
    else if Landed(answers) then Retired(c.snap, c.v)
    else Rewritten(c.snap, c.v, c.dest, c.moved, c.tries + |answers|)
  }

  /** What the loop makes of the state: only the log and the compactor change, and
      the retirement is at the tip exactly when the last swap took effect. */
  ghost predicate LoopEnds(s: Sys, t: Sys, answers: seq<Outcome>)
    requires s.compactor.Rewritten? && s.compactor.tries + |answers| <= MAX_CAS_RETRIES
  {
    var c := s.compactor;
    && t == s.(compactor := AfterLoop(c, answers), log := t.log, ops := t.ops)
    && t.Tip() == (if Landed(answers) then Retire(s.Tip(), c.v, c.dest, SealFor(c.dest, c.moved, Weigh(c.moved))) else s.Tip())
    && |t.ops| == |s.ops| + (if Landed(answers) then 1 else 0)
  }

  /** After the last answer: the tip shows that the retirement landed, if the answer
      did not tell. */
  lemma Conclude(cfg: Config, s: Sys, t: Sys, outcome: Outcome) returns (run: seq<Action>)
    requires s.compactor.Rewritten? && s.compactor.dest.vol != s.compactor.v && NoPutInFlight(s)
    requires Tried(s, t, outcome)
    ensures Legal(cfg, t, run) && Disciplined(cfg, t, run) && LoopEnds(s, After(cfg, t, run), [outcome])
  {
    var c := s.compactor;
    run := [];
    if outcome == AckLost && t.compactor.Rewritten? {
      NothingOnAfterRetire(s.Tip(), c.v, c.dest, SealFor(c.dest, c.moved, Weigh(c.moved)));
      OneStep(cfg, t, CReflected);
      run := [CReflected];
    }
  }

  lemma LoopGoesOn(s: Sys, t: Sys, end: Sys, answers: seq<Outcome>)
    requires s.compactor.Rewritten? && s.compactor.tries + 1 + |answers| <= MAX_CAS_RETRIES && answers != []
    requires Tried(s, t, Lost) && LoopEnds(t, end, answers)
    ensures LoopEnds(s, end, [Lost] + answers)
  {
  }

  /** Whatever the answers, the retry loop of a retirement is a guarded run while no
      put is in flight, and leaves the log as the loop's contract says. */
  lemma {:induction false} RetirementIsARun(cfg: Config, s: Sys, answers: seq<Outcome>) returns (run: seq<Action>)
    requires s.compactor.Rewritten? && s.compactor.dest.vol != s.compactor.v
    requires NamesMatch(s.Tip().ns) && NoPutInFlight(s)
    requires NothingOn(s.Tip(), s.compactor.v) || !(IdsOn(s.Tip().ns, s.compactor.v) <= s.compactor.moved) ==> answers == []
    requires OneCall(answers) && s.compactor.tries + |answers| <= MAX_CAS_RETRIES
    ensures Legal(cfg, s, run) && Disciplined(cfg, s, run) && LoopEnds(s, After(cfg, s, run), answers)
    decreases |answers|
  {
    if answers == [] {
      run := [];
    } else {
      var a, t := RetireAttempt(cfg, s, answers[0]);
      var rest;
      if |answers| == 1 {
        rest := Conclude(cfg, s, t, answers[0]);
        assert answers == [answers[0]];
      } else {
        rest := RetirementIsARun(cfg, t, answers[1..]);
        LoopGoesOn(s, t, After(cfg, t, rest), answers[1..]);
        assert answers == [Lost] + answers[1..];
      }
      run := TwoSteps(cfg, s, a, CCas(answers[0]), rest);
    }
  }
}
