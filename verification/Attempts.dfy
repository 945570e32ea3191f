/** The answers a retry loop gets to its compare-and-swaps, and what they say
    about the call. */
module Attempts {
  import opened Prelude
  import opened Manifests
  import opened Log
  import opened Repoint
  import opened Accounting
  import opened StoreInvariant
  import opened Placement
  import opened Pass
  import opened PassRefs
  import opened Protocol

  /** The swaps of one call without another writer: within the bound, and every
      one but the last without effect. */
  predicate OneCall(answers: seq<Outcome>) {
    |answers| <= 32 && forall i :: 0 <= i < |answers| - 1 ==> answers[i].Lost?
  }

  /** The record is in the log. */
  predicate Landed(answers: seq<Outcome>) {
    answers != [] && !answers[|answers| - 1].Lost?
  }

  /** The loop was told so. */
  predicate Acknowledged(answers: seq<Outcome>) {
    answers != [] && answers[|answers| - 1].Won?
  }

  /** The loop used up its attempts without being told so. */
  predicate Exhausted(answers: seq<Outcome>) {
    |answers| == 32 && !Acknowledged(answers)
  }

  /** The last attempt the loop has took effect, and the loop was not told so. */
  predicate LastAckLost(answers: seq<Outcome>) {
    |answers| == 32 && answers[31].AckLost?
  }

  /** Every swap took effect and was acknowledged. */
  predicate AllWon(answers: seq<Outcome>) {
    forall i :: 0 <= i < |answers| ==> answers[i].Won?
  }

  lemma OneMore(answers: seq<Outcome>, more: seq<Outcome>)
    requires OneCall(answers) && !Landed(answers) && |answers| < MAX_CAS_RETRIES && |more| <= 1
    ensures OneCall(answers + more)
    ensures Landed(answers + more) <==> Landed(more)
    ensures Acknowledged(answers + more) <==> Acknowledged(more)
  {
    if more == [] {
      assert answers + more == answers;
    }
  }

  /** A call that is not disturbed is not exhausted, and its swap, if there was
      one, landed. */
  lemma UndisturbedCall(answers: seq<Outcome>)
    requires AllWon(answers)
    ensures !Exhausted(answers) && (Landed(answers) <==> answers != [])
  {
  }

  lemma AllWonConcat(a: seq<Outcome>, b: seq<Outcome>)
    ensures AllWon(a + b) <==> AllWon(a) && AllWon(b)
  {
    if AllWon(a + b) {
      assert forall i :: 0 <= i < |a| ==> (a + b)[i] == a[i];
      assert forall i :: 0 <= i < |b| ==> (a + b)[|a| + i] == b[i];
    }
  }

  // ---------- the log after a call ----------

  /** The log either stayed or grew by this record of this operation. */
  lemma AppendedAtMost(h0: seq<Txn>, ops0: seq<Op>, h1: seq<Txn>, ops1: seq<Op>, txn: Txn, op: Op, interval: nat)
    requires Committed(h0, ops0, interval) && Encodes(h0, txn, op, interval)
    requires (h1 == h0 && ops1 == ops0) || (h1 == h0 + [txn] && ops1 == ops0 + [op])
    ensures Committed(h1, ops1, interval)
    ensures Load(h1) == if ops1 == ops0 then Load(h0) else ApplyOp(Load(h0), op)
  {
    if ops1 != ops0 {
      CommittedSnoc(h0, ops0, txn, op, interval);
      EncodedStep(h0, txn, op, interval);
    }
  }

  /** What the answers to the swaps of `op` have made of `ops0` and `st0`. */
  ghost predicate Recorded(ops0: seq<Op>, st0: State, ops: seq<Op>, st: State, answers: seq<Outcome>, op: Op) {
    && ops == (if Landed(answers) then ops0 + [op] else ops0)
    && st == (if Landed(answers) then ApplyOp(st0, op) else st0)
  }

  /** The log has grown exactly when the last swap took effect; a loop that was not told
      so has used up its attempts exactly when that was the last one. */
  lemma RecordedMeans(ops0: seq<Op>, st0: State, ops: seq<Op>, st: State, answers: seq<Outcome>, op: Op)
    requires Recorded(ops0, st0, ops, st, answers, op) && OneCall(answers)
    ensures ops != ops0 <==> Landed(answers)
    ensures Exhausted(answers) && Landed(answers) <==> LastAckLost(answers)
  {
    assert |ops0 + [op]| != |ops0|;
  }

  /** One more attempt: nothing new once the record is in the log. */
  lemma RecordedNext(ops0: seq<Op>, st0: State, ops: seq<Op>, st: State, answers: seq<Outcome>,
                     ops1: seq<Op>, st1: State, more: seq<Outcome>, op: Op)
    requires Recorded(ops0, st0, ops, st, answers, op) && Recorded(ops, st, ops1, st1, more, op)
    requires OneCall(answers) && |answers| < MAX_CAS_RETRIES && |more| <= 1 && (Landed(answers) ==> more == [])
    ensures Recorded(ops0, st0, ops1, st1, answers + more, op)
    ensures OneCall(answers + more)
    ensures !Acknowledged(answers) ==> (Acknowledged(answers + more) <==> Acknowledged(more))
  {
    if Landed(answers) {
      assert answers + more == answers;
    } else {
      OneMore(answers, more);
    }
  }

  /** A landed retirement is the newest compaction; otherwise that is as before. */
  ghost predicate NewestAfter(before: Option<int>, after: Option<int>, landed: bool, now: int) {
    after == if landed then Some(now) else before
  }

  lemma NoneCommitted(ops: seq<Op>)
    ensures OnlyCompactions(ops, ops)
  {
    assert ops[..|ops|] == ops;
  }

  /** What the answers to a retirement's swaps have made of `ops0`, `st0`, `last0`. */
  ghost predicate Progress(ops0: seq<Op>, st0: State, last0: Option<int>, ops: seq<Op>, st: State, last: Option<int>,
                           answers: seq<Outcome>, v: VolId, dest: SegKey, seals: seq<SegRec>, now: int)
  {
    && |ops| == |ops0| + (if Landed(answers) then 1 else 0)
    && st == (if Landed(answers) then Retire(st0, v, dest, seals) else st0)
    && NewestAfter(last0, last, Landed(answers), now)
    && OnlyCompactions(ops0, ops)
  }

  lemma NoProgress(ops: seq<Op>, st: State, last: Option<int>, v: VolId, dest: SegKey, seals: seq<SegRec>, now: int)
    ensures Progress(ops, st, last, ops, st, last, [], v, dest, seals, now)
  {
    NoneCommitted(ops);
  }

  lemma ProposedRetires(ops0: seq<Op>, st0: State, last0: Option<int>, ops1: seq<Op>, st1: State, last1: Option<int>,
                        answers: seq<Outcome>, v: VolId, dest: SegKey, seals: seq<SegRec>, repoint: seq<Manifest>, now: int)
    requires InsertAll(st0.ns, repoint) == Repointed(st0.ns, v, dest)
    requires ops1 == if Landed(answers) then ops0 + [CompactOp([v], seals, repoint)] else ops0
    requires st1 == if Landed(answers) then ApplyOp(st0, CompactOp([v], seals, repoint)) else st0
    requires NewestAfter(last0, last1, Landed(answers), now)
    ensures Progress(ops0, st0, last0, ops1, st1, last1, answers, v, dest, seals, now)
  {
    NoneCommitted(ops0);
  }

  /** One more attempt: nothing new once the retirement has landed. */
  lemma ProgressStep(ops0: seq<Op>, st0: State, last0: Option<int>, ops: seq<Op>, st: State, last: Option<int>,
                     answers: seq<Outcome>, ops1: seq<Op>, st1: State, last1: Option<int>, more: seq<Outcome>,
                     v: VolId, dest: SegKey, seals: seq<SegRec>, now: int)
    requires Progress(ops0, st0, last0, ops, st, last, answers, v, dest, seals, now)
    requires Progress(ops, st, last, ops1, st1, last1, more, v, dest, seals, now)
    requires OneCall(answers) && |answers| < MAX_CAS_RETRIES && |more| <= 1 && (Landed(answers) ==> more == [])
    ensures Progress(ops0, st0, last0, ops1, st1, last1, answers + more, v, dest, seals, now)
    ensures OneCall(answers + more)
    ensures !Landed(answers) ==> (Acknowledged(answers + more) <==> Acknowledged(more))
    ensures Landed(answers) ==> answers + more == answers
  {
    CompactionsCompose(ops0, ops, ops1);
    if Landed(answers) {
      assert answers + more == answers;
    } else {
      OneMore(answers, more);
    }
  }

  lemma NothingOnAfterRetire(st: State, v: VolId, dest: SegKey, seals: seq<SegRec>)
    requires dest.vol != v
    ensures NothingOn(Retire(st, v, dest, seals), v)
    ensures NamesMatch(st.ns) ==> NamesMatch(Retire(st, v, dest, seals).ns)
  {
    NothingLeftOn(st.ns, v, dest);
  }

  ghost predicate NamesMatch(ns: Namespace) {
    forall n :: n in ns ==> ns[n].name == n
  }

  // ---------- passes ----------

  /** How far a pass has got since `ops0` and `last0`. */
  ghost predicate PassSoFar(store: Store, g: Gates, base: State, ops0: seq<Op>, last0: Option<int>, now: int,
                            landed: seq<bool>, st: State, ops: seq<Op>, last: Option<int>)
    requires SpareIsLast(store.volumes)
  {
    && IsPass(store, g, base, landed) && st == PassState(store, base, landed)
    && |ops| == |ops0| + Count(landed)
    && NewestAfter(last0, last, Count(landed) > 0, now)
    && OnlyCompactions(ops0, ops)
  }

  lemma PassSoFarNext(store: Store, g: Gates, base: State, ops0: seq<Op>, last0: Option<int>, now: int,
                      landed: seq<bool>, ops: seq<Op>, last: Option<int>,
                      one: bool, st1: State, ops1: seq<Op>, last1: Option<int>)
    requires SpareIsLast(store.volumes) && IsPass(store, g, base, landed)
    requires PassSoFar(store, g, base, ops0, last0, now, landed, PassState(store, base, landed), ops, last)
    requires IsPass(store, g, base, landed + [one]) && st1 == PassState(store, base, landed + [one])
    requires Count(landed + [one]) == Count(landed) + (if one then 1 else 0)
    requires |ops1| == |ops| + (if one then 1 else 0) && OnlyCompactions(ops, ops1)
    requires NewestAfter(last, last1, one, now)
    ensures PassSoFar(store, g, base, ops0, last0, now, landed + [one], st1, ops1, last1)
  {
    CompactionsCompose(ops0, ops, ops1);
  }

  /** `w` is one of the volumes the snapshot makes a candidate. */
  ghost predicate OnCandidate(store: Store, g: Gates, base: State, w: VolId) {
    exists i :: 0 <= i < |store.volumes| && store.volumes[i].id == w && Candidate(g, base, store.volumes[i])
  }

  /** Only candidates are retired. */
  lemma {:induction false} RetiredIsOnCandidate(store: Store, g: Gates, base: State, landed: seq<bool>, w: VolId)
    requires SpareIsLast(store.volumes) && IsPass(store, g, base, landed)
    ensures Retires(store, landed, w) ==> OnCandidate(store, g, base, w)
    decreases |landed|
  {
    if landed == [] {
    } else {
      RetiredIsOnCandidate(store, g, base, landed[..|landed| - 1], w);
      RetiresNext(store, landed, w);
    }
  }

  /** Everything the snapshot places on `v` is there. */
  ghost predicate BackedOn(disk: Disk, ns: Namespace, v: VolId) {
    forall c :: c in Refs(ns) && c.vol == v ==> Resolves(disk, c)
  }

  /** Everything the snapshot places on the volumes still to come is there. */
  ghost predicate BackedFrom(store: Store, disk: Disk, ns: Namespace, i: nat) {
    forall j :: i <= j < |store.volumes| ==> BackedOn(disk, ns, store.volumes[j].id)
  }

  /** Compacting a volume takes nothing from the others. */
  ghost predicate OtherVolumesKept(was: Disk, now: Disk, v: VolId) {
    forall key :: key in was && key.vol != v ==> key in now && now[key] == was[key]
  }

  lemma BackedNext(store: Store, was: Disk, now: Disk, ns: Namespace, i: nat)
    requires store.Valid() && i < |store.volumes| && BackedFrom(store, was, ns, i)
    requires OtherVolumesKept(was, now, store.volumes[i].id)
    ensures BackedFrom(store, now, ns, i + 1)
  {
    forall j | i + 1 <= j < |store.volumes|
      ensures BackedOn(now, ns, store.volumes[j].id)
    {
      assert BackedOn(was, ns, store.volumes[j].id);
    }
  }

  /** Where a pass stands after the first `|landed|` volumes. */
  datatype Standing = Standing(landed: seq<bool>, st: State, ops: seq<Op>, last: Option<int>, refs: Disk)

  /** The pass from `base` has come to `now` from `start`: what has landed accounts
      for the state, the log and the volumes, and the snapshot's chunks are there for
      the volumes to come. */
  ghost predicate Underway(store: Store, g: Gates, base: State, start: Standing, now: Standing, clock: int)
    requires SpareIsLast(store.volumes)
  {
    && PassSoFar(store, g, base, start.ops, start.last, clock, now.landed, now.st, now.ops, now.last)
    && BackedFrom(store, now.refs, base.ns, |now.landed|)
    && PassChanged(store, g, base, now.landed, start.refs, now.refs, clock)
  }

  /** Nothing has cut the pass short: the volumes and the report are what the flags
      `told` say, and undisturbed those are what the snapshot told. */
  ghost predicate OnCourse(store: Store, g: Gates, base: State, landed: seq<bool>, told: seq<bool>, answers: seq<Outcome>,
                           report: seq<CompactedVolume>, was: Disk, refs: Disk, clock: int)
    requires SpareIsLast(store.volumes) && |landed| <= |store.volumes|
  {
    && |told| == |landed| && (forall i :: 0 <= i < |told| && told[i] ==> landed[i])
    && IsReport(store, base, told, report)
    && refs == RefsAfter(store, g, base, was, told, clock)
    && (AllWon(answers) ==> told == landed == WillLand(store, g, base, |landed|))
  }

  lemma OnCourseNext(store: Store, g: Gates, base: State, landed: seq<bool>, told: seq<bool>, answers: seq<Outcome>,
                     report: seq<CompactedVolume>, was: Disk, clock: int,
                     one: bool, more: seq<Outcome>, e: Option<CompactedVolume>, refs1: Disk)
    requires SpareIsLast(store.volumes) && |told| == |landed| < |store.volumes|
    requires OnCourse(store, g, base, landed, told, answers, report, was, RefsAfter(store, g, base, was, told, clock), clock)
    requires e.Some? ==> one && IsEntry(store, base, store.volumes[|landed|].id, e.value)
    requires var refs := RefsAfter(store, g, base, was, told, clock);
      refs1 == if Candidate(g, base, store.volumes[|landed|]) then
        RefsAfterOne(store, base, refs, store.volumes[|landed|].id, e.Some?, clock) else refs
    requires AllWon(more) ==>
      && (one <==> e.Some?)
      && (one <==> Lands(store, g, base, PassState(store, base, landed), store.volumes[|landed|]))
    ensures OnCourse(store, g, base, landed + [one], told + [e.Some?], answers + more,
                     if e.Some? then report + [e.value] else report, was, refs1, clock)
  {
    AllWonConcat(answers, more);
    WillLandNext(store, g, base, |landed|);
    ReportSnoc(store, base, told, report, e);
    RefsAfterSnoc(store, g, base, was, told, e.Some?, clock);
  }

  lemma UnderwayNext(store: Store, g: Gates, base: State, start: Standing, was: Standing, one: bool, now: Standing, clock: int)
    requires store.Valid() && SpareIsLast(store.volumes) && |was.landed| < |store.volumes|
    requires Underway(store, g, base, start, was, clock)
    requires now.landed == was.landed + [one] && now.st == PassState(store, base, now.landed)
    requires one ==> Lands(store, g, base, was.st, store.volumes[|was.landed|])
    requires |now.ops| == |was.ops| + (if one then 1 else 0) && OnlyCompactions(was.ops, now.ops)
    requires NewestAfter(was.last, now.last, one, clock)
    requires var v := store.volumes[|was.landed|];
      if Candidate(g, base, v) then OneChanged(store, base, v.id, was.refs, now.refs, one, clock) else now.refs == was.refs
    ensures Underway(store, g, base, start, now, clock)
  {
    var n := |was.landed|;
    PassNext(store, g, base, was.landed, one);
    PassSoFarNext(store, g, base, start.ops, start.last, clock, was.landed, was.ops, was.last, one, now.st, now.ops, now.last);
    BackedNext(store, was.refs, now.refs, base.ns, n);
    PassChangedNext(store, g, base, was.landed, one, start.refs, was.refs, now.refs, clock);
  }

  lemma UnderwayAtFirst(store: Store, g: Gates, start: Standing, clock: int)
    requires SpareIsLast(store.volumes) && start.landed == []
    requires forall c :: c in Refs(start.st.ns) ==> Resolves(start.refs, c)
    ensures Underway(store, g, start.st, start, start, clock)
    ensures OnCourse(store, g, start.st, [], [], [], [], start.refs, start.refs, clock)
  {
    NoneCommitted(start.ops);
  }
}
