/** The transaction log: what each record means, how a reader reconstructs state
    from the newest checkpoint plus the tail after it, and the proof that this
    shortcut agrees with replaying every committed operation from genesis. */
module Log {
  import opened Prelude
  import opened Manifests

  datatype Txn =
    | Delta(put: Option<Manifest>, remove: Option<Name>, seals: seq<SegRec>)
    | Checkpoint(namespace: Namespace, segIndex: seq<SegRec>)
    | Compact(retired: seq<VolId>, compactSeals: seq<SegRec>, repoint: seq<Manifest>)

  // ---------- the effect of one record ----------

  function InsertSeals(seg: SegIndex, seals: seq<SegRec>): SegIndex
    decreases |seals|
  {
    if seals == [] then seg else InsertSeals(seg[seals[0].Key() := seals[0].bytes], seals[1..])
  }

  function InsertAll(ns: Namespace, ms: seq<Manifest>): Namespace
    decreases |ms|
  {
    if ms == [] then ns else InsertAll(ns[ms[0].name := ms[0]], ms[1..])
  }

  function DropVolumes(seg: SegIndex, retired: seq<VolId>): SegIndex {
    map key | key in seg && key.vol !in retired :: seg[key]
  }

  /** Applies a non-checkpoint record; a checkpoint never occurs in a tail. */
  function Apply(st: State, txn: Txn): State {
    match txn
    case Delta(put, remove, seals) =>
      var ns := if put.Some? then st.ns[put.value.name := put.value] else st.ns;
      State(if remove.Some? then ns - {remove.value} else ns, InsertSeals(st.seg, seals))
    case Compact(retired, seals, repoint) =>
      State(InsertAll(st.ns, repoint), DropVolumes(InsertSeals(st.seg, seals), retired))
    case Checkpoint(_, _) => st
  }

  // ---------- reading a history (oldest record first) ----------

  /** State at the end of a history: the newest checkpoint, then the tail. */
  function Load(h: seq<Txn>): State {
    if h == [] then EMPTY
    else
      var last := h[|h| - 1];
      if last.Checkpoint? then State(last.namespace, InsertSeals(map[], last.segIndex))
      else Apply(Load(h[..|h| - 1]), last)
  }

  /** Number of records after the newest checkpoint. */
  function Since(h: seq<Txn>): nat {
    if h == [] || h[|h| - 1].Checkpoint? then 0 else 1 + Since(h[..|h| - 1])
  }

  /** Number of `Delta` records after the newest checkpoint. */
  function DeltasSince(h: seq<Txn>): nat {
    if h == [] || h[|h| - 1].Checkpoint? then 0
    else (if h[|h| - 1].Delta? then 1 else 0) + DeltasSince(h[..|h| - 1])
  }

  // ---------- the reference: committed operations ----------

  /** What a client meant to commit, independent of how it was recorded. */
  datatype Op =
    | PutOp(m: Manifest, seals: seq<SegRec>)
    | RemoveOp(name: Name)
    | CompactOp(retired: seq<VolId>, compactSeals: seq<SegRec>, repoint: seq<Manifest>)

  function ApplyOp(st: State, op: Op): State {
    match op
    case PutOp(m, seals) => State(st.ns[m.name := m], InsertSeals(st.seg, seals))
    case RemoveOp(name) => State(st.ns - {name}, st.seg)
    case CompactOp(retired, seals, repoint) =>
      State(InsertAll(st.ns, repoint), DropVolumes(InsertSeals(st.seg, seals), retired))
  }

  /** Replays operations from the empty store, in commit order. */
  function Replay(ops: seq<Op>): State {
    if ops == [] then EMPTY else ApplyOp(Replay(ops[..|ops| - 1]), ops[|ops| - 1])
  }

  predicate CheckpointDue(h: seq<Txn>, interval: nat) {
    Since(h) + 1 >= interval
  }

  /** `txn` is a snapshot of `st`, its records listed in any order. */
  predicate Snapshots(txn: Txn, st: State) {
    txn.Checkpoint? && txn.namespace == st.ns && InsertSeals(map[], txn.segIndex) == st.seg
  }

  /** `txn` is how a writer records `op` on top of history `h`: puts and removes
      turn into a whole-store checkpoint when the tail has grown long enough. */
  predicate Encodes(h: seq<Txn>, txn: Txn, op: Op, interval: nat) {
    match op
    case PutOp(m, seals) =>
      if CheckpointDue(h, interval) then Snapshots(txn, ApplyOp(Load(h), op))
      else txn == Delta(Some(m), None, seals)
    case RemoveOp(name) =>
      if CheckpointDue(h, interval) then Snapshots(txn, ApplyOp(Load(h), op))
      else txn == Delta(None, Some(name), [])
    case CompactOp(retired, seals, repoint) =>
      txn == Compact(retired, seals, repoint)
  }

  /** `h` records exactly `ops`, one record per operation, each built on top of
      the history it was committed to. */
  ghost predicate Committed(h: seq<Txn>, ops: seq<Op>, interval: nat) {
    |h| == |ops| && forall i :: 0 <= i < |h| ==> Encodes(h[..i], h[i], ops[i], interval)
  }

  lemma CommittedSnoc(h: seq<Txn>, ops: seq<Op>, txn: Txn, op: Op, interval: nat)
    requires Committed(h, ops, interval) && Encodes(h, txn, op, interval)
    ensures Committed(h + [txn], ops + [op], interval)
  {
    forall i | 0 <= i < |h| + 1
      ensures Encodes((h + [txn])[..i], (h + [txn])[i], (ops + [op])[i], interval)
    {
      assert (h + [txn])[..i] == h[..i];
      if i == |h| {
        assert h[..i] == h;
      }
    }
  }

  lemma CommittedPrefix(h: seq<Txn>, ops: seq<Op>, interval: nat, n: nat)
    requires Committed(h, ops, interval) && n <= |h|
    ensures Committed(h[..n], ops[..n], interval)
  {
    forall i | 0 <= i < n
      ensures Encodes(h[..n][..i], h[..n][i], ops[..n][i], interval)
    {
      assert h[..n][..i] == h[..i];
    }
  }

  lemma EncodedStep(h: seq<Txn>, txn: Txn, op: Op, interval: nat)
    requires Encodes(h, txn, op, interval)
    ensures Load(h + [txn]) == ApplyOp(Load(h), op)
  {
    assert (h + [txn])[..|h|] == h;
  }

  /** Log refinement: the checkpoint shortcut loses and invents nothing. */
  lemma {:induction false} LoadIsReplay(h: seq<Txn>, ops: seq<Op>, interval: nat)
    requires Committed(h, ops, interval)
    ensures Load(h) == Replay(ops)
    decreases |h|
  {
    if h == [] {
    } else {
      var n := |h| - 1;
      CommittedPrefix(h, ops, interval, n);
      LoadIsReplay(h[..n], ops[..n], interval);
      EncodedStep(h[..n], h[n], ops[n], interval);
      assert h == h[..n] + [h[n]];
    }
  }

  /** The same holds at every ancestor a reader may have pinned. */
  lemma PinnedLoadIsReplay(h: seq<Txn>, ops: seq<Op>, interval: nat, pin: nat)
    requires Committed(h, ops, interval) && pin <= |h|
    ensures Load(h[..pin]) == Replay(ops[..pin])
  {
    CommittedPrefix(h, ops, interval, pin);
    LoadIsReplay(h[..pin], ops[..pin], interval);
  }

  lemma {:induction false} DeltasAtMostSince(h: seq<Txn>)
    ensures DeltasSince(h) <= Since(h)
  {
    if h == [] || h[|h| - 1].Checkpoint? {
    } else {
      DeltasAtMostSince(h[..|h| - 1]);
    }
  }

  /** Checkpoint cadence: fewer than `interval` deltas ever follow the newest
      checkpoint. Compactions do not checkpoint, so only deltas are bounded. */
  lemma {:induction false} DeltaTailBounded(h: seq<Txn>, ops: seq<Op>, interval: nat)
    requires Committed(h, ops, interval) && interval >= 1
    ensures DeltasSince(h) <= interval - 1
    decreases |h|
  {
    if h == [] || h[|h| - 1].Checkpoint? {
    } else {
      var n := |h| - 1;
      CommittedPrefix(h, ops, interval, n);
      DeltaTailBounded(h[..n], ops[..n], interval);
      DeltasAtMostSince(h[..n]);
      assert Encodes(h[..n], h[n], ops[n], interval);
    }
  }

  /** The newest checkpoint is at least `k` records back, if there is one. */
  lemma {:induction false} SinceAtLeast(h: seq<Txn>, k: nat)
    ensures Since(h) >= k <==> |h| >= k && forall j :: |h| - k <= j < |h| ==> !h[j].Checkpoint?
    decreases |h|
  {
    if k == 0 || h == [] || h[|h| - 1].Checkpoint? {
    } else {
      var front := h[..|h| - 1];
      SinceAtLeast(front, k - 1);
      assert forall j :: 0 <= j < |front| ==> front[j] == h[j];
    }
  }

  /** When a checkpoint is written, by position: record `i` of a log is one exactly
      when its operation is no compaction and each of the `interval - 1` records
      before it exists and is none. */
  lemma CheckpointsByPosition(h: seq<Txn>, ops: seq<Op>, interval: nat, i: nat)
    requires Committed(h, ops, interval) && interval >= 1 && i < |h|
    ensures h[i].Checkpoint? <==>
      && !ops[i].CompactOp?
      && i >= interval - 1 && forall j :: i - (interval - 1) <= j < i ==> !h[j].Checkpoint?
  {
    assert Encodes(h[..i], h[i], ops[i], interval);
    SinceAtLeast(h[..i], interval - 1);
    assert forall j :: 0 <= j < i ==> h[..i][j] == h[j];
  }

  // ---------- seal records ----------

  lemma {:induction false} InsertSealsSnoc(seg: SegIndex, seals: seq<SegRec>, s: SegRec)
    ensures InsertSeals(seg, seals + [s]) == InsertSeals(seg, seals)[s.Key() := s.bytes]
    decreases |seals|
  {
    if seals == [] {
      assert seals + [s] == [s];
      assert InsertSeals(seg, [s]) == InsertSeals(seg[s.Key() := s.bytes], []);
    } else {
      assert (seals + [s])[1..] == seals[1..] + [s];
      InsertSealsSnoc(seg[seals[0].Key() := seals[0].bytes], seals[1..], s);
    }
  }

  lemma {:induction false} InsertAllSnoc(ns: Namespace, ms: seq<Manifest>, m: Manifest)
    ensures InsertAll(ns, ms + [m]) == InsertAll(ns, ms)[m.name := m]
    decreases |ms|
  {
    if ms == [] {
      assert ms + [m] == [m];
      assert InsertAll(ns, [m]) == InsertAll(ns[m.name := m], []);
    } else {
      assert (ms + [m])[1..] == ms[1..] + [m];
      InsertAllSnoc(ns[ms[0].name := ms[0]], ms[1..], m);
    }
  }

  /** Flattens the byte index into seal records for a checkpoint. Whatever the
      order of the records, reading them back gives the index. */
  method SegIndexRecords(seg: SegIndex) returns (recs: seq<SegRec>)
    ensures InsertSeals(map[], recs) == seg
    ensures |recs| == |seg|
  {
    recs := [];
    var todo := seg.Keys;
    while todo != {}
      invariant todo <= seg.Keys
      invariant InsertSeals(map[], recs) == map key | key in seg && key !in todo :: seg[key]
      invariant |recs| + |todo| == |seg|
      decreases |todo|
    {
      var key :| key in todo;
      var rec := SegRec(key.vol, key.seg, seg[key]);
      InsertSealsSnoc(map[], recs, rec);
      recs := recs + [rec];
      todo := todo - {key};
    }
  }

  /** Every byte index can be listed as seal records. */
  lemma {:induction false} SomeRecords(seg: SegIndex) returns (recs: seq<SegRec>)
    ensures InsertSeals(map[], recs) == seg
    decreases |seg|
  {
    if seg == map[] {
      recs := [];
    } else {
      var key :| key in seg;
      Shrinks(seg, key);
      recs := SomeRecords(seg - {key});
      InsertSealsSnoc(map[], recs, SegRec(key.vol, key.seg, seg[key]));
      recs := recs + [SegRec(key.vol, key.seg, seg[key])];
    }
  }

  /** Every operation can be recorded on top of every history. */
  lemma SomeEncoding(h: seq<Txn>, op: Op, interval: nat) returns (txn: Txn)
    requires !op.CompactOp?
    ensures Encodes(h, txn, op, interval)
  {
    var st := ApplyOp(Load(h), op);
    var recs := SomeRecords(st.seg);
    if CheckpointDue(h, interval) {
      txn := Checkpoint(st.ns, recs);
    } else if op.PutOp? {
      txn := Delta(Some(op.m), None, op.seals);
    } else {
      txn := Delta(None, Some(op.name), []);
    }
  }

  /** Applies one record in place on the running namespace and byte index. */
  method ApplyTxn(base: State, txn: Txn) returns (st: State)
    ensures st == Apply(base, txn)
  {
    var ns, seg := base.ns, base.seg;
    match txn {
      case Delta(put, remove, seals) =>
        seg := InsertSealsLoop(seg, seals);
        if put.Some? {
          ns := ns[put.value.name := put.value];
        }
        if remove.Some? {
          ns := ns - {remove.value};
        }
      case Compact(retired, seals, repoint) =>
        seg := InsertSealsLoop(seg, seals);
        for i := 0 to |repoint|
          invariant ns == InsertAll(base.ns, repoint[..i])
        {
          assert repoint[..i + 1] == repoint[..i] + [repoint[i]];
          InsertAllSnoc(base.ns, repoint[..i], repoint[i]);
          ns := ns[repoint[i].name := repoint[i]];
        }
        assert repoint[..|repoint|] == repoint;
        ghost var sealed := seg;
        for i := 0 to |retired|
          invariant seg == DropVolumes(sealed, retired[..i])
        {
          assert retired[..i + 1] == retired[..i] + [retired[i]];
          seg := map key | key in seg && key.vol != retired[i] :: seg[key];
        }
        assert retired[..|retired|] == retired;
      case Checkpoint(_, _) =>
    }
    st := State(ns, seg);
  }

  method InsertSealsLoop(seg0: SegIndex, seals: seq<SegRec>) returns (seg: SegIndex)
    ensures seg == InsertSeals(seg0, seals)
  {
    seg := seg0;
    for i := 0 to |seals|
      invariant seg == InsertSeals(seg0, seals[..i])
    {
      assert seals[..i + 1] == seals[..i] + [seals[i]];
      InsertSealsSnoc(seg0, seals[..i], seals[i]);
      seg := seg[seals[i].Key() := seals[i].bytes];
    }
    assert seals[..|seals|] == seals;
  }
}
