/** The two stateful backends behind the engine: the index, whose log reference
    moves only by compare-and-swap over immutable commits, and the ref stores of
    the volumes. */
module Backends {
  import opened Prelude
  import opened Manifests
  import opened Log
  import opened Protocol

  type Oid = nat

  /** A log commit: its record, its parent, and when it was made. */
  datatype Commit = Commit(parent: Option<Oid>, txn: Txn, time: int)

  ghost predicate WellFormedCommits(commits: map<Oid, Commit>) {
    forall oid :: oid in commits && commits[oid].parent.Some? ==>
      commits[oid].parent.value in commits && commits[oid].parent.value < oid
  }

  /** Commits are never dropped or changed. */
  ghost predicate Extends(before: map<Oid, Commit>, after: map<Oid, Commit>) {
    forall oid :: oid in before ==> oid in after && after[oid] == before[oid]
  }

  ghost predicate Known(commits: map<Oid, Commit>, tip: Option<Oid>) {
    tip.Some? ==> tip.value in commits
  }

  /** The records from genesis to `tip`, oldest first. */
  ghost function History(commits: map<Oid, Commit>, tip: Option<Oid>): seq<Txn>
    requires WellFormedCommits(commits) && Known(commits, tip)
    decreases if tip.None? then 0 else tip.value + 1
  {
    if tip.None? then [] else History(commits, commits[tip.value].parent) + [commits[tip.value].txn]
  }

  ghost function LastCompact(commits: map<Oid, Commit>, tip: Option<Oid>): Option<int>
    requires WellFormedCommits(commits) && Known(commits, tip)
    decreases if tip.None? then 0 else tip.value + 1
  {
    if tip.None? then None
    else if commits[tip.value].txn.Compact? then Some(commits[tip.value].time)
    else LastCompact(commits, commits[tip.value].parent)
  }

  /** `at` is a commit of the log that ends at `tip`, or its empty beginning. */
  ghost predicate OnLog(commits: map<Oid, Commit>, tip: Option<Oid>, at: Option<Oid>)
    requires WellFormedCommits(commits) && Known(commits, tip)
    decreases if tip.None? then 0 else tip.value + 1
  {
    at == tip || (tip.Some? && OnLog(commits, commits[tip.value].parent, at))
  }

  lemma {:induction false} OnLogIsKnown(commits: map<Oid, Commit>, tip: Option<Oid>, at: Option<Oid>)
    requires WellFormedCommits(commits) && Known(commits, tip) && OnLog(commits, tip, at)
    ensures Known(commits, at)
    decreases if tip.None? then 0 else tip.value + 1
  {
    if at != tip {
      OnLogIsKnown(commits, commits[tip.value].parent, at);
    }
  }

  /** Commits are immutable: adding new ones leaves every old history alone. */
  lemma {:induction false} HistoryStable(a: map<Oid, Commit>, b: map<Oid, Commit>, tip: Option<Oid>)
    requires WellFormedCommits(a) && WellFormedCommits(b) && Known(a, tip)
    requires Extends(a, b)
    ensures Known(b, tip) && History(b, tip) == History(a, tip)
    decreases if tip.None? then 0 else tip.value + 1
  {
    if tip.None? {
    } else {
      HistoryStable(a, b, a[tip.value].parent);
    }
  }

  lemma {:induction false} LastCompactStable(a: map<Oid, Commit>, b: map<Oid, Commit>, tip: Option<Oid>)
    requires WellFormedCommits(a) && WellFormedCommits(b) && Known(a, tip)
    requires Extends(a, b)
    ensures Known(b, tip) && LastCompact(b, tip) == LastCompact(a, tip)
    decreases if tip.None? then 0 else tip.value + 1
  {
    if tip.None? {
    } else {
      LastCompactStable(a, b, a[tip.value].parent);
    }
  }

  class Index {
    var commits: map<Oid, Commit>
    var next: Oid
    var log: Option<Oid>
    ghost var ops: seq<Op>           // what each record of the log was meant to do
    ghost var answers: seq<Outcome>  // how every compare-and-swap so far went

    ghost predicate Valid()
      reads this
    {
      && WellFormedCommits(commits) && Known(commits, log)
      && forall oid :: oid in commits ==> oid < next
    }

    ghost function Hist(): seq<Txn>
      reads this
      requires Valid()
    {
      History(commits, log)
    }

    /** When the newest compaction of the log was committed. */
    ghost function LastCompaction(): Option<int>
      reads this
      requires Valid()
    {
      LastCompact(commits, log)
    }

    constructor ()
      ensures Valid() && Hist() == [] && ops == [] && answers == []
    {
      commits, next, log, ops, answers := map[], 0, None, [], [];
    }

    /** Builds a commit object; nothing refers to it yet. */
    method CommitTree(txn: Txn, parent: Option<Oid>, now: int) returns (oid: Oid)
      requires Valid() && Known(commits, parent)
      modifies this`commits, this`next
      ensures Valid() && oid in commits && commits[oid] == Commit(parent, txn, now)
      ensures Extends(old(commits), commits)
      ensures Hist() == old(Hist()) && LastCompaction() == old(LastCompaction()) && oid !in old(commits)
      ensures History(commits, Some(oid)) == History(old(commits), parent) + [txn]
      ensures LastCompact(commits, Some(oid)) == if txn.Compact? then Some(now) else LastCompact(old(commits), parent)
    {
      oid := next;
      ghost var before := commits;
      commits := commits[oid := Commit(parent, txn, now)];
      next := next + 1;
      HistoryStable(before, commits, log);
      HistoryStable(before, commits, parent);
      LastCompactStable(before, commits, log);
      LastCompactStable(before, commits, parent);
    }

    /** Compare-and-swap on the log reference. It may fail although the reference
        matched, and it may take effect although failure is reported. */
    method CasRef(oid: Oid, expected: Option<Oid>, ghost op: Op) returns (ok: bool, ghost outcome: Outcome)
      requires Valid() && oid in commits && commits[oid].parent == expected
      modifies this`log, this`ops, this`answers
      ensures Valid() && answers == old(answers) + [outcome]
      ensures ok <==> outcome.Won?
      ensures outcome.Lost? ==> log == old(log) && ops == old(ops)
      ensures !outcome.Lost? ==> old(log) == expected && log == Some(oid) && ops == old(ops) + [op]
      ensures Hist() == if outcome.Lost? then old(Hist()) else old(Hist()) + [commits[oid].txn]
      ensures LastCompaction() == if outcome.Lost? then old(LastCompaction()) else LastCompact(commits, Some(oid))
    {
      ok, outcome := false, Lost;
      if log == expected {
        var taken: bool := *;
        if taken {
          log, ops := Some(oid), ops + [op];
          ok := *;
          outcome := if ok then Won else AckLost;
        }
      }
      answers := answers + [outcome];
    }

    /** The commits from `tip` back to genesis, newest first. */
    method RevList(tip: Oid) returns (oids: seq<Oid>)
      requires Valid() && tip in commits
      ensures forall i :: 0 <= i < |oids| ==> oids[i] in commits
      ensures History(commits, Some(tip)) == Reverse(Txns(commits, oids))
    {
      oids := [];
      var at: Option<Oid> := Some(tip);
      while at.Some?
        invariant Known(commits, at)
        invariant forall i :: 0 <= i < |oids| ==> oids[i] in commits
        invariant History(commits, Some(tip)) == History(commits, at) + Reverse(Txns(commits, oids))
        decreases if at.None? then 0 else at.value + 1
      {
        WalkStep(commits, oids, at.value);
        oids := oids + [at.value];
        at := commits[at.value].parent;
      }
      assert [] + Reverse(Txns(commits, oids)) == Reverse(Txns(commits, oids));
    }

    /** When the newest compaction of the log was committed. */
    method LastCompactionTime() returns (time: Option<int>)
      requires Valid()
      ensures time == LastCompaction()
    {
      var at := log;
      while at.Some?
        invariant Known(commits, at) && LastCompact(commits, at) == LastCompact(commits, log)
        decreases if at.None? then 0 else at.value + 1
      {
        if commits[at.value].txn.Compact? {
          return Some(commits[at.value].time);
        }
        at := commits[at.value].parent;
      }
      return None;
    }

    /** Collects the records after the newest checkpoint, newest first, and the
        state at that checkpoint. */
    method WalkBack(tip: Oid) returns (base: State, tail: seq<Txn>)
      requires Valid() && tip in commits
      ensures TailOf(History(commits, Some(tip)), base, tail)
    {
      var oids := RevList(tip);
      ghost var h := History(commits, Some(tip));
      tail, base := [], EMPTY;
      for i := 0 to |oids|
        invariant |tail| == i && |oids| == |h|
        invariant forall k :: 0 <= k < i ==> tail[k] == h[|h| - 1 - k] && !tail[k].Checkpoint?
      {
        var txn := commits[oids[i]].txn;
        ReverseAt(Txns(commits, oids), |h| - 1 - i);
        if txn.Checkpoint? {
          var seg := InsertSealsLoop(map[], txn.segIndex);
          base := State(txn.namespace, seg);
          return;
        }
        tail := tail + [txn];
      }
    }

    /** Reconstructs state at `tip`: the newest checkpoint, then the records after
        it applied forward. */
    method LoadFullState(tip: Option<Oid>) returns (st: State, since: nat)
      requires Valid() && Known(commits, tip)
      ensures st == Load(History(commits, tip)) && since == Since(History(commits, tip))
    {
      if tip.None? {
        return EMPTY, 0;
      }
      var base, tail := WalkBack(tip.value);
      ghost var h := History(commits, tip);
      TailBase(h, base, tail);
      st := ApplyTail(base, tail, h);
      since := |tail|;
    }
  }

  /** Applies the records after the newest checkpoint, oldest first. */
  method ApplyTail(base: State, tail: seq<Txn>, ghost h: seq<Txn>) returns (st: State)
    requires TailOf(h, base, tail) && base == Load(h[..|h| - |tail|])
    ensures st == Load(h)
  {
    st := base;
    for j := |tail| downto 0
      invariant st == Load(h[..|h| - j])
    {
      TailForward(h, base, tail, j);
      st := ApplyTxn(st, tail[j]);
    }
    assert h[..|h|] == h;
  }

  /** `tail` lists, newest first, the records after the newest checkpoint of `h`,
      and `base` is the state at that checkpoint. */
  ghost predicate TailOf(h: seq<Txn>, base: State, tail: seq<Txn>) {
    && |tail| <= |h|
    && (forall k :: 0 <= k < |tail| ==> tail[k] == h[|h| - 1 - k] && !tail[k].Checkpoint?)
    && var at := |h| - |tail|;
       || (at == 0 && base == EMPTY)
       || (at > 0 && h[at - 1].Checkpoint? && base == State(h[at - 1].namespace, InsertSeals(map[], h[at - 1].segIndex)))
  }

  lemma TailBase(h: seq<Txn>, base: State, tail: seq<Txn>)
    requires TailOf(h, base, tail)
    ensures base == Load(h[..|h| - |tail|]) && Since(h) == |tail|
  {
    var at := |h| - |tail|;
    forall k | at <= k < |h|
      ensures !h[k].Checkpoint?
    {
      assert tail[|h| - 1 - k] == h[k];
    }
    SinceCounts(h, at);
  }

  lemma TailForward(h: seq<Txn>, base: State, tail: seq<Txn>, j: nat)
    requires TailOf(h, base, tail) && j < |tail|
    ensures Load(h[..|h| - j]) == Apply(Load(h[..|h| - j - 1]), tail[j])
  {
    assert h[..|h| - j][..|h| - j - 1] == h[..|h| - j - 1];
  }

  function Reverse<T>(s: seq<T>): (r: seq<T>)
    ensures |r| == |s|
  {
    if s == [] then [] else Reverse(s[1..]) + [s[0]]
  }

  lemma {:induction false} ReverseAt<T>(s: seq<T>, i: nat)
    requires i < |s|
    ensures Reverse(s)[i] == s[|s| - 1 - i]
  {
    if i == |s| - 1 {
    } else {
      ReverseAt(s[1..], i);
    }
  }

  function Txns(commits: map<Oid, Commit>, oids: seq<Oid>): seq<Txn>
    requires forall i :: 0 <= i < |oids| ==> oids[i] in commits
  {
    seq(|oids|, i requires 0 <= i < |oids| => commits[oids[i]].txn)
  }

  lemma {:induction false} ReverseSnoc<T>(s: seq<T>, x: T)
    ensures Reverse(s + [x]) == [x] + Reverse(s)
  {
    if s == [] {
      assert s + [x] == [x];
      assert Reverse([x]) == Reverse([x][1..]) + [x];
    } else {
      assert (s + [x])[1..] == s[1..] + [x];
      ReverseSnoc(s[1..], x);
    }
  }

  lemma WalkStep(commits: map<Oid, Commit>, oids: seq<Oid>, at: Oid)
    requires WellFormedCommits(commits) && at in commits
    requires forall i :: 0 <= i < |oids| ==> oids[i] in commits
    ensures Reverse(Txns(commits, oids + [at])) == [commits[at].txn] + Reverse(Txns(commits, oids))
    ensures History(commits, Some(at)) + Reverse(Txns(commits, oids))
         == History(commits, commits[at].parent) + Reverse(Txns(commits, oids + [at]))
  {
    assert Txns(commits, oids + [at]) == Txns(commits, oids) + [commits[at].txn];
    ReverseSnoc(Txns(commits, oids), commits[at].txn);
  }

  lemma {:induction false} SinceCounts(h: seq<Txn>, base: nat)
    requires base <= |h| && (base == 0 || h[base - 1].Checkpoint?)
    requires forall k :: base <= k < |h| ==> !h[k].Checkpoint?
    ensures Since(h) == |h| - base
    decreases |h|
  {
    if |h| == base {
    } else {
      SinceCounts(h[..|h| - 1], base);
    }
  }

  /** The machine a call runs on: it can die at any of the points where the call
      asks. */
  class Machine {
    ghost var crashes: nat

    constructor ()
    {
      crashes := 0;
    }

    method Dies() returns (dead: bool)
      modifies this
      ensures crashes == old(crashes) + (if dead then 1 else 0)
    {
      dead := *;
      if dead {
        crashes := crashes + 1;
      }
    }
  }

  /** What a call cannot undo: how often the machine has died, how the swaps went, and
      the commits. */
  datatype Ledger = Ledger(crashes: nat, answers: seq<Outcome>, commits: map<Oid, Commit>)

  /** A call that died or not, got these answers to its swaps, and dropped no commit. */
  ghost predicate Entered(was: Ledger, now: Ledger, answers: seq<Outcome>, died: bool) {
    && now.crashes == was.crashes + (if died then 1 else 0)
    && now.answers == was.answers + answers
    && Extends(was.commits, now.commits)
  }

  lemma NothingEntered(l: Ledger)
    ensures Entered(l, l, [], false)
  {
  }

  lemma EnteredNext(a: Ledger, b: Ledger, c: Ledger, answers: seq<Outcome>, more: seq<Outcome>, died: bool)
    requires Entered(a, b, answers, false) && Entered(b, c, more, died)
    ensures Entered(a, c, answers + more, died)
  {
  }

  /** The ref stores of all volumes: each volume has its own segment refs. */
  class Volumes {
    var refs: Disk

    constructor ()
      ensures refs == map[]
    {
      refs := map[];
    }

    method HasRef(key: SegKey) returns (found: bool)
      ensures found <==> key in refs
    {
      found := key in refs;
    }

    method SetRef(key: SegKey, segment: Segment)
      modifies this
      ensures refs == old(refs)[key := segment]
    {
      refs := refs[key := segment];
    }

    method DeleteRef(key: SegKey)
      modifies this
      ensures refs == old(refs) - {key}
    {
      refs := refs - {key};
    }

    method ListRefs(v: VolId) returns (keys: set<SegKey>)
      ensures keys == set key | key in refs && key.vol == v
    {
      keys := set key | key in refs && key.vol == v;
    }

    method ReadBlobAt(key: SegKey, id: Digest) returns (blob: Option<Bytes>)
      ensures blob == if key in refs && id in refs[key].blobs then Some(refs[key].blobs[id]) else None
    {
      if key in refs && id in refs[key].blobs {
        return Some(refs[key].blobs[id]);
      }
      return None;
    }

    /** Deletes and recreates a whole repository; hosted ones refuse. */
    method Destroy(v: VolId) returns (ok: bool)
      modifies this
      ensures refs == if ok then WithoutVolume(old(refs), v) else old(refs)
    {
      ok := *;
      if ok {
        refs := WithoutVolume(refs, v);
      }
    }
  }
}
