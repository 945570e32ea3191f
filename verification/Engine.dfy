/** The storage engine, used by one process at a time: the index and the volumes
    are updated in place, every commit goes through the compare-and-swap of the
    log, and the process can crash at every phase boundary. */
module Engine {
  import opened Prelude
  import opened Manifests
  import opened Log
  import opened Repoint
  import opened Accounting
  import opened StoreInvariant
  import opened Placement
  import opened Pass
  import opened PassRefs
  import opened Backends
  import opened Scans
  import opened Planning
  import opened Sweeping
  import opened Reading
  import opened Attempts
  import Chunker
  import ChunkerTheory
  import Crypto
  import opened Protocol
  import Mirror

  datatype Failure = BudgetExhausted | Contention | NotFound | UnknownVolume | ChunkMissing
    | ChunkHashMismatch | ChunkUnreadable(why: Crypto.OpenError) | LengthMismatch | FileHashMismatch
    | NoMirrorTarget

  /** How a call ends: with a result, with an error, or in a crash. */
  datatype Exit<+T> = Done(value: T) | Failed(error: Failure) | Crashed

  /** How one compare-and-swap attempt ends. */
  datatype Attempt = AlreadyThere | Swapped | Rejected | Died

  datatype PutStats = PutStats(totalChunks: nat, newChunks: nat, ciphertextBytes: nat, size: nat,
                               committed: bool, volume: Option<VolId>)

  /** What a put reports: how many chunks the file has, how many of them were new,
      their stored size, the file's size, and where the new ones went. */
  ghost predicate Reports(store: Store, st: State, content: Bytes, stats: PutStats)
    requires store.Valid()
  {
    var added := NewIds(store, st.ns, content);
    && stats.totalChunks == |Chunker.Chunks(store.cdc, content)|
    && stats.newChunks == |added| && stats.ciphertextBytes == Weigh(added)
    && stats.size == |content|
    && (stats.volume.Some? <==> added != {})
    && (stats.volume.Some? ==> Roomiest(store, st.seg, Weigh(added), stats.volume.value))
  }

  /** Once applied, a put or remove finds its own effect. */
  lemma ApplyReflects(st: State, op: Op)
    requires !op.CompactOp?
    ensures Reflected(ApplyOp(st, op).ns, op)
  {
  }

  /** What the answers to a remove's swaps make of the store. */
  lemma RemoveRecorded(store: Store, st0: State, ops0: seq<Op>, disk: Disk, issued: nat, name: Name,
                       st: State, ops: seq<Op>, answers: seq<Outcome>)
    requires store.Valid() && Consistent(store, st0, disk, issued) && Intended(ops0) == Contents(st0.ns)
    requires Recorded(ops0, st0, ops, st, answers, RemoveOp(name))
    ensures Consistent(store, st, disk, issued) && Contents(st.ns) == Intended(ops)
    ensures Contents(st.ns) == if Landed(answers) then Contents(st0.ns) - {name} else Contents(st0.ns)
    ensures st.seg == st0.seg && (Landed(answers) ==> name !in st.ns)
  {
    RemoveKeeps(store, st0, disk, issued, name);
    IntendedStep(ops0, RemoveOp(name), st0);
  }

  /** What was and is referenced, on a volume the pass does not compact, is still
      the same segment. */
  ghost predicate ReferencedIntact(store: Store, g: Gates, base: State, st: State, was: Disk, now: Disk) {
    forall key :: key in Keys(Refs(st.ns)) && key in was && !OnCandidate(store, g, base, key.vol) ==>
      key in now && now[key] == was[key]
  }

  lemma SweptIntact(store: Store, g: Gates, base: State, landed: seq<bool>, st: State, was: Disk, mid: Disk, now: Disk,
                    window: int, later: int)
    requires SpareIsLast(store.volumes) && IsPass(store, g, base, landed)
    requires PassChanged(store, g, base, landed, was, mid, later) && PartlySwept(mid, now, st.ns, window, later)
    ensures ReferencedIntact(store, g, base, st, was, now)
  {
    forall key | key in Keys(Refs(st.ns)) && key in was && !OnCandidate(store, g, base, key.vol)
      ensures key in now && now[key] == was[key]
    {
      RetiredIsOnCandidate(store, g, base, landed, key.vol);
      assert key in AfterSweep(mid, st.ns, window, later);
    }
  }

  /** A pass over a consistent store can begin. */
  lemma PassBegins(store: Store, g: Gates, start: Standing, issued: nat, clock: int)
    requires store.Valid() && SpareIsLast(store.volumes) && start.landed == []
    requires Consistent(store, start.st, start.refs, issued)
    ensures Underway(store, g, start.st, start, start, clock)
    ensures OnCourse(store, g, start.st, [], [], [], [], start.refs, start.refs, clock)
    ensures LengthsRecorded(start.st.ns) && OnePlacement(start.st.ns)
  {
    ConsistentLengths(store, start.st.ns);
    UnderwayAtFirst(store, g, start, clock);
  }

  lemma NothingSwept(disk: Disk, ns: Namespace, window: int, now: int)
    ensures PartlySwept(disk, disk, ns, window, now)
  {
  }

  /** What a pass means for the contents and for the budget. */
  lemma PassMeans(store: Store, g: Gates, base: State, start: Standing, now: Standing, clock: int)
    requires store.Valid() && SpareIsLast(store.volumes) && OnePlacement(base.ns) && DerivedExact(base.seg)
    requires Underway(store, g, base, start, now, clock) && Intended(start.ops) == Contents(base.ns)
    ensures EraseAll(now.st.ns) == EraseAll(base.ns) && Contents(now.st.ns) == Intended(now.ops)
    ensures WithinBudget(store, now.st) <==> HeldWithinBudget(store, base, now.landed)
  {
    PassPreservesMeaning(store, g, base, now.landed);
    SameMeaningSameContents(now.st.ns, base.ns);
    CompactionsIntendNothing(start.ops, now.ops);
    PassWithinBudgetIff(store, g, base, now.landed);
  }

  /** What a landed compaction of `v` onto `dest` amounts to. */
  lemma CompactedFor(store: Store, base: State, cur: State, v: VolId, dest: SegKey)
    requires SpareIsLast(store.volumes) && DestOf(store, base, v) == Some(dest)
    ensures var moved := IdsOn(base.ns, v);
      && (Blocked(base, cur, v) <==> !(IdsOn(cur.ns, v) <= moved))
      && (!Blocked(base, cur, v) ==> Compacted(store, base, cur, v) == Retire(cur, v, dest, SealFor(dest, moved, Weigh(moved))))
  {
  }

  class Engine {
    const store: Store
    const index: Index
    const volumes: Volumes
    const machine: Machine
    var issued: nat

    ghost function St(): State
      reads this, index
      requires index.Valid()
    {
      Load(index.Hist())
    }

    ghost function Books(): Ledger
      reads index, machine
    {
      Ledger(machine.crashes, index.answers, index.commits)
    }

    ghost predicate Valid()
      reads this, index, volumes
    {
      && store.Valid() && SpareIsLast(store.volumes)
      && index.Valid()
      && Committed(index.Hist(), index.ops, store.interval)
      && Consistent(store, St(), volumes.refs, issued)
    }

    /** Some ordinary volume is under budget pressure, and the newest compaction of any
        volume, if there was one, is at least the interval ago. */
    ghost predicate GatesOpen(g: Gates, now: int)
      reads this, index
      requires index.Valid()
    {
      && (exists i :: 0 <= i < |store.volumes| && !store.volumes[i].spare
            && g.pressed(Total(St().seg, store.volumes[i].id), store.volumes[i].threshold))
      && (index.LastCompaction().Some? ==> now - index.LastCompaction().value >= g.minInterval)
    }

    /** The invariant between calls: the store is consistent, and its contents are
        exactly what the committed operations call for. */
    ghost predicate Durable()
      reads this, index, volumes
    {
      Valid() && Contents(St().ns) == Intended(index.ops)
    }

    /** Opens an empty store over the declared volumes. */
    constructor (keys: Crypto.Keys, cdc: Chunker.FastCdc, declared: seq<(VolId, nat)>, interval: nat)
      requires keys.Valid() && cdc.Valid() && interval >= 1
      requires forall i, j :: 0 <= i < j < |declared| ==> declared[i].0 != declared[j].0
      ensures Durable() && St() == EMPTY && fresh(index) && fresh(volumes) && fresh(machine)
      ensures store == OpenStore(keys, cdc, declared, interval)
    {
      OpenedStoreIsValid(keys, cdc, declared, interval);
      store := OpenStore(keys, cdc, declared, interval);
      index := new Index();
      volumes := new Volumes();
      machine := new Machine();
      issued := 0;
    }

    // ---------- the commit point ----------

    /** The record of a put or remove on top of the state just read: a whole-store
        checkpoint when one is due, a delta otherwise. */
    method BuildTxn(op: Op, st: State, since: nat, ghost h: seq<Txn>) returns (txn: Txn)
      requires !op.CompactOp? && st == Load(h) && since == Since(h)
      ensures Encodes(h, txn, op, store.interval) && !txn.Compact?
    {
      if since + 1 >= store.interval {
        match op {
          case PutOp(m, seals) =>
            var seg := InsertSealsLoop(st.seg, seals);
            var recs := SegIndexRecords(seg);
            txn := Checkpoint(st.ns[m.name := m], recs);
          case RemoveOp(name) =>
            var recs := SegIndexRecords(st.seg);
            txn := Checkpoint(st.ns - {name}, recs);
        }
      } else {
        match op {
          case PutOp(m, seals) => txn := Delta(Some(m), None, seals);
          case RemoveOp(name) => txn := Delta(None, Some(name), []);
        }
      }
    }

    /** The log is a faithful record of the operations committed to it. */
    ghost predicate LogValid()
      reads this, index
    {
      index.Valid() && store.interval >= 1 && Committed(index.Hist(), index.ops, store.interval)
    }

    /** Builds the commit on the tip just read and issues the compare-and-swap;
        the process can die before it and after it. */
    method Propose(tip: Option<Oid>, txn: Txn, op: Op, now: int) returns (r: Attempt, ghost answers: seq<Outcome>)
      requires LogValid() && tip == index.log && Encodes(index.Hist(), txn, op, store.interval)
      modifies index, machine
      ensures LogValid() && !r.AlreadyThere? && |answers| <= 1
      ensures r.Swapped? ==> answers == [Won]
      ensures r.Rejected? ==> |answers| == 1 && !answers[0].Won?
      ensures Recorded(old(index.ops), old(St()), index.ops, St(), answers, op)
      ensures index.LastCompaction() ==
        if Landed(answers) && txn.Compact? then Some(now) else old(index.LastCompaction())
      ensures Entered(old(Books()), Books(), answers, r.Died?)
    {
      ghost var h0, ops0 := index.Hist(), index.ops;
      var oid := index.CommitTree(txn, tip, now);
      r, answers := Swap(oid, tip, op);
      AppendedAtMost(h0, ops0, index.Hist(), index.ops, txn, op, store.interval);
    }

    /** The swap itself, with a chance to die before it and after it. */
    method Swap(oid: Oid, tip: Option<Oid>, ghost op: Op) returns (r: Attempt, ghost answers: seq<Outcome>)
      requires index.Valid() && oid in index.commits && index.commits[oid].parent == tip
      modifies index`log, index`ops, index`answers, machine
      ensures index.Valid() && !r.AlreadyThere? && |answers| <= 1
      ensures r.Swapped? ==> answers == [Won]
      ensures r.Rejected? ==> |answers| == 1 && !answers[0].Won?
      ensures index.ops == if Landed(answers) then old(index.ops) + [op] else old(index.ops)
      ensures index.Hist() == if Landed(answers) then old(index.Hist()) + [index.commits[oid].txn] else old(index.Hist())
      ensures index.LastCompaction() ==
        if Landed(answers) then LastCompact(index.commits, Some(oid)) else old(index.LastCompaction())
      ensures Entered(old(Books()), Books(), answers, r.Died?)
    {
      r, answers := Died, [];
      var crash := machine.Dies();
      if !crash {
        ghost var outcome;
        var ok;
        ok, outcome := index.CasRef(oid, tip, op);
        answers := [outcome];
        crash := machine.Dies();
        r := if crash then Died else if ok then Swapped else Rejected;
      }
    }

    /** One attempt at committing: read the tip, build on it, compare-and-swap. */
    method TryCommit(op: Op, now: int) returns (r: Attempt, ghost answers: seq<Outcome>)
      requires LogValid() && !op.CompactOp?
      modifies index, machine
      ensures LogValid() && |answers| <= 1
      ensures r.AlreadyThere? <==> old(Reflected(St().ns, op))
      ensures r.AlreadyThere? ==> answers == []
      ensures r.Swapped? ==> answers == [Won]
      ensures r.Rejected? ==> |answers| == 1 && !answers[0].Won?
      ensures Recorded(old(index.ops), old(St()), index.ops, St(), answers, op)
      ensures index.LastCompaction() == old(index.LastCompaction())
      ensures Entered(old(Books()), Books(), answers, r.Died?)
    {
      var tip := index.log;
      var st, since := index.LoadFullState(tip);
      if Reflected(st.ns, op) {
        return AlreadyThere, [];
      }
      var txn := BuildTxn(op, st, since, index.Hist());
      r, answers := Propose(tip, txn, op, now);
    }

    /** The rebase-and-retry loop of put and remove. The answers to its swaps decide
        everything: a record is in the log exactly when the last swap took effect,
        and a call that does not crash succeeds unless it used up its attempts
        without an acknowledgement. */
    method CommitOp(op: Op, now: int) returns (r: Exit<bool>, ghost answers: seq<Outcome>)
      requires LogValid() && !op.CompactOp?
      modifies index, machine
      ensures LogValid() && OneCall(answers)
      ensures Recorded(old(index.ops), old(St()), index.ops, St(), answers, op)
      ensures old(Reflected(St().ns, op)) ==> answers == []
      ensures !r.Crashed? ==>
        r == if Exhausted(answers) then Failed(Contention) else Done(Acknowledged(answers))
      ensures r.Done? ==> (Landed(answers) || old(Reflected(St().ns, op))) && Reflected(St().ns, op)
      ensures r.Failed? && index.ops != old(index.ops) <==> !r.Crashed? && LastAckLost(answers)
      ensures index.LastCompaction() == old(index.LastCompaction())
      ensures Entered(old(Books()), Books(), answers, r.Crashed?)
    {
      ghost var ops0, st0, last0 := index.ops, St(), index.LastCompaction();
      ApplyReflects(st0, op);
      answers := [];
      for attempt := 0 to MAX_CAS_RETRIES
        invariant LogValid() && OneCall(answers) && |answers| == attempt && !Acknowledged(answers)
        invariant Recorded(ops0, st0, index.ops, St(), answers, op)
        invariant Reflected(st0.ns, op) ==> answers == []
        invariant index.LastCompaction() == last0
        invariant Entered(old(Books()), Books(), answers, false)
      {
        ghost var ops, st, books := index.ops, St(), Books();
        ghost var more;
        var a;
        a, more := TryCommit(op, now);
        RecordedNext(ops0, st0, ops, st, answers, index.ops, St(), more, op);
        EnteredNext(old(Books()), books, Books(), answers, more, a.Died?);
        answers := answers + more;
        RecordedMeans(ops0, st0, index.ops, St(), answers, op);
        match a {
          case AlreadyThere => return Done(false), answers;
          case Swapped => return Done(true), answers;
          case Died => return Crashed, answers;
          case Rejected =>
        }
      }
      RecordedMeans(ops0, st0, index.ops, St(), answers, op);
      return Failed(Contention), answers;
    }

    // ---------- put ----------

    /** Everything a put decides before it touches the backends: the manifest, the
        new segment and its volume. */
    method PlanPut(name: Name, reader: Chunker.Reader, segId: SegId)
      returns (plan: Option<PutPlan>)
      requires Valid()
      modifies reader
      ensures reader.remaining == []
      ensures plan.Some? ==> PlanOf(store, St(), name, old(reader.remaining), segId, plan.value)
      ensures plan.None? <==> Refused(store, St(), old(reader.remaining))
    {
      ghost var content := reader.remaining;
      var st, _ := index.LoadFullState(index.log);
      var known := KnownPlacements(st.ns);
      var parts, digest, _ := Chunker.StreamChunks(reader, store.cdc);
      var meta, staged, bytes, size := PlanChunks(store, parts, known, segId);
      ChunkerTheory.ChunksConcat(store.cdc, content);
      plan := PlaceFile(store, name, content, st, known, digest, meta, staged, bytes, size, segId);
    }

    /** A plan that can be carried out: pushing its segment, and then committing its
        record, keep the store consistent and within budget, and its figures are
        right. */
    ghost predicate Deliverable(plan: PutPlan, content: Bytes, now: int)
      reads this, index, volumes
      requires Durable()
    {
      && Consistent(store, St(), Pushed(volumes.refs, plan, now), issued)
      && Consistent(store, ApplyOp(St(), plan.Op()), Pushed(volumes.refs, plan, now), issued)
      && plan.m.fileHash == Blake3(content) && plan.m.size == |content| && Counts(store, St(), content, plan)
      && (plan.asIs ==> Reflected(St().ns, plan.Op()) && plan.target.None?)
      && (WithinBudget(store, St()) ==> WithinBudget(store, ApplyOp(St(), plan.Op())))
      && (plan.target.Some? ==>
            OneSegmentPushed(store, St(), content, plan.own, volumes.refs, Pushed(volumes.refs, plan, now), now))
    }

    /** Draws a segment id and plans; bytes stored under that name already are found
        as they are. */
    method Prepare(name: Name, reader: Chunker.Reader, now: int) returns (plan: Option<PutPlan>)
      requires Durable()
      modifies this`issued, reader
      ensures Durable()
      ensures plan.None? <==> Refused(store, St(), old(reader.remaining))
      ensures plan.Some? ==> plan.value.m.name == name && Deliverable(plan.value, old(reader.remaining), now)
      ensures plan.Some? ==> plan.value.own.seg == Random(old(issued))
      ensures name in St().ns && St().ns[name].fileHash.of == old(reader.remaining) ==> plan.Some? && plan.value.asIs
    {
      ghost var content, st0 := reader.remaining, St();
      StoredIsNeverRefused(store, st0, name, content);
      IssueKeeps(store, st0, volumes.refs, issued);
      var segId := Random(issued);
      issued := issued + 1;
      plan := PlanPut(name, reader, segId);
      if plan.Some? {
        PlanIsCommittable(store, st0, volumes.refs, issued, name, content, plan.value, now);
        PlanCounts(store, st0, name, content, segId, plan.value);
        PlanPushesOne(store, st0, volumes.refs, name, content, segId, plan.value, now);
      }
    }

    /** Stores a byte stream under a name. However the call ends, the store's
        contents are the old ones or the old ones with this file; success means
        the latter. At most one record is committed. A call that does not crash
        succeeds unless the budget refuses it or it used up its attempts without
        an acknowledgement. */
    method Put(name: Name, reader: Chunker.Reader, now: int)
      returns (r: Exit<PutStats>, ghost answers: seq<Outcome>)
      requires Durable()
      modifies this`issued, index, volumes, reader, machine
      ensures Durable()
      ensures PutOutcome(old(Contents(St().ns)), Contents(St().ns), name, old(reader.remaining), r.Done?)
      ensures St().ns - {name} == old(St().ns) - {name}
      ensures AtMostOnePut(old(index.ops), index.ops, name, old(reader.remaining))
      ensures old(name in St().ns && St().ns[name].fileHash.of == reader.remaining) ==>
        && r.Done? && !r.value.committed && index.ops == old(index.ops)
        && St() == old(St()) && volumes.refs == old(volumes.refs)
      ensures r == Failed(BudgetExhausted) <==> old(Refused(store, St(), reader.remaining))
      ensures r == Failed(BudgetExhausted) ==> St() == old(St()) && volumes.refs == old(volumes.refs)
      ensures PutLeaves(store, old(St()), old(reader.remaining), old(issued), old(volumes.refs), volumes.refs, now)
      ensures !r.Crashed? && r != Failed(BudgetExhausted) ==>
        (volumes.refs == old(volumes.refs) <==> NewIds(store, old(St()).ns, old(reader.remaining)) == {})
      ensures r.Done? && r.value.volume.Some? ==>
        OneSegmentPushed(store, old(St()), old(reader.remaining), SegKey(r.value.volume.value, Random(old(issued))),
                         old(volumes.refs), volumes.refs, now)
      ensures old(WithinBudget(store, St())) ==> WithinBudget(store, St())
      ensures index.LastCompaction() == old(index.LastCompaction())
      ensures r.Done? ==> Reports(store, old(St()), old(reader.remaining), r.value)
      ensures OneCall(answers) && (index.ops != old(index.ops) <==> Landed(answers))
      ensures !r.Crashed? ==> (r.Done? <==> !old(Refused(store, St(), reader.remaining)) && !Exhausted(answers))
      ensures !r.Crashed? ==> (r == Failed(Contention) <==> Exhausted(answers))
      ensures r.Failed? && index.ops != old(index.ops) <==> !r.Crashed? && LastAckLost(answers)
      ensures r.Done? ==> (r.value.committed <==> Acknowledged(answers))
      ensures Entered(old(Books()), Books(), answers, r.Crashed?)
    {
      ghost var content := reader.remaining;
      var plan := Prepare(name, reader, now);
      if plan.None? {
        return Failed(BudgetExhausted), [];
      }
      r, answers := Deliver(plan.value, content, now);
    }

    /** Carries out a plan and reports on it. */
    method Deliver(plan: PutPlan, ghost content: Bytes, now: int)
      returns (r: Exit<PutStats>, ghost answers: seq<Outcome>)
      requires Durable() && Deliverable(plan, content, now)
      modifies index, volumes, machine
      ensures Durable()
      ensures PutOutcome(old(Contents(St().ns)), Contents(St().ns), plan.m.name, content, r.Done?)
      ensures St().ns - {plan.m.name} == old(St()).ns - {plan.m.name}
      ensures AtMostOnePut(old(index.ops), index.ops, plan.m.name, content)
      ensures plan.asIs ==>
        && r.Done? && !r.value.committed && index.ops == old(index.ops)
        && St() == old(St()) && volumes.refs == old(volumes.refs)
      ensures volumes.refs == old(volumes.refs) || volumes.refs == Pushed(old(volumes.refs), plan, now)
      ensures !r.Crashed? ==> volumes.refs == Pushed(old(volumes.refs), plan, now)
      ensures r.Done? ==> r.value.volume == if plan.target.Some? then Some(plan.own.vol) else None
      ensures old(WithinBudget(store, St())) ==> WithinBudget(store, St())
      ensures index.LastCompaction() == old(index.LastCompaction())
      ensures r.Done? ==> Reports(store, old(St()), content, r.value)
      ensures OneCall(answers) && (index.ops != old(index.ops) <==> Landed(answers))
      ensures !r.Crashed? ==> (r.Done? <==> !Exhausted(answers)) && (r.Failed? ==> r.error == Contention)
      ensures r.Failed? && index.ops != old(index.ops) <==> !r.Crashed? && LastAckLost(answers)
      ensures r.Done? ==> (r.value.committed <==> Acknowledged(answers))
      ensures Entered(old(Books()), Books(), answers, r.Crashed?)
    {
      ghost var st0, ops0 := St(), index.ops;
      var res;
      res, answers := StorePlan(plan, now);
      PutMeans(store, st0, ops0, St(), index.ops, plan, content);
      match res {
        case Done(committed) =>
          r := Done(PutStats(|plan.m.chunks|, |plan.staged|, plan.bytes, plan.m.size, committed,
                             if plan.target.Some? then Some(plan.own.vol) else None));
        case Failed(e) => r := Failed(e);
        case Crashed => r := Crashed;
      }
    }

    /** Data first, then the commit point; nothing at all if the file is there as it
        is. */
    method StorePlan(plan: PutPlan, now: int) returns (r: Exit<bool>, ghost answers: seq<Outcome>)
      requires Valid()
      requires Consistent(store, St(), Pushed(volumes.refs, plan, now), issued)
      requires Consistent(store, ApplyOp(St(), plan.Op()), Pushed(volumes.refs, plan, now), issued)
      requires plan.asIs ==> Reflected(St().ns, plan.Op()) && plan.target.None?
      modifies index, volumes, machine
      ensures Valid()
      ensures plan.asIs ==> r == Done(false) && answers == [] && index.ops == old(index.ops) && St() == old(St())
      ensures volumes.refs == old(volumes.refs) || volumes.refs == Pushed(old(volumes.refs), plan, now)
      ensures !r.Crashed? ==> volumes.refs == Pushed(old(volumes.refs), plan, now)
      ensures PutLanded(old(St()), old(index.ops), St(), index.ops, plan)
      ensures index.LastCompaction() == old(index.LastCompaction())
      ensures r.Done? ==> Reflected(St().ns, plan.Op())
      ensures OneCall(answers) && (index.ops != old(index.ops) <==> Landed(answers))
      ensures r.Failed? && index.ops != old(index.ops) <==> !r.Crashed? && LastAckLost(answers)
      ensures !r.Crashed? ==>
        r == if Exhausted(answers) then Failed(Contention) else Done(Acknowledged(answers))
      ensures Entered(old(Books()), Books(), answers, r.Crashed?)
    {
      NothingEntered(Books());
      if plan.asIs {
        return Done(false), [];
      }
      var crashed := PushPlan(plan, now);
      if crashed {
        return Crashed, [];
      }
      r, answers := CommitOp(plan.Op(), now);
    }

    /** Pushes the new segment, if there is one; the process can die before it and
        after it. */
    method PushPlan(plan: PutPlan, now: int) returns (crashed: bool)
      modifies volumes, machine
      ensures volumes.refs == old(volumes.refs) || volumes.refs == Pushed(old(volumes.refs), plan, now)
      ensures !crashed ==> volumes.refs == Pushed(old(volumes.refs), plan, now)
      ensures machine.crashes == old(machine.crashes) + (if crashed then 1 else 0)
    {
      crashed := machine.Dies();
      if crashed {
        return true;  // the volumes are untouched
      }
      if plan.target.Some? {
        volumes.SetRef(plan.own, Segment(plan.staged, now));
      }
      crashed := machine.Dies();  // from here on the new segment is an orphan
    }

    // ---------- remove ----------

    /** Drops a name. An unknown name is an error and writes nothing; success means
        the name is gone and everything else is as before; a known name is gone
        unless the call crashed or used up its attempts. */
    method Remove(name: Name, now: int) returns (r: Exit<bool>, ghost answers: seq<Outcome>)
      requires Durable()
      modifies index, machine
      ensures Durable()
      ensures OneCall(answers)
      ensures index.ops == if Landed(answers) then old(index.ops) + [RemoveOp(name)] else old(index.ops)
      ensures St() == if Landed(answers) then ApplyOp(old(St()), RemoveOp(name)) else old(St())
      ensures Contents(St().ns) ==
        if Landed(answers) then old(Contents(St().ns)) - {name} else old(Contents(St().ns))
      ensures old(name !in St().ns) ==> r == Failed(NotFound) && answers == []
      ensures old(name in St().ns) && !r.Crashed? ==>
        r == if Exhausted(answers) then Failed(Contention) else Done(Acknowledged(answers))
      ensures r.Done? ==> name !in St().ns && Landed(answers)
      ensures r.Failed? && index.ops != old(index.ops) <==> !r.Crashed? && LastAckLost(answers)
      ensures St().seg == old(St().seg)
      ensures index.LastCompaction() == old(index.LastCompaction())
      ensures Entered(old(Books()), Books(), answers, r.Crashed?)
    {
      var st, _ := index.LoadFullState(index.log);
      if name !in st.ns {
        return Failed(NotFound), [];
      }
      ghost var st0, ops0 := St(), index.ops;
      r, answers := CommitOp(RemoveOp(name), now);
      RemoveRecorded(store, st0, ops0, volumes.refs, issued, name, St(), index.ops, answers);
    }

    // ---------- get ----------

    /** Reads a file back, verifying every chunk and the whole. At the tip, pinned or
        not, the result is exactly the stored bytes, and an error exactly for an
        unknown name. At any pinned commit an unknown name is reported as such; a known
        one gives the bytes that commit describes if its chunks are still readable,
        and another error otherwise. */
    method Get(name: Name, at: Option<Oid>) returns (r: Result<Bytes, Failure>)
      requires Durable() && Known(index.commits, at)
      ensures at.None? || at == index.log ==>
        r == if name in Intended(index.ops) then Ok(Intended(index.ops)[name]) else Err(NotFound)
      ensures at.Some? ==>
        var ns := Load(History(index.commits, at)).ns;
        && (r == Err(NotFound) <==> name !in ns)
        && (r.Ok? <==> name in ns && Readable(store, volumes.refs, ns[name]))
        && (r.Ok? ==> r.value == Contents(ns)[name])
    {
      var st, _ := index.LoadFullState(if at.Some? then at else index.log);
      if name !in st.ns {
        return Err(NotFound);
      }
      var m := st.ns[name];
      if at.None? || at == index.log {
        StoredIsReadable(store, st, volumes.refs, issued, name);
      }
      r := ReadFile(m);
    }

    method ReadFile(m: Manifest) returns (r: Result<Bytes, Failure>)
      requires store.Valid()
      ensures r.Ok? <==> Readable(store, volumes.refs, m)
      ensures r.Ok? ==> r.value == m.fileHash.of
      ensures r != Err(NotFound)
    {
      var out: Bytes := [];
      for i := 0 to |m.chunks|
        invariant forall j :: 0 <= j < i ==> ChunkReadable(store, volumes.refs, m.chunks[j])
        invariant out == Concat(PlainChunks(m)[..i])
      {
        var c := m.chunks[i];
        var plain := ReadChunk(c);
        if plain.Err? {
          return Err(plain.error);
        }
        assert PlainChunks(m)[..i + 1] == PlainChunks(m)[..i] + [PlainChunks(m)[i]];
        ConcatSnoc(PlainChunks(m)[..i], PlainChunks(m)[i]);
        out := out + plain.value;
      }
      assert PlainChunks(m)[..|m.chunks|] == PlainChunks(m);
      if Blake3(out) != m.fileHash {
        return Err(FileHashMismatch);
      }
      return Ok(out);
    }

    method ReadChunk(c: ChunkRef) returns (r: Result<Bytes, Failure>)
      requires store.Valid()
      ensures r.Ok? <==> ChunkReadable(store, volumes.refs, c)
      ensures r.Ok? ==> r.value == c.plaintextHash.of
      ensures r != Err(NotFound)
    {
      var i := 0;
      while i < |store.volumes| && store.volumes[i].id != c.vol
        invariant 0 <= i <= |store.volumes|
        invariant forall j :: 0 <= j < i ==> store.volumes[j].id != c.vol
      {
        i := i + 1;
      }
      if i == |store.volumes| {
        return Err(UnknownVolume);
      }
      var blob := volumes.ReadBlobAt(c.Key(), c.id);
      if blob.None? {
        return Err(ChunkMissing);
      }
      if Blake3(blob.value) != c.id {
        return Err(ChunkHashMismatch);
      }
      var plain := store.keys.OpenChunk(blob.value, c.plaintextHash);
      if plain.Err? {
        return Err(ChunkUnreadable(plain.error));
      }
      if |plain.value| != c.len {
        return Err(LengthMismatch);
      }
      return Ok(plain.value);
    }

    // ---------- compaction ----------

    /** Phase 1: copies the live chunks of `v`, as the snapshot places them, into a
        segment named after them; reuses that segment if it is already there. */
    method RewriteLive(v: VolId, base: State, moved: set<Digest>, dest: SegKey, now: int) returns (r: Exit<()>)
      requires Valid() && moved == IdsOn(base.ns, v)
      requires dest.seg == Derived(v, moved) && dest.vol in store.Ids()
      modifies volumes, machine
      ensures Valid()
      ensures r.Done? ==> volumes.refs == WithRewrite(old(volumes.refs), dest, moved, now)
      ensures r.Crashed? ==> volumes.refs == WithRewrite(old(volumes.refs), dest, moved, now)
      ensures BackedOn(old(volumes.refs), base.ns, v) ==> !r.Failed?
      ensures r.Failed? ==> r.error == ChunkMissing && volumes.refs == old(volumes.refs)
      ensures machine.crashes == old(machine.crashes) + (if r.Crashed? then 1 else 0)
    {
      if moved != {} {
        var present := volumes.HasRef(dest);
        if !present {
          var ok, blobs := ReadLive(volumes, base.ns, v);
          if !ok {
            return Failed(ChunkMissing);
          }
          PushKeeps(store, St(), volumes.refs, issued, dest, Segment(blobs, now));
          assert Segment(blobs, now) == RewriteOf(moved, now);
          volumes.SetRef(dest, Segment(blobs, now));
        }
      }
      var crash := machine.Dies();
      return if crash then Crashed else Done(());
    }

    /** One attempt at committing a retirement: the repoint is rebuilt from the
        current namespace, and refused if that has chunks on `v` that were never
        rewritten. */
    method TryRetire(v: VolId, dest: SegKey, moved: set<Digest>, seals: seq<SegRec>, now: int)
      returns (refused: bool, r: Attempt, ghost answers: seq<Outcome>)
      requires LogValid() && NamesMatch(St().ns)
      modifies index, machine
      ensures LogValid() && |answers| <= 1
      ensures refused <==> !old(IdsOn(St().ns, v) <= moved)
      ensures r.AlreadyThere? <==> refused || old(NothingOn(St(), v))
      ensures r.AlreadyThere? ==> answers == []
      ensures r.Swapped? ==> answers == [Won]
      ensures r.Rejected? ==> |answers| == 1 && !answers[0].Won?
      ensures Progress(old(index.ops), old(St()), old(index.LastCompaction()), index.ops, St(), index.LastCompaction(),
                       answers, v, dest, seals, now)
      ensures Entered(old(Books()), Books(), answers, r.Died?)
    {
      var tip := index.log;
      var st, _ := index.LoadFullState(tip);
      ghost var ops, last := index.ops, index.LastCompaction();
      NoProgress(ops, st, last, v, dest, seals, now);
      var referenced, repoint;
      refused, referenced, repoint := BuildRepoint(st.ns, v, dest, moved);
      r, answers := AlreadyThere, [];
      if refused {
        return;
      }
      if !referenced && forall key <- st.seg.Keys :: key.vol != v {
        return;
      }
      r, answers := Propose(tip, Txn.Compact([v], seals, repoint), CompactOp([v], seals, repoint), now);
      ProposedRetires(ops, st, last, index.ops, St(), index.LastCompaction(), answers, v, dest, seals, repoint, now);
    }

    /** The retry loop of a retirement. The answers to its swaps decide everything:
        without a crash it counts as landed unless it was refused or used up its
        attempts without an acknowledgement, and then nothing references `v`. */
    method CommitCompaction(v: VolId, dest: SegKey, moved: set<Digest>, seals: seq<SegRec>, now: int)
      returns (r: Exit<bool>, ghost answers: seq<Outcome>)
      requires LogValid() && NamesMatch(St().ns) && dest.vol != v
      modifies index, machine
      ensures LogValid() && OneCall(answers) && !r.Failed?
      ensures old(NothingOn(St(), v) || !(IdsOn(St().ns, v) <= moved)) ==> answers == []
      ensures r.Done? ==> r.value == (old(IdsOn(St().ns, v) <= moved) && !Exhausted(answers))
      ensures r == Done(true) ==> NothingOn(St(), v) && (Landed(answers) || old(NothingOn(St(), v)))
      ensures Progress(old(index.ops), old(St()), old(index.LastCompaction()), index.ops, St(), index.LastCompaction(),
                       answers, v, dest, seals, now)
      ensures Entered(old(Books()), Books(), answers, r.Crashed?)
    {
      ghost var ops0, st0, last0 := index.ops, St(), index.LastCompaction();
      NothingOnAfterRetire(st0, v, dest, seals);
      NoProgress(ops0, st0, last0, v, dest, seals, now);
      answers := [];
      for attempt := 0 to MAX_CAS_RETRIES
        invariant LogValid() && NamesMatch(St().ns) && OneCall(answers) && |answers| == attempt && !Acknowledged(answers)
        invariant Entered(old(Books()), Books(), answers, false)
        invariant NothingOn(st0, v) || !(IdsOn(st0.ns, v) <= moved) ==> answers == []
        invariant Progress(ops0, st0, last0, index.ops, St(), index.LastCompaction(), answers, v, dest, seals, now)
      {
        ghost var ops, st, last, books := index.ops, St(), index.LastCompaction(), Books();
        var refused, a;
        ghost var more;
        refused, a, more := TryRetire(v, dest, moved, seals, now);
        ProgressStep(ops0, st0, last0, ops, st, last, answers, index.ops, St(), index.LastCompaction(), more, v, dest, seals, now);
        EnteredNext(old(Books()), books, Books(), answers, more, a.Died?);
        answers := answers + more;
        if refused {
          return Done(false), answers;
        }
        match a {
          case AlreadyThere => return Done(true), answers;
          case Swapped => return Done(true), answers;
          case Died => return Crashed, answers;
          case Rejected =>
        }
      }
      return Done(false), answers;
    }

    /** Wipes a volume whole, or ref by ref where the backend refuses that; a
        crash can leave some refs behind. */
    method WipeVolume(v: VolId) returns (crashed: bool, ghost left: set<SegKey>)
      modifies volumes, machine
      ensures volumes.refs == Spared(old(volumes.refs), v, left)
      ensures !crashed ==> left == {}
      ensures machine.crashes == old(machine.crashes) + (if crashed then 1 else 0)
    {
      var ok := volumes.Destroy(v);
      if ok {
        return false, {};
      }
      ghost var refs0 := volumes.refs;
      var todo := volumes.ListRefs(v);
      while todo != {}
        invariant todo <= (set key | key in refs0 && key.vol == v)
        invariant volumes.refs == Spared(refs0, v, todo) && machine.crashes == old(machine.crashes)
        decreases |todo|
      {
        var crash := machine.Dies();
        if crash {
          return true, todo;
        }
        var key :| key in todo;
        volumes.DeleteRef(key);
        todo := todo - {key};
      }
      return false, {};
    }

    /** Phase 3: wipes a volume nothing references; the process can die before it. */
    method Reclaim(v: VolId) returns (r: Exit<()>)
      requires Valid() && IdsOn(St().ns, v) == {}
      modifies volumes, machine
      ensures Valid() && !r.Failed?
      ensures r.Done? ==> volumes.refs == old(WithoutVolume(volumes.refs, v))
      ensures OtherVolumesKept(old(volumes.refs), volumes.refs, v)
      ensures forall key :: key in volumes.refs ==> key in old(volumes.refs) && volumes.refs[key] == old(volumes.refs[key])
      ensures machine.crashes == old(machine.crashes) + (if r.Crashed? then 1 else 0)
    {
      var crashed := machine.Dies();
      if crashed {
        return Crashed;  // the retired volume is still full of garbage
      }
      ghost var refs0 := volumes.refs;
      ghost var left;
      crashed, left := WipeVolume(v);
      WipeVolumeKeeps(store, St(), refs0, issued, v, left);
      return if crashed then Crashed else Done(());
    }

    /** Phase 2 on a consistent store: it stays consistent whether or not the
        retirement lands. */
    method RetireOnto(v: VolId, dest: SegKey, moved: set<Digest>, liveBytes: nat, now: int)
      returns (r: Exit<bool>, ghost answers: seq<Outcome>)
      requires Valid() && dest.vol != v && dest.vol in store.Ids() && dest.seg == Derived(v, moved)
      requires (moved != {} ==> dest in volumes.refs) && liveBytes == Weigh(moved)
      modifies index, machine
      ensures Valid() && OneCall(answers) && !r.Failed?
      ensures old(NothingOn(St(), v) || !(IdsOn(St().ns, v) <= moved)) ==> answers == []
      ensures r.Done? ==> r.value == (old(IdsOn(St().ns, v) <= moved) && !Exhausted(answers))
      ensures r == Done(true) ==> NothingOn(St(), v) && (Landed(answers) || old(NothingOn(St(), v)))
      ensures Progress(old(index.ops), old(St()), old(index.LastCompaction()), index.ops, St(), index.LastCompaction(),
                       answers, v, dest, SealFor(dest, moved, Weigh(moved)), now)
      ensures Entered(old(Books()), Books(), answers, r.Crashed?)
    {
      if IdsOn(St().ns, v) <= moved {
        RetireKeeps(store, St(), volumes.refs, issued, v, dest, moved);
      }
      r, answers := CommitCompaction(v, dest, moved, SealFor(dest, moved, liveBytes), now);
    }

    /** Rewrite and commit, once a destination has been chosen. */
    method RewriteAndRetire(v: VolId, base: State, moved: set<Digest>, liveBytes: nat, dest: SegKey, now: int)
      returns (r: Exit<bool>, ghost answers: seq<Outcome>)
      requires Valid() && moved == IdsOn(base.ns, v) && liveBytes == Weigh(moved)
      requires dest.vol != v && dest.vol in store.Ids() && dest.seg == Derived(v, moved)
      modifies index, volumes, machine
      ensures Valid() && OneCall(answers)
      ensures BackedOn(old(volumes.refs), base.ns, v) ==> !r.Failed?
      ensures old(NothingOn(St(), v) || !(IdsOn(St().ns, v) <= moved)) ==> answers == []
      ensures r.Done? ==> r.value == (old(IdsOn(St().ns, v) <= moved) && !Exhausted(answers))
      ensures r == Done(true) ==> NothingOn(St(), v) && (Landed(answers) || old(NothingOn(St(), v)))
      ensures volumes.refs == if r.Failed? then old(volumes.refs) else WithRewrite(old(volumes.refs), dest, moved, now)
      ensures Progress(old(index.ops), old(St()), old(index.LastCompaction()), index.ops, St(), index.LastCompaction(),
                       answers, v, dest, SealFor(dest, moved, Weigh(moved)), now)
      ensures Entered(old(Books()), Books(), answers, r.Crashed?)
    {
      NoProgress(index.ops, St(), index.LastCompaction(), v, dest, SealFor(dest, moved, Weigh(moved)), now);
      var rewritten := RewriteLive(v, base, moved, dest, now);
      match rewritten {
        case Failed(e) => return Failed(e), [];
        case Crashed => return Crashed, [];
        case Done(_) => r, answers := RetireOnto(v, dest, moved, liveBytes, now);
      }
    }

    /** Rewrite, commit and reclaim. */
    method CompactTo(v: VolId, base: State, moved: set<Digest>, liveBytes: nat, dest: SegKey, now: int)
      returns (r: Exit<bool>, ghost answers: seq<Outcome>)
      requires Valid() && moved == IdsOn(base.ns, v) && liveBytes == Weigh(moved)
      requires dest.vol != v && dest.vol in store.Ids() && dest.seg == Derived(v, moved)
      modifies index, volumes, machine
      ensures Valid() && OneCall(answers)
      ensures BackedOn(old(volumes.refs), base.ns, v) ==> !r.Failed?
      ensures old(NothingOn(St(), v) || !(IdsOn(St().ns, v) <= moved)) ==> answers == []
      ensures r.Done? ==> r.value == (old(IdsOn(St().ns, v) <= moved) && !Exhausted(answers))
      ensures r == Done(true) ==> NothingOn(St(), v) && (Landed(answers) || old(NothingOn(St(), v)))
      ensures Leaves(v, dest, moved, old(volumes.refs), volumes.refs, if r.Done? then Some(r.value) else None,
                     Landed(answers) || old(NothingOn(St(), v)), now)
      ensures Progress(old(index.ops), old(St()), old(index.LastCompaction()), index.ops, St(), index.LastCompaction(),
                       answers, v, dest, SealFor(dest, moved, Weigh(moved)), now)
      ensures Entered(old(Books()), Books(), answers, r.Crashed?)
    {
      ghost var refs0, gone := volumes.refs, NothingOn(St(), v);
      r, answers := RewriteAndRetire(v, base, moved, liveBytes, dest, now);
      NothingDone(v, dest, moved, refs0, Landed(answers) || gone, now);
      JustCopied(v, dest, moved, refs0, Landed(answers) || gone, now);
      if r == Done(true) {
        var wiped := Reclaim(v);
        ThenWiped(v, dest, moved, refs0, volumes.refs, wiped.Done?, now);
        r := if wiped.Crashed? then Crashed else Done(true);
      }
    }

    /** Compacts one volume. The state afterwards is the one before, or the one
        with `v` retired as planned from `base`. Unless the call crashes, is told
        of no swap, or meets a snapshot whose chunks are gone, it is the latter
        exactly when there is room and nothing new has come to `v`. */
    method CompactOne(v: VolId, base: State, now: int)
      returns (r: Exit<Option<CompactedVolume>>, ghost answers: seq<Outcome>)
      requires Valid() && LengthsRecorded(base.ns)
      modifies index, volumes, machine
      ensures Valid() && OneCall(answers)
      ensures BackedOn(old(volumes.refs), base.ns, v) ==> !r.Failed?
      ensures St() == if Landed(answers) then Compacted(store, base, old(St()), v) else old(St())
      ensures |index.ops| == |old(index.ops)| + (if Landed(answers) then 1 else 0)
      ensures Landed(answers) ==> DestOf(store, base, v).Some? && !Blocked(base, old(St()), v)
      ensures r.Done? ==>
        (r.value.Some? <==> DestOf(store, base, v).Some? && !Blocked(base, old(St()), v) && !Exhausted(answers))
      ensures r.Done? && r.value.Some? ==>
        && (Landed(answers) || old(NothingOn(St(), v)))
        && (forall key :: key in volumes.refs ==> key.vol != v)
        && IdsOn(St().ns, v) == {} && IsEntry(store, base, v, r.value.value)
      ensures r.Done? ==> volumes.refs == RefsAfterOne(store, base, old(volumes.refs), v, r.value.Some?, now)
      ensures OneChanged(store, base, v, old(volumes.refs), volumes.refs, Landed(answers) || old(NothingOn(St(), v)), now)
      ensures OnlyCompactions(old(index.ops), index.ops)
      ensures NewestAfter(old(index.LastCompaction()), index.LastCompaction(), Landed(answers), now)
      ensures Entered(old(Books()), Books(), answers, r.Crashed?)
    {
      answers := [];
      NoneCommitted(index.ops);
      var moved, liveBytes := LiveChunks(base.ns, v);
      var bytesBefore := VolumeUsed(v, base.seg);
      var target := SelectCompactDest(store.volumes, v, liveBytes, base.seg);
      if target.None? {
        return Done(None), answers;
      }
      var dest := SegKey(store.volumes[target.value].id, Derived(v, moved));
      CompactedFor(store, base, St(), v, dest);
      var done;
      done, answers := CompactTo(v, base, moved, liveBytes, dest, now);
      match done {
        case Failed(e) => r := Failed(e);
        case Crashed => r := Crashed;
        case Done(ok) =>
          r := Done(if ok then Some(CompactedVolume(v, dest.vol, bytesBefore, |moved|)) else None);
      }
    }

    /** Deletes the segment refs that the namespace does not reference and that are
        no younger than the window, and nothing else; a crash leaves some of them. */
    method SweepOrphans(window: int, now: int) returns (crashed: bool, swept: nat)
      requires Valid()
      modifies volumes, machine
      ensures Valid()
      ensures !crashed ==> volumes.refs == AfterSweep(old(volumes.refs), St().ns, window, now)
      ensures PartlySwept(old(volumes.refs), volumes.refs, St().ns, window, now)
      ensures forall key :: key in old(volumes.refs) && (key in Keys(Refs(St().ns)) || now - old(volumes.refs)[key].time < window) ==>
        key in volumes.refs && volumes.refs[key] == old(volumes.refs)[key]
      ensures !crashed ==> forall key :: key in volumes.refs ==>
        key in Keys(Refs(St().ns)) || now - volumes.refs[key].time < window
      ensures swept == |old(volumes.refs)| - |volumes.refs|
      ensures machine.crashes == old(machine.crashes) + (if crashed then 1 else 0)
    {
      var st, _ := index.LoadFullState(index.log);
      var referenced := ReferencedSegments(st.ns);
      ghost var refs0 := volumes.refs;
      ghost var i, todo;
      crashed, swept, i, todo := SweepVolumes(referenced, window, now);
      SweepDone(store, St(), refs0, issued, window, now);
      SweepStopped(store, St(), refs0, issued, window, now, i, todo);
    }

    /** Volume by volume, ref by ref; the process can die before any deletion. */
    method SweepVolumes(referenced: set<SegKey>, window: int, now: int)
      returns (crashed: bool, swept: nat, ghost volume: nat, ghost left: set<SegKey>)
      requires store.Valid()
      modifies volumes, machine
      ensures volume <= |store.volumes| && (!crashed ==> volume == |store.volumes| && left == {})
      ensures volumes.refs == SweptUpTo(store, old(volumes.refs), referenced, window, now, volume, left)
      ensures swept == |old(volumes.refs)| - |volumes.refs|
      ensures machine.crashes == old(machine.crashes) + (if crashed then 1 else 0)
    {
      ghost var refs0 := volumes.refs;
      swept := 0;
      for i := 0 to |store.volumes|
        invariant volumes.refs == SweptUpTo(store, refs0, referenced, window, now, i, {})
        invariant swept == |refs0| - |volumes.refs| && machine.crashes == old(machine.crashes)
      {
        var v := store.volumes[i].id;
        var todo := volumes.ListRefs(v);
        SweepStart(store, refs0, referenced, window, now, i, todo);
        while todo != {}
          invariant todo <= (set key | key in refs0 && key.vol == v)
          invariant volumes.refs == SweptUpTo(store, refs0, referenced, window, now, i + 1, todo)
          invariant swept == |refs0| - |volumes.refs| && machine.crashes == old(machine.crashes)
          decreases |todo|
        {
          var crash := machine.Dies();
          if crash {
            return true, swept, i + 1, todo;
          }
          var key :| key in todo;
          SweepNext(store, refs0, referenced, window, now, i, todo, key);
          todo := todo - {key};
          if key in referenced || now - volumes.refs[key].time < window {
            continue;
          }
          Shrinks(volumes.refs, key);
          volumes.DeleteRef(key);
          swept := swept + 1;
        }
      }
      crashed, volume, left := false, |store.volumes|, {};
    }

    ghost function Stands(landed: seq<bool>): Standing
      reads this, index, volumes
      requires index.Valid()
    {
      Standing(landed, St(), index.ops, index.LastCompaction(), volumes.refs)
    }

    /** The next volume of a pass: compacted if the snapshot makes it a candidate.
        Undisturbed, it lands exactly when the snapshot says so. */
    method CompactNext(g: Gates, base: State, ghost start: Standing, ghost landed: seq<bool>, s: VolumeStats, now: int)
      returns (r: Exit<Option<CompactedVolume>>, ghost one: bool, ghost answers: seq<Outcome>)
      requires Valid() && LengthsRecorded(base.ns) && OnePlacement(base.ns)
      requires Underway(store, g, base, start, Stands(landed), now)
      requires |landed| < |store.volumes| && s == StatsOf(base, store.volumes[|landed|])
      modifies index, volumes, machine
      ensures Valid() && !r.Failed?
      ensures Underway(store, g, base, start, Stands(landed + [one]), now)
      ensures r.Done? && r.value.Some? ==> one && IsEntry(store, base, s.id, r.value.value)
      ensures r.Done? ==>
        volumes.refs == if Candidate(g, base, store.volumes[|landed|])
                        then RefsAfterOne(store, base, old(volumes.refs), s.id, r.value.Some?, now)
                        else old(volumes.refs)
      ensures r.Done? && AllWon(answers) ==>
        && (one <==> r.value.Some?)
        && (one <==> Lands(store, g, base, PassState(store, base, landed), store.volumes[|landed|]))
      ensures Entered(old(Books()), Books(), answers, r.Crashed?)
    {
      ghost var was := Stands(landed);
      r, one, answers := Done(None), false, [];
      NoneCommitted(index.ops);
      if Eligible(g, s) {
        NotGone(store, g, base, landed);
        assert BackedOn(was.refs, base.ns, store.volumes[|landed|].id);
        r, answers := CompactOne(s.id, base, now);
        one := Landed(answers);
        if AllWon(answers) {
          UndisturbedCall(answers);
        }
      }
      PassStateSnoc(store, base, landed, one);
      UnderwayNext(store, g, base, start, was, one, Stands(landed + [one]), now);
    }

    /** The same, with the books of the whole pass. */
    method PassNext(g: Gates, base: State, ghost start: Standing, ghost landed: seq<bool>, ghost told: seq<bool>,
                    ghost answers: seq<Outcome>, compacted: seq<CompactedVolume>, s: VolumeStats, now: int)
      returns (r: Exit<seq<CompactedVolume>>, ghost one: bool, ghost said: bool, ghost more: seq<Outcome>)
      requires Valid() && LengthsRecorded(base.ns) && OnePlacement(base.ns)
      requires |landed| < |store.volumes| && s == StatsOf(base, store.volumes[|landed|])
      requires Underway(store, g, base, start, Stands(landed), now)
      requires OnCourse(store, g, base, landed, told, answers, compacted, start.refs, volumes.refs, now)
      modifies index, volumes, machine
      ensures Valid() && !r.Failed?
      ensures Underway(store, g, base, start, Stands(landed + [one]), now)
      ensures r.Done? ==>
        OnCourse(store, g, base, landed + [one], told + [said], answers + more, r.value, start.refs, volumes.refs, now)
      ensures Entered(old(Books()), Books(), more, r.Crashed?)
    {
      var done;
      done, one, more := CompactNext(g, base, start, landed, s, now);
      said := done.Done? && done.value.Some?;
      if done.Crashed? {
        return Crashed, one, said, more;
      }
      OnCourseNext(store, g, base, landed, told, answers, compacted, start.refs, now, one, more, done.value, volumes.refs);
      r := Done(if done.value.Some? then compacted + [done.value.value] else compacted);
    }

    /** Compacts every candidate, each planned from the same snapshot. Undisturbed,
        exactly the volumes the snapshot tells are retired. */
    method CompactCandidates(g: Gates, base: State, stats: seq<VolumeStats>, now: int)
      returns (r: Exit<seq<CompactedVolume>>, ghost landed: seq<bool>, ghost told: seq<bool>, ghost answers: seq<Outcome>)
      requires Valid() && base == St() && |stats| == |store.volumes|
      requires forall i :: 0 <= i < |stats| ==> stats[i] == StatsOf(base, store.volumes[i])
      modifies index, volumes, machine
      ensures Valid() && !r.Failed?
      ensures Underway(store, g, base, old(Stands([])), Stands(landed), now)
      ensures r.Done? ==>
        && |landed| == |store.volumes|
        && OnCourse(store, g, base, landed, told, answers, r.value, old(volumes.refs), volumes.refs, now)
      ensures Entered(old(Books()), Books(), answers, r.Crashed?)
    {
      ghost var start := Stands([]);
      PassBegins(store, g, start, issued, now);
      NothingEntered(Books());
      landed, told, answers := [], [], [];
      var compacted: seq<CompactedVolume> := [];
      for i := 0 to |stats|
        invariant Valid() && |landed| == i
        invariant Underway(store, g, base, start, Stands(landed), now)
        invariant OnCourse(store, g, base, landed, told, answers, compacted, start.refs, volumes.refs, now)
        invariant Entered(old(Books()), Books(), answers, false)
      {
        ghost var books := Books();
        ghost var one, said, more;
        var done;
        done, one, said, more := PassNext(g, base, start, landed, told, answers, compacted, stats[i], now);
        EnteredNext(old(Books()), books, Books(), answers, more, done.Crashed?);
        landed, told, answers := landed + [one], told + [said], answers + more;
        if done.Crashed? {
          return Crashed, landed, told, answers;
        }
        compacted := done.value;
      }
      r := Done(compacted);
    }

    /** The compacting part of a pass, if the gates let it run: it changes neither
        the contents nor the meaning of any file. */
    method CompactIf(go: bool, g: Gates, base: State, stats: seq<VolumeStats>, now: int)
      returns (r: Exit<seq<CompactedVolume>>, ghost landed: seq<bool>, ghost told: seq<bool>, ghost answers: seq<Outcome>)
      requires Durable() && base == St() && |stats| == |store.volumes|
      requires forall i :: 0 <= i < |stats| ==> stats[i] == StatsOf(base, store.volumes[i])
      modifies index, volumes, machine
      ensures Durable() && !r.Failed?
      ensures EraseAll(St().ns) == EraseAll(base.ns)
      ensures IsPass(store, g, base, landed) && St() == PassState(store, base, landed)
      ensures |index.ops| == |old(index.ops)| + Count(landed) && OnlyCompactions(old(index.ops), index.ops)
      ensures !go ==> landed == [] && r == Done([])
      ensures NewestAfter(old(index.LastCompaction()), index.LastCompaction(), Count(landed) > 0, now)
      ensures PassChanged(store, g, base, landed, old(volumes.refs), volumes.refs, now)
      ensures r.Done? ==> OnCourse(store, g, base, landed, told, answers, r.value, old(volumes.refs), volumes.refs, now)
      ensures r.Done? && go ==> |landed| == |store.volumes|
      ensures WithinBudget(store, St()) <==> HeldWithinBudget(store, base, landed)
      ensures Entered(old(Books()), Books(), answers, r.Crashed?)
    {
      ghost var start := Stands([]);
      if go {
        r, landed, told, answers := CompactCandidates(g, base, stats, now);
      } else {
        PassBegins(store, g, start, issued, now);
        NothingEntered(Books());
        r, landed, told, answers := Done([]), [], [], [];
      }
      PassMeans(store, g, base, start, Stands(landed), now);
    }

    /** One pass: gates, then the candidates, then the sweep. The state afterwards
        is the snapshot with some of the candidates retired; with the gates shut,
        the snapshot itself. The call ends well or in a crash; undisturbed, with
        the gates open, every candidate is compacted as far as there is room. */
    method Compact(force: bool, g: Gates, now: int, later: int)
      returns (r: Exit<CompactReport>, ghost landed: seq<bool>, ghost told: seq<bool>, ghost answers: seq<Outcome>)
      requires Durable() && now <= later
      modifies index, volumes, machine
      ensures Durable() && !r.Failed?
      ensures EraseAll(St().ns) == old(EraseAll(St().ns))
      ensures IsPass(store, g, old(St()), landed) && St() == PassState(store, old(St()), landed)
      ensures |index.ops| == |old(index.ops)| + Count(landed) && OnlyCompactions(old(index.ops), index.ops)
      ensures !force && !old(GatesOpen(g, now)) ==> landed == []
      ensures NewestAfter(old(index.LastCompaction()), index.LastCompaction(), Count(landed) > 0, later)
      ensures Count(landed) > 0 && !force ==> IntervalOk(g, old(index.LastCompaction()), now)
      ensures r.Done? && AllWon(answers) && (force || old(GatesOpen(g, now))) ==>
        && told == landed == WillLand(store, g, old(St()), |store.volumes|)
        && St() == RunPass(store, g, old(St())) && |r.value.compacted| == Count(landed)
        && (WithinBudget(store, St()) <==>
              HeldWithinBudget(store, old(St()), WillLand(store, g, old(St()), |store.volumes|)))
      ensures WithinBudget(store, St()) <==> HeldWithinBudget(store, old(St()), landed)
      ensures PassAndSweep(store, g, old(St()), landed, old(volumes.refs), volumes.refs, later)
      ensures ReferencedIntact(store, g, old(St()), St(), old(volumes.refs), volumes.refs)
      ensures r.Done? ==>
        && |told| == |landed| && (forall i :: 0 <= i < |told| && told[i] ==> landed[i])
        && Finished(store, g, old(St()), told, St().ns, old(volumes.refs), volumes.refs, r.value, later)
      ensures Entered(old(Books()), Books(), answers, r.Crashed?)
    {
      var base, _ := index.LoadFullState(index.log);
      ConsistentLengths(store, base.ns);
      var stats := VolumeStatsOf(store, base);
      var open := CheckGates(g, base, stats, now);
      ghost var refs0 := volumes.refs;
      var done;
      done, landed, told, answers := CompactIf(force || open, g, base, stats, later);
      if done.Crashed? {
        NothingSwept(volumes.refs, St().ns, g.window, later);
        PassThenSweep(store, g, base, landed, refs0, volumes.refs, volumes.refs, St().ns, later);
        SweptIntact(store, g, base, landed, St(), refs0, volumes.refs, volumes.refs, g.window, later);
        return Crashed, landed, told, answers;
      }
      r := SweepAfter(g, base, landed, told, refs0, done.value, later);
    }

    /** The sweep that ends a pass, and the report on both. */
    method SweepAfter(g: Gates, ghost base: State, ghost landed: seq<bool>, ghost told: seq<bool>, ghost refs0: Disk,
                      compacted: seq<CompactedVolume>, later: int)
      returns (r: Exit<CompactReport>)
      requires Durable() && IsPass(store, g, base, landed) && |told| <= |store.volumes|
      requires PassChanged(store, g, base, landed, refs0, volumes.refs, later)
      requires IsReport(store, base, told, compacted) && volumes.refs == RefsAfter(store, g, base, refs0, told, later)
      modifies volumes, machine
      ensures Durable() && !r.Failed?
      ensures PassAndSweep(store, g, base, landed, refs0, volumes.refs, later)
      ensures ReferencedIntact(store, g, base, St(), refs0, volumes.refs)
      ensures r.Done? ==> Finished(store, g, base, told, St().ns, refs0, volumes.refs, r.value, later)
      ensures machine.crashes == old(machine.crashes) + (if r.Crashed? then 1 else 0)
    {
      ghost var mid := volumes.refs;
      var crashed, swept := SweepOrphans(g.window, later);
      PassThenSweep(store, g, base, landed, refs0, mid, volumes.refs, St().ns, later);
      SweptIntact(store, g, base, landed, St(), refs0, mid, volumes.refs, g.window, later);
      if crashed {
        return Crashed;
      }
      r := Done(CompactReport(compacted, swept));
      PassIsFinished(store, g, base, told, St().ns, refs0, r.value, later);
    }

    /** The pressure and interval gates. */
    method CheckGates(g: Gates, base: State, stats: seq<VolumeStats>, now: int) returns (open: bool)
      requires index.Valid() && base == St() && |stats| == |store.volumes|
      requires forall i :: 0 <= i < |stats| ==> stats[i] == StatsOf(base, store.volumes[i])
      ensures open <==> GatesOpen(g, now)
    {
      var last := index.LastCompactionTime();
      var pressed := exists s <- stats :: Pressed(g, s);
      PressedMeans(store, g, base, stats);
      open := pressed && IntervalOk(g, last, now);
    }

    // ---------- mirror ----------

    /** Copies the whole store to an independent target: every volume, then the
        index. Nothing is ever deleted there. It can be interrupted after any push;
        the target's own log tip stays fully backed by the target's volumes. */
    method MirrorTo(target: MirrorTarget, targets: set<VolId>) returns (r: Exit<()>)
      requires Valid() && target.Valid() && Matching(target.refs, volumes.refs)
      modifies target, machine
      ensures target.Valid()
      ensures r == Failed(NoMirrorTarget) <==> !(store.Ids() <= targets)
      ensures r == Failed(NoMirrorTarget) ==> target.refs == old(target.refs) && target.Tip() == old(target.Tip())
      ensures forall key :: key in old(target.refs) ==> key in target.refs
      ensures old(AllResolve(target.refs, Refs(target.Tip().ns))) ==> AllResolve(target.refs, Refs(target.Tip().ns))
      ensures Matching(target.refs, volumes.refs)
      ensures forall key :: key in target.refs ==>
        || (key in old(target.refs) && target.refs[key] == old(target.refs)[key])
        || (key in volumes.refs && target.refs[key] == volumes.refs[key])
      ensures target.Tip() == if r.Done? then St() else old(target.Tip())
      ensures !r.Done? ==> target.log == old(target.log) && target.commits == old(target.commits)
      ensures r.Done? ==> AllResolve(target.refs, Refs(St().ns))
      ensures r.Done? ==> forall key :: key in volumes.refs ==> key in target.refs && target.refs[key] == volumes.refs[key]
      ensures r.Done? ==> target.log == index.log && SameHistory(index.commits, index.log, target.commits)
      ensures machine.crashes == old(machine.crashes) + (if r.Crashed? then 1 else 0)
    {
      for i := 0 to |store.volumes|
        invariant forall j :: 0 <= j < i ==> store.volumes[j].id in targets
      {
        if store.volumes[i].id !in targets {
          return Failed(NoMirrorTarget);
        }
      }
      ghost var refs0 := target.refs;
      var crashed, pushed := PushVolumes(target);
      CoversResolves(store, refs0, volumes.refs, target.refs, pushed, Refs(target.Tip().ns));
      CoversMatches(store, refs0, volumes.refs, target.refs, pushed);
      if crashed {
        return Crashed;
      }
      CoversAll(store, St(), volumes.refs, issued, refs0, target.refs);
      CoversEverySegment(store, St(), volumes.refs, issued, refs0, target.refs);
      target.commits, target.log := index.commits, index.log;
      CopiedHistory(index.commits, index.log);
      return Done(());
    }

    /** Pushes the volumes one after the other; a crash can come before or after
        any of them. */
    method PushVolumes(target: MirrorTarget) returns (crashed: bool, ghost pushed: nat)
      modifies target`refs, machine
      ensures pushed <= |store.volumes| && (!crashed ==> pushed == |store.volumes|)
      ensures Covers(store, old(target.refs), volumes.refs, target.refs, pushed)
      ensures machine.crashes == old(machine.crashes) + (if crashed then 1 else 0)
    {
      for i := 0 to |store.volumes|
        invariant Covers(store, old(target.refs), volumes.refs, target.refs, i)
        invariant machine.crashes == old(machine.crashes)
      {
        var crash := machine.Dies();
        if crash {
          return true, i;
        }
        target.refs := Mirror.Overlay(target.refs, volumes.refs, store.volumes[i].id);
      }
      crashed := machine.Dies();
      pushed := |store.volumes|;
    }
  }

  // ---------- recovery ----------

  /** Whatever becomes of a pass over one candidate, `v` is the only candidate there
      can be afterwards. */
  lemma OnlyCandidateLeft(store: Store, g: Gates, st: State, disk: Disk, v: Volume, left: State, w: VolId)
    requires store.Valid() && SpareIsLast(store.volumes) && g.Valid()
    requires OnePlacement(st.ns) && DerivedExact(st.seg) && Accounted(st, disk) && OnlyCandidate(store, g, st, v)
    requires left == st || left == RunPass(store, g, st)
    ensures OnCandidate(store, g, left, w) ==> w == v.id
  {
    var n :| 0 <= n < |store.volumes| && store.volumes[n] == v;
    RunPassOnly(store, g, st, v, n);
    if left != st {
      forall j | 0 <= j < |store.volumes|
        ensures !Candidate(g, left, store.volumes[j])
      {
        NoCandidateAfter(store, g, st, disk, v, store.volumes[j]);
      }
    }
  }

  /** The finished pass has moved every chunk of `v` to one segment. */
  lemma FinishedPassMoves(store: Store, g: Gates, st: State, v: Volume)
    requires store.Valid() && SpareIsLast(store.volumes) && OnlyCandidate(store, g, st, v)
    ensures DestOf(store, st, v.id).Some? ==>
      var after := RunPass(store, g, st);
      && IdsOn(after.ns, v.id) == {} && (forall c :: c in Refs(after.ns) ==> c.vol != v.id)
      && (IdsOn(st.ns, v.id) != {} ==> DestOf(store, st, v.id).value in Keys(Refs(after.ns)))
  {
    var n :| 0 <= n < |store.volumes| && store.volumes[n] == v;
    RunPassOnly(store, g, st, v, n);
    if dest :| DestOf(store, st, v.id) == Some(dest) {
      NothingLeftOn(st.ns, v.id, dest);
      MovedIsReferenced(st.ns, v.id, dest);
    }
  }

  lemma MovedIsReferenced(ns: Namespace, v: VolId, dest: SegKey)
    ensures IdsOn(ns, v) != {} ==> dest in Keys(Refs(Repointed(ns, v, dest)))
  {
    if c :| c in Refs(ns) && c.vol == v {
      RepointedRefsConverse(ns, v, dest, c);
      assert MoveRef(c, v, dest).Key() == dest;
    }
  }

  /** Converged: the state of a pass over `v` alone that was never interrupted,
      placements and byte index included. What an earlier attempt left at the
      destination is used as it is, and what is left of the retired volume is
      younger than the window. */
  ghost predicate Converged(store: Store, g: Gates, st0: State, v: VolId, st: State, mid: Disk, refs: Disk, later: int)
    requires SpareIsLast(store.volumes)
  {
    && st == RunPass(store, g, st0)
    && (DestOf(store, st0, v).Some? ==>
          && (forall key :: key in refs && key.vol == v ==> later - refs[key].time < g.window)
          && (IdsOn(st0.ns, v) != {} ==>
                var dest := DestOf(store, st0, v).value;
                dest in refs && (dest in mid ==> refs[dest] == mid[dest])))
  }

  lemma ConvergedIf(store: Store, g: Gates, st0: State, disk0: Disk, v: Volume, left: State, mid: Disk, refs: Disk, later: int)
    requires store.Valid() && SpareIsLast(store.volumes) && g.Valid()
    requires OnePlacement(st0.ns) && DerivedExact(st0.seg) && Accounted(st0, disk0) && OnlyCandidate(store, g, st0, v)
    requires left == st0 || left == RunPass(store, g, st0)
    requires var st := RunPass(store, g, st0);
      && Accounted(st, refs) && ReferencedIntact(store, g, left, st, mid, refs)
      && forall key :: key in refs ==> key in Keys(Refs(st.ns)) || later - refs[key].time < g.window
    ensures Converged(store, g, st0, v.id, RunPass(store, g, st0), mid, refs, later)
  {
    var st := RunPass(store, g, st0);
    FinishedPassMoves(store, g, st0, v);
    if dest :| DestOf(store, st0, v.id) == Some(dest) {
      OnlyCandidateLeft(store, g, st0, disk0, v, left, dest.vol);
      ReferencedIsThere(st, refs);
      NoReferenceThere(st.ns, v.id);
    }
  }

  lemma ReferencedIsThere(st: State, disk: Disk)
    requires Accounted(st, disk)
    ensures forall key :: key in Keys(Refs(st.ns)) ==> key in disk
  {
  }

  lemma NoReferenceThere(ns: Namespace, v: VolId)
    requires forall c :: c in Refs(ns) ==> c.vol != v
    ensures forall key :: key in Keys(Refs(ns)) ==> key.vol != v
  {
  }

  /** Crash convergence. A pass over one candidate ends in any way, with whatever
      crash and whatever answers to its swaps; an undisturbed forced pass after it
      converges. */
  method RunAgain(e: Engine, force: bool, g: Gates, v: Volume, now: int, later: int, now1: int, later1: int)
    returns (r: Exit<CompactReport>, ghost answers: seq<Outcome>, ghost mid: Disk)
    requires e.Durable() && g.Valid() && now <= later && now1 <= later1
    requires OnlyCandidate(e.store, g, e.St(), v)
    modifies e.index, e.volumes, e.machine
    ensures e.Durable() && !r.Failed? && (r.Crashed? ==> e.machine.crashes > old(e.machine.crashes))
    ensures r.Done? && AllWon(answers) ==>
      Converged(e.store, g, old(e.St()), v.id, e.St(), mid, e.volumes.refs, later1)
  {
    ghost var st0, disk0 := e.St(), e.volumes.refs;
    ghost var landed, told;
    r, landed, told, answers := e.Compact(force, g, now, later);
    mid := e.volumes.refs;
    ghost var left := e.St();
    InterruptedPassConverges(e.store, g, st0, disk0, v, landed);
    r, landed, told, answers := e.Compact(true, g, now1, later1);
    if r.Done? && AllWon(answers) {
      ConvergedIf(e.store, g, st0, disk0, v, left, mid, e.volumes.refs, later1);
    }
  }

  // ---------- the mirror's side ----------

  /** The mirror's repositories: its volumes and its index. */
  class MirrorTarget {
    var refs: Disk
    var commits: map<Oid, Commit>
    var log: Option<Oid>

    ghost predicate Valid()
      reads this
    {
      WellFormedCommits(commits) && Known(commits, log)
    }

    ghost function Tip(): State
      reads this
      requires Valid()
    {
      Load(History(commits, log))
    }
  }

  /** Where both sides have a segment, it has the same content. */
  ghost predicate Matching(mirror: Disk, disk: Disk) {
    forall key :: key in mirror && key in disk ==> mirror[key].blobs == disk[key].blobs
  }

  /** `now` is the mirror after the first `i` volumes have been pushed onto `was`. */
  ghost predicate Covers(store: Store, was: Disk, disk: Disk, now: Disk, i: nat)
    requires i <= |store.volumes|
  {
    && (forall key :: key in was ==> key in now)
    && (forall key :: key in now ==> (key in was && now[key] == was[key]) || (key in disk && now[key] == disk[key]))
    && (forall j, key :: 0 <= j < i && key in disk && key.vol == store.volumes[j].id ==> key in now && now[key] == disk[key])
  }

  lemma CoversMatches(store: Store, was: Disk, disk: Disk, now: Disk, i: nat)
    requires i <= |store.volumes| && Covers(store, was, disk, now, i) && Matching(was, disk)
    ensures Matching(now, disk)
  {
  }

  lemma CoversResolves(store: Store, was: Disk, disk: Disk, now: Disk, i: nat, refs: set<ChunkRef>)
    requires i <= |store.volumes| && Covers(store, was, disk, now, i) && Matching(was, disk)
    ensures AllResolve(was, refs) ==> AllResolve(now, refs)
  {
    if AllResolve(was, refs) {
      forall c | c in refs
        ensures Resolves(now, c)
      {
        assert Resolves(was, c);
      }
    }
  }

  /** Every commit of the log has its whole history on the other side as well. */
  ghost predicate SameHistory(commits: map<Oid, Commit>, tip: Option<Oid>, other: map<Oid, Commit>)
    requires WellFormedCommits(commits) && Known(commits, tip) && WellFormedCommits(other)
  {
    forall at :: OnLog(commits, tip, at) ==>
      Known(commits, at) && Known(other, at) && History(other, at) == History(commits, at)
  }

  lemma CopiedHistory(commits: map<Oid, Commit>, tip: Option<Oid>)
    requires WellFormedCommits(commits) && Known(commits, tip)
    ensures SameHistory(commits, tip, commits)
  {
    forall at | OnLog(commits, tip, at)
      ensures Known(commits, at)
    {
      OnLogIsKnown(commits, tip, at);
    }
  }

  lemma CoversEverySegment(store: Store, st: State, disk: Disk, issued: nat, was: Disk, now: Disk)
    requires store.Valid() && Consistent(store, st, disk, issued)
    requires Covers(store, was, disk, now, |store.volumes|)
    ensures forall key :: key in disk ==> key in now && now[key] == disk[key]
  {
    forall key | key in disk
      ensures key in now && now[key] == disk[key]
    {
      assert InFleet(store, key, issued);
      var j :| 0 <= j < |store.volumes| && store.volumes[j].id == key.vol;
    }
  }

  lemma CoversAll(store: Store, st: State, disk: Disk, issued: nat, was: Disk, now: Disk)
    requires store.Valid() && Consistent(store, st, disk, issued)
    requires Covers(store, was, disk, now, |store.volumes|)
    ensures AllResolve(now, Refs(st.ns))
  {
    forall c | c in Refs(st.ns)
      ensures Resolves(now, c)
    {
      assert Resolves(disk, c);
      assert InFleet(store, c.Key(), issued);
      var j :| 0 <= j < |store.volumes| && store.volumes[j].id == c.vol;
    }
  }
}
