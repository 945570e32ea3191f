/** Whole sessions on one engine, crashes and unacknowledged swaps included: any
    list of calls makes a timeline, and passes in a row are a sequence of passes,
    so what is proved of those holds of the engine. */
module Sessions {
  import opened Prelude
  import opened Manifests
  import opened Repoint
  import opened Log
  import opened Accounting
  import opened StoreInvariant
  import opened Placement
  import opened Pass
  import opened PassLimits
  import opened Backends
  import opened Reading
  import opened Engine
  import Chunker
  import Planning
  import Rates

  /** What to store, drop or compact, and when. The stream of a put comes in reads
      of the given sizes. */
  datatype Command =
    | Put(name: Name, content: Bytes, sizes: seq<nat>, at: int)
    | Remove(name: Name, at: int)
    | Compact(force: bool, start: int, at: int)

  /** The clock starts at `clock` and never runs backwards. */
  predicate InOrder(commands: seq<Command>, clock: int) {
    commands != [] ==>
      var c := commands[0];
      && (if c.Compact? then clock <= c.start <= c.at else clock <= c.at)
      && InOrder(commands[1..], c.at)
  }

  predicate NoCompaction(commands: seq<Command>) {
    forall i :: 0 <= i < |commands| ==> !commands[i].Compact?
  }

  /** Every ref is still there with its segment. */
  predicate NothingLost(was: Disk, now: Disk) {
    forall key :: key in was ==> key in now && now[key] == was[key]
  }

  function EndOf(commands: seq<Command>, clock: int): int {
    if commands == [] then clock else EndOf(commands[1..], commands[0].at)
  }

  /** `calls` are the compactions among the commands, in order. */
  ghost predicate Made(commands: seq<Command>, calls: seq<Rates.Call>) {
    if commands == [] then calls == []
    else
      match commands[0]
      case Compact(force, start, at) =>
        calls != [] && calls[0] == Rates.Call(force, start, at, calls[0].landed) && Made(commands[1..], calls[1..])
      case _ => Made(commands[1..], calls)
  }

  /** How many retirements the log records. */
  function Compactions(ops: seq<Op>): nat {
    if ops == [] then 0
    else Compactions(ops[..|ops| - 1]) + (if ops[|ops| - 1].CompactOp? then 1 else 0)
  }

  function Landed(calls: seq<Rates.Call>): nat {
    if calls == [] then 0 else calls[0].landed + Landed(calls[1..])
  }

  lemma {:induction false} CompactionsCounted(before: seq<Op>, after: seq<Op>)
    requires OnlyCompactions(before, after)
    ensures Compactions(after) == Compactions(before) + |after| - |before|
    decreases |after|
  {
    if |after| == |before| {
      assert after == before;
    } else {
      var shorter := after[..|after| - 1];
      assert shorter[..|before|] == before;
      CompactionsCounted(before, shorter);
    }
  }

  lemma OneMoreOp(ops: seq<Op>, op: Op)
    ensures Compactions(ops + [op]) == Compactions(ops) + (if op.CompactOp? then 1 else 0)
  {
    assert (ops + [op])[..|ops|] == ops;
  }

  lemma PutIsNoCompaction(before: seq<Op>, after: seq<Op>, name: Name, content: Bytes)
    requires Planning.AtMostOnePut(before, after, name, content)
    ensures Compactions(after) == Compactions(before)
  {
    if after != before {
      assert after == before + [after[|before|]];
      OneMoreOp(before, after[|before|]);
    }
  }

  /** The calls `rest` are a timeline from `clock` on, too. */
  lemma StartsEarlier(g: Gates, calls: seq<Rates.Call>, last: Option<int>, clock: int, later: int)
    requires clock <= later && Rates.Timeline(g, calls, last, later)
    ensures Rates.Timeline(g, calls, last, clock) && Rates.EndOf(calls, clock) <= Rates.EndOf(calls, later)
  {
  }

  /** The calls are the compactions of the session, on a timeline within its span. */
  ghost predicate IsSession(g: Gates, commands: seq<Command>, calls: seq<Rates.Call>, last: Option<int>, clock: int) {
    && Made(commands, calls) && Rates.Timeline(g, calls, last, clock)
    && Rates.EndOf(calls, clock) <= EndOf(commands, clock)
  }

  /** In any session, at most one unforced compacting pass more than its span has
      whole intervals. */
  lemma SessionRateBounded(g: Gates, commands: seq<Command>, calls: seq<Rates.Call>, last: Option<int>, clock: int)
    requires g.minInterval > 0 && IsSession(g, commands, calls, last, clock)
    ensures Rates.Unforced(calls) <= 1 + (EndOf(commands, clock) - clock) / g.minInterval
  {
    Rates.UnforcedRateBounded(g, calls, last, clock);
    Rates.DivideMonotone(Rates.EndOf(calls, clock) - clock, EndOf(commands, clock) - clock, g.minInterval);
  }

  /** One command before the others. */
  lemma SessionNext(g: Gates, commands: seq<Command>, last: Option<int>, clock: int, landed: nat, rest: seq<Rates.Call>)
    returns (calls: seq<Rates.Call>)
    requires InOrder(commands, clock) && commands != [] && (!commands[0].Compact? ==> landed == 0)
    requires var c := commands[0];
      && IsSession(g, commands[1..], rest, if landed > 0 then Some(c.at) else last, c.at)
      && (c.Compact? && landed > 0 && !c.force ==> IntervalOk(g, last, c.start))
    ensures IsSession(g, commands, calls, last, clock) && Landed(calls) == landed + Landed(rest)
  {
    var c := commands[0];
    if c.Compact? {
      calls := [Rates.Call(c.force, c.start, c.at, landed)] + rest;
      assert calls[1..] == rest;
    } else {
      StartsEarlier(g, rest, last, clock, c.at);
      calls := rest;
    }
  }

  /** One command, however it ends. */
  method Step(e: Engine, g: Gates, c: Command) returns (ghost landed: nat)
    requires e.Durable() && (c.Compact? ==> c.start <= c.at)
    modifies e, e.index, e.volumes, e.machine
    ensures e.Durable() && (!c.Compact? ==> landed == 0)
    ensures Compactions(e.index.ops) == old(Compactions(e.index.ops)) + landed
    ensures e.index.LastCompaction() == if landed > 0 then Some(c.at) else old(e.index.LastCompaction())
    ensures c.Compact? && landed > 0 && !c.force ==> IntervalOk(g, old(e.index.LastCompaction()), c.start)
    ensures Extends(old(e.index.commits), e.index.commits)
    ensures !c.Compact? ==> NothingLost(old(e.volumes.refs), e.volumes.refs)
  {
    ghost var ops := e.index.ops;
    landed := 0;
    match c {
      case Put(name, content, sizes, at) =>
        var reader := new Chunker.Reader(content, sizes);
        var r, _ := e.Put(name, reader, at);
        PutIsNoCompaction(ops, e.index.ops, name, content);
      case Remove(name, at) =>
        var r, _ := e.Remove(name, at);
        OneMoreOp(ops, RemoveOp(name));
      case Compact(force, start, at) =>
        ghost var flags, told, answers;
        var r;
        r, flags, told, answers := e.Compact(force, g, start, at);
        landed := Count(flags);
        CompactionsCounted(ops, e.index.ops);
    }
  }

  /** Carries out the commands one after the other, however each of them ends. The
      compactions make a timeline whose retirements are those the log gained, so
      unforced passes are no more frequent than the interval allows. */
  method Run(e: Engine, g: Gates, commands: seq<Command>, clock: int) returns (ghost calls: seq<Rates.Call>)
    requires e.Durable() && InOrder(commands, clock)
    modifies e, e.index, e.volumes, e.machine
    ensures e.Durable()
    ensures IsSession(g, commands, calls, old(e.index.LastCompaction()), clock)
    ensures Compactions(e.index.ops) == old(Compactions(e.index.ops)) + Landed(calls)
    ensures Extends(old(e.index.commits), e.index.commits)
    ensures NoCompaction(commands) ==> NothingLost(old(e.volumes.refs), e.volumes.refs)
    decreases |commands|
  {
    calls := [];
    if commands != [] {
      var c := commands[0];
      ghost var last := e.index.LastCompaction();
      ghost var landed := Step(e, g, c);
      ghost var rest := Run(e, g, commands[1..], c.at);
      calls := SessionNext(g, commands, last, clock, landed, rest);
    }
  }

  // ---------- reading an old version ----------

  lemma ReadableStays(store: Store, was: Disk, now: Disk, m: Manifest)
    requires store.Valid() && NothingLost(was, now) && Readable(store, was, m)
    ensures Readable(store, now, m)
  {
    forall i | 0 <= i < |m.chunks|
      ensures ChunkReadable(store, now, m.chunks[i])
    {
      assert ChunkReadable(store, was, m.chunks[i]);
    }
  }

  /** A reader that pins the tip reads what was there then, after any puts and removes,
      of the same name or others, however each of them ended. */
  method ReadPinned(e: Engine, g: Gates, commands: seq<Command>, clock: int, name: Name) returns (r: Result<Bytes, Failure>)
    requires e.Durable() && InOrder(commands, clock) && NoCompaction(commands) && e.index.log.Some?
    modifies e, e.index, e.volumes, e.machine
    ensures r == if name in old(Intended(e.index.ops)) then Ok(old(Intended(e.index.ops))[name]) else Err(NotFound)
  {
    var pin := e.index.log;
    ghost var st, refs, commits := e.St(), e.volumes.refs, e.index.commits;
    if name in st.ns {
      StoredIsReadable(e.store, st, refs, e.issued, name);
    }
    ghost var calls := Run(e, g, commands, clock);
    HistoryStable(commits, e.index.commits, pin);
    if name in st.ns {
      ReadableStays(e.store, refs, e.volumes.refs, st.ns[name]);
    }
    r := e.Get(name, pin);
  }

  // ---------- passes in a row ----------

  lemma PassesNext(store: Store, g: Gates, states: seq<State>, landed: seq<seq<bool>>, one: seq<bool>, st: State)
    requires SpareIsLast(store.volumes) && Passes(store, g, states, landed)
    requires PassFrom(store, g, states[|landed|], one, st)
    ensures Passes(store, g, states + [st], landed + [one])
    ensures Retirements(landed + [one]) == Retirements(landed) + Count(one)
  {
    assert (landed + [one])[..|landed|] == landed;
  }

  /** Runs one pass after the other, however each of them ends. They are a sequence
      of passes, so all of them together retire no more volumes than the store had
      dead bytes. */
  method CompactRepeatedly(e: Engine, g: Gates, times: seq<(int, int)>)
    returns (ghost states: seq<State>, ghost landed: seq<seq<bool>>)
    requires e.Durable() && forall i :: 0 <= i < |times| ==> times[i].0 <= times[i].1
    modifies e.index, e.volumes, e.machine
    ensures e.Durable() && |landed| == |times| && Passes(e.store, g, states, landed)
    ensures states[0] == old(e.St()) && states[|landed|] == e.St()
    ensures |e.index.ops| == |old(e.index.ops)| + Retirements(landed)
    ensures g.Valid() ==> Retirements(landed) <= Dead(old(e.St()))
    ensures EraseAll(e.St().ns) == old(EraseAll(e.St().ns))
  {
    states, landed := [e.St()], [];
    for i := 0 to |times|
      invariant e.Durable() && |landed| == i && Passes(e.store, g, states, landed)
      invariant states[0] == old(e.St()) && states[i] == e.St()
      invariant |e.index.ops| == |old(e.index.ops)| + Retirements(landed)
      invariant EraseAll(e.St().ns) == old(EraseAll(e.St().ns))
    {
      ghost var flags, told, answers;
      var r;
      r, flags, told, answers := e.Compact(true, g, times[i].0, times[i].1);
      PassesNext(e.store, g, states, landed, flags, e.St());
      states, landed := states + [e.St()], landed + [flags];
    }
    if g.Valid() {
      RepeatedCompactionEnds(e.store, g, states, landed, e.volumes.refs);
    }
  }
}
