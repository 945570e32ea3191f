/** What a compaction pass leaves on the volumes and in its report. */
module PassRefs {
  import opened Prelude
  import opened Manifests
  import opened Log
  import opened Accounting
  import opened StoreInvariant
  import opened Placement
  import opened Pass
  import opened Sweeping
  import Protocol

  // ---------- one volume ----------

  /** The copy of the chunks `moved`. */
  ghost function RewriteOf(moved: set<Digest>, now: int): Segment {
    Segment(map id | id in moved :: id.of, now)
  }

  /** The copy is made unless it is there already. */
  ghost function WithRewrite(refs: Disk, dest: SegKey, moved: set<Digest>, now: int): Disk {
    if moved == {} || dest in refs then refs else refs[dest := RewriteOf(moved, now)]
  }

  /** The refs after compacting `v`, whose retirement was found to land if `told`. */
  ghost function RefsAfterOne(store: Store, base: State, refs: Disk, v: VolId, told: bool, now: int): Disk
    requires SpareIsLast(store.volumes)
  {
    match DestOf(store, base, v)
    case None => refs
    case Some(dest) =>
      var copied := WithRewrite(refs, dest, IdsOn(base.ns, v), now);
      if told then WithoutVolume(copied, v) else copied
  }

  /** What compacting `v` onto `dest` can do to the refs wherever it stops: add the
      copy and, once the volume may be wiped, take refs from it. */
  ghost predicate CopiedOrWiped(v: VolId, dest: SegKey, moved: set<Digest>, was: Disk, now: Disk, wiped: bool, clock: int) {
    && (forall key :: key in was && (key.vol != v || !wiped) ==> key in now && now[key] == was[key])
    && (forall key :: key in now ==>
          || (key in was && now[key] == was[key])
          || (moved != {} && key == dest && now[key].time == clock))
  }

  /** What such a compaction leaves, with what it concluded if it came to that. */
  ghost predicate Leaves(v: VolId, dest: SegKey, moved: set<Digest>, was: Disk, now: Disk, told: Option<bool>, wiped: bool, clock: int) {
    && CopiedOrWiped(v, dest, moved, was, now, wiped, clock)
    && (told.Some? ==>
          var copied := WithRewrite(was, dest, moved, clock);
          now == if told.value then WithoutVolume(copied, v) else copied)
  }

  lemma NothingDone(v: VolId, dest: SegKey, moved: set<Digest>, was: Disk, wiped: bool, now: int)
    ensures Leaves(v, dest, moved, was, was, None, wiped, now)
  {
  }

  lemma JustCopied(v: VolId, dest: SegKey, moved: set<Digest>, was: Disk, wiped: bool, now: int)
    ensures var copied := WithRewrite(was, dest, moved, now);
      Leaves(v, dest, moved, was, copied, Some(false), wiped, now) && Leaves(v, dest, moved, was, copied, None, wiped, now)
  {
  }

  lemma ThenWiped(v: VolId, dest: SegKey, moved: set<Digest>, was: Disk, left: Disk, done: bool, now: int)
    requires var copied := WithRewrite(was, dest, moved, now);
      && (forall key :: key in copied && key.vol != v ==> key in left && left[key] == copied[key])
      && (forall key :: key in left ==> key in copied && left[key] == copied[key])
      && (done ==> left == WithoutVolume(copied, v))
    ensures Leaves(v, dest, moved, was, left, if done then Some(true) else None, true, now)
  {
  }

  ghost predicate OneChanged(store: Store, base: State, v: VolId, was: Disk, now: Disk, wiped: bool, clock: int)
    requires SpareIsLast(store.volumes)
  {
    match DestOf(store, base, v)
    case None => now == was
    case Some(dest) => CopiedOrWiped(v, dest, IdsOn(base.ns, v), was, now, wiped, clock)
  }

  lemma RefsAfterOneChanged(store: Store, base: State, refs: Disk, v: VolId, told: bool, now: int)
    requires SpareIsLast(store.volumes)
    ensures OneChanged(store, base, v, refs, RefsAfterOne(store, base, refs, v, told, now), told, now)
  {
  }

  // ---------- a whole pass ----------

  /** The refs after a pass that was not interrupted: every candidate with room
      elsewhere has been copied, and the volumes told to have landed are wiped. */
  ghost function RefsAfter(store: Store, g: Gates, base: State, was: Disk, told: seq<bool>, now: int): Disk
    requires SpareIsLast(store.volumes) && |told| <= |store.volumes|
  {
    if told == [] then was
    else
      var n := |told| - 1;
      var before := RefsAfter(store, g, base, was, told[..n], now);
      if Candidate(g, base, store.volumes[n]) then
        RefsAfterOne(store, base, before, store.volumes[n].id, told[n], now)
      else before
  }

  lemma RefsAfterSnoc(store: Store, g: Gates, base: State, was: Disk, told: seq<bool>, one: bool, now: int)
    requires SpareIsLast(store.volumes) && |told| < |store.volumes|
    ensures var before := RefsAfter(store, g, base, was, told, now);
      RefsAfter(store, g, base, was, told + [one], now) ==
        if Candidate(g, base, store.volumes[|told|]) then
          RefsAfterOne(store, base, before, store.volumes[|told|].id, one, now)
        else before
  {
    assert (told + [one])[..|told|] == told;
  }

  /** Where a candidate's chunks are copied to. */
  ghost predicate IsRewrite(store: Store, g: Gates, base: State, key: SegKey)
    requires SpareIsLast(store.volumes)
  {
    exists i :: 0 <= i < |store.volumes| && Candidate(g, base, store.volumes[i])
      && IdsOn(base.ns, store.volumes[i].id) != {} && DestOf(store, base, store.volumes[i].id) == Some(key)
  }

  /** Nothing has gone or changed but on the volumes flagged, and nothing is new but
      copies made in this pass. */
  ghost predicate PassChanged(store: Store, g: Gates, base: State, flags: seq<bool>, was: Disk, now: Disk, clock: int)
    requires SpareIsLast(store.volumes) && |flags| <= |store.volumes|
  {
    && (forall key :: key in was && !Retires(store, flags, key.vol) ==> key in now && now[key] == was[key])
    && (forall key :: key in now ==>
          || (key in was && now[key] == was[key])
          || (IsRewrite(store, g, base, key) && now[key].time == clock))
  }

  lemma PassChangedNext(store: Store, g: Gates, base: State, flags: seq<bool>, one: bool, was: Disk, mid: Disk, now: Disk, clock: int)
    requires SpareIsLast(store.volumes) && |flags| < |store.volumes|
    requires PassChanged(store, g, base, flags, was, mid, clock)
    requires var v := store.volumes[|flags|];
      if Candidate(g, base, v) then OneChanged(store, base, v.id, mid, now, one, clock) else now == mid
    ensures PassChanged(store, g, base, flags + [one], was, now, clock)
  {
    var after := flags + [one];
    assert after[..|after| - 1] == flags;
    forall key | key in was && !Retires(store, after, key.vol)
      ensures key in now && now[key] == was[key]
    {
      RetiresNext(store, after, key.vol);
    }
  }

  lemma {:induction false} RefsAfterChanged(store: Store, g: Gates, base: State, was: Disk, told: seq<bool>, now: int)
    requires SpareIsLast(store.volumes) && |told| <= |store.volumes|
    ensures PassChanged(store, g, base, told, was, RefsAfter(store, g, base, was, told, now), now)
    decreases |told|
  {
    if told == [] {
    } else {
      var n := |told| - 1;
      var before := RefsAfter(store, g, base, was, told[..n], now);
      RefsAfterChanged(store, g, base, was, told[..n], now);
      RefsAfterOneChanged(store, base, before, store.volumes[n].id, told[n], now);
      assert told[..n] + [told[n]] == told;
      PassChangedNext(store, g, base, told[..n], told[n], was, before, RefsAfter(store, g, base, was, told, now), now);
    }
  }

  // ---------- the report ----------

  datatype CompactedVolume = CompactedVolume(volume: VolId, destVolume: VolId, bytesBefore: nat, chunksMoved: nat)

  /** What is reported of `v`: where its chunks went, what it stored, and how many
      chunks moved. */
  ghost predicate IsEntry(store: Store, base: State, v: VolId, e: CompactedVolume)
    requires SpareIsLast(store.volumes)
  {
    && e.volume == v && e.bytesBefore == Total(base.seg, v) && e.chunksMoved == |IdsOn(base.ns, v)|
    && DestOf(store, base, v) == Some(SegKey(e.destVolume, Derived(v, IdsOn(base.ns, v))))
  }

  /** The report has one entry for each volume told to have landed, in order. */
  ghost predicate IsReport(store: Store, base: State, told: seq<bool>, report: seq<CompactedVolume>)
    requires SpareIsLast(store.volumes) && |told| <= |store.volumes|
  {
    if told == [] then report == []
    else
      var n := |told| - 1;
      if told[n] then
        report != [] && IsEntry(store, base, store.volumes[n].id, report[|report| - 1])
        && IsReport(store, base, told[..n], report[..|report| - 1])
      else IsReport(store, base, told[..n], report)
  }

  lemma ReportSnoc(store: Store, base: State, told: seq<bool>, report: seq<CompactedVolume>, e: Option<CompactedVolume>)
    requires SpareIsLast(store.volumes) && |told| < |store.volumes| && IsReport(store, base, told, report)
    requires e.Some? ==> IsEntry(store, base, store.volumes[|told|].id, e.value)
    ensures IsReport(store, base, told + [e.Some?], if e.Some? then report + [e.value] else report)
  {
    var after := told + [e.Some?];
    assert after[..|told|] == told;
    if e.Some? {
      assert (report + [e.value])[..|report|] == report;
    }
  }

  lemma {:induction false} ReportCounts(store: Store, base: State, told: seq<bool>, report: seq<CompactedVolume>)
    requires SpareIsLast(store.volumes) && |told| <= |store.volumes| && IsReport(store, base, told, report)
    ensures |report| == Count(told)
    decreases |told|
  {
    if told == [] {
    } else if told[|told| - 1] {
      ReportCounts(store, base, told[..|told| - 1], report[..|report| - 1]);
    } else {
      ReportCounts(store, base, told[..|told| - 1], report);
    }
  }

  // ---------- the sweep after it ----------

  datatype CompactReport = CompactReport(compacted: seq<CompactedVolume>, orphansSwept: nat)

  /** A pass and its sweep, wherever they stopped: what was there before and is younger
      than the window is still there unless its volume was retired, and nothing is
      new but copies made in this pass. */
  ghost predicate PassAndSweep(store: Store, g: Gates, base: State, landed: seq<bool>, was: Disk, now: Disk, later: int)
    requires SpareIsLast(store.volumes) && |landed| <= |store.volumes|
  {
    && (forall key :: key in was && !Retires(store, landed, key.vol) && later - was[key].time < g.window ==>
          key in now && now[key] == was[key])
    && (forall key :: key in now ==>
          || (key in was && now[key] == was[key])
          || (IsRewrite(store, g, base, key) && now[key].time == later))
  }

  lemma PassThenSweep(store: Store, g: Gates, base: State, landed: seq<bool>, was: Disk, mid: Disk, now: Disk, ns: Namespace, later: int)
    requires SpareIsLast(store.volumes) && |landed| <= |store.volumes|
    requires PassChanged(store, g, base, landed, was, mid, later) && PartlySwept(mid, now, ns, g.window, later)
    ensures PassAndSweep(store, g, base, landed, was, now, later)
  {
  }

  /** A pass and its sweep, both finished. The report lists the retirements, and counts
      what the sweep took; of the unreferenced refs on the volumes that were not wiped
      that is exactly those at least a window old, and no other is left. */
  ghost predicate Finished(store: Store, g: Gates, base: State, told: seq<bool>, ns: Namespace, was: Disk, now: Disk,
                           report: CompactReport, later: int)
    requires SpareIsLast(store.volumes) && |told| <= |store.volumes|
  {
    && IsReport(store, base, told, report.compacted) && |report.compacted| == Count(told)
    && now == AfterSweep(RefsAfter(store, g, base, was, told, later), ns, g.window, later)
    && report.orphansSwept == |RefsAfter(store, g, base, was, told, later)| - |now|
    && (forall key :: key in was && !Retires(store, told, key.vol) && key !in Protocol.Keys(Refs(ns)) ==>
          (key !in now <==> later - was[key].time >= g.window))
    && (forall key :: key in now ==> key in Protocol.Keys(Refs(ns)) || later - now[key].time < g.window)
  }

  lemma PassIsFinished(store: Store, g: Gates, base: State, told: seq<bool>, ns: Namespace, was: Disk,
                       report: CompactReport, later: int)
    requires SpareIsLast(store.volumes) && |told| <= |store.volumes| && IsReport(store, base, told, report.compacted)
    requires var mid := RefsAfter(store, g, base, was, told, later);
      report.orphansSwept == |mid| - |AfterSweep(mid, ns, g.window, later)|
    ensures Finished(store, g, base, told, ns, was, AfterSweep(RefsAfter(store, g, base, was, told, later), ns, g.window, later),
                     report, later)
  {
    ReportCounts(store, base, told, report.compacted);
    RefsAfterChanged(store, g, base, was, told, later);
  }
}
