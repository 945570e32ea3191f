/** One compaction pass, as an effect on the logical state: which volumes are
    eligible, where their live chunks go, and why repeating passes ends. */
module Pass {
  import opened Prelude
  import opened Manifests
  import opened Log
  import opened Repoint
  import opened Accounting
  import opened StoreInvariant
  import opened Placement
  import Protocol

  /** The hysteresis gates. Whether a volume's dead ratio, or its utilization, is over
      its gate is a test of two byte counts, however the quotient is rounded:
      `overDead(dead, total)` and `pressed(total, threshold)`. */
  datatype Gates = Gates(overDead: (nat, nat) -> bool, pressed: (nat, nat) -> bool, minInterval: int, window: int)
  {
    /** No volume without dead bytes is over the gate, and none gets over it by having
        fewer dead bytes or more bytes in all. */
    ghost predicate Valid() {
      && (forall total :: !overDead(0, total))
      && (forall dead, total, dead', total' ::
            dead' <= dead && total <= total' && !overDead(dead, total) ==> !overDead(dead', total'))
    }
  }

  /** The gates of two fractions, compared exactly. An empty threshold counts as no
      utilization at all. */
  function RatioGates(deadNum: int, deadDen: nat, pressureNum: int, pressureDen: nat, minInterval: int, window: int): Gates {
    Gates((dead: nat, total: nat) => dead * deadDen > deadNum * total,
          (total: nat, threshold: nat) =>
            if threshold == 0 then pressureNum <= 0 else total * pressureDen >= pressureNum * threshold,
          minInterval, window)
  }

  datatype VolumeStats = VolumeStats(id: VolId, total: nat, live: nat, dead: nat, threshold: nat, spare: bool)

  ghost function StatsOf(st: State, v: Volume): VolumeStats {
    var total, live := Total(st.seg, v.id), Live(st.ns, v.id);
    VolumeStats(v.id, total, live, if live <= total then total - live else 0, v.threshold, v.spare)
  }

  /** Eligible: ordinary, not empty, and with a dead ratio over the gate. */
  predicate Eligible(g: Gates, s: VolumeStats) {
    !s.spare && s.total > 0 && g.overDead(s.dead, s.total)
  }

  /** Budget pressure of one volume: utilization at or over the gate. */
  predicate Pressed(g: Gates, s: VolumeStats) {
    !s.spare && g.pressed(s.total, s.threshold)
  }

  /** Fractions make valid gates when the dead-ratio gate is not negative. */
  lemma RatioGatesAreValid(deadNum: nat, deadDen: nat, pressureNum: int, pressureDen: nat, minInterval: int, window: int)
    ensures RatioGates(deadNum, deadDen, pressureNum, pressureDen, minInterval, window).Valid()
  {
    forall dead: nat, total: nat, dead': nat, total': nat | dead' <= dead && total <= total' && dead * deadDen <= deadNum * total
      ensures dead' * deadDen <= deadNum * total'
    {
      RatioMonotone(deadNum, deadDen, dead, total, dead', total');
    }
  }

  lemma RatioMonotone(num: nat, den: nat, dead: nat, total: nat, dead': nat, total': nat)
    requires dead' <= dead && total <= total' && dead * den <= num * total
    ensures dead' * den <= num * total'
  {
    assert (dead - dead') * den >= 0;
    assert num * (total' - total) >= 0;
  }

  /** The interval gate looks at the newest compaction of any volume. */
  predicate IntervalOk(g: Gates, last: Option<int>, now: int) {
    last.None? || now - last.value >= g.minInterval
  }

  ghost predicate Candidate(g: Gates, st: State, v: Volume) {
    Eligible(g, StatsOf(st, v))
  }

  /** Which volumes are candidates, in bytes: the ordinary ones that store something
      and whose dead bytes, out of that, are over the gate. */
  lemma CandidateIff(g: Gates, st: State, v: Volume)
    ensures var total, live := Total(st.seg, v.id), Live(st.ns, v.id);
      Candidate(g, st, v) <==> !v.spare && total > 0 && g.overDead(if live <= total then total - live else 0, total)
  {
  }

  /** Where `v`'s chunks go when it is compacted from `base`. */
  ghost function DestOf(store: Store, base: State, v: VolId): Option<SegKey>
    requires SpareIsLast(store.volumes)
  {
    match ChooseDest(store.volumes, v, Live(base.ns, v), base.seg)
    case None => None
    case Some(i) => Some(SegKey(store.volumes[i].id, Derived(v, IdsOn(base.ns, v))))
  }

  /** The state after compacting `v`, planned from the pass's snapshot `base` and
      committed on top of `cur`. It stays as it is when there is no room, or when
      `cur` has chunks on `v` that the snapshot did not. */
  ghost function Compacted(store: Store, base: State, cur: State, v: VolId): State
    requires SpareIsLast(store.volumes)
  {
    var moved := IdsOn(base.ns, v);
    match DestOf(store, base, v)
    case None => cur
    case Some(dest) =>
      if IdsOn(cur.ns, v) <= moved then Retire(cur, v, dest, SealFor(dest, moved, Weigh(moved))) else cur
  }

  // ---------- what is left of the other candidates ----------

  /** As far as `v` is concerned, `cur` is still the snapshot. */
  ghost predicate Untouched(base: State, cur: State, v: VolId) {
    IdsOn(cur.ns, v) == IdsOn(base.ns, v) && OnVolume(cur.seg, v) == OnVolume(base.seg, v)
  }

  /** `v` has received chunks the snapshot does not place there. */
  ghost predicate Blocked(base: State, cur: State, v: VolId) {
    !(IdsOn(cur.ns, v) <= IdsOn(base.ns, v))
  }

  lemma IdsAfterRetire(ns: Namespace, v: VolId, dest: SegKey, w: VolId)
    requires w != v
    ensures IdsOn(Repointed(ns, v, dest), w) == if w == dest.vol then IdsOn(ns, w) + IdsOn(ns, v) else IdsOn(ns, w)
  {
    var after := IdsOn(Repointed(ns, v, dest), w);
    forall id | id in after
      ensures id in IdsOn(ns, w) || (w == dest.vol && id in IdsOn(ns, v))
    {
      var c :| c in Refs(Repointed(ns, v, dest)) && c.vol == w && c.id == id;
      RepointedRefs(ns, v, dest, c);
      var o :| o in Refs(ns) && c == MoveRef(o, v, dest);
      assert o.id == id && (o.vol == v || o.vol == w);
    }
    forall id | id in IdsOn(ns, w) || (w == dest.vol && id in IdsOn(ns, v))
      ensures id in after
    {
      var o :| o in Refs(ns) && o.id == id && (o.vol == w || (w == dest.vol && o.vol == v));
      RepointedRefsConverse(ns, v, dest, o);
      assert MoveRef(o, v, dest).vol == w && MoveRef(o, v, dest).id == id;
    }
  }

  lemma SegAfterRetire(seg: SegIndex, v: VolId, dest: SegKey, moved: set<Digest>, bytes: nat, w: VolId)
    requires w != v && (w != dest.vol || moved == {})
    ensures OnVolume(DropVolumes(InsertSeals(seg, SealFor(dest, moved, bytes)), [v]), w) == OnVolume(seg, w)
  {
    if moved != {} {
      InsertOne(seg, SealFor(dest, moved, bytes)[0]);
    }
  }

  /** With one placement per chunk id, no id is on two volumes. */
  lemma OnOneVolume(ns: Namespace, v: VolId, w: VolId)
    requires OnePlacement(ns) && v != w
    ensures IdsOn(ns, v) !! IdsOn(ns, w)
  {
    forall c, d | c in Refs(ns) && d in Refs(ns) && c.id == d.id
      ensures c.vol == d.vol
    {
      assert c.Key() == d.Key();
    }
  }

  /** Compacting one candidate leaves every other one untouched, or blocked if it
      was the destination of moved chunks. */
  lemma OthersAfterCompaction(store: Store, base: State, cur: State, v: VolId, w: VolId)
    requires SpareIsLast(store.volumes) && OnePlacement(base.ns) && w != v
    requires Untouched(base, cur, v)
    requires Untouched(base, cur, w) || Blocked(base, cur, w)
    ensures Untouched(base, Compacted(store, base, cur, v), w) || Blocked(base, Compacted(store, base, cur, v), w)
  {
    var moved := IdsOn(base.ns, v);
    if dest :| DestOf(store, base, v) == Some(dest) {
      IdsAfterRetire(cur.ns, v, dest, w);
      if w != dest.vol || moved == {} {
        SegAfterRetire(cur.seg, v, dest, moved, Weigh(moved), w);
      } else if Untouched(base, cur, w) {
        var id :| id in moved;
        OnOneVolume(base.ns, v, w);
        assert id in IdsOn(Compacted(store, base, cur, v).ns, w);
      }
    }
  }

  lemma GateMeansDead(g: Gates, st: State, v: Volume)
    requires g.Valid() && Candidate(g, st, v)
    ensures Live(st.ns, v.id) < Total(st.seg, v.id)
  {
    assert StatsOf(st, v).dead > 0;
  }

  /** Each landed compaction of a candidate lowers the store's dead bytes, even
      when it was planned from an older snapshot. */
  lemma CompactionReclaims(store: Store, g: Gates, base: State, cur: State, v: Volume)
    requires SpareIsLast(store.volumes) && g.Valid()
    requires Candidate(g, base, v) && Untouched(base, cur, v.id)
    ensures DestOf(store, base, v.id).Some? ==> Dead(Compacted(store, base, cur, v.id)) <= Dead(cur) - 1
  {
    GateMeansDead(g, base, v);
    if dest :| DestOf(store, base, v.id) == Some(dest) {
      RetireReclaims(cur, v.id, dest);
    }
  }

  /** A candidate is accounted for, so its retirement cannot look already done. */
  lemma CandidateIsPresent(g: Gates, base: State, cur: State, v: Volume)
    requires Candidate(g, base, v) && Untouched(base, cur, v.id)
    ensures exists key :: key in cur.seg && key.vol == v.id
  {
    var records := OnVolume(cur.seg, v.id);
    assert Sum(records) > 0;
    var key :| key in records;
  }

  // ---------- budget ----------

  ghost predicate WithinBudget(store: Store, st: State) {
    forall i :: 0 <= i < |store.volumes| ==> Total(st.seg, store.volumes[i].id) <= store.volumes[i].threshold
  }

  lemma TotalInsert(seg: SegIndex, key: SegKey, n: nat, w: VolId)
    ensures Total(seg[key := n], w) <= Total(seg, w) + (if key.vol == w then n else 0)
  {
    if key.vol == w {
      SumUpdate(OnVolume(seg, w), key, n);
      assert OnVolume(seg[key := n], w) == OnVolume(seg, w)[key := n];
    } else {
      assert OnVolume(seg[key := n], w) == OnVolume(seg, w);
    }
  }

  lemma TotalDrop(seg: SegIndex, v: VolId, w: VolId)
    ensures Total(DropVolumes(seg, [v]), w) <= Total(seg, w)
  {
    SumMonotone(OnVolume(DropVolumes(seg, [v]), w), OnVolume(seg, w));
  }

  /** A retirement adds at most the moved bytes, and only at its destination. */
  lemma RetireTotals(st: State, v: VolId, dest: SegKey, moved: set<Digest>, bytes: nat, w: VolId)
    ensures Total(Retire(st, v, dest, SealFor(dest, moved, bytes)).seg, w)
         <= Total(st.seg, w) + (if dest.vol == w && moved != {} then bytes else 0)
  {
    var seals := SealFor(dest, moved, bytes);
    if moved != {} {
      InsertOne(st.seg, seals[0]);
      TotalInsert(st.seg, dest, bytes, w);
    }
    TotalDrop(InsertSeals(st.seg, seals), v, w);
  }

  /** A compaction planned and committed on the same state respects the wall. */
  lemma CompactionWithinBudget(store: Store, st: State, v: VolId)
    requires store.Valid() && SpareIsLast(store.volumes) && WithinBudget(store, st)
    ensures WithinBudget(store, Compacted(store, st, st, v))
  {
    var moved := IdsOn(st.ns, v);
    if dest :| DestOf(store, st, v) == Some(dest) {
      var d := ChooseDest(store.volumes, v, Live(st.ns, v), st.seg).value;
      forall i | 0 <= i < |store.volumes|
        ensures Total(Compacted(store, st, st, v).seg, store.volumes[i].id) <= store.volumes[i].threshold
      {
        RetireTotals(st, v, dest, moved, Weigh(moved), store.volumes[i].id);
        assert CanHold(store.volumes, st.seg, Live(st.ns, v), d);
      }
    }
  }

  // ---------- what a whole pass can reach ----------

  /** The compaction of `v` planned from `base` lands on top of `prev`. */
  ghost predicate Lands(store: Store, g: Gates, base: State, prev: State, v: Volume)
    requires SpareIsLast(store.volumes)
  {
    Candidate(g, base, v) && DestOf(store, base, v.id).Some? && !Blocked(base, prev, v.id)
  }

  /** Which of the first volumes the pass retired, and the state that leaves. */
  ghost function PassState(store: Store, base: State, landed: seq<bool>): State
    requires SpareIsLast(store.volumes) && |landed| <= |store.volumes|
  {
    if landed == [] then base
    else
      var n := |landed| - 1;
      var prev := PassState(store, base, landed[..n]);
      if landed[n] then Compacted(store, base, prev, store.volumes[n].id) else prev
  }

  /** Only candidates are retired, and only when nothing blocks them. A candidate
      may also fail to land: crash, lost race, no room, or retries used up. */
  ghost predicate IsPass(store: Store, g: Gates, base: State, landed: seq<bool>)
    requires SpareIsLast(store.volumes)
  {
    && |landed| <= |store.volumes|
    && (landed != [] ==>
          var n := |landed| - 1;
          && IsPass(store, g, base, landed[..n])
          && (landed[n] ==> Lands(store, g, base, PassState(store, base, landed[..n]), store.volumes[n])))
  }

  function Count(landed: seq<bool>): nat {
    if landed == [] then 0
    else Count(landed[..|landed| - 1]) + (if landed[|landed| - 1] then 1 else 0)
  }

  ghost predicate LaterCandidatesIntact(store: Store, base: State, cur: State, i: nat) {
    forall j :: i <= j < |store.volumes| ==>
      Untouched(base, cur, store.volumes[j].id) || Blocked(base, cur, store.volumes[j].id)
  }

  lemma {:induction false} PassKeepsLater(store: Store, g: Gates, base: State, landed: seq<bool>)
    requires store.Valid() && SpareIsLast(store.volumes) && OnePlacement(base.ns)
    requires IsPass(store, g, base, landed)
    ensures LaterCandidatesIntact(store, base, PassState(store, base, landed), |landed|)
    decreases |landed|
  {
    if landed == [] {
    } else {
      var n := |landed| - 1;
      PassKeepsLater(store, g, base, landed[..n]);
      var prev := PassState(store, base, landed[..n]);
      if landed[n] {
        forall j | n < j < |store.volumes|
          ensures var cur := Compacted(store, base, prev, store.volumes[n].id);
            Untouched(base, cur, store.volumes[j].id) || Blocked(base, cur, store.volumes[j].id)
        {
          OthersAfterCompaction(store, base, prev, store.volumes[n].id, store.volumes[j].id);
        }
      }
    }
  }

  /** Repeating compaction ends: every retirement a pass lands lowers the store's
      dead bytes by at least one, stale snapshots notwithstanding. */
  lemma {:induction false} PassReclaims(store: Store, g: Gates, base: State, landed: seq<bool>)
    requires store.Valid() && SpareIsLast(store.volumes) && OnePlacement(base.ns)
    requires g.Valid()
    requires IsPass(store, g, base, landed)
    ensures Dead(PassState(store, base, landed)) + Count(landed) <= Dead(base)
    decreases |landed|
  {
    if landed == [] {
    } else {
      var n := |landed| - 1;
      PassReclaims(store, g, base, landed[..n]);
      if landed[n] {
        PassKeepsLater(store, g, base, landed[..n]);
        CompactionReclaims(store, g, base, PassState(store, base, landed[..n]), store.volumes[n]);
      }
    }
  }

  lemma CompactedMeaning(store: Store, base: State, cur: State, v: VolId)
    requires SpareIsLast(store.volumes)
    ensures EraseAll(Compacted(store, base, cur, v).ns) == EraseAll(cur.ns)
  {
    if dest :| DestOf(store, base, v) == Some(dest) {
      RepointPreservesMeaning(cur.ns, v, dest);
    }
  }

  /** A pass changes placements only: names, sizes, hashes and ordered chunk ids
      of every file stay, however many retirements land. */
  lemma {:induction false} PassPreservesMeaning(store: Store, g: Gates, base: State, landed: seq<bool>)
    requires SpareIsLast(store.volumes) && IsPass(store, g, base, landed)
    ensures EraseAll(PassState(store, base, landed).ns) == EraseAll(base.ns)
    decreases |landed|
  {
    if landed == [] {
    } else {
      var n := |landed| - 1;
      PassPreservesMeaning(store, g, base, landed[..n]);
      CompactedMeaning(store, base, PassState(store, base, landed[..n]), store.volumes[n].id);
    }
  }

  lemma PassStateSnoc(store: Store, base: State, landed: seq<bool>, one: bool)
    requires SpareIsLast(store.volumes) && |landed| < |store.volumes|
    ensures PassState(store, base, landed + [one]) ==
      if one then Compacted(store, base, PassState(store, base, landed), store.volumes[|landed|].id)
      else PassState(store, base, landed)
    ensures Count(landed + [one]) == Count(landed) + (if one then 1 else 0)
  {
    assert (landed + [one])[..|landed|] == landed;
  }

  lemma IsPassSnoc(store: Store, g: Gates, base: State, landed: seq<bool>, one: bool)
    requires SpareIsLast(store.volumes) && IsPass(store, g, base, landed) && |landed| < |store.volumes|
    requires one ==> Lands(store, g, base, PassState(store, base, landed), store.volumes[|landed|])
    ensures IsPass(store, g, base, landed + [one])
  {
    var after := landed + [one];
    assert after[..|after| - 1] == landed && after[|after| - 1] == one;
  }

  lemma PassNext(store: Store, g: Gates, base: State, landed: seq<bool>, one: bool)
    requires SpareIsLast(store.volumes) && IsPass(store, g, base, landed) && |landed| < |store.volumes|
    requires one ==> Lands(store, g, base, PassState(store, base, landed), store.volumes[|landed|])
    ensures IsPass(store, g, base, landed + [one]) && Count(landed + [one]) == Count(landed) + (if one then 1 else 0)
    ensures PassState(store, base, landed + [one]) ==
      if one then Compacted(store, base, PassState(store, base, landed), store.volumes[|landed|].id)
      else PassState(store, base, landed)
  {
    PassStateSnoc(store, base, landed, one);
    IsPassSnoc(store, g, base, landed, one);
  }

  /** A candidate still to come is present in the accounting or holds new chunks,
      so its retirement cannot be mistaken for one that already happened. */
  lemma NotGone(store: Store, g: Gates, base: State, landed: seq<bool>)
    requires store.Valid() && SpareIsLast(store.volumes) && OnePlacement(base.ns)
    requires IsPass(store, g, base, landed) && |landed| < |store.volumes|
    requires Candidate(g, base, store.volumes[|landed|])
    ensures !Protocol.NothingOn(PassState(store, base, landed), store.volumes[|landed|].id)
  {
    PassKeepsLater(store, g, base, landed);
    var cur, v := PassState(store, base, landed), store.volumes[|landed|];
    if Untouched(base, cur, v.id) {
      CandidateIsPresent(g, base, cur, v);
    }
  }

  // ---------- what a pass stores on each volume ----------

  /** The snapshot sends the chunks of `v` to `w`; unless `all`, only counted when
      the snapshot has no record of that rewrite yet. */
  ghost predicate Sends(store: Store, base: State, v: VolId, w: VolId, all: bool)
    requires SpareIsLast(store.volumes)
  {
    match DestOf(store, base, v)
    case None => false
    case Some(dest) => dest.vol == w && (all || dest !in base.seg)
  }

  /** Live bytes of the retired volumes whose chunks went to `w`. */
  ghost function SentTo(store: Store, base: State, landed: seq<bool>, w: VolId, all: bool): nat
    requires SpareIsLast(store.volumes) && |landed| <= |store.volumes|
  {
    if landed == [] then 0
    else
      var n := |landed| - 1;
      var v := store.volumes[n].id;
      SentTo(store, base, landed[..n], w, all)
        + (if landed[n] && Sends(store, base, v, w, all) then Live(base.ns, v) else 0)
  }

  ghost predicate Retires(store: Store, landed: seq<bool>, w: VolId)
    requires |landed| <= |store.volumes|
  {
    exists i :: 0 <= i < |landed| && landed[i] && store.volumes[i].id == w
  }

  /** What the snapshot says volume `w` will hold after the pass: what it held plus
      the rewrites it had no record of, or, if the pass retires it, the rewrites
      alone. */
  ghost function Held(store: Store, base: State, landed: seq<bool>, w: VolId): nat
    requires SpareIsLast(store.volumes) && |landed| <= |store.volumes|
  {
    if Retires(store, landed, w) then SentTo(store, base, landed, w, true)
    else Total(base.seg, w) + SentTo(store, base, landed, w, false)
  }

  /** Whatever a pass does, a volume gains at most the bytes moved to it. */
  lemma {:induction false} PassTotals(store: Store, g: Gates, base: State, landed: seq<bool>, w: VolId)
    requires SpareIsLast(store.volumes) && IsPass(store, g, base, landed)
    ensures Total(PassState(store, base, landed).seg, w) <= Total(base.seg, w) + SentTo(store, base, landed, w, true)
    decreases |landed|
  {
    if landed == [] {
    } else {
      var n := |landed| - 1;
      PassTotals(store, g, base, landed[..n], w);
      CompactedTotals(store, base, PassState(store, base, landed[..n]), store.volumes[n].id, w);
    }
  }

  lemma CompactedTotals(store: Store, base: State, cur: State, v: VolId, w: VolId)
    requires SpareIsLast(store.volumes)
    ensures Total(Compacted(store, base, cur, v).seg, w)
         <= Total(cur.seg, w) + (if Sends(store, base, v, w, true) then Live(base.ns, v) else 0)
  {
    if dest :| DestOf(store, base, v) == Some(dest) {
      RetireTotals(cur, v, dest, IdsOn(base.ns, v), Live(base.ns, v), w);
    }
  }

  /** A derived record of a volume the pass has yet to reach is there if and only
      if the snapshot has it and the pass has not retired the volume it is on. */
  ghost predicate RecordsKept(store: Store, base: State, cur: State, landed: seq<bool>, w: VolId)
    requires |landed| <= |store.volumes|
  {
    forall j, ids :: |landed| <= j < |store.volumes| ==>
      var key := SegKey(w, Derived(store.volumes[j].id, ids));
      key in cur.seg <==> key in base.seg && !Retires(store, landed, w)
  }

  lemma RetiresNext(store: Store, landed: seq<bool>, w: VolId)
    requires 0 < |landed| <= |store.volumes|
    ensures var n := |landed| - 1;
      Retires(store, landed, w) <==> Retires(store, landed[..n], w) || (landed[n] && store.volumes[n].id == w)
  {
    var n := |landed| - 1;
    if i :| 0 <= i < n && landed[i] && store.volumes[i].id == w {
      assert landed[..n][i];
    }
    if landed[n] && store.volumes[n].id == w {
      assert Retires(store, landed, w);
    }
  }

  lemma {:induction false} PassRecords(store: Store, g: Gates, base: State, landed: seq<bool>, w: VolId)
    requires store.Valid() && SpareIsLast(store.volumes) && IsPass(store, g, base, landed) && DerivedExact(base.seg)
    ensures DerivedExact(PassState(store, base, landed).seg)
    ensures RecordsKept(store, base, PassState(store, base, landed), landed, w)
    decreases |landed|
  {
    if landed == [] {
    } else {
      var n := |landed| - 1;
      PassRecords(store, g, base, landed[..n], w);
      RetiresNext(store, landed, w);
      if landed[n] {
        var v := store.volumes[n].id;
        var dest :| DestOf(store, base, v) == Some(dest);
        RecordsNext(PassState(store, base, landed[..n]).seg, v, dest, IdsOn(base.ns, v));
      }
    }
  }

  lemma RecordsNext(seg: SegIndex, v: VolId, dest: SegKey, moved: set<Digest>)
    requires DerivedExact(seg) && dest.seg == Derived(v, moved)
    ensures var after := DropVolumes(InsertSeals(seg, SealFor(dest, moved, Weigh(moved))), [v]);
      && DerivedExact(after)
      && forall key :: key in after <==> key.vol != v && (key in seg || (moved != {} && key == dest))
  {
    if moved != {} {
      InsertOne(seg, SealFor(dest, moved, Weigh(moved))[0]);
    }
  }

  /** A volume that was sent chunks holds ids the snapshot does not place there. */
  lemma {:induction false} SentMeansBlocked(store: Store, g: Gates, base: State, landed: seq<bool>, w: VolId)
    requires store.Valid() && SpareIsLast(store.volumes) && OnePlacement(base.ns) && IsPass(store, g, base, landed)
    ensures SentTo(store, base, landed, w, true) > 0 ==> Blocked(base, PassState(store, base, landed), w)
    decreases |landed|
  {
    if landed == [] {
    } else {
      var n := |landed| - 1;
      SentMeansBlocked(store, g, base, landed[..n], w);
      if landed[n] {
        PassKeepsLater(store, g, base, landed[..n]);
        SentNext(store, base, PassState(store, base, landed[..n]), store.volumes[n].id, w);
      }
    }
  }

  lemma SentNext(store: Store, base: State, cur: State, v: VolId, w: VolId)
    requires SpareIsLast(store.volumes) && OnePlacement(base.ns) && Untouched(base, cur, v)
    ensures w != v && (Blocked(base, cur, w) || (Sends(store, base, v, w, true) && Live(base.ns, v) > 0)) ==>
      Blocked(base, Compacted(store, base, cur, v), w)
    ensures w == v ==> !Blocked(base, cur, w) && !Sends(store, base, v, w, true)
  {
    if dest :| DestOf(store, base, v) == Some(dest) {
      if w != v {
        IdsAfterRetire(cur.ns, v, dest, w);
        OnOneVolume(base.ns, v, w);
        WeighNothing();
      }
    }
  }

  lemma WeighNothing()
    ensures Weigh({}) == 0
  {
    assert (map id: Digest | id in {} :: |id.of|) == map[];
  }

  /** The books of one retirement, for every other volume. */
  lemma RetireTotalExact(st: State, v: VolId, dest: SegKey, moved: set<Digest>, w: VolId)
    requires w != v && DerivedExact(st.seg) && dest.seg == Derived(v, moved)
    ensures Total(Retire(st, v, dest, SealFor(dest, moved, Weigh(moved))).seg, w)
         == Total(st.seg, w) + (if dest.vol == w && dest !in st.seg then Weigh(moved) else 0)
  {
    WeighNothing();
    if moved == {} || w != dest.vol {
      SegAfterRetire(st.seg, v, dest, moved, Weigh(moved), w);
    } else {
      var n := Weigh(moved);
      InsertOne(st.seg, SealFor(dest, moved, n)[0]);
      assert OnVolume(DropVolumes(st.seg[dest := n], [v]), w) == OnVolume(st.seg, w)[dest := n];
      if dest in st.seg {
        assert OnVolume(st.seg, w)[dest := n] == OnVolume(st.seg, w);
      } else {
        SumInsert(OnVolume(st.seg, w), dest, n);
      }
    }
  }

  /** Exactly what every volume holds after a pass, from the snapshot alone. */
  lemma {:induction false} PassTotalExact(store: Store, g: Gates, base: State, landed: seq<bool>, w: VolId)
    requires store.Valid() && SpareIsLast(store.volumes) && OnePlacement(base.ns) && DerivedExact(base.seg)
    requires IsPass(store, g, base, landed)
    ensures Total(PassState(store, base, landed).seg, w) == Held(store, base, landed, w)
    decreases |landed|
  {
    if landed == [] {
    } else {
      var n := |landed| - 1;
      PassTotalExact(store, g, base, landed[..n], w);
      RetiresNext(store, landed, w);
      if landed[n] {
        PassRecords(store, g, base, landed[..n], w);
        SentMeansBlocked(store, g, base, landed[..n], w);
        HeldNext(store, g, base, landed, w);
      }
    }
  }

  lemma HeldNext(store: Store, g: Gates, base: State, landed: seq<bool>, w: VolId)
    requires store.Valid() && SpareIsLast(store.volumes) && IsPass(store, g, base, landed)
    requires landed != [] && landed[|landed| - 1]
    requires var before := landed[..|landed| - 1];
      var cur := PassState(store, base, before);
      && Total(cur.seg, w) == Held(store, base, before, w)
      && DerivedExact(cur.seg) && RecordsKept(store, base, cur, before, w)
      && (SentTo(store, base, before, w, true) > 0 ==> Blocked(base, cur, w))
    requires Retires(store, landed, w) <==> Retires(store, landed[..|landed| - 1], w) || store.volumes[|landed| - 1].id == w
    ensures Total(PassState(store, base, landed).seg, w) == Held(store, base, landed, w)
  {
    var n := |landed| - 1;
    var v, cur := store.volumes[n].id, PassState(store, base, landed[..n]);
    if w == v {
      RetiredHoldsNothing(store, base, cur, v);
    } else {
      GainsWhatIsSent(store, base, cur, n, landed[..n], w);
    }
  }

  lemma RetiredHoldsNothing(store: Store, base: State, cur: State, v: VolId)
    requires SpareIsLast(store.volumes) && DestOf(store, base, v).Some? && !Blocked(base, cur, v)
    ensures Total(Compacted(store, base, cur, v).seg, v) == 0
    ensures forall all :: !Sends(store, base, v, v, all)
  {
    var dest :| DestOf(store, base, v) == Some(dest);
    TotalAfterDrop(InsertSeals(cur.seg, SealFor(dest, IdsOn(base.ns, v), Live(base.ns, v))), v);
  }

  lemma GainsWhatIsSent(store: Store, base: State, cur: State, n: nat, before: seq<bool>, w: VolId)
    requires SpareIsLast(store.volumes) && n < |store.volumes| && n == |before|
    requires var v := store.volumes[n].id;
      DestOf(store, base, v).Some? && !Blocked(base, cur, v) && w != v
    requires DerivedExact(cur.seg) && RecordsKept(store, base, cur, before, w)
    ensures var v := store.volumes[n].id;
      Total(Compacted(store, base, cur, v).seg, w) == Total(cur.seg, w)
        + (if Sends(store, base, v, w, Retires(store, before, w)) then Live(base.ns, v) else 0)
  {
    var v := store.volumes[n].id;
    var dest :| DestOf(store, base, v) == Some(dest);
    RetireTotalExact(cur, v, dest, IdsOn(base.ns, v), w);
    assert dest.vol == w ==> dest == SegKey(w, Derived(v, IdsOn(base.ns, v)));
  }

  ghost predicate HeldWithinBudget(store: Store, base: State, landed: seq<bool>)
    requires SpareIsLast(store.volumes) && |landed| <= |store.volumes|
  {
    forall i :: 0 <= i < |store.volumes| ==>
      Held(store, base, landed, store.volumes[i].id) <= store.volumes[i].threshold
  }

  /** Exactly when a pass ends within budget: when, for every volume, what the
      snapshot says it will hold is at most its threshold. */
  lemma PassWithinBudgetIff(store: Store, g: Gates, base: State, landed: seq<bool>)
    requires store.Valid() && SpareIsLast(store.volumes) && OnePlacement(base.ns) && DerivedExact(base.seg)
    requires IsPass(store, g, base, landed)
    ensures WithinBudget(store, PassState(store, base, landed)) <==> HeldWithinBudget(store, base, landed)
  {
    forall i | 0 <= i < |store.volumes|
      ensures Total(PassState(store, base, landed).seg, store.volumes[i].id)
           == Held(store, base, landed, store.volumes[i].id)
    {
      PassTotalExact(store, g, base, landed, store.volumes[i].id);
    }
  }

  /** The budget wall survives a pass that retires at most one volume. */
  lemma {:induction false} PassWithinBudget(store: Store, g: Gates, base: State, landed: seq<bool>)
    requires store.Valid() && SpareIsLast(store.volumes) && WithinBudget(store, base)
    requires IsPass(store, g, base, landed) && Count(landed) <= 1
    ensures WithinBudget(store, PassState(store, base, landed))
    ensures Count(landed) == 0 ==> PassState(store, base, landed) == base
    decreases |landed|
  {
    if landed == [] {
    } else {
      var n := |landed| - 1;
      PassWithinBudget(store, g, base, landed[..n]);
      CompactionWithinBudget(store, base, store.volumes[n].id);
    }
  }

  // ---------- convergence of an interrupted pass ----------

  /** `v` is the only candidate. */
  ghost predicate OnlyCandidate(store: Store, g: Gates, st: State, v: Volume) {
    && v in store.volumes && Candidate(g, st, v)
    && forall w :: w in store.volumes && Candidate(g, st, w) ==> w == v
  }

  /** Flags decided one after the other, each from those before it. */
  ghost function Decided(next: seq<bool> -> bool, n: nat): (flags: seq<bool>)
    ensures |flags| == n
  {
    if n == 0 then []
    else
      var before := Decided(next, n - 1);
      before + [next(before)]
  }

  lemma {:induction false} DecidedAt(next: seq<bool> -> bool, n: nat, j: nat)
    requires j < n
    ensures Decided(next, n)[j] == next(Decided(next, j))
    decreases n
  {
    if n == j + 1 {
    } else {
      DecidedAt(next, n - 1, j);
    }
  }

  /** Whether the next volume lands after a pass that retired the ones flagged. */
  ghost function NextLands(store: Store, g: Gates, base: State): seq<bool> -> bool
    requires SpareIsLast(store.volumes)
  {
    before => |before| < |store.volumes| && Lands(store, g, base, PassState(store, base, before), store.volumes[|before|])
  }

  /** Which of the first `n` volumes an undisturbed pass retires, told from the
      snapshot: the candidates with room that nothing blocks by then. */
  ghost function WillLand(store: Store, g: Gates, base: State, n: nat): (flags: seq<bool>)
    requires SpareIsLast(store.volumes) && n <= |store.volumes|
    ensures |flags| == n
  {
    Decided(NextLands(store, g, base), n)
  }

  /** The pass without crashes or failed commits. */
  ghost function RunPass(store: Store, g: Gates, base: State): State
    requires SpareIsLast(store.volumes)
  {
    PassState(store, base, WillLand(store, g, base, |store.volumes|))
  }

  lemma TotalAfterRetire(st: State, v: VolId, dest: SegKey, w: VolId)
    requires w != v && DerivedExact(st.seg)
    requires dest.seg == Derived(v, IdsOn(st.ns, v))
    ensures var moved := IdsOn(st.ns, v);
      var t := Retire(st, v, dest, SealFor(dest, moved, Weigh(moved)));
      Total(st.seg, w) <= Total(t.seg, w)
      && (w != dest.vol || moved == {} ==> Total(t.seg, w) == Total(st.seg, w))
      && Total(t.seg, w) <= Total(st.seg, w) + Weigh(moved)
  {
    var moved := IdsOn(st.ns, v);
    var seals := SealFor(dest, moved, Weigh(moved));
    RetireTotals(st, v, dest, moved, Weigh(moved), w);
    if moved == {} || w != dest.vol {
      SegAfterRetire(st.seg, v, dest, moved, Weigh(moved), w);
    } else {
      InsertOne(st.seg, seals[0]);
      SumMonotone(OnVolume(st.seg, w), OnVolume(DropVolumes(InsertSeals(st.seg, seals), [v]), w));
    }
  }

  /** The destination of moved chunks becomes no deader: its stored bytes do not
      shrink, and its dead bytes do not grow. */
  lemma OthersNoDeader(st: State, v: VolId, dest: SegKey, w: VolId)
    requires w != v && OnePlacement(st.ns) && DerivedExact(st.seg)
    requires dest.seg == Derived(v, IdsOn(st.ns, v)) && dest.vol != v
    ensures var moved := IdsOn(st.ns, v);
      var t := Retire(st, v, dest, SealFor(dest, moved, Weigh(moved)));
      && Total(st.seg, w) <= Total(t.seg, w)
      && Total(t.seg, w) - Live(t.ns, w) <= Total(st.seg, w) - Live(st.ns, w)
  {
    TotalAfterRetire(st, v, dest, w);
    IdsAfterRetire(st.ns, v, dest, w);
    if w == dest.vol {
      OnOneVolume(st.ns, v, w);
      WeighSplit(IdsOn(st.ns, w), IdsOn(st.ns, v));
    }
  }

  lemma StillNoCandidate(g: Gates, st: State, t: State, disk: Disk, w: Volume)
    requires g.Valid() && Accounted(st, disk)
    requires Total(st.seg, w.id) <= Total(t.seg, w.id)
    requires Total(t.seg, w.id) - Live(t.ns, w.id) <= Total(st.seg, w.id) - Live(st.ns, w.id)
    requires !Candidate(g, st, w)
    ensures !Candidate(g, t, w)
  {
    LiveAtMostTotal(st, disk, w.id);
    if !w.spare {
      var s, s' := StatsOf(st, w), StatsOf(t, w);
      assert !g.overDead(s.dead, s.total);
      assert s'.dead <= s.dead && s.total <= s'.total;
    }
  }

  /** After the only candidate has been compacted, there is none. */
  lemma NoCandidateAfter(store: Store, g: Gates, st: State, disk: Disk, v: Volume, w: Volume)
    requires store.Valid() && SpareIsLast(store.volumes) && g.Valid()
    requires OnePlacement(st.ns) && DerivedExact(st.seg) && Accounted(st, disk)
    requires OnlyCandidate(store, g, st, v) && w in store.volumes && DestOf(store, st, v.id).Some?
    ensures !Candidate(g, Compacted(store, st, st, v.id), w)
  {
    var dest :| DestOf(store, st, v.id) == Some(dest);
    if w.id == v.id {
      RetireReclaims(st, v.id, dest);
    } else {
      OthersNoDeader(st, v.id, dest, w.id);
      StillNoCandidate(g, st, Compacted(store, st, st, v.id), disk, w);
    }
  }

  lemma OnlyOneIndex(store: Store, g: Gates, st: State, v: Volume, n: nat, j: nat)
    requires store.Valid() && SpareIsLast(store.volumes) && OnlyCandidate(store, g, st, v)
    requires n < |store.volumes| && store.volumes[n] == v && j < |store.volumes| && j != n
    ensures !Candidate(g, st, store.volumes[j])
  {
    assert store.volumes[j] in store.volumes;
    assert store.volumes[j].id != store.volumes[n].id;
  }

  lemma PassStateNext(store: Store, base: State, flags: seq<bool>, i: nat)
    requires SpareIsLast(store.volumes) && i < |flags| <= |store.volumes|
    ensures PassState(store, base, flags[..i + 1]) ==
      if flags[i] then Compacted(store, base, PassState(store, base, flags[..i]), store.volumes[i].id)
      else PassState(store, base, flags[..i])
  {
    assert flags[..i + 1][..i] == flags[..i];
  }

  /** Volumes that are not compacted do not matter. */
  lemma {:induction false} PassSkips(store: Store, base: State, flags: seq<bool>, lo: nat, hi: nat)
    requires SpareIsLast(store.volumes) && lo <= hi <= |flags| <= |store.volumes|
    requires forall j :: lo <= j < hi ==> !flags[j]
    ensures PassState(store, base, flags[..hi]) == PassState(store, base, flags[..lo])
    decreases hi
  {
    if hi == lo {
    } else {
      PassSkips(store, base, flags, lo, hi - 1);
      PassStateNext(store, base, flags, hi - 1);
    }
  }

  lemma OnlyOne(store: Store, base: State, flags: seq<bool>, n: nat)
    requires SpareIsLast(store.volumes) && n < |flags| <= |store.volumes|
    requires forall j :: 0 <= j < |flags| ==> (flags[j] <==> j == n)
    ensures PassState(store, base, flags) == Compacted(store, base, base, store.volumes[n].id)
  {
    PassSkips(store, base, flags, 0, n);
    PassStateNext(store, base, flags, n);
    PassSkips(store, base, flags, n + 1, |flags|);
    assert flags[..|flags|] == flags;
  }

  lemma NoneAtAll(store: Store, base: State, flags: seq<bool>)
    requires SpareIsLast(store.volumes) && |flags| <= |store.volumes|
    requires forall j :: 0 <= j < |flags| ==> !flags[j]
    ensures PassState(store, base, flags) == base
  {
    PassSkips(store, base, flags, 0, |flags|);
    assert flags[..|flags|] == flags;
  }

  lemma WillLandAt(store: Store, g: Gates, base: State, n: nat, j: nat)
    requires SpareIsLast(store.volumes) && j < n <= |store.volumes|
    ensures WillLand(store, g, base, n)[j] <==>
      Lands(store, g, base, PassState(store, base, WillLand(store, g, base, j)), store.volumes[j])
  {
    DecidedAt(NextLands(store, g, base), n, j);
  }

  lemma WillLandNext(store: Store, g: Gates, base: State, n: nat)
    requires SpareIsLast(store.volumes) && n < |store.volumes|
    ensures var before := WillLand(store, g, base, n);
      WillLand(store, g, base, n + 1) == before + [Lands(store, g, base, PassState(store, base, before), store.volumes[n])]
  {
  }

  /** The full pass is a pass. */
  lemma {:induction false} WillLandIsPass(store: Store, g: Gates, base: State, n: nat)
    requires SpareIsLast(store.volumes) && n <= |store.volumes|
    ensures IsPass(store, g, base, WillLand(store, g, base, n))
    decreases n
  {
    if n == 0 {
    } else {
      var before := WillLand(store, g, base, n - 1);
      WillLandNext(store, g, base, n - 1);
      WillLandIsPass(store, g, base, n - 1);
      IsPassSnoc(store, g, base, before, Lands(store, g, base, PassState(store, base, before), store.volumes[n - 1]));
    }
  }

  /** Some chunk of an earlier volume that was retired went to `w`. */
  ghost predicate Receives(store: Store, base: State, landed: seq<bool>, w: VolId)
    requires SpareIsLast(store.volumes) && |landed| <= |store.volumes|
  {
    exists i :: 0 <= i < |landed| && landed[i] && SendsChunks(store, base, store.volumes[i].id, w)
  }

  ghost predicate SendsChunks(store: Store, base: State, v: VolId, w: VolId)
    requires SpareIsLast(store.volumes)
  {
    IdsOn(base.ns, v) != {} && Sends(store, base, v, w, true)
  }

  lemma BlockedAfter(store: Store, base: State, cur: State, v: VolId, w: VolId)
    requires SpareIsLast(store.volumes) && OnePlacement(base.ns) && w != v && Untouched(base, cur, v)
    ensures Blocked(base, Compacted(store, base, cur, v), w) <==> Blocked(base, cur, w) || SendsChunks(store, base, v, w)
  {
    if dest :| DestOf(store, base, v) == Some(dest) {
      IdsAfterRetire(cur.ns, v, dest, w);
      OnOneVolume(base.ns, v, w);
    }
  }

  lemma ReceivesNext(store: Store, base: State, landed: seq<bool>, w: VolId)
    requires SpareIsLast(store.volumes) && 0 < |landed| <= |store.volumes|
    ensures var n := |landed| - 1;
      Receives(store, base, landed, w) <==>
        Receives(store, base, landed[..n], w) || (landed[n] && SendsChunks(store, base, store.volumes[n].id, w))
  {
    var n := |landed| - 1;
    if i :| 0 <= i < n && landed[i] && SendsChunks(store, base, store.volumes[i].id, w) {
      assert landed[..n][i];
    }
    if landed[n] && SendsChunks(store, base, store.volumes[n].id, w) {
      assert Receives(store, base, landed, w);
    }
  }

  /** A volume still to come is blocked exactly when it has received chunks. */
  lemma {:induction false} BlockedIffReceives(store: Store, g: Gates, base: State, landed: seq<bool>, j: nat)
    requires store.Valid() && SpareIsLast(store.volumes) && OnePlacement(base.ns)
    requires IsPass(store, g, base, landed) && |landed| <= j < |store.volumes|
    ensures Blocked(base, PassState(store, base, landed), store.volumes[j].id) <==>
      Receives(store, base, landed, store.volumes[j].id)
    decreases |landed|
  {
    if landed == [] {
    } else {
      var n := |landed| - 1;
      BlockedIffReceives(store, g, base, landed[..n], j);
      ReceivesNext(store, base, landed, store.volumes[j].id);
      if landed[n] {
        PassKeepsLater(store, g, base, landed[..n]);
        BlockedAfter(store, base, PassState(store, base, landed[..n]), store.volumes[n].id, store.volumes[j].id);
      }
    }
  }

  /** Another volume has room for the live bytes of volume `j`. */
  ghost predicate RoomElsewhere(store: Store, st: State, j: nat)
    requires j < |store.volumes|
  {
    exists i :: 0 <= i < |store.volumes| && store.volumes[i].id != store.volumes[j].id
      && Total(st.seg, store.volumes[i].id) + Live(st.ns, store.volumes[j].id) <= store.volumes[i].threshold
  }

  lemma DestIffRoom(store: Store, st: State, j: nat)
    requires SpareIsLast(store.volumes) && j < |store.volumes|
    ensures DestOf(store, st, store.volumes[j].id).Some? <==> RoomElsewhere(store, st, j)
  {
    var v := store.volumes[j].id;
    assert forall i :: 0 <= i < |store.volumes| ==>
      (CanHold(store.volumes, st.seg, Live(st.ns, v), i) <==>
        Total(st.seg, store.volumes[i].id) + Live(st.ns, v) <= store.volumes[i].threshold);
  }

  /** Which volumes an undisturbed pass retires: the candidates for whose live bytes
      the snapshot has room elsewhere and to which no chunk of an earlier retired
      volume has gone. */
  lemma WillLandIff(store: Store, g: Gates, base: State, j: nat)
    requires store.Valid() && SpareIsLast(store.volumes) && OnePlacement(base.ns) && j < |store.volumes|
    ensures WillLand(store, g, base, |store.volumes|)[j] <==>
      && Candidate(g, base, store.volumes[j]) && RoomElsewhere(store, base, j)
      && !Receives(store, base, WillLand(store, g, base, j), store.volumes[j].id)
  {
    WillLandAt(store, g, base, |store.volumes|, j);
    WillLandIsPass(store, g, base, j);
    BlockedIffReceives(store, g, base, WillLand(store, g, base, j), j);
    DestIffRoom(store, base, j);
  }

  /** Exactly when an undisturbed pass ends within budget, as a test of the snapshot
      that can be made before the call. */
  lemma RunPassWithinBudgetIff(store: Store, g: Gates, base: State)
    requires store.Valid() && SpareIsLast(store.volumes) && OnePlacement(base.ns) && DerivedExact(base.seg)
    ensures WithinBudget(store, RunPass(store, g, base)) <==>
      HeldWithinBudget(store, base, WillLand(store, g, base, |store.volumes|))
  {
    WillLandIsPass(store, g, base, |store.volumes|);
    PassWithinBudgetIff(store, g, base, WillLand(store, g, base, |store.volumes|));
  }

  /** A volume that does not land is left alone, and the others compact as if it
      were not there. */
  lemma NotCandidateNotLanding(store: Store, g: Gates, base: State, j: nat)
    requires SpareIsLast(store.volumes) && j < |store.volumes| && !Candidate(g, base, store.volumes[j])
    ensures !WillLand(store, g, base, |store.volumes|)[j]
    ensures forall n :: j < n <= |store.volumes| ==> !WillLand(store, g, base, n)[j]
  {
    forall n | j < n <= |store.volumes|
      ensures !WillLand(store, g, base, n)[j]
    {
      WillLandAt(store, g, base, n, j);
    }
  }

  /** A candidate that does not land changes nothing. */
  lemma NotLandingIsNothing(store: Store, g: Gates, base: State, cur: State, v: Volume)
    requires SpareIsLast(store.volumes) && Candidate(g, base, v) && !Lands(store, g, base, cur, v)
    ensures Compacted(store, base, cur, v.id) == cur
  {
  }

  lemma RunPassOnly(store: Store, g: Gates, st: State, v: Volume, n: nat)
    requires store.Valid() && SpareIsLast(store.volumes) && OnlyCandidate(store, g, st, v)
    requires n < |store.volumes| && store.volumes[n] == v
    ensures RunPass(store, g, st) == Compacted(store, st, st, v.id)
  {
    forall j | 0 <= j < |store.volumes| && j != n
      ensures !Candidate(g, st, store.volumes[j])
    {
      OnlyOneIndex(store, g, st, v, n, j);
    }
    forall j | 0 <= j < |store.volumes| && j != n
      ensures !WillLand(store, g, st, |store.volumes|)[j] && (j < n ==> !WillLand(store, g, st, n)[j])
    {
      NotCandidateNotLanding(store, g, st, j);
    }
    RunPassOfOne(store, g, st, n);
  }

  lemma RunPassOfOne(store: Store, g: Gates, st: State, n: nat)
    requires SpareIsLast(store.volumes) && n < |store.volumes| && Candidate(g, st, store.volumes[n])
    requires forall j :: 0 <= j < n ==> !WillLand(store, g, st, n)[j]
    requires forall j :: 0 <= j < |store.volumes| && j != n ==> !WillLand(store, g, st, |store.volumes|)[j]
    ensures RunPass(store, g, st) == Compacted(store, st, st, store.volumes[n].id)
  {
    var flags := WillLand(store, g, st, |store.volumes|);
    NoneAtAll(store, st, WillLand(store, g, st, n));
    WillLandAt(store, g, st, |store.volumes|, n);
    if flags[n] {
      OnlyOne(store, st, flags, n);
    } else {
      NoneAtAll(store, st, flags);
      NotLandingIsNothing(store, g, st, st, store.volumes[n]);
    }
  }

  /** Crash convergence: wherever a pass over one candidate was interrupted, it
      left either the old state or the finished one, and running the pass again
      gives the state of an uninterrupted run, placements included. */
  lemma InterruptedPassConverges(store: Store, g: Gates, st: State, disk: Disk, v: Volume, landed: seq<bool>)
    requires store.Valid() && SpareIsLast(store.volumes) && g.Valid()
    requires OnePlacement(st.ns) && DerivedExact(st.seg) && Accounted(st, disk)
    requires OnlyCandidate(store, g, st, v)
    requires IsPass(store, g, st, landed)
    ensures var left := PassState(store, st, landed);
      && (left == st || left == RunPass(store, g, st))
      && RunPass(store, g, left) == RunPass(store, g, st)
  {
    var left := PassState(store, st, landed);
    var n :| 0 <= n < |store.volumes| && store.volumes[n] == v;
    RunPassOnly(store, g, st, v, n);
    PassOfOne(store, g, st, v, n, landed);
    if left != st {
      FinishedPassRepeats(store, g, st, disk, v);
    }
  }

  /** Running a pass again after it has compacted the only candidate does nothing. */
  lemma FinishedPassRepeats(store: Store, g: Gates, st: State, disk: Disk, v: Volume)
    requires store.Valid() && SpareIsLast(store.volumes) && g.Valid()
    requires OnePlacement(st.ns) && DerivedExact(st.seg) && Accounted(st, disk)
    requires OnlyCandidate(store, g, st, v) && DestOf(store, st, v.id).Some?
    ensures var left := Compacted(store, st, st, v.id);
      RunPass(store, g, left) == left
  {
    var left := Compacted(store, st, st, v.id);
    forall j | 0 <= j < |store.volumes|
      ensures !Candidate(g, left, store.volumes[j])
    {
      NoCandidateAfter(store, g, st, disk, v, store.volumes[j]);
    }
    NoCandidatesNoPass(store, g, left);
  }

  lemma NoCandidatesNoPass(store: Store, g: Gates, st: State)
    requires SpareIsLast(store.volumes)
    requires forall j :: 0 <= j < |store.volumes| ==> !Candidate(g, st, store.volumes[j])
    ensures RunPass(store, g, st) == st
  {
    forall j | 0 <= j < |store.volumes|
      ensures !WillLand(store, g, st, |store.volumes|)[j]
    {
      NotCandidateNotLanding(store, g, st, j);
    }
    NoneAtAll(store, st, WillLand(store, g, st, |store.volumes|));
  }

  lemma {:induction false} PassOfOne(store: Store, g: Gates, st: State, v: Volume, n: nat, landed: seq<bool>)
    requires store.Valid() && SpareIsLast(store.volumes) && OnlyCandidate(store, g, st, v)
    requires n < |store.volumes| && store.volumes[n] == v && IsPass(store, g, st, landed)
    ensures PassState(store, st, landed) == st
         || (|landed| > n && PassState(store, st, landed) == Compacted(store, st, st, v.id))
    decreases |landed|
  {
    if landed == [] {
    } else {
      var i := |landed| - 1;
      PassOfOne(store, g, st, v, n, landed[..i]);
      if landed[i] && i != n {
        OnlyOneIndex(store, g, st, v, n, i);
      }
    }
  }
}
