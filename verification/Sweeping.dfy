/** What deleting segment refs, by a sweep or by wiping a volume, leaves behind. */
module Sweeping {
  import opened Prelude
  import opened Manifests
  import opened Log
  import opened Accounting
  import opened StoreInvariant
  import Protocol

  /** The sweep's keep rule. */
  predicate SweepKeeps(disk: Disk, referenced: set<SegKey>, window: int, now: int, key: SegKey)
    requires key in disk
  {
    key in referenced || now - disk[key].time < window
  }

  ghost function AfterSweep(disk: Disk, ns: Namespace, window: int, now: int): Disk {
    map key | key in disk && SweepKeeps(disk, Protocol.Keys(Refs(ns)), window, now, key) :: disk[key]
  }

  /** The first `i` volumes are swept, except for the refs still in `todo`. */
  ghost function SweptUpTo(store: Store, disk: Disk, referenced: set<SegKey>, window: int, now: int, i: nat, todo: set<SegKey>): Disk
    requires i <= |store.volumes|
  {
    map key | key in disk
      && (key in todo || SweepKeeps(disk, referenced, window, now, key) || forall j :: 0 <= j < i ==> store.volumes[j].id != key.vol)
      :: disk[key]
  }

  lemma SweepStart(store: Store, disk: Disk, referenced: set<SegKey>, window: int, now: int, i: nat, todo: set<SegKey>)
    requires store.Valid() && i < |store.volumes|
    requires var refs := SweptUpTo(store, disk, referenced, window, now, i, {});
      todo == set key | key in refs && key.vol == store.volumes[i].id
    ensures SweptUpTo(store, disk, referenced, window, now, i, {}) == SweptUpTo(store, disk, referenced, window, now, i + 1, todo)
    ensures todo <= set key | key in disk && key.vol == store.volumes[i].id
  {
  }

  lemma SweepNext(store: Store, disk: Disk, referenced: set<SegKey>, window: int, now: int, i: nat, todo: set<SegKey>, key: SegKey)
    requires store.Valid() && i < |store.volumes| && key in todo && key in disk && key.vol == store.volumes[i].id
    ensures var before := SweptUpTo(store, disk, referenced, window, now, i + 1, todo);
      var after := SweptUpTo(store, disk, referenced, window, now, i + 1, todo - {key});
      && key in before && before[key] == disk[key]
      && after == if SweepKeeps(disk, referenced, window, now, key) then before else before - {key}
  {
  }

  /** A sweep that stopped early has deleted only what a finished one deletes. */
  ghost predicate PartlySwept(disk: Disk, left: Disk, ns: Namespace, window: int, now: int) {
    && (forall key :: key in left ==> key in disk && left[key] == disk[key])
    && forall key :: key in AfterSweep(disk, ns, window, now) ==> key in left
  }

  lemma SweepStopped(store: Store, st: State, disk: Disk, issued: nat, window: int, now: int, i: nat, todo: set<SegKey>)
    requires store.Valid() && Consistent(store, st, disk, issued) && i <= |store.volumes|
    ensures var left := SweptUpTo(store, disk, Protocol.Keys(Refs(st.ns)), window, now, i, todo);
      PartlySwept(disk, left, st.ns, window, now) && Consistent(store, st, left, issued)
  {
    var left := SweptUpTo(store, disk, Protocol.Keys(Refs(st.ns)), window, now, i, todo);
    forall c | c in Refs(st.ns) && c.Key() in disk
      ensures c.Key() in left
    {
      assert c.Key() in Protocol.Keys(Refs(st.ns));
    }
    WipeKeeps(store, st, disk, left, issued);
  }

  lemma SweepDone(store: Store, st: State, disk: Disk, issued: nat, window: int, now: int)
    requires store.Valid() && Consistent(store, st, disk, issued)
    ensures SweptUpTo(store, disk, Protocol.Keys(Refs(st.ns)), window, now, |store.volumes|, {}) == AfterSweep(disk, st.ns, window, now)
    ensures Consistent(store, st, AfterSweep(disk, st.ns, window, now), issued)
  {
    forall key | key in disk
      ensures !(forall j :: 0 <= j < |store.volumes| ==> store.volumes[j].id != key.vol)
    {
      assert InFleet(store, key, issued);
    }
    forall c | c in Refs(st.ns) && c.Key() in disk
      ensures c.Key() in AfterSweep(disk, st.ns, window, now)
    {
      assert c.Key() in Protocol.Keys(Refs(st.ns));
    }
    WipeKeeps(store, st, disk, AfterSweep(disk, st.ns, window, now), issued);
  }

  /** Volume `v` is wiped except for the refs still in `todo`. */
  ghost function Spared(disk: Disk, v: VolId, todo: set<SegKey>): Disk {
    map key | key in disk && (key.vol != v || key in todo) :: disk[key]
  }

  lemma WipeVolumeKeeps(store: Store, st: State, disk: Disk, issued: nat, v: VolId, todo: set<SegKey>)
    requires store.Valid() && Consistent(store, st, disk, issued) && IdsOn(st.ns, v) == {}
    ensures Consistent(store, st, Spared(disk, v, todo), issued)
    ensures Spared(disk, v, {}) == WithoutVolume(disk, v)
  {
    forall c | c in Refs(st.ns)
      ensures c.vol != v
    {
      assert c.vol == v ==> c.id in IdsOn(st.ns, v);
    }
    WipeKeeps(store, st, disk, Spared(disk, v, todo), issued);
  }

  /** Sweep completeness: with no window and no segment from the future, exactly
      the referenced segments are left. */
  lemma ZeroWindowLeavesReferenced(disk: Disk, ns: Namespace, now: int)
    requires AllResolve(disk, Refs(ns))
    requires forall key :: key in disk ==> disk[key].time <= now
    ensures AfterSweep(disk, ns, 0, now).Keys == Protocol.Keys(Refs(ns))
  {
    forall key | key in Protocol.Keys(Refs(ns))
      ensures key in AfterSweep(disk, ns, 0, now)
    {
      var c :| c in Refs(ns) && c.Key() == key;
      assert Resolves(disk, c);
    }
  }
}
