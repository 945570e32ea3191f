/** Choosing volumes under the budget wall. */
module Placement {
  import opened Prelude
  import opened Manifests
  import opened Accounting
  import opened StoreInvariant
  import Chunker
  import Crypto

  /** Volume `i` takes ordinary data, is not the one to skip, and stays within its
      threshold after receiving `need` bytes. */
  ghost predicate Fits(vols: seq<Volume>, seg: SegIndex, need: nat, skip: Option<VolId>, i: nat)
    requires i < |vols|
  {
    !vols[i].spare && skip != Some(vols[i].id) && Total(seg, vols[i].id) + need <= vols[i].threshold
  }

  ghost function Headroom(vols: seq<Volume>, seg: SegIndex, i: nat): int
    requires i < |vols|
  {
    vols[i].threshold - Total(seg, vols[i].id)
  }

  /** Among the first `hi` volumes, `r` is the first one of maximal headroom that
      fits, or nothing when none fits. */
  ghost predicate IsBest(vols: seq<Volume>, seg: SegIndex, need: nat, skip: Option<VolId>, hi: nat, r: Option<nat>)
    requires hi <= |vols|
  {
    match r
    case None => forall j :: 0 <= j < hi ==> !Fits(vols, seg, need, skip, j)
    case Some(i) =>
      && i < hi && Fits(vols, seg, need, skip, i)
      && forall j :: 0 <= j < hi && Fits(vols, seg, need, skip, j) ==>
           && Headroom(vols, seg, j) <= Headroom(vols, seg, i)
           && (j < i ==> Headroom(vols, seg, j) < Headroom(vols, seg, i))
  }

  ghost function Best(vols: seq<Volume>, seg: SegIndex, need: nat, skip: Option<VolId>, hi: nat): (r: Option<nat>)
    requires hi <= |vols|
    ensures IsBest(vols, seg, need, skip, hi, r)
  {
    if hi == 0 then None
    else
      var r := Best(vols, seg, need, skip, hi - 1);
      if Fits(vols, seg, need, skip, hi - 1)
         && (r.None? || Headroom(vols, seg, hi - 1) > Headroom(vols, seg, r.value))
      then Some(hi - 1) else r
  }

  lemma BestUnique(vols: seq<Volume>, seg: SegIndex, need: nat, skip: Option<VolId>, hi: nat, r: Option<nat>)
    requires hi <= |vols| && IsBest(vols, seg, need, skip, hi, r)
    ensures r == Best(vols, seg, need, skip, hi)
  {
    var b := Best(vols, seg, need, skip, hi);
    assert r.Some? ==> Fits(vols, seg, need, skip, r.value);
    assert b.Some? ==> Fits(vols, seg, need, skip, b.value);
  }

  method BestFit(vols: seq<Volume>, seg: SegIndex, need: nat, skip: Option<VolId>) returns (r: Option<nat>)
    ensures IsBest(vols, seg, need, skip, |vols|, r)
  {
    r := None;
    var bestHeadroom := 0;
    for i := 0 to |vols|
      invariant IsBest(vols, seg, need, skip, i, r)
      invariant r.Some? ==> bestHeadroom == Headroom(vols, seg, r.value)
    {
      var v := vols[i];
      if v.spare || skip == Some(v.id) {
        continue;
      }
      var used := VolumeUsed(v.id, seg);
      if used + need > v.threshold {
        continue;
      }
      var headroom := v.threshold - used;
      if r.None? || headroom > bestHeadroom {
        r, bestHeadroom := Some(i), headroom;
      }
    }
  }

  /** The budget wall of a put: the first non-spare volume of maximal headroom
      that can take the new segment; refused exactly when there is none. */
  method SelectVolume(vols: seq<Volume>, projected: nat, seg: SegIndex) returns (r: Option<nat>)
    ensures r == Best(vols, seg, projected, None, |vols|)
    ensures r.None? <==> forall j :: 0 <= j < |vols| ==>
      vols[j].spare || Total(seg, vols[j].id) + projected > vols[j].threshold
    ensures r.Some? ==> r.value < |vols| && IsRoomiest(vols, seg, projected, r.value)
  {
    r := BestFit(vols, seg, projected, None);
    BestUnique(vols, seg, projected, None, |vols|, r);
    BestIsRoomiest(vols, seg, projected, r);
  }

  /** Volume `i` takes ordinary data and can hold `need` bytes more; of all volumes
      of which that is true it has the most free bytes, and is the first with that
      many. */
  ghost predicate IsRoomiest(vols: seq<Volume>, seg: SegIndex, need: nat, i: nat)
    requires i < |vols|
  {
    && !vols[i].spare && Total(seg, vols[i].id) + need <= vols[i].threshold
    && forall j :: 0 <= j < |vols| && !vols[j].spare && Total(seg, vols[j].id) + need <= vols[j].threshold ==>
         && vols[j].threshold - Total(seg, vols[j].id) <= vols[i].threshold - Total(seg, vols[i].id)
         && (j < i ==> vols[j].threshold - Total(seg, vols[j].id) < vols[i].threshold - Total(seg, vols[i].id))
  }

  lemma BestIsRoomiest(vols: seq<Volume>, seg: SegIndex, need: nat, r: Option<nat>)
    requires r == Best(vols, seg, need, None, |vols|)
    ensures r.Some? ==> IsRoomiest(vols, seg, need, r.value)
    ensures r.None? <==> forall j :: 0 <= j < |vols| ==> vols[j].spare || Total(seg, vols[j].id) + need > vols[j].threshold
  {
    assert forall j :: 0 <= j < |vols| ==>
      (Fits(vols, seg, need, None, j) <==> !(vols[j].spare || Total(seg, vols[j].id) + need > vols[j].threshold));
  }

  predicate SpareIsLast(vols: seq<Volume>) {
    forall i :: 0 <= i < |vols| - 1 ==> !vols[i].spare
  }

  /** A store opened from distinct declarations is valid, and its spare, if any, is
      its last volume: there is one exactly when at least three are declared. */
  lemma OpenedStoreIsValid(keys: Crypto.Keys, cdc: Chunker.FastCdc, declared: seq<(VolId, nat)>, interval: nat)
    requires keys.Valid() && cdc.Valid() && interval >= 1
    requires forall i, j :: 0 <= i < j < |declared| ==> declared[i].0 != declared[j].0
    ensures var store := OpenStore(keys, cdc, declared, interval);
      && store.Valid() && SpareIsLast(store.volumes)
      && ((exists v :: v in store.volumes && v.spare) <==> |declared| >= 3)
      && |store.volumes| == |declared|
      && forall i :: 0 <= i < |declared| ==> (store.volumes[i].id, store.volumes[i].threshold) == declared[i]
  {
    var store := OpenStore(keys, cdc, declared, interval);
    if |declared| >= SPARE_SLOT_MIN_VOLUMES {
      assert store.volumes[|declared| - 1].spare;
    }
  }

  ghost predicate CanHold(vols: seq<Volume>, seg: SegIndex, need: nat, i: nat)
    requires i < |vols|
  {
    Total(seg, vols[i].id) + need <= vols[i].threshold
  }

  lemma NoBestMeansNoRoom(vols: seq<Volume>, retiring: VolId, live: nat, seg: SegIndex)
    ensures Best(vols, seg, live, Some(retiring), |vols|).None? ==>
      forall j :: 0 <= j < |vols| && vols[j].id != retiring && !vols[j].spare ==> !CanHold(vols, seg, live, j)
  {
    if Best(vols, seg, live, Some(retiring), |vols|).None? {
      forall j | 0 <= j < |vols| && vols[j].id != retiring && !vols[j].spare
        ensures !CanHold(vols, seg, live, j)
      {
        assert !Fits(vols, seg, live, Some(retiring), j);
      }
    }
  }

  lemma BestHasMostRoom(vols: seq<Volume>, retiring: VolId, live: nat, seg: SegIndex)
    ensures var r := Best(vols, seg, live, Some(retiring), |vols|);
      r.Some? ==> forall j :: 0 <= j < |vols| && !vols[j].spare && vols[j].id != retiring && CanHold(vols, seg, live, j) ==>
        && vols[j].threshold - Total(seg, vols[j].id) <= vols[r.value].threshold - Total(seg, vols[r.value].id)
        && (j < r.value ==> vols[j].threshold - Total(seg, vols[j].id) < vols[r.value].threshold - Total(seg, vols[r.value].id))
  {
    var r := Best(vols, seg, live, Some(retiring), |vols|);
    forall j | r.Some? && 0 <= j < |vols| && !vols[j].spare && vols[j].id != retiring && CanHold(vols, seg, live, j)
      ensures vols[j].threshold - Total(seg, vols[j].id) <= vols[r.value].threshold - Total(seg, vols[r.value].id)
      ensures j < r.value ==> vols[j].threshold - Total(seg, vols[j].id) < vols[r.value].threshold - Total(seg, vols[r.value].id)
    {
      assert Fits(vols, seg, live, Some(retiring), j);
    }
  }

  /** Where the live bytes of a retiring volume go: the spare when it has room,
      otherwise the roomiest other volume. */
  ghost function ChooseDest(vols: seq<Volume>, retiring: VolId, live: nat, seg: SegIndex): (r: Option<nat>)
    requires SpareIsLast(vols)
    ensures r.Some? ==> r.value < |vols| && vols[r.value].id != retiring && CanHold(vols, seg, live, r.value)
    ensures r.None? ==> forall j :: 0 <= j < |vols| && vols[j].id != retiring ==> !CanHold(vols, seg, live, j)
  {
    var last := |vols| - 1;
    if |vols| > 0 && vols[last].spare && vols[last].id != retiring && CanHold(vols, seg, live, last) then Some(last)
    else
      var r := Best(vols, seg, live, Some(retiring), |vols|);
      NoBestMeansNoRoom(vols, retiring, live, seg);
      r
  }

  ghost predicate HasRoom(vols: seq<Volume>, retiring: VolId, live: nat, seg: SegIndex, j: nat)
    requires j < |vols|
  {
    vols[j].id != retiring && Total(seg, vols[j].id) + live <= vols[j].threshold
  }

  /** The spare goes first if it has room; failing that, the other volume with the most
      free bytes, the first of those with as many. */
  lemma SpareThenRoomiest(vols: seq<Volume>, retiring: VolId, live: nat, seg: SegIndex)
    requires SpareIsLast(vols)
    ensures var r := ChooseDest(vols, retiring, live, seg);
      && (forall j :: 0 <= j < |vols| && vols[j].spare && HasRoom(vols, retiring, live, seg, j) ==> r == Some(j))
      && (r.Some? && !vols[r.value].spare ==>
            forall j :: 0 <= j < |vols| && !vols[j].spare && HasRoom(vols, retiring, live, seg, j) ==>
              && vols[j].threshold - Total(seg, vols[j].id) <= vols[r.value].threshold - Total(seg, vols[r.value].id)
              && (j < r.value ==> vols[j].threshold - Total(seg, vols[j].id) < vols[r.value].threshold - Total(seg, vols[r.value].id)))
  {
    BestHasMostRoom(vols, retiring, live, seg);
    assert forall j :: 0 <= j < |vols| ==>
      (HasRoom(vols, retiring, live, seg, j) <==> vols[j].id != retiring && CanHold(vols, seg, live, j));
  }

  method SelectCompactDest(vols: seq<Volume>, retiring: VolId, live: nat, seg: SegIndex) returns (r: Option<nat>)
    requires SpareIsLast(vols)
    ensures r == ChooseDest(vols, retiring, live, seg)
  {
    var i := 0;
    while i < |vols| && !(vols[i].spare && vols[i].id != retiring)
      invariant 0 <= i <= |vols|
      invariant forall j :: 0 <= j < i ==> !(vols[j].spare && vols[j].id != retiring)
    {
      i := i + 1;
    }
    if i < |vols| {
      var used := VolumeUsed(vols[i].id, seg);
      if used + live <= vols[i].threshold {
        return Some(i);
      }
    }
    r := BestFit(vols, seg, live, Some(retiring));
    BestUnique(vols, seg, live, Some(retiring), |vols|, r);
  }
}
