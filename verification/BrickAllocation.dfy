/**
 Choosing a device for every brick: a first pass over unused devices and a second pass over all of
 them, one zone at most once. Only the set of used zones carries over from brick to brick: the
 planner's updates of a device's free space and used mark are made on a copy.
 */
module BrickAllocation {
  import opened Wrappers

  datatype Vg = Vg(zone: string, available: nat, used: bool)

  /** The state while a subvolume is planned: zones taken, the device of each brick, and how many
      assignments were made. */
  datatype Alloc = Alloc(zones: set<string>, placed: seq<Option<nat>>, count: nat)

  predicate Fits(vg: Vg, size: nat, zones: set<string>, freshOnly: bool) {
    vg.available >= size && vg.zone !in zones && (freshOnly ==> !vg.used)
  }

  /** The first device that fits. */
  function FirstFit(vgs: seq<Vg>, size: nat, zones: set<string>, freshOnly: bool): (r: Option<nat>)
    ensures r.Some? ==> r.value < |vgs| && Fits(vgs[r.value], size, zones, freshOnly)
    ensures r.Some? ==> forall v :: 0 <= v < r.value ==> !Fits(vgs[v], size, zones, freshOnly)
    ensures r.None? ==> forall v :: 0 <= v < |vgs| ==> !Fits(vgs[v], size, zones, freshOnly)
  {
    if vgs == [] then None
    else
      var r := FirstFit(vgs[..|vgs| - 1], size, zones, freshOnly);
      if r.Some? then r
      else if Fits(vgs[|vgs| - 1], size, zones, freshOnly) then Some(|vgs| - 1) else None
  }

  /** Assign brick k, if a device fits. */
  function Place(vgs: seq<Vg>, size: nat, freshOnly: bool, k: nat, a: Alloc): Alloc
    requires k < |a.placed|
  {
    var v := FirstFit(vgs, size, a.zones, freshOnly);
    if v.None? then a
    else Alloc(a.zones + {vgs[v.value].zone}, a.placed[k := v], a.count + 1)
  }

  /** Bricks from..to-1 in order. */
  function Pass(vgs: seq<Vg>, sizes: seq<nat>, freshOnly: bool, from: nat, to: nat, a: Alloc): (r: Alloc)
    requires from <= to <= |sizes| == |a.placed|
    ensures |r.placed| == |sizes| && a.count <= r.count <= a.count + (to - from)
    decreases (to)
  {
    if from == to then a
    else Place(vgs, sizes[to - 1], freshOnly, to - 1, Pass(vgs, sizes, freshOnly, from, to - 1, a))
  }

  function Blank(zones: set<string>, n: nat): Alloc {
    Alloc(zones, seq(n, _ => None), 0)
  }

  /** Both passes over one subvolume. The second starts at the number of bricks placed so far. */
  function TwoPasses(vgs: seq<Vg>, sizes: seq<nat>, zones: set<string>): (r: Alloc)
    ensures |r.placed| == |sizes| && r.count <= |sizes|
  {
    var a := Pass(vgs, sizes, true, 0, |sizes|, Blank(zones, |sizes|));
    if a.count == |sizes| then a else Pass(vgs, sizes, false, a.count, |sizes|, a)
  }

  predicate Succeeds(vgs: seq<Vg>, sizes: seq<nat>, zones: set<string>) {
    TwoPasses(vgs, sizes, zones).count == |sizes|
  }

  /** The whole plan: the zones left over and the devices chosen, subvolume by subvolume, or nothing
      when some subvolume fails. */
  function Plan(vgs: seq<Vg>, subvols: seq<seq<nat>>, overlap: bool): (r: Option<(set<string>, seq<seq<Option<nat>>>)>)
    ensures r.Some? ==> |r.value.1| == |subvols|
  {
    if subvols == [] then Some(({}, []))
    else
      var n := |subvols| - 1;
      var before := Plan(vgs, subvols[..n], overlap);
      if before.None? then None
      else
        var zones := if overlap then {} else before.value.0;
        if Succeeds(vgs, subvols[n], zones)
        then var a := TwoPasses(vgs, subvols[n], zones); Some((a.zones, before.value.1 + [a.placed]))
        else None
  }

  // ---------------------------------------------------------------- the planner's loops

  method FindVg(vgs: seq<Vg>, size: nat, zones: set<string>, freshOnly: bool) returns (r: Option<nat>)
    ensures r == FirstFit(vgs, size, zones, freshOnly)
  {
    for v := 0 to |vgs|
      invariant forall u :: 0 <= u < v ==> !Fits(vgs[u], size, zones, freshOnly)
    {
      var vg := vgs[v];
      if vg.available >= size && vg.zone !in zones && (!freshOnly || !vg.used) {
        return Some(v);
      }
    }
    return None;
  }

  method RunPass(vgs: seq<Vg>, sizes: seq<nat>, freshOnly: bool, from: nat, a: Alloc) returns (r: Alloc)
    requires from <= |sizes| == |a.placed|
    ensures r == Pass(vgs, sizes, freshOnly, from, |sizes|, a)
  {
    var zones, placed, count := a.zones, a.placed, a.count;
    for k := from to |sizes|
      invariant |placed| == |sizes|
      invariant Alloc(zones, placed, count) == Pass(vgs, sizes, freshOnly, from, k, a)
    {
      var v := FindVg(vgs, sizes[k], zones, freshOnly);
      if v.Some? {
        placed := placed[k := v];
        zones := zones + {vgs[v.value].zone};
        count := count + 1;
      }
    }
    r := Alloc(zones, placed, count);
  }

  method PlanSubvol(vgs: seq<Vg>, sizes: seq<nat>, zones: set<string>) returns (a: Alloc)
    ensures a == TwoPasses(vgs, sizes, zones)
  {
    var blank := Alloc(zones, seq(|sizes|, _ => None), 0);
    assert blank == Blank(zones, |sizes|);
    a := RunPass(vgs, sizes, true, 0, blank);
    if |sizes| == a.count {
      return;
    }
    a := RunPass(vgs, sizes, false, a.count, a);
  }

  lemma PlanNext(vgs: seq<Vg>, subvols: seq<seq<nat>>, overlap: bool, k: nat, zones: set<string>, plans: seq<seq<Option<nat>>>)
    requires k < |subvols| && Plan(vgs, subvols[..k], overlap) == Some((zones, plans))
    ensures var a := TwoPasses(vgs, subvols[k], if overlap then {} else zones);
            Plan(vgs, subvols[..k + 1], overlap) ==
            if a.count == |subvols[k]| then Some((a.zones, plans + [a.placed])) else None
  {
    hide TwoPasses;
    assert subvols[..k + 1][..k] == subvols[..k];
  }

  /** PlanBricks on the sizes of the bricks of each subvolume. */
  method PlanBricks(vgs: seq<Vg>, subvols: seq<seq<nat>>, overlap: bool) returns (r: Option<seq<seq<Option<nat>>>>)
    ensures r.Some? <==> vgs != [] && Plan(vgs, subvols, overlap).Some?
    ensures r.Some? ==> r.value == Plan(vgs, subvols, overlap).value.1
  {
    if |vgs| == 0 {
      return None;
    }
    var zones := {};
    var plans: seq<seq<Option<nat>>> := [];
    assert Plan(vgs, subvols[..0], overlap) == Some((zones, plans));
    hide TwoPasses, Plan;
    for idx := 0 to |subvols|
      invariant Plan(vgs, subvols[..idx], overlap) == Some((zones, plans))
    {
      PlanNext(vgs, subvols, overlap, idx, zones, plans);
      if overlap {
        zones := {};
      }
      var a := PlanSubvol(vgs, subvols[idx], zones);
      if |subvols[idx]| != a.count {
        FailureSticks(vgs, subvols, overlap, idx + 1);
        return None;
      }
      zones := a.zones;
      plans := plans + [a.placed];
    }
    assert subvols[..|subvols|] == subvols;
    r := Some(plans);
  }

  lemma {:induction false} FailureSticks(vgs: seq<Vg>, subvols: seq<seq<nat>>, overlap: bool, k: nat)
    requires k <= |subvols| && Plan(vgs, subvols[..k], overlap).None?
    ensures Plan(vgs, subvols, overlap).None?
    decreases |subvols| - k
  {
    if k < |subvols| {
      assert subvols[..k + 1][..k] == subvols[..k];
      FailureSticks(vgs, subvols, overlap, k + 1);
    } else {
      assert subvols[..k] == subvols;
    }
  }

  // ---------------------------------------------------------------- what is placed is sound

  /** Every assigned brick lies on a device big enough for it, in a taken zone, and no two share a
      zone. */
  ghost predicate Sound(vgs: seq<Vg>, sizes: seq<nat>, start: set<string>, a: Alloc) {
    && |a.placed| == |sizes| && start <= a.zones
    && (forall k :: 0 <= k < |sizes| && a.placed[k].Some? ==>
          var v := a.placed[k].value;
          v < |vgs| && vgs[v].available >= sizes[k] && vgs[v].zone in a.zones && vgs[v].zone !in start)
    && (forall j, k :: 0 <= j < k < |sizes| && a.placed[j].Some? && a.placed[k].Some? ==>
          a.placed[j].value < |vgs| && a.placed[k].value < |vgs|
          && vgs[a.placed[j].value].zone != vgs[a.placed[k].value].zone)
  }

  lemma PlaceSound(vgs: seq<Vg>, sizes: seq<nat>, start: set<string>, freshOnly: bool, k: nat, a: Alloc)
    requires k < |sizes| && Sound(vgs, sizes, start, a)
    ensures Sound(vgs, sizes, start, Place(vgs, sizes[k], freshOnly, k, a))
  {
  }

  lemma PassLast(vgs: seq<Vg>, sizes: seq<nat>, freshOnly: bool, from: nat, to: nat, a: Alloc)
    requires from < to <= |sizes| == |a.placed|
    ensures Pass(vgs, sizes, freshOnly, from, to, a)
            == Place(vgs, sizes[to - 1], freshOnly, to - 1, Pass(vgs, sizes, freshOnly, from, to - 1, a))
  {
  }

  lemma {:induction false} PassSound(vgs: seq<Vg>, sizes: seq<nat>, start: set<string>, freshOnly: bool, from: nat, to: nat, a: Alloc)
    requires from <= to <= |sizes| == |a.placed| && Sound(vgs, sizes, start, a)
    ensures Sound(vgs, sizes, start, Pass(vgs, sizes, freshOnly, from, to, a))
    decreases (to)
  {
    if from < to {
      PassLast(vgs, sizes, freshOnly, from, to, a);
      hide *;
      PassSound(vgs, sizes, start, freshOnly, from, to - 1, a);
      PlaceSound(vgs, sizes, start, freshOnly, to - 1, Pass(vgs, sizes, freshOnly, from, to - 1, a));
    }
  }

  lemma TwoPassesSound(vgs: seq<Vg>, sizes: seq<nat>, zones: set<string>)
    ensures Sound(vgs, sizes, zones, TwoPasses(vgs, sizes, zones))
  {
    var blank := Blank(zones, |sizes|);
    PassSound(vgs, sizes, zones, true, 0, |sizes|, blank);
    var a := Pass(vgs, sizes, true, 0, |sizes|, blank);
    PassSound(vgs, sizes, zones, false, a.count, |sizes|, a);
  }

  predicate Assigned(subvols: seq<seq<nat>>, plans: seq<seq<Option<nat>>>, i: nat, k: nat) {
    i < |plans| == |subvols| && k < |plans[i]| == |subvols[i]| && plans[i][k].Some?
  }

  ghost predicate PlanSound(vgs: seq<Vg>, subvols: seq<seq<nat>>, zones: set<string>, plans: seq<seq<Option<nat>>>) {
    && |plans| == |subvols| && (forall i :: 0 <= i < |plans| ==> |plans[i]| == |subvols[i]|)
    && (forall i: nat, k: nat :: Assigned(subvols, plans, i, k) ==>
          var v := plans[i][k].value; v < |vgs| && vgs[v].available >= subvols[i][k] && vgs[v].zone in zones)
    && (forall i: nat, k: nat, j: nat, l: nat ::
          Assigned(subvols, plans, i, k) && Assigned(subvols, plans, j, l) && (i != j || k != l) ==>
            vgs[plans[i][k].value].zone != vgs[plans[j][l].value].zone)
  }

  /** Without zone overlap a whole plan never uses a zone, and so a device, twice, and every brick
      fits on its device. */
  lemma {:induction false} PlanUsesZonesOnce(vgs: seq<Vg>, subvols: seq<seq<nat>>)
    requires Plan(vgs, subvols, false).Some?
    ensures PlanSound(vgs, subvols, Plan(vgs, subvols, false).value.0, Plan(vgs, subvols, false).value.1)
  {
    if subvols != [] {
      var n := |subvols| - 1;
      PlanUsesZonesOnce(vgs, subvols[..n]);
      var before := Plan(vgs, subvols[..n], false).value;
      var a := TwoPasses(vgs, subvols[n], before.0);
      TwoPassesSound(vgs, subvols[n], before.0);
      PlanSoundNext(vgs, subvols, before.0, before.1, a);
    }
  }

  /** One more subvolume planned in zones that were free. */
  lemma PlanSoundNext(vgs: seq<Vg>, subvols: seq<seq<nat>>, zones: set<string>, before: seq<seq<Option<nat>>>, a: Alloc)
    requires subvols != [] && PlanSound(vgs, subvols[..|subvols| - 1], zones, before)
    requires Sound(vgs, subvols[|subvols| - 1], zones, a)
    ensures PlanSound(vgs, subvols, a.zones, before + [a.placed])
  {
    var n, plans := |subvols| - 1, before + [a.placed];
    forall i: nat, k: nat | Assigned(subvols, plans, i, k)
      ensures if i < n then Assigned(subvols[..n], before, i, k) && plans[i] == before[i]
              else i == n && plans[i] == a.placed
    {
    }
  }

  // ---------------------------------------------------------------- when a plan exists

  /** The zones that have a device with room for z. */
  ghost function Eligible(vgs: seq<Vg>, z: nat): set<string> {
    set v | 0 <= v < |vgs| && vgs[v].available >= z :: vgs[v].zone
  }

  function Total(subvols: seq<seq<nat>>): nat {
    if subvols == [] then 0 else Total(subvols[..|subvols| - 1]) + |subvols[|subvols| - 1]|
  }

  lemma {:induction false} TotalOfEqual(sizes: seq<seq<nat>>, k: nat)
    requires forall i :: 0 <= i < |sizes| ==> |sizes[i]| == k
    ensures Total(sizes) == |sizes| * k
  {
    if sizes != [] {
      TotalOfEqual(sizes[..|sizes| - 1], k);
      assert |sizes| * k == (|sizes| - 1) * k + k;
    }
  }

  ghost predicate AllOf(sizes: seq<nat>, z: nat) {
    forall k :: 0 <= k < |sizes| ==> sizes[k] == z
  }

  /** The eligible zones not yet taken. */
  ghost function Left(vgs: seq<Vg>, z: nat, a: Alloc): set<string> {
    Eligible(vgs, z) - a.zones
  }

  /** Each assignment uses up one eligible zone, and over all devices it happens while one is left. */
  lemma PlaceUsesZone(vgs: seq<Vg>, z: nat, freshOnly: bool, k: nat, a: Alloc)
    requires k < |a.placed|
    ensures var b := Place(vgs, z, freshOnly, k, a);
            && b.count + |Left(vgs, z, b)| == a.count + |Left(vgs, z, a)|
            && (!freshOnly && Left(vgs, z, a) != {} ==> b.count == a.count + 1)
            && (Left(vgs, z, a) == {} ==> b == a)
  {
    var e := Eligible(vgs, z);
    var v := FirstFit(vgs, z, a.zones, freshOnly);
    if v.Some? {
      var zone := vgs[v.value].zone;
      assert zone in e - a.zones;
      assert e - (a.zones + {zone}) == e - a.zones - {zone};
    }
  }

  lemma {:induction false} PassUsesZones(vgs: seq<Vg>, sizes: seq<nat>, z: nat, freshOnly: bool, from: nat, to: nat, a: Alloc)
    requires from <= to <= |sizes| == |a.placed| && AllOf(sizes, z)
    ensures var b := Pass(vgs, sizes, freshOnly, from, to, a);
            && b.count + |Left(vgs, z, b)| == a.count + |Left(vgs, z, a)|
            && (!freshOnly ==> b.count == a.count + (to - from) || Left(vgs, z, b) == {})
    decreases (to)
  {
    hide *;
    if from == to {
      PassNone(vgs, sizes, freshOnly, to, a);
    } else {
      PassUsesZones(vgs, sizes, z, freshOnly, from, to - 1, a);
      PlaceUsesZone(vgs, z, freshOnly, to - 1, Pass(vgs, sizes, freshOnly, from, to - 1, a));
      PassLastOf(vgs, sizes, z, freshOnly, from, to, a);
    }
  }

  lemma PassNone(vgs: seq<Vg>, sizes: seq<nat>, freshOnly: bool, to: nat, a: Alloc)
    requires to <= |sizes| == |a.placed|
    ensures Pass(vgs, sizes, freshOnly, to, to, a) == a
  {
  }

  lemma PassLastOf(vgs: seq<Vg>, sizes: seq<nat>, z: nat, freshOnly: bool, from: nat, to: nat, a: Alloc)
    requires from < to <= |sizes| == |a.placed| && AllOf(sizes, z)
    ensures Pass(vgs, sizes, freshOnly, from, to, a)
            == Place(vgs, z, freshOnly, to - 1, Pass(vgs, sizes, freshOnly, from, to - 1, a))
  {
  }

  /** One subvolume of equal bricks succeeds exactly when that many eligible zones are left. */
  lemma SubvolSucceedsExactly(vgs: seq<Vg>, sizes: seq<nat>, z: nat, zones: set<string>)
    requires AllOf(sizes, z)
    ensures Succeeds(vgs, sizes, zones) <==> |Eligible(vgs, z) - zones| >= |sizes|
    ensures var b := TwoPasses(vgs, sizes, zones); b.count + |Eligible(vgs, z) - b.zones| == |Eligible(vgs, z) - zones|
  {
    var blank := Blank(zones, |sizes|);
    var a := Pass(vgs, sizes, true, 0, |sizes|, blank);
    PassUsesZones(vgs, sizes, z, true, 0, |sizes|, blank);
    PassUsesZones(vgs, sizes, z, false, a.count, |sizes|, a);
  }

  /** With zone overlap off and one size for all bricks, the greedy planner succeeds exactly when
      there are as many zones with a big enough device as there are bricks. */
  lemma {:induction false} PlanExistsExactly(vgs: seq<Vg>, subvols: seq<seq<nat>>, z: nat)
    requires forall i :: 0 <= i < |subvols| ==> AllOf(subvols[i], z)
    ensures Plan(vgs, subvols, false).Some? <==> |Eligible(vgs, z)| >= Total(subvols)
    ensures Plan(vgs, subvols, false).Some? ==>
              |Eligible(vgs, z) - Plan(vgs, subvols, false).value.0| == |Eligible(vgs, z)| - Total(subvols)
  {
    var e := Eligible(vgs, z);
    if subvols == [] {
      assert e - {} == e;
    } else {
      var n := |subvols| - 1;
      PlanExistsExactly(vgs, subvols[..n], z);
      var before := Plan(vgs, subvols[..n], false);
      if before.Some? {
        SubvolSucceedsExactly(vgs, subvols[n], z, before.value.0);
      }
    }
  }

  // ---------------------------------------------------------------- bricks of different sizes

  function Largest(sizes: seq<nat>): (r: nat)
    ensures forall k :: 0 <= k < |sizes| ==> sizes[k] <= r
  {
    if sizes == [] then 0
    else
      var r := Largest(sizes[..|sizes| - 1]);
      if sizes[|sizes| - 1] > r then sizes[|sizes| - 1] else r
  }

  /** A brick no bigger than z uses up one zone with room for z at most, and finds one if there is any. */
  lemma PlaceLeaves(vgs: seq<Vg>, size: nat, z: nat, freshOnly: bool, k: nat, a: Alloc)
    requires k < |a.placed| && size <= z
    ensures var b := Place(vgs, size, freshOnly, k, a);
            && b.count + |Left(vgs, z, b)| >= a.count + |Left(vgs, z, a)|
            && (!freshOnly && Left(vgs, z, a) != {} ==> b.count == a.count + 1)
  {
    var e := Eligible(vgs, z);
    var v := FirstFit(vgs, size, a.zones, freshOnly);
    if v.Some? {
      var zone := vgs[v.value].zone;
      assert e - (a.zones + {zone}) == e - a.zones - {zone};
    } else if !freshOnly {
      assert e - a.zones == {};
    }
  }

  lemma {:induction false} PassLeaves(vgs: seq<Vg>, sizes: seq<nat>, z: nat, freshOnly: bool, from: nat, to: nat, a: Alloc)
    requires from <= to <= |sizes| == |a.placed| && forall k :: 0 <= k < |sizes| ==> sizes[k] <= z
    ensures var b := Pass(vgs, sizes, freshOnly, from, to, a);
            && b.count + |Left(vgs, z, b)| >= a.count + |Left(vgs, z, a)|
            && (!freshOnly && |Left(vgs, z, a)| >= to - from ==> b.count == a.count + (to - from))
    decreases (to)
  {
    hide Pass, Place, Left;
    if from == to {
      PassNone(vgs, sizes, freshOnly, to, a);
    } else {
      var p := Pass(vgs, sizes, freshOnly, from, to - 1, a);
      PassLeaves(vgs, sizes, z, freshOnly, from, to - 1, a);
      PassLast(vgs, sizes, freshOnly, from, to, a);
      PlaceLeaves(vgs, sizes[to - 1], z, freshOnly, to - 1, p);
    }
  }

  /** Whatever the sizes, a subvolume is placed when as many zones as it has bricks are free and have a
      device with room for the largest. */
  lemma EnoughZonesSucceed(vgs: seq<Vg>, sizes: seq<nat>, z: nat, zones: set<string>)
    requires (forall k :: 0 <= k < |sizes| ==> sizes[k] <= z) && |Eligible(vgs, z) - zones| >= |sizes|
    ensures Succeeds(vgs, sizes, zones)
    ensures |Eligible(vgs, z) - TwoPasses(vgs, sizes, zones).zones| >= |Eligible(vgs, z) - zones| - |sizes|
  {
    var blank := Blank(zones, |sizes|);
    var a := Pass(vgs, sizes, true, 0, |sizes|, blank);
    PassLeaves(vgs, sizes, z, true, 0, |sizes|, blank);
    PassLeaves(vgs, sizes, z, false, a.count, |sizes|, a);
    hide Pass, Eligible;
  }

  ghost predicate AtMost(subvols: seq<seq<nat>>, z: nat) {
    forall i, k :: 0 <= i < |subvols| && 0 <= k < |subvols[i]| ==> subvols[i][k] <= z
  }

  /** Without zone overlap as many such zones as there are bricks, with it as many as a subvolume has. */
  ghost predicate EnoughZones(vgs: seq<Vg>, subvols: seq<seq<nat>>, z: nat, overlap: bool) {
    && AtMost(subvols, z)
    && if overlap then forall i :: 0 <= i < |subvols| ==> |subvols[i]| <= |Eligible(vgs, z)|
       else Total(subvols) <= |Eligible(vgs, z)|
  }

  /** And then a whole plan is placed. */
  lemma {:induction false} EnoughZonesPlan(vgs: seq<Vg>, subvols: seq<seq<nat>>, z: nat, overlap: bool)
    requires EnoughZones(vgs, subvols, z, overlap)
    ensures Plan(vgs, subvols, overlap).Some?
    ensures !overlap ==> |Eligible(vgs, z) - Plan(vgs, subvols, false).value.0| >= |Eligible(vgs, z)| - Total(subvols)
  {
    hide Eligible, TwoPasses, Succeeds;
    assert Eligible(vgs, z) - {} == Eligible(vgs, z);
    if subvols != [] {
      var n := |subvols| - 1;
      assert forall i :: 0 <= i < n ==> subvols[..n][i] == subvols[i];
      EnoughZonesPlan(vgs, subvols[..n], z, overlap);
      var before := Plan(vgs, subvols[..n], overlap).value;
      EnoughZonesSucceed(vgs, subvols[n], z, if overlap then {} else before.0);
    }
  }

  /** A brick takes a zone of its own that has room for it. */
  lemma {:induction false} PassTakes(vgs: seq<Vg>, sizes: seq<nat>, z: nat, freshOnly: bool, from: nat, to: nat, a: Alloc)
    requires from <= to <= |sizes| == |a.placed| && forall k :: 0 <= k < |sizes| ==> z <= sizes[k]
    ensures var b := Pass(vgs, sizes, freshOnly, from, to, a);
            |b.zones| == |a.zones| + (b.count - a.count) && b.zones <= a.zones + Eligible(vgs, z)
    decreases (to)
  {
    if from < to {
      PassTakes(vgs, sizes, z, freshOnly, from, to - 1, a);
      PassLast(vgs, sizes, freshOnly, from, to, a);
      hide Pass;
    }
  }

  ghost predicate AtLeast(subvols: seq<seq<nat>>, z: nat) {
    forall i, k :: 0 <= i < |subvols| && 0 <= k < |subvols[i]| ==> z <= subvols[i][k]
  }

  /** Without zone overlap a plan takes as many zones as there are bricks, all with room for the
      smallest. */
  lemma {:induction false} PlanNeedsZones(vgs: seq<Vg>, subvols: seq<seq<nat>>, z: nat)
    requires Plan(vgs, subvols, false).Some? && AtLeast(subvols, z)
    ensures var zones := Plan(vgs, subvols, false).value.0; |zones| == Total(subvols) && zones <= Eligible(vgs, z)
    ensures |Eligible(vgs, z)| >= Total(subvols)
  {
    if subvols != [] {
      var n := |subvols| - 1;
      assert forall i :: 0 <= i < n ==> subvols[..n][i] == subvols[i];
      PlanNeedsZones(vgs, subvols[..n], z);
      var base := Plan(vgs, subvols[..n], false).value.0;
      SubvolTakes(vgs, subvols[n], z, base);
      hide Eligible, TwoPasses;
    }
    var zones := Plan(vgs, subvols, false).value.0;
    assert Eligible(vgs, z) == zones + (Eligible(vgs, z) - zones);
  }

  lemma SubvolTakes(vgs: seq<Vg>, sizes: seq<nat>, z: nat, base: set<string>)
    requires (forall k :: 0 <= k < |sizes| ==> z <= sizes[k]) && Succeeds(vgs, sizes, base)
    ensures var zones := TwoPasses(vgs, sizes, base).zones; |zones| == |base| + |sizes| && zones <= base + Eligible(vgs, z)
  {
    var blank := Blank(base, |sizes|);
    var a := Pass(vgs, sizes, true, 0, |sizes|, blank);
    PassTakes(vgs, sizes, z, true, 0, |sizes|, blank);
    PassTakes(vgs, sizes, z, false, a.count, |sizes|, a);
    hide Pass, Eligible;
  }

  // ---------------------------------------------------------------- when success means complete

  ghost predicate NonDecreasing(sizes: seq<nat>) {
    forall j, k :: 0 <= j < k < |sizes| ==> sizes[j] <= sizes[k]
  }

  predicate Complete(a: Alloc) {
    forall k :: 0 <= k < |a.placed| ==> a.placed[k].Some?
  }

  ghost predicate FilledTo(a: Alloc, c: nat) {
    forall k :: 0 <= k < |a.placed| ==> (a.placed[k].Some? <==> k < c)
  }

  /** When sizes do not decrease, the first pass fills a prefix: a brick that finds no unused device
      leaves none for the later ones. */
  lemma {:induction false} FirstPassFillsPrefix(vgs: seq<Vg>, sizes: seq<nat>, zones: set<string>, k: nat)
    requires NonDecreasing(sizes) && k <= |sizes|
    ensures var a := Pass(vgs, sizes, true, 0, k, Blank(zones, |sizes|));
            FilledTo(a, a.count) && a.count <= k && (a.count < k ==> FirstFit(vgs, sizes[a.count], a.zones, true).None?)
  {
    if k > 0 {
      FirstPassFillsPrefix(vgs, sizes, zones, k - 1);
      var a := Pass(vgs, sizes, true, 0, k - 1, Blank(zones, |sizes|));
      if a.count < k - 1 {
        assert sizes[a.count] <= sizes[k - 1];
        assert FirstFit(vgs, sizes[k - 1], a.zones, true).None?;
      }
    }
  }

  /** A pass that places every brick it looks at fills on from where it started. */
  lemma {:induction false} FullPassFills(vgs: seq<Vg>, sizes: seq<nat>, freshOnly: bool, from: nat, to: nat, a: Alloc)
    requires from <= to <= |sizes| == |a.placed| && FilledTo(a, from)
    requires Pass(vgs, sizes, freshOnly, from, to, a).count == a.count + (to - from)
    ensures FilledTo(Pass(vgs, sizes, freshOnly, from, to, a), to)
  {
    if from < to {
      FullPassFills(vgs, sizes, freshOnly, from, to - 1, a);
    }
  }

  lemma SuccessIsComplete(vgs: seq<Vg>, sizes: seq<nat>, zones: set<string>)
    requires NonDecreasing(sizes) && Succeeds(vgs, sizes, zones)
    ensures Complete(TwoPasses(vgs, sizes, zones))
  {
    FirstPassFillsPrefix(vgs, sizes, zones, |sizes|);
    var a := Pass(vgs, sizes, true, 0, |sizes|, Blank(zones, |sizes|));
    if a.count < |sizes| {
      FullPassFills(vgs, sizes, false, a.count, |sizes|, a);
    }
  }

  ghost predicate AllPlaced(plans: seq<seq<Option<nat>>>) {
    forall i, k :: 0 <= i < |plans| && 0 <= k < |plans[i]| ==> plans[i][k].Some?
  }

  /** So a whole plan of such subvolumes leaves no brick without a device. */
  lemma {:induction false} PlanIsComplete(vgs: seq<Vg>, subvols: seq<seq<nat>>, overlap: bool)
    requires Plan(vgs, subvols, overlap).Some? && forall i :: 0 <= i < |subvols| ==> NonDecreasing(subvols[i])
    ensures AllPlaced(Plan(vgs, subvols, overlap).value.1)
  {
    if subvols != [] {
      var n := |subvols| - 1;
      PlanIsComplete(vgs, subvols[..n], overlap);
      var before := Plan(vgs, subvols[..n], overlap).value;
      var zones := if overlap then {} else before.0;
      SuccessIsComplete(vgs, subvols[n], zones);
      var a := TwoPasses(vgs, subvols[n], zones);
      assert Plan(vgs, subvols, overlap).value.1 == before.1 + [a.placed];
      hide TwoPasses, Plan;
    }
  }

  // ---------------------------------------------------------------- and only then

  /** Devices come sorted, the one with most space first. */
  ghost predicate MostSpaceFirst(vgs: seq<Vg>) {
    forall u, v :: 0 <= u < v < |vgs| ==> vgs[u].available >= vgs[v].available
  }

  function ZoneName(d: nat): string {
    seq(d, _ => 'z')
  }

  /** Devices on which a subvolume whose brick i + 1 is smaller than brick i goes wrong: i unused and
      |sizes| used big ones, and one unused device with room for brick i + 1 only. */
  function Trap(sizes: seq<nat>, i: nat): (r: seq<Vg>)
    requires i + 1 < |sizes|
    ensures |r| == i + |sizes| + 1
  {
    seq(i + |sizes| + 1, d requires 0 <= d < i + |sizes| + 1 =>
      Vg(ZoneName(d), if d < i + |sizes| then Largest(sizes) else sizes[i + 1], i <= d < i + |sizes|))
  }

  /** Devices 0..k-1 are taken, device i + |sizes| as told, and brick i has none. */
  ghost predicate TrapState(sizes: seq<nat>, i: nat, a: Alloc, k: nat, last: bool) {
    && i < |sizes| == |a.placed| && a.placed[i].None?
    && forall d: nat :: ZoneName(d) in a.zones <==> d < k || (last && d == i + |sizes|)
  }

  lemma PlacesAt(sizes: seq<nat>, i: nat, freshOnly: bool, brick: nat, a: Alloc, v: nat)
    requires i + 1 < |sizes| == |a.placed| && brick < |sizes| && v < |Trap(sizes, i)|
    requires Fits(Trap(sizes, i)[v], sizes[brick], a.zones, freshOnly)
    requires forall u :: 0 <= u < v ==> !Fits(Trap(sizes, i)[u], sizes[brick], a.zones, freshOnly)
    ensures Place(Trap(sizes, i), sizes[brick], freshOnly, brick, a)
            == Alloc(a.zones + {ZoneName(v)}, a.placed[brick := Some(v)], a.count + 1)
  {
  }

  lemma Takes(sizes: seq<nat>, i: nat, a: Alloc, k: nat, last: bool, v: nat, brick: nat)
    requires TrapState(sizes, i, a, k, last) && brick != i && brick < |sizes| && k < i + |sizes|
    requires v == k || (v == i + |sizes| && !last)
    ensures TrapState(sizes, i, Alloc(a.zones + {ZoneName(v)}, a.placed[brick := Some(v)], a.count + 1),
                      if v == k then k + 1 else k, last || v == i + |sizes|)
  {
  }

  /** First pass, up to brick i: the unused big devices go first, then nothing fits brick i. */
  lemma {:induction false} TrapBefore(sizes: seq<nat>, i: nat, k: nat)
    requires i + 1 < |sizes| && sizes[i] > sizes[i + 1] && k <= i + 1
    ensures var a := Pass(Trap(sizes, i), sizes, true, 0, k, Blank({}, |sizes|));
            TrapState(sizes, i, a, if k <= i then k else i, false) && a.count == if k <= i then k else i
  {
    var vgs := Trap(sizes, i);
    if k > 0 {
      TrapBefore(sizes, i, k - 1);
      var a := Pass(vgs, sizes, true, 0, k - 1, Blank({}, |sizes|));
      hide Trap;
      if k <= i {
        assert Fits(vgs[k - 1], sizes[k - 1], a.zones, true) by { TrapDevice(sizes, i, k - 1); }
        forall u | 0 <= u < k - 1
          ensures !Fits(vgs[u], sizes[k - 1], a.zones, true)
        {
          TrapDevice(sizes, i, u);
        }
        PlacesAt(sizes, i, true, k - 1, a, k - 1);
        Takes(sizes, i, a, k - 1, false, k - 1, k - 1);
      } else {
        forall u | 0 <= u < |vgs|
          ensures !Fits(vgs[u], sizes[i], a.zones, true)
        {
          TrapDevice(sizes, i, u);
        }
      }
    }
  }

  lemma TrapDevice(sizes: seq<nat>, i: nat, d: nat)
    requires i + 1 < |sizes| && d < |Trap(sizes, i)|
    ensures Trap(sizes, i)[d] == Vg(ZoneName(d), if d < i + |sizes| then Largest(sizes) else sizes[i + 1], i <= d < i + |sizes|)
  {
  }

  /** First pass, after brick i: brick i + 1 takes the small device and nothing unused is left. */
  lemma {:induction false} TrapAfter(sizes: seq<nat>, i: nat, k: nat)
    requires i + 1 < |sizes| && sizes[i] > sizes[i + 1] && i + 2 <= k <= |sizes|
    ensures var a := Pass(Trap(sizes, i), sizes, true, 0, k, Blank({}, |sizes|));
            TrapState(sizes, i, a, i, true) && a.count == i + 1
  {
    var vgs := Trap(sizes, i);
    var a := Pass(vgs, sizes, true, 0, k - 1, Blank({}, |sizes|));
    hide Trap;
    if k == i + 2 {
      TrapBefore(sizes, i, i + 1);
      var v := i + |sizes|;
      assert Fits(vgs[v], sizes[i + 1], a.zones, true) by { TrapDevice(sizes, i, v); }
      forall u | 0 <= u < v
        ensures !Fits(vgs[u], sizes[i + 1], a.zones, true)
      {
        TrapDevice(sizes, i, u);
      }
      PlacesAt(sizes, i, true, i + 1, a, v);
      Takes(sizes, i, a, i, false, v, i + 1);
    } else {
      TrapAfter(sizes, i, k - 1);
      forall u | 0 <= u < |vgs|
        ensures !Fits(vgs[u], sizes[k - 1], a.zones, true)
      {
        TrapDevice(sizes, i, u);
      }
    }
  }

  /** Second pass: bricks i + 1 onwards take the used devices one by one, and brick i is never
      looked at again. */
  lemma {:induction false} TrapSecond(sizes: seq<nat>, i: nat, k: nat, a: Alloc)
    requires i + 1 < |sizes| == |a.placed| && i + 1 <= k <= |sizes|
    requires TrapState(sizes, i, a, i, true) && a.count == i + 1
    ensures var b := Pass(Trap(sizes, i), sizes, false, i + 1, k, a);
            TrapState(sizes, i, b, k - 1, true) && b.count == k
  {
    var vgs := Trap(sizes, i);
    if k > i + 1 {
      TrapSecond(sizes, i, k - 1, a);
      var b := Pass(vgs, sizes, false, i + 1, k - 1, a);
      hide Trap;
      assert Fits(vgs[k - 2], sizes[k - 1], b.zones, false) by { TrapDevice(sizes, i, k - 2); }
      forall u | 0 <= u < k - 2
        ensures !Fits(vgs[u], sizes[k - 1], b.zones, false)
      {
        TrapDevice(sizes, i, u);
      }
      PlacesAt(sizes, i, false, k - 1, b, k - 2);
      Takes(sizes, i, b, k - 2, true, k - 2, k - 1);
    }
  }

  /** A smaller brick after a bigger one can make the planner report success with the bigger one
      left without a device. */
  lemma SmallerBrickBreaksPlan(sizes: seq<nat>, i: nat)
    requires i + 1 < |sizes| && sizes[i] > sizes[i + 1]
    ensures MostSpaceFirst(Trap(sizes, i)) && Succeeds(Trap(sizes, i), sizes, {})
    ensures !Complete(TwoPasses(Trap(sizes, i), sizes, {}))
  {
    TrapAfter(sizes, i, |sizes|);
    var a := Pass(Trap(sizes, i), sizes, true, 0, |sizes|, Blank({}, |sizes|));
    TrapSecond(sizes, i, |sizes|, a);
  }

  lemma DescentExists(sizes: seq<nat>) returns (i: nat)
    requires !NonDecreasing(sizes)
    ensures i + 1 < |sizes| && sizes[i] > sizes[i + 1]
  {
    var j, k :| 0 <= j < k < |sizes| && sizes[j] > sizes[k];
    i := j;
    while sizes[i] <= sizes[i + 1]
      invariant j <= i < k && sizes[i] > sizes[k]
      decreases k - i
    {
      i := i + 1;
    }
  }

  /** Success means that every brick has a device, whatever the devices, exactly when no brick of
      the subvolume is smaller than the one before it. */
  lemma CompleteExactly(sizes: seq<nat>)
    ensures (forall vgs, zones :: MostSpaceFirst(vgs) && Succeeds(vgs, sizes, zones) ==> Complete(TwoPasses(vgs, sizes, zones)))
            <==> NonDecreasing(sizes)
  {
    hide TwoPasses;
    if NonDecreasing(sizes) {
      forall vgs, zones | MostSpaceFirst(vgs) && Succeeds(vgs, sizes, zones)
        ensures Complete(TwoPasses(vgs, sizes, zones))
      {
        SuccessIsComplete(vgs, sizes, zones);
      }
    } else {
      var i := DescentExists(sizes);
      SmallerBrickBreaksPlan(sizes, i);
    }
  }
}
