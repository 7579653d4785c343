/**
 Planning with zone overlap: every subvolume starts from the same devices, so subvolumes of the same
 shape get the same ones. When that promises more of a device than it has.
 */
module BrickOverlap {
  import opened Wrappers
  import opened BrickAllocation

  /** n subvolumes of the same shape. */
  function Alike(sizes: seq<nat>, n: nat): (r: seq<seq<nat>>)
    ensures |r| == n && forall i :: 0 <= i < n ==> r[i] == sizes
  {
    seq(n, _ => sizes)
  }

  /** With zone overlap nothing carries over, so subvolumes of the same shape get the same devices. */
  lemma {:induction false} OverlapRepeats(vgs: seq<Vg>, sizes: seq<nat>, n: nat)
    ensures Plan(vgs, Alike(sizes, n), true).Some? <==> n == 0 || Succeeds(vgs, sizes, {})
    ensures Plan(vgs, Alike(sizes, n), true).Some? ==>
              forall i :: 0 <= i < n ==> Plan(vgs, Alike(sizes, n), true).value.1[i] == TwoPasses(vgs, sizes, {}).placed
  {
    if n > 0 {
      OverlapRepeats(vgs, sizes, n - 1);
      assert Alike(sizes, n)[..n - 1] == Alike(sizes, n - 1);
      hide TwoPasses;
    }
  }

  /** The space promised on device v by the first k bricks of one subvolume, and by a whole plan. */
  function PromisedIn(sizes: seq<nat>, placed: seq<Option<nat>>, v: nat, k: nat): nat
    requires k <= |sizes| == |placed|
  {
    if k == 0 then 0
    else PromisedIn(sizes, placed, v, k - 1) + if placed[k - 1] == Some(v) then sizes[k - 1] else 0
  }

  function Promised(sizes: seq<nat>, plans: seq<seq<Option<nat>>>, v: nat): nat
    requires forall i :: 0 <= i < |plans| ==> |plans[i]| == |sizes|
  {
    if plans == [] then 0
    else Promised(sizes, plans[..|plans| - 1], v) + PromisedIn(sizes, plans[|plans| - 1], v, |sizes|)
  }

  /** Within a subvolume a device takes one brick at most. */
  lemma {:induction false} OneBrickPerDevice(vgs: seq<Vg>, sizes: seq<nat>, a: Alloc, v: nat, k: nat, m: nat)
    requires Sound(vgs, sizes, {}, a) && k < |sizes| && m <= |sizes| && a.placed[k] == Some(v)
    ensures PromisedIn(sizes, a.placed, v, m) == if k < m then sizes[k] else 0
    decreases m
  {
    if m > 0 {
      OneBrickPerDevice(vgs, sizes, a, v, k, m - 1);
    }
  }

  lemma {:induction false} UnusedDevice(sizes: seq<nat>, placed: seq<Option<nat>>, v: nat, m: nat)
    requires m <= |sizes| == |placed| && forall k :: 0 <= k < |placed| ==> placed[k] != Some(v)
    ensures PromisedIn(sizes, placed, v, m) == 0
  {
    if m > 0 {
      UnusedDevice(sizes, placed, v, m - 1);
    }
  }

  lemma {:induction false} PromisedOften(sizes: seq<nat>, plans: seq<seq<Option<nat>>>, placed: seq<Option<nat>>, v: nat)
    requires |placed| == |sizes| && forall i :: 0 <= i < |plans| ==> plans[i] == placed
    ensures Promised(sizes, plans, v) == |plans| * PromisedIn(sizes, placed, v, |sizes|)
  {
    if plans != [] {
      PromisedOften(sizes, plans[..|plans| - 1], placed, v);
    }
  }

  /** Device v is promised more than it has. */
  ghost predicate Overbooked(vgs: seq<Vg>, sizes: seq<nat>, plans: seq<seq<Option<nat>>>, v: nat)
    requires forall i :: 0 <= i < |plans| ==> |plans[i]| == |sizes|
  {
    v < |vgs| && Promised(sizes, plans, v) > vgs[v].available
  }

  /** In a plan of n subvolumes of the same shape a device is overbooked when n times some brick does
      not fit on the device that one subvolume alone would put it on. */
  lemma OverbookedWhere(vgs: seq<Vg>, sizes: seq<nat>, n: nat)
    requires Plan(vgs, Alike(sizes, n), true).Some?
    ensures var plans, placed := Plan(vgs, Alike(sizes, n), true).value.1, TwoPasses(vgs, sizes, {}).placed;
            && (forall i :: 0 <= i < n ==> |plans[i]| == |sizes|)
            && ((exists v: nat :: Overbooked(vgs, sizes, plans, v)) <==>
                exists k :: 0 <= k < |sizes| && placed[k].Some? && placed[k].value < |vgs|
                            && n * sizes[k] > vgs[placed[k].value].available)
  {
    OverlapRepeats(vgs, sizes, n);
    TwoPassesSound(vgs, sizes, {});
    hide Plan, TwoPasses;
    var plans, a := Plan(vgs, Alike(sizes, n), true).value.1, TwoPasses(vgs, sizes, {});
    if v: nat :| Overbooked(vgs, sizes, plans, v) {
      PromisedOften(sizes, plans, a.placed, v);
      if k :| 0 <= k < |sizes| && a.placed[k] == Some(v) {
        OneBrickPerDevice(vgs, sizes, a, v, k, |sizes|);
      } else {
        UnusedDevice(sizes, a.placed, v, |sizes|);
      }
    }
    if k :| 0 <= k < |sizes| && a.placed[k].Some? && a.placed[k].value < |vgs| && n * sizes[k] > vgs[a.placed[k].value].available {
      var v := a.placed[k].value;
      PromisedOften(sizes, plans, a.placed, v);
      OneBrickPerDevice(vgs, sizes, a, v, k, |sizes|);
      assert Overbooked(vgs, sizes, plans, v);
    }
  }

  // ---------------------------------------------------------------- when zone overlap is safe

  /** One unused device in a zone of its own for every brick, each with room for the largest only. */
  function Crowd(sizes: seq<nat>): (r: seq<Vg>)
    ensures |r| == |sizes| && forall d :: 0 <= d < |r| ==> r[d] == Vg(ZoneName(d), Largest(sizes), false)
  {
    seq(|sizes|, d requires 0 <= d < |sizes| => Vg(ZoneName(d), Largest(sizes), false))
  }

  ghost predicate OneEach(a: Alloc, k: nat) {
    && a.count == k <= |a.placed| && (forall d: nat :: ZoneName(d) in a.zones <==> d < k)
    && forall j :: 0 <= j < k ==> a.placed[j] == Some(j)
  }

  lemma CrowdPlace(sizes: seq<nat>, k: nat, a: Alloc)
    requires k < |sizes| == |a.placed| && OneEach(a, k)
    ensures OneEach(Place(Crowd(sizes), sizes[k], true, k, a), k + 1)
  {
    var vgs := Crowd(sizes);
    assert Fits(vgs[k], sizes[k], a.zones, true);
    forall u | 0 <= u < k
      ensures !Fits(vgs[u], sizes[k], a.zones, true)
    {
      assert ZoneName(u) in a.zones;
    }
    assert FirstFit(vgs, sizes[k], a.zones, true) == Some(k);
    forall d: nat
      ensures ZoneName(d) in a.zones + {ZoneName(k)} <==> d < k + 1
    {
      assert |ZoneName(d)| == d && |ZoneName(k)| == k;
    }
  }

  lemma {:induction false} CrowdPass(sizes: seq<nat>, k: nat)
    requires k <= |sizes|
    ensures OneEach(Pass(Crowd(sizes), sizes, true, 0, k, Blank({}, |sizes|)), k)
  {
    if k > 0 {
      hide OneEach, Place;
      CrowdPass(sizes, k - 1);
      CrowdPlace(sizes, k - 1, Pass(Crowd(sizes), sizes, true, 0, k - 1, Blank({}, |sizes|)));
    }
  }

  /** Each brick gets its own device there. */
  lemma CrowdPlaced(sizes: seq<nat>)
    ensures Succeeds(Crowd(sizes), sizes, {})
    ensures forall k :: 0 <= k < |sizes| ==> TwoPasses(Crowd(sizes), sizes, {}).placed[k] == Some(k)
  {
    CrowdPass(sizes, |sizes|);
    hide Pass;
  }

  lemma {:induction false} LargestIsThere(sizes: seq<nat>) returns (k: nat)
    requires sizes != []
    ensures k < |sizes| && sizes[k] == Largest(sizes)
  {
    var n := |sizes| - 1;
    k := n;
    if n > 0 && sizes[n] <= Largest(sizes[..n]) {
      k := LargestIsThere(sizes[..n]);
    }
  }

  /** Two subvolumes that need any space at all overbook these devices. */
  lemma CrowdIsOverbooked(sizes: seq<nat>, n: nat, k: nat)
    requires n >= 2 && k < |sizes| && sizes[k] > 0
    ensures MostSpaceFirst(Crowd(sizes)) && Plan(Crowd(sizes), Alike(sizes, n), true).Some?
    ensures AnyOverbooked(Crowd(sizes), sizes, n)
  {
    var vgs := Crowd(sizes);
    CrowdPlaced(sizes);
    OverlapRepeats(vgs, sizes, n);
    hide Plan, TwoPasses;
    var m := LargestIsThere(sizes);
    MoreThanOnce(n, sizes[m]);
    OverbookedWhere(vgs, sizes, n);
    var placed := TwoPasses(vgs, sizes, {}).placed;
    assert placed[m].Some? && placed[m].value < |vgs| && n * sizes[m] > vgs[placed[m].value].available;
  }

  lemma MoreThanOnce(n: nat, z: nat)
    ensures n >= 2 && z > 0 ==> n * z > z
    ensures n >= 1 ==> n * z >= z
  {
  }

  /** The plan of n subvolumes of this shape overbooks a device. */
  ghost predicate AnyOverbooked(vgs: seq<Vg>, sizes: seq<nat>, n: nat)
    requires Plan(vgs, Alike(sizes, n), true).Some?
  {
    var plans := Plan(vgs, Alike(sizes, n), true).value.1;
    (forall i :: 0 <= i < |plans| ==> |plans[i]| == |sizes|) && exists v: nat :: Overbooked(vgs, sizes, plans, v)
  }

  /** With zone overlap, n subvolumes of one shape never overbook a device, whatever the devices,
      exactly when there is one subvolume at most or no brick needs space. */
  lemma OverlapSafeExactly(sizes: seq<nat>, n: nat)
    ensures (forall vgs :: MostSpaceFirst(vgs) && Plan(vgs, Alike(sizes, n), true).Some? ==> !AnyOverbooked(vgs, sizes, n))
            <==> n <= 1 || forall k :: 0 <= k < |sizes| ==> sizes[k] == 0
  {
    hide Plan, TwoPasses, AnyOverbooked;
    if k :| 0 <= k < |sizes| && sizes[k] > 0 && n >= 2 {
      CrowdIsOverbooked(sizes, n, k);
    } else {
      forall vgs | MostSpaceFirst(vgs) && Plan(vgs, Alike(sizes, n), true).Some?
        ensures !AnyOverbooked(vgs, sizes, n)
      {
        NotOverbooked(vgs, sizes, n);
      }
    }
  }

  lemma NotOverbooked(vgs: seq<Vg>, sizes: seq<nat>, n: nat)
    requires Plan(vgs, Alike(sizes, n), true).Some? && (n <= 1 || forall k :: 0 <= k < |sizes| ==> sizes[k] == 0)
    ensures !AnyOverbooked(vgs, sizes, n)
  {
    hide Plan, TwoPasses;
    OverbookedWhere(vgs, sizes, n);
    TwoPassesSound(vgs, sizes, {});
    forall k | 0 <= k < |sizes|
      ensures n * sizes[k] <= sizes[k]
    {
      AtMostOnce(n, sizes[k]);
    }
  }

  lemma AtMostOnce(n: nat, z: nat)
    requires n <= 1 || z == 0
    ensures n * z <= z
  {
  }

  // ---------------------------------------------------------------- equal bricks on given devices

  /** The zones that have a device with room for z, an unused one if asked for. */
  ghost function Zones(vgs: seq<Vg>, z: nat, freshOnly: bool): set<string> {
    set v | 0 <= v < |vgs| && vgs[v].available >= z && (freshOnly ==> !vgs[v].used) :: vgs[v].zone
  }

  /** The bricks from..to-1 that are placed lie on devices with room for w. */
  ghost predicate Roomy(vgs: seq<Vg>, placed: seq<Option<nat>>, from: nat, to: nat, w: nat)
    requires to <= |placed|
  {
    forall j :: from <= j < to && placed[j].Some? ==> placed[j].value < |vgs| && vgs[placed[j].value].available >= w
  }

  /** Devices come biggest first, so a brick of size z lies on one with room for w exactly when there
      is one in a free zone. */
  lemma RoomyPlace(vgs: seq<Vg>, z: nat, w: nat, freshOnly: bool, k: nat, a: Alloc)
    requires MostSpaceFirst(vgs) && z <= w && k < |a.placed|
    ensures var b, left := Place(vgs, z, freshOnly, k, a), Zones(vgs, w, freshOnly) - a.zones;
            && (b == a || b.count == a.count + 1)
            && (b == a ==> left == {} && Zones(vgs, z, freshOnly) - a.zones == {})
            && (b.count == a.count + 1 ==>
                  && b.placed == a.placed[k := b.placed[k]] && b.placed[k].Some? && b.placed[k].value < |vgs|
                  && (vgs[b.placed[k].value].available >= w <==> left != {})
                  && |Zones(vgs, w, freshOnly) - b.zones| == (if left != {} then |left| - 1 else 0)
                  && a.zones <= b.zones <= a.zones + Zones(vgs, z, freshOnly))
  {
    var all := Zones(vgs, w, freshOnly);
    var left := all - a.zones;
    var v := FirstFit(vgs, z, a.zones, freshOnly);
    if v.Some? {
      var zone := vgs[v.value].zone;
      if u: nat :| u < |vgs| && vgs[u].available >= w && (freshOnly ==> !vgs[u].used) && vgs[u].zone !in a.zones {
        assert Fits(vgs[u], z, a.zones, freshOnly);
        assert v.value <= u;
        assert vgs[v.value].available >= w;
        assert vgs[u].zone in left && zone in left;
        assert all - (a.zones + {zone}) == left - {zone};
      } else {
        assert left == {};
        assert all - (a.zones + {zone}) == {};
      }
    } else {
      forall u: nat | u < |vgs| && vgs[u].available >= z && (freshOnly ==> !vgs[u].used)
        ensures vgs[u].zone in a.zones
      {
        assert !Fits(vgs[u], z, a.zones, freshOnly);
      }
    }
  }

  lemma {:induction false} RoomyPass(vgs: seq<Vg>, sizes: seq<nat>, z: nat, w: nat, freshOnly: bool, from: nat, to: nat, a: Alloc)
    requires MostSpaceFirst(vgs) && z <= w && AllOf(sizes, z) && from <= to <= |sizes| == |a.placed|
    requires forall j :: from <= j < |sizes| ==> a.placed[j].None?
    ensures var b, left := Pass(vgs, sizes, freshOnly, from, to, a), |Zones(vgs, w, freshOnly) - a.zones|;
            && (Roomy(vgs, b.placed, from, to, w) <==> left >= b.count - a.count)
            && |Zones(vgs, w, freshOnly) - b.zones| == (if left >= b.count - a.count then left - (b.count - a.count) else 0)
            && (b.count == a.count + (to - from) || Zones(vgs, z, freshOnly) - b.zones == {})
            && b.zones <= a.zones + Zones(vgs, z, freshOnly)
            && forall j :: 0 <= j < |sizes| && !(from <= j < to) ==> b.placed[j] == a.placed[j]
    decreases (to)
  {
    hide Pass, Place, Zones, AllOf, MostSpaceFirst;
    if from == to {
      PassNone(vgs, sizes, freshOnly, to, a);
    } else {
      RoomyPass(vgs, sizes, z, w, freshOnly, from, to - 1, a);
      PassLastOf(vgs, sizes, z, freshOnly, from, to, a);
      RoomyPlace(vgs, z, w, freshOnly, to - 1, Pass(vgs, sizes, freshOnly, from, to - 1, a));
    }
  }

  /** k bricks of size z go to zones with an unused device first and then to others, the biggest device
      first; all of them have room for w. */
  ghost predicate HasRoom(vgs: seq<Vg>, k: nat, z: nat, w: nat) {
    var unused := Zones(vgs, z, true);
    var first := if |unused| < k then |unused| else k;
    |Zones(vgs, w, true)| >= first && |Zones(vgs, w, false) - unused| >= k - first
  }

  /** The first pass: as many bricks as there are zones with an unused device, if there are so many. */
  lemma FirstPassRoomy(vgs: seq<Vg>, sizes: seq<nat>, z: nat, w: nat)
    requires MostSpaceFirst(vgs) && z <= w && AllOf(sizes, z)
    ensures var a, unused := Pass(vgs, sizes, true, 0, |sizes|, Blank({}, |sizes|)), Zones(vgs, z, true);
            && (Roomy(vgs, a.placed, 0, |sizes|, w) <==> |Zones(vgs, w, true)| >= a.count)
            && a.count == (if |unused| < |sizes| then |unused| else |sizes|) && (a.count < |sizes| ==> a.zones == unused)
            && FilledTo(a, a.count)
  {
    hide Pass, Zones, MostSpaceFirst;
    var blank := Blank({}, |sizes|);
    var a, unused := Pass(vgs, sizes, true, 0, |sizes|, blank), Zones(vgs, z, true);
    RoomyPass(vgs, sizes, z, w, true, 0, |sizes|, blank);
    RoomyPass(vgs, sizes, z, z, true, 0, |sizes|, blank);
    EqualIsNonDecreasing(sizes, z);
    FirstPassFillsPrefix(vgs, sizes, {}, |sizes|);
    SoundIsRoomy(vgs, sizes, z);
    hide Roomy, AllOf, FilledTo;
    assert unused - {} == unused && Zones(vgs, w, true) - {} == Zones(vgs, w, true);
    assert {} + unused == unused;
    if a.count < |sizes| {
      assert unused - a.zones == {} && a.zones <= unused;
    }
  }

  lemma EqualIsNonDecreasing(sizes: seq<nat>, z: nat)
    requires AllOf(sizes, z)
    ensures NonDecreasing(sizes)
  {
  }

  lemma SoundIsRoomy(vgs: seq<Vg>, sizes: seq<nat>, z: nat)
    requires AllOf(sizes, z)
    ensures Roomy(vgs, Pass(vgs, sizes, true, 0, |sizes|, Blank({}, |sizes|)).placed, 0, |sizes|, z)
  {
    hide Pass;
    PassSound(vgs, sizes, {}, true, 0, |sizes|, Blank({}, |sizes|));
  }

  lemma BothPasses(vgs: seq<Vg>, sizes: seq<nat>)
    ensures var a := Pass(vgs, sizes, true, 0, |sizes|, Blank({}, |sizes|));
            TwoPasses(vgs, sizes, {}) == if a.count == |sizes| then a else Pass(vgs, sizes, false, a.count, |sizes|, a)
  {
  }

  lemma RoomyParts(vgs: seq<Vg>, a: Alloc, b: seq<Option<nat>>, c: nat, w: nat)
    requires c <= |a.placed| == |b| && FilledTo(a, c) && b[..c] == a.placed[..c]
    ensures Roomy(vgs, b, 0, |b|, w) <==> Roomy(vgs, a.placed, 0, |b|, w) && Roomy(vgs, b, c, |b|, w)
  {
    assert forall j :: 0 <= j < c ==> b[j] == b[..c][j] == a.placed[..c][j] == a.placed[j];
  }

  lemma RoomyExactly(vgs: seq<Vg>, sizes: seq<nat>, z: nat, w: nat)
    requires MostSpaceFirst(vgs) && z <= w && AllOf(sizes, z) && Succeeds(vgs, sizes, {})
    ensures Roomy(vgs, TwoPasses(vgs, sizes, {}).placed, 0, |sizes|, w) <==> HasRoom(vgs, |sizes|, z, w)
  {
    hide TwoPasses, Pass, Zones, MostSpaceFirst, AllOf, Roomy;
    BothPasses(vgs, sizes);
    FirstPassRoomy(vgs, sizes, z, w);
    var a := Pass(vgs, sizes, true, 0, |sizes|, Blank({}, |sizes|));
    if a.count < |sizes| {
      var b := TwoPasses(vgs, sizes, {});
      RoomyPass(vgs, sizes, z, w, false, a.count, |sizes|, a);
      assert b.placed[..a.count] == a.placed[..a.count];
      RoomyParts(vgs, a, b.placed, a.count, w);
    }
  }

  /** Equal bricks on given devices, biggest first: a plan of n subvolumes overbooks one exactly when
      the devices that the passes go through do not all have room for n bricks. */
  lemma OverbookedExactly(vgs: seq<Vg>, sizes: seq<nat>, z: nat, n: nat)
    requires MostSpaceFirst(vgs) && AllOf(sizes, z) && n >= 1 && Plan(vgs, Alike(sizes, n), true).Some?
    ensures AnyOverbooked(vgs, sizes, n) <==> !HasRoom(vgs, |sizes|, z, n * z)
  {
    MoreThanOnce(n, z);
    OverlapRepeats(vgs, sizes, n);
    RoomyExactly(vgs, sizes, z, n * z);
    OverbookedWhere(vgs, sizes, n);
    TwoPassesSound(vgs, sizes, {});
    hide Plan, TwoPasses, HasRoom;
    assert forall k :: 0 <= k < |sizes| ==> sizes[k] == z;
  }

  /** On unused devices only, that is when fewer zones have room for n bricks than a subvolume has
      bricks. */
  lemma UnusedOverbookedExactly(vgs: seq<Vg>, sizes: seq<nat>, z: nat, n: nat)
    requires MostSpaceFirst(vgs) && AllOf(sizes, z) && n >= 1 && Plan(vgs, Alike(sizes, n), true).Some?
    requires forall v :: 0 <= v < |vgs| ==> !vgs[v].used
    ensures AnyOverbooked(vgs, sizes, n) <==> |Eligible(vgs, n * z)| < |sizes|
  {
    hide *;
    OverbookedExactly(vgs, sizes, z, n);
    OverlapRepeats(vgs, sizes, n);
    SubvolSucceedsExactly(vgs, sizes, z, {});
    AllUnused(vgs, z);
    RoomUnused(vgs, |sizes|, z, n * z);
  }

  lemma RoomUnused(vgs: seq<Vg>, k: nat, z: nat, w: nat)
    requires (forall v :: 0 <= v < |vgs| ==> !vgs[v].used) && |Eligible(vgs, z)| >= k
    ensures HasRoom(vgs, k, z, w) <==> |Eligible(vgs, w)| >= k
  {
    AllUnused(vgs, z);
    AllUnused(vgs, w);
    hide Eligible, Zones;
  }

  lemma AllUnused(vgs: seq<Vg>, z: nat)
    requires forall v :: 0 <= v < |vgs| ==> !vgs[v].used
    ensures Zones(vgs, z, true) == Eligible(vgs, z) == Eligible(vgs, z) - {}
  {
  }
}
