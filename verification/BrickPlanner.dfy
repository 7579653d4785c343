/**
 The planner as a whole: the layout of a volume request, then a device for every brick.
 */
module BrickPlanner {
  import opened Wrappers
  import opened BrickLayout
  import opened Disperse
  import BrickAllocation
  import BrickOverlap
  import BrickArbiter

  type Vg = BrickAllocation.Vg
  type Plan = seq<seq<Option<nat>>>

  /** The space each brick needs on its device. */
  function Sizes(subvols: seq<Subvol>): (r: seq<seq<nat>>)
    ensures |r| == |subvols| && forall i :: 0 <= i < |r| ==> r[i] == Needs(subvols[i].bricks)
  {
    seq(|subvols|, i requires 0 <= i < |subvols| => Needs(subvols[i].bricks))
  }

  function Needs(bricks: seq<Brick>): (r: seq<nat>)
    ensures |r| == |bricks| && forall j :: 0 <= j < |r| ==> r[j] == bricks[j].totalSize
  {
    seq(|bricks|, j requires 0 <= j < |bricks| => bricks[j].totalSize)
  }

  /** n subvolumes of k bricks each, all needing space z. */
  ghost predicate AllAlike(subvols: seq<Subvol>, k: nat, z: nat) {
    forall i :: 0 <= i < |subvols| ==>
      |subvols[i].bricks| == k && forall j :: 0 <= j < k ==> subvols[i].bricks[j].totalSize == z
  }

  /** A layout of equal bricks can be placed exactly when there are as many zones with a big enough
      device as bricks, and then every brick is. */
  lemma AlikePlanExactly(vgs: seq<Vg>, subvols: seq<Subvol>, k: nat, z: nat, overlap: bool)
    requires AllAlike(subvols, k, z)
    ensures !overlap ==>
              (BrickAllocation.Plan(vgs, Sizes(subvols), false).Some? <==> |BrickAllocation.Eligible(vgs, z)| >= |subvols| * k)
    ensures BrickAllocation.Plan(vgs, Sizes(subvols), overlap).Some? ==>
              BrickAllocation.AllPlaced(BrickAllocation.Plan(vgs, Sizes(subvols), overlap).value.1)
  {
    var sizes := Sizes(subvols);
    assert forall i :: 0 <= i < |sizes| ==> |sizes[i]| == k && BrickAllocation.AllOf(sizes[i], z);
    BrickAllocation.TotalOfEqual(sizes, k);
    if !overlap {
      BrickAllocation.PlanExistsExactly(vgs, sizes, z);
    }
    if BrickAllocation.Plan(vgs, sizes, overlap).Some? {
      BrickAllocation.PlanIsComplete(vgs, sizes, overlap);
    }
  }

  /** A uniform layout is that many subvolumes of one shape, so what is known of plans with zone overlap
      holds of it. */
  lemma UniformIsAlike(req: VolCreateReq, subvols: seq<Subvol>, k: nat)
    requires subvols != [] && req.Uniform(subvols) && forall i :: 0 <= i < |subvols| ==> |subvols[i].bricks| == k
    ensures Sizes(subvols) == BrickOverlap.Alike(Needs(subvols[0].bricks), |subvols|)
  {
    forall i | 0 <= i < |subvols|
      ensures Needs(subvols[i].bricks) == Needs(subvols[0].bricks)
    {
      assert forall j :: 0 <= j < k ==> subvols[i].bricks[j] == subvols[0].bricks[j].(subvol := i);
    }
  }

  /** The space that k replicas and an arbiter need. */
  function WithArbiter(k: nat, z: nat, a: nat): seq<nat> {
    BrickArbiter.Copies(k, z) + [a]
  }

  /** With an arbiter after k replicas, success means a device for every brick, whatever the devices,
      exactly when the arbiter needs no less space than a replica. */
  lemma ArbiterPlanExactly(k: nat, z: nat, a: nat)
    requires k >= 1
    ensures (forall vgs, zones :: BrickAllocation.MostSpaceFirst(vgs) && BrickAllocation.Succeeds(vgs, WithArbiter(k, z, a), zones) ==>
               BrickAllocation.Complete(BrickAllocation.TwoPasses(vgs, WithArbiter(k, z, a), zones)))
            <==> z <= a
  {
    var sizes := WithArbiter(k, z, a);
    assert sizes[k - 1] == z && sizes[k] == a;
    assert BrickAllocation.NonDecreasing(sizes) <==> z <= a;
    BrickAllocation.CompleteExactly(sizes);
  }

  /** Whether the layout of a request has arbiter bricks. */
  predicate HasArbiter(req: VolCreateReq)
    reads req
  {
    req.subvolType.Replicate? && req.arbiterCount > 0
  }

  lemma NoArbiterAlike(req: VolCreateReq, subvols: seq<Subvol>, k: nat, z: nat)
    requires req.Proportioned(subvols, z) && !HasArbiter(req)
    requires forall i :: 0 <= i < |subvols| ==> |subvols[i].bricks| == k
    ensures AllAlike(subvols, k, z)
  {
    forall i, j | 0 <= i < |subvols| && 0 <= j < k
      ensures subvols[i].bricks[j].totalSize == z
    {
      assert subvols[i].bricks[j].kind.Data?;
    }
  }

  lemma ArbiterShapes(req: VolCreateReq, subvols: seq<Subvol>)
    requires HasArbiter(req) && req.arbiterCount == 1 && req.replicaCount >= 2 && subvols != []
    requires req.Uniform(subvols) && req.Proportioned(subvols, req.DataNeed(|subvols|))
    requires forall i :: 0 <= i < |subvols| ==> req.Shaped(subvols[i].bricks)
    requires req.Made(subvols[0], 0, Share(req.size, |subvols|, 1))
    ensures Sizes(subvols) ==
            BrickOverlap.Alike(WithArbiter(req.replicaCount, req.DataNeed(|subvols|), req.ArbiterNeed(|subvols|)), |subvols|)
  {
    hide req.DataNeed, Sizes;
    var k := req.replicaCount;
    var bricks := subvols[0].bricks;
    assert bricks[k].totalSize == req.ArbiterNeed(|subvols|);
    assert Needs(bricks) == WithArbiter(k, req.DataNeed(|subvols|), req.ArbiterNeed(|subvols|));
    UniformIsAlike(req, subvols, k + 1);
  }

  /** Such a layout is placed, with zone overlap or alone, exactly when one subvolume fits; and without
      overlap on unused devices, biggest first, exactly when there are zones with room for an arbiter for
      all bricks, and with room for a replica for all but two. */
  ghost predicate ArbiterPlanned(vgs: seq<Vg>, k: nat, z: nat, a: nat, n: nat, overlap: bool, some: bool) {
    && (overlap || n == 1 ==> (some <==> BrickArbiter.ArbiterFits(vgs, k, z, a, {})))
    && (!overlap && BrickArbiter.AllUnusedSorted(vgs) ==>
          (some <==> |BrickAllocation.Eligible(vgs, a)| >= n * (k + 1) && |BrickAllocation.Eligible(vgs, z)| + 2 >= n * (k + 1)))
  }

  lemma ArbiterVolumeExactly(vgs: seq<Vg>, k: nat, z: nat, a: nat, n: nat, overlap: bool)
    requires n >= 1 && k >= 2
    ensures ArbiterPlanned(vgs, k, z, a, n, overlap,
                           BrickAllocation.Plan(vgs, BrickOverlap.Alike(WithArbiter(k, z, a), n), overlap).Some?)
  {
    var sizes := WithArbiter(k, z, a);
    hide BrickArbiter.ArbiterFits, BrickArbiter.AllUnusedSorted, BrickAllocation.Eligible, BrickAllocation.Plan, BrickAllocation.Succeeds;
    BrickArbiter.ArbiterSucceedsExactly(vgs, k, z, a, {});
    if overlap {
      BrickOverlap.OverlapRepeats(vgs, sizes, n);
    } else {
      if n == 1 {
        PlanOfOne(vgs, sizes);
      }
      if BrickArbiter.AllUnusedSorted(vgs) {
        BrickArbiter.UnusedArbiterPlanExactly(vgs, k, z, a, n);
      }
    }
  }

  lemma PlanOfOne(vgs: seq<Vg>, sizes: seq<nat>)
    ensures BrickAllocation.Plan(vgs, BrickOverlap.Alike(sizes, 1), false).Some? <==> BrickAllocation.Succeeds(vgs, sizes, {})
  {
    hide BrickAllocation.TwoPasses;
    assert BrickOverlap.Alike(sizes, 1)[..0] == [];
  }

  /** As many zones as bricks, with room for the largest, are enough for any layout; and without zone
      overlap as many with room for the smallest are needed. */
  ghost predicate Bounded(vgs: seq<Vg>, sizes: seq<seq<nat>>, overlap: bool, some: bool) {
    && (forall z: nat :: BrickAllocation.EnoughZones(vgs, sizes, z, overlap) ==> some)
    && (some && !overlap ==>
          forall z: nat :: BrickAllocation.AtLeast(sizes, z) ==> |BrickAllocation.Eligible(vgs, z)| >= BrickAllocation.Total(sizes))
  }

  lemma PlanBounded(vgs: seq<Vg>, sizes: seq<seq<nat>>, overlap: bool)
    ensures Bounded(vgs, sizes, overlap, BrickAllocation.Plan(vgs, sizes, overlap).Some?)
  {
    hide BrickAllocation.Plan, BrickAllocation.EnoughZones, BrickAllocation.AtLeast;
    forall z: nat | BrickAllocation.EnoughZones(vgs, sizes, z, overlap)
      ensures BrickAllocation.Plan(vgs, sizes, overlap).Some?
    {
      BrickAllocation.EnoughZonesPlan(vgs, sizes, z, overlap);
    }
    if BrickAllocation.Plan(vgs, sizes, overlap).Some? && !overlap {
      forall z: nat | BrickAllocation.AtLeast(sizes, z)
        ensures |BrickAllocation.Eligible(vgs, z)| >= BrickAllocation.Total(sizes)
      {
        BrickAllocation.PlanNeedsZones(vgs, sizes, z);
      }
    }
  }

  /** What is planned for a layout without arbiters, and for one with. */
  ghost predicate PlainPlaced(req: VolCreateReq, vgs: seq<Vg>, subvols: seq<Subvol>, overlap: bool, plan: Option<Plan>)
    requires subvols != [] && req.DataBricks() > 0
    reads req, req.disperse
  {
    var n, k := |subvols|, |subvols[0].bricks|;
    && AllAlike(subvols, k, req.DataNeed(n))
    && (!overlap ==> (plan.Some? <==> |BrickAllocation.Eligible(vgs, req.DataNeed(n))| >= n * k))
    && (plan.Some? ==> BrickAllocation.AllPlaced(plan.value))
  }

  ghost predicate ArbiterPlaced(req: VolCreateReq, vgs: seq<Vg>, subvols: seq<Subvol>, overlap: bool, plan: Option<Plan>)
    requires subvols != [] && req.DataBricks() > 0
    reads req, req.disperse
  {
    var n, k := |subvols|, req.replicaCount;
    && k >= 2 && Sizes(subvols) == BrickOverlap.Alike(WithArbiter(k, req.DataNeed(n), req.ArbiterNeed(n)), n)
    && ArbiterPlanned(vgs, k, req.DataNeed(n), req.ArbiterNeed(n), n, overlap, plan.Some?)
  }

  lemma LayoutPlaced(req: VolCreateReq, vgs: seq<Vg>, subvols: seq<Subvol>, overlap: bool)
    requires subvols != [] && req.DataBricks() > 0 && (HasArbiter(req) ==> req.replicaCount >= 2 && req.arbiterCount == 1)
    requires req.Uniform(subvols) && req.Proportioned(subvols, req.DataNeed(|subvols|))
    requires forall i :: 0 <= i < |subvols| ==> req.Shaped(subvols[i].bricks) && req.Made(subvols[i], i, Share(req.size, |subvols|, 1))
    ensures var r := BrickAllocation.Plan(vgs, Sizes(subvols), overlap);
            var plan := if r.Some? then Some(r.value.1) else None;
            if HasArbiter(req) then ArbiterPlaced(req, vgs, subvols, overlap, plan) else PlainPlaced(req, vgs, subvols, overlap, plan)
  {
    hide BrickAllocation.Plan, BrickAllocation.Eligible, BrickAllocation.AllPlaced;
    hide AllAlike, ArbiterPlanned, Sizes, WithArbiter, req.DataNeed, req.ArbiterNeed, req.Uniform, req.Proportioned, req.Shaped, req.Made;
    var n := |subvols|;
    if HasArbiter(req) {
      ArbiterShapes(req, subvols);
      ArbiterVolumeExactly(vgs, req.replicaCount, req.DataNeed(n), req.ArbiterNeed(n), n, overlap);
    } else {
      SameCount(req, subvols);
      NoArbiterAlike(req, subvols, |subvols[0].bricks|, req.DataNeed(n));
      AlikePlanExactly(vgs, subvols, |subvols[0].bricks|, req.DataNeed(n), overlap);
    }
  }

  lemma SameCount(req: VolCreateReq, subvols: seq<Subvol>)
    requires subvols != [] && req.DataBricks() > 0
    requires forall i :: 0 <= i < |subvols| ==> req.Made(subvols[i], i, Share(req.size, |subvols|, 1))
    ensures forall i :: 0 <= i < |subvols| ==> |subvols[i].bricks| == |subvols[0].bricks|
  {
  }

  /** Lay out the request and place it. Without arbiters and zone overlap a layout is placed exactly
      when there are enough zones; without arbiters no brick of a placed layout is left out. */
  method PlanVolume(req: VolCreateReq, vgs: seq<Vg>, overlap: bool) returns (layout: Result<seq<Subvol>>, plan: Option<Plan>)
    requires Small(req.disperse.Value()) && !req.disperse.isDisperse
    modifies req, req.disperse
    ensures layout.Ok? ==> vgs != [] && req.CountsOk(old(req.disperse.Value())) && req.LimitOk(old(req.maxBrickSize))
    ensures vgs != [] && req.CountsOk(old(req.disperse.Value())) && req.LimitOk(old(req.maxBrickSize)) ==>
              && req.DataBricks() > 0 && (layout.Ok? <==> req.BigEnough(req.Number(old(req.distributeCount))))
              && (layout.Ok? ==> |layout.value| == req.Number(old(req.distributeCount)))
    ensures plan.Some? <==> layout.Ok? && BrickAllocation.Plan(vgs, Sizes(layout.value), overlap).Some?
    ensures plan.Some? ==> plan.value == BrickAllocation.Plan(vgs, Sizes(layout.value), overlap).value.1
    ensures layout.Ok? ==>
              && req.GoodLayout(layout.value) && req.Uniform(layout.value)
              && forall i :: 0 <= i < |layout.value| ==> req.Made(layout.value[i], i, Share(req.size, |layout.value|, 1))
    ensures layout.Ok? ==>
              && (forall i :: 0 <= i < |layout.value| ==> req.Shaped(layout.value[i].bricks))
              && (req.subvolType.Dispersed? ==>
                    forall i :: 0 <= i < |layout.value| ==>
                      |layout.value[i].bricks| == req.disperse.data + req.disperse.redundancy)
              && Bounded(vgs, Sizes(layout.value), overlap, plan.Some?)
              && if HasArbiter(req) then ArbiterPlaced(req, vgs, layout.value, overlap, plan)
                 else PlainPlaced(req, vgs, layout.value, overlap, plan)
    ensures plan.Some? && !overlap ==> exists zones :: BrickAllocation.PlanSound(vgs, Sizes(layout.value), zones, plan.value)
  {
    hide BrickAllocation.Plan, BrickAllocation.PlanSound, Sizes, Bounded, ArbiterPlaced, PlainPlaced;
    hide req.DataNeed, req.Uniform, req.Proportioned, req.Shaped, req.Made, req.GoodLayout, req.BigEnough, Acceptable, Filled, IsLeast;
    if |vgs| == 0 {
      return Err("no devices"), None;
    }
    layout := req.Layout();
    if layout.Err? {
      return layout, None;
    }
    plan := BrickAllocation.PlanBricks(vgs, Sizes(layout.value), overlap);
    LayoutPlaced(req, vgs, layout.value, overlap);
    PlanBounded(vgs, Sizes(layout.value), overlap);
    if plan.Some? && !overlap {
      BrickAllocation.PlanUsesZonesOnce(vgs, Sizes(layout.value));
    }
  }
}
