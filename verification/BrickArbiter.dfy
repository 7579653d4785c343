/**
 Planning replicate subvolumes with an arbiter: k replicas of one size and then the arbiter, of another.
 */
module BrickArbiter {
  import opened Wrappers
  import opened BrickAllocation
  import opened BrickOverlap

  function Copies(k: nat, z: nat): (r: seq<nat>)
    ensures |r| == k && forall j :: 0 <= j < k ==> r[j] == z
  {
    seq(k, _ => z)
  }

  // ---------------------------------------------------------------- bricks of one size

  lemma FitsIff(vgs: seq<Vg>, z: nat, taken: set<string>, freshOnly: bool)
    ensures FirstFit(vgs, z, taken, freshOnly).Some? <==> Zones(vgs, z, freshOnly) - taken != {}
  {
    var v := FirstFit(vgs, z, taken, freshOnly);
    if v.Some? {
      assert vgs[v.value].zone in Zones(vgs, z, freshOnly) - taken;
    } else {
      forall u | 0 <= u < |vgs| && vgs[u].available >= z && (freshOnly ==> !vgs[u].used)
        ensures vgs[u].zone in taken
      {
        assert !Fits(vgs[u], z, taken, freshOnly);
      }
    }
  }

  /** The zones taken so far are those of the first j devices, and the next is found after them. */
  lemma NextFit(vgs: seq<Vg>, z: nat, base: set<string>, freshOnly: bool, j: nat, v: nat)
    requires j <= |vgs| && FirstFit(vgs, z, base + Zones(vgs[..j], z, freshOnly), freshOnly) == Some(v)
    ensures v < |vgs| && vgs[v].zone !in base + Zones(vgs[..j], z, freshOnly)
    ensures base + Zones(vgs[..j], z, freshOnly) + {vgs[v].zone} == base + Zones(vgs[..v + 1], z, freshOnly)
  {
    var taken := base + Zones(vgs[..j], z, freshOnly);
    assert forall u :: 0 <= u < j ==> vgs[..j][u] == vgs[u];
    assert v >= j;
    forall u | 0 <= u < v && vgs[u].available >= z && (freshOnly ==> !vgs[u].used)
      ensures vgs[u].zone in taken
    {
      assert !Fits(vgs[u], z, taken, freshOnly);
    }
    forall u | 0 <= u < j
      ensures vgs[..v + 1][u] == vgs[..j][u]
    {
    }
  }

  lemma PrefixZones(vgs: seq<Vg>, z: nat, freshOnly: bool, i: nat, j: nat)
    requires i <= j <= |vgs|
    ensures Zones(vgs[..i], z, freshOnly) <= Zones(vgs[..j], z, freshOnly) <= Zones(vgs, z, freshOnly)
    ensures Zones(vgs[..0], z, freshOnly) == {}
  {
    assert forall u :: 0 <= u < i ==> vgs[..i][u] == vgs[..j][u];
    assert forall u :: 0 <= u < j ==> vgs[..j][u] == vgs[u];
  }

  /** A pass over bricks of one size takes the zones of the first devices with room, as many as there are
      bricks or as there are zones. */
  lemma {:induction false} EqualPass(vgs: seq<Vg>, sizes: seq<nat>, z: nat, freshOnly: bool, from: nat, to: nat, a: Alloc)
    returns (j: nat)
    requires from <= to <= |sizes| == |a.placed| && forall i :: from <= i < to ==> sizes[i] == z
    ensures j <= |vgs|
    ensures var b, left := Pass(vgs, sizes, freshOnly, from, to, a), |Zones(vgs, z, freshOnly) - a.zones|;
            && b.zones == a.zones + Zones(vgs[..j], z, freshOnly)
            && b.count - a.count == |Zones(vgs[..j], z, freshOnly) - a.zones|
            && b.count - a.count == if left < to - from then left else to - from
    decreases (to)
  {
    hide Zones, Pass, FirstFit;
    if from == to {
      j := 0;
      PassNone(vgs, sizes, freshOnly, to, a);
      PrefixZones(vgs, z, freshOnly, 0, 0);
    } else {
      j := EqualPass(vgs, sizes, z, freshOnly, from, to - 1, a);
      PassLast(vgs, sizes, freshOnly, from, to, a);
      j := EqualNext(vgs, z, freshOnly, to - 1, a.zones, Pass(vgs, sizes, freshOnly, from, to - 1, a), j);
    }
  }

  /** One brick more. */
  lemma EqualNext(vgs: seq<Vg>, z: nat, freshOnly: bool, k: nat, base: set<string>, p: Alloc, j: nat) returns (i: nat)
    requires k < |p.placed| && j <= |vgs| && p.zones == base + Zones(vgs[..j], z, freshOnly)
    ensures i <= |vgs|
    ensures var b, before, all := Place(vgs, z, freshOnly, k, p), Zones(vgs[..j], z, freshOnly) - base, Zones(vgs, z, freshOnly) - base;
            && b.zones == base + Zones(vgs[..i], z, freshOnly) && |before| <= |all|
            && (|before| < |all| ==> b.count == p.count + 1 && |Zones(vgs[..i], z, freshOnly) - base| == |before| + 1)
            && (|before| == |all| ==> b.count == p.count && i == j)
  {
    hide Zones, FirstFit;
    FitsIff(vgs, z, p.zones, freshOnly);
    PrefixZones(vgs, z, freshOnly, j, |vgs|);
    var v := FirstFit(vgs, z, p.zones, freshOnly);
    var before, all := Zones(vgs[..j], z, freshOnly) - base, Zones(vgs, z, freshOnly) - base;
    CardLe(before, all);
    if v.Some? {
      NextFit(vgs, z, base, freshOnly, j, v.value);
      var zone := vgs[v.value].zone;
      i := v.value + 1;
      assert Zones(vgs[..i], z, freshOnly) - base == before + {zone};
      PrefixZones(vgs, z, freshOnly, i, |vgs|);
      CardLe(before + {zone}, all);
    } else {
      i := j;
      EmptyDiff(Zones(vgs, z, freshOnly), p.zones);
      assert all == before;
    }
  }

  lemma EmptyDiff(a: set<string>, b: set<string>)
    ensures a - b == {} <==> a <= b
  {
    if a - b == {} {
      forall x | x in a
        ensures x in b
      {
        assert x in b || x in a - b;
      }
    }
  }

  lemma CardLe(a: set<string>, b: set<string>)
    requires a <= b
    ensures |a| <= |b| && |b - a| == |b| - |a|
  {
    assert b == a + (b - a);
  }

  /** The first p zones do not depend on how far one looks. */
  lemma SameFirst(vgs: seq<Vg>, z: nat, base: set<string>, freshOnly: bool, i: nat, j: nat)
    requires i <= |vgs| && j <= |vgs|
    requires |Zones(vgs[..i], z, freshOnly) - base| == |Zones(vgs[..j], z, freshOnly) - base|
    ensures Zones(vgs[..i], z, freshOnly) - base == Zones(vgs[..j], z, freshOnly) - base
  {
    hide Zones;
    var l, h := if i <= j then i else j, if i <= j then j else i;
    PrefixZones(vgs, z, freshOnly, l, h);
    var x, y := Zones(vgs[..l], z, freshOnly) - base, Zones(vgs[..h], z, freshOnly) - base;
    CardLe(x, y);
    assert y == x + (y - x);
  }

  // ---------------------------------------------------------------- the passes over such a subvolume

  /** The state after the replicas of the first pass. */
  function Replicas(vgs: seq<Vg>, k: nat, z: nat, a: nat, base: set<string>): (p: Alloc)
    ensures |p.placed| == k + 1
  {
    Pass(vgs, Copies(k, z) + [a], true, 0, k, Blank(base, k + 1))
  }

  lemma FirstPass(vgs: seq<Vg>, k: nat, z: nat, a: nat, base: set<string>)
    ensures var sizes, p := Copies(k, z) + [a], Replicas(vgs, k, z, a, base);
            var b := Place(vgs, a, true, k, p);
            && |b.placed| == k + 1 && b.count <= k + 1
            && TwoPasses(vgs, sizes, base) == if b.count == k + 1 then b else Pass(vgs, sizes, false, b.count, k + 1, b)
  {
    var sizes := Copies(k, z) + [a];
    assert sizes[k] == a;
    PassLast(vgs, sizes, true, 0, k + 1, Blank(base, k + 1));
    hide Pass, Place;
  }

  lemma TakeBoth(s: set<string>, x: set<string>, y: set<string>)
    ensures s - (x + y) == s - x - y
  {
  }

  lemma PlaceCounts(vgs: seq<Vg>, a: nat, freshOnly: bool, k: nat, p: Alloc)
    requires k < |p.placed|
    ensures Place(vgs, a, freshOnly, k, p).count == p.count + if Zones(vgs, a, freshOnly) - p.zones != {} then 1 else 0
  {
    FitsIff(vgs, a, p.zones, freshOnly);
  }

  /** The second pass from brick c on: the other replicas, and then the arbiter. */
  lemma SecondPass(vgs: seq<Vg>, k: nat, z: nat, a: nat, c: nat, b: Alloc) returns (j: nat)
    requires c <= k && |b.placed| == k + 1
    ensures j <= |vgs| && (|Zones(vgs, z, false) - b.zones| >= k - c ==> |Zones(vgs[..j], z, false) - b.zones| == k - c)
    ensures var e := Pass(vgs, Copies(k, z) + [a], false, c, k + 1, b);
            e.count == b.count + (k + 1 - c) <==>
              && |Zones(vgs, z, false) - b.zones| >= k - c && |Zones(vgs[..j], z, false) - b.zones| == k - c
              && Zones(vgs, a, false) - b.zones - Zones(vgs[..j], z, false) != {}
  {
    var sizes := Copies(k, z) + [a];
    assert sizes[k] == a;
    j := EqualPass(vgs, sizes, z, false, c, k, b);
    hide *;
    LastOfPass(vgs, sizes, a, c, k, b, Zones(vgs[..j], z, false));
  }

  lemma LastOfPass(vgs: seq<Vg>, sizes: seq<nat>, a: nat, c: nat, k: nat, b: Alloc, taken: set<string>)
    requires c <= k && |sizes| == |b.placed| == k + 1 && sizes[k] == a
    requires Pass(vgs, sizes, false, c, k, b).zones == b.zones + taken
    ensures Pass(vgs, sizes, false, c, k + 1, b).count ==
            Pass(vgs, sizes, false, c, k, b).count + if Zones(vgs, a, false) - b.zones - taken != {} then 1 else 0
  {
    hide *;
    PassLast(vgs, sizes, false, c, k + 1, b);
    PlaceCounts(vgs, a, false, k, Pass(vgs, sizes, false, c, k, b));
    TakeBoth(Zones(vgs, a, false), b.zones, taken);
  }

  // ---------------------------------------------------------------- exactly when it is placed

  /** An arbiter no bigger than the replicas: enough zones for all of them, and for the replicas; or one
      too few for the replicas, when the first pass gives the arbiter a zone that has no room for one. */
  ghost predicate SmallArbiterFits(vgs: seq<Vg>, k: nat, z: nat, a: nat, base: set<string>) {
    var room, all := Zones(vgs, a, false) - base, Zones(vgs, z, false) - base;
    var v := FirstFit(vgs, a, base + Zones(vgs, z, true), true);
    |room| >= k + 1 && (|all| >= k || (|all| + 1 == k && v.Some? && vgs[v.value].zone !in all))
  }

  /** A bigger arbiter: enough zones for the replicas, and room for it outside the zones of the first
      devices that they take, unused ones before others. */
  ghost predicate BigArbiterFits(vgs: seq<Vg>, k: nat, z: nat, a: nat, base: set<string>) {
    var room, all, unused := Zones(vgs, a, false) - base, Zones(vgs, z, false) - base, Zones(vgs, z, true) - base;
    && |all| >= k
    && if |unused| >= k
       then exists j | 0 <= j <= |vgs| :: |Zones(vgs[..j], z, true) - base| == k && room - Zones(vgs[..j], z, true) != {}
       else exists j | 0 <= j <= |vgs| :: |Zones(vgs[..j], z, false) - (base + unused)| == k - |unused|
                                          && room - unused - Zones(vgs[..j], z, false) != {}
  }

  lemma ZonesShrink(vgs: seq<Vg>, z: nat, w: nat, freshOnly: bool)
    requires z <= w
    ensures Zones(vgs, w, freshOnly) <= Zones(vgs, z, freshOnly) && Zones(vgs, w, true) <= Zones(vgs, w, false)
  {
  }

  /** The first pass places all replicas. */
  lemma EnoughUnused(vgs: seq<Vg>, k: nat, z: nat, a: nat, base: set<string>) returns (j: nat)
    requires |Zones(vgs, z, true) - base| >= k
    ensures j <= |vgs| && |Zones(vgs[..j], z, true) - base| == k
    ensures Succeeds(vgs, Copies(k, z) + [a], base) <==> Zones(vgs, a, false) - base - Zones(vgs[..j], z, true) != {}
  {
    var sizes := Copies(k, z) + [a];
    assert sizes[k] == a;
    hide Pass, Zones, FirstFit;
    j := EqualPass(vgs, sizes, z, true, 0, k, Blank(base, k + 1));
    var p := Replicas(vgs, k, z, a, base);
    FirstPass(vgs, k, z, a, base);
    FitsIff(vgs, a, p.zones, true);
    FitsIff(vgs, a, p.zones, false);
    ZonesShrink(vgs, a, a, true);
    assert Zones(vgs, a, false) - p.zones == Zones(vgs, a, false) - base - Zones(vgs[..j], z, true);
    if FirstFit(vgs, a, p.zones, true).Some? {
      assert Zones(vgs, a, true) - p.zones <= Zones(vgs, a, false) - p.zones;
    } else {
      PassLast(vgs, sizes, false, k, k + 1, p);
      PassNone(vgs, sizes, false, k, p);
    }
  }

  /** Or as many as there are zones with an unused device. */
  lemma FewUnused(vgs: seq<Vg>, k: nat, z: nat, a: nat, base: set<string>)
    requires |Zones(vgs, z, true) - base| < k
    ensures var p := Replicas(vgs, k, z, a, base);
            p.count == |Zones(vgs, z, true) - base| && p.zones == base + Zones(vgs, z, true)
  {
    hide Pass, Zones;
    var j := EqualPass(vgs, Copies(k, z) + [a], z, true, 0, k, Blank(base, k + 1));
    PrefixZones(vgs, z, true, j, |vgs|);
    var some, unused := Zones(vgs[..j], z, true) - base, Zones(vgs, z, true) - base;
    CardLe(some, unused);
    assert unused == some + (unused - some);
    assert base + unused == base + Zones(vgs, z, true) && base + some == base + Zones(vgs[..j], z, true);
  }

  /** Then the arbiter takes an unused device of the first pass, or none, and the second goes on after as
      many bricks as were placed. */
  lemma FewUnusedSucceed(vgs: seq<Vg>, k: nat, z: nat, a: nat, base: set<string>, c: nat, taken: set<string>) returns (j: nat)
    requires |Zones(vgs, z, true) - base| < k
    requires var v := FirstFit(vgs, a, base + Zones(vgs, z, true), true);
             && c == |Zones(vgs, z, true) - base| + (if v.Some? then 1 else 0)
             && taken == base + Zones(vgs, z, true) + (if v.Some? then {vgs[v.value].zone} else {})
    ensures j <= |vgs| && (|Zones(vgs, z, false) - taken| >= k - c ==> |Zones(vgs[..j], z, false) - taken| == k - c)
    ensures Succeeds(vgs, Copies(k, z) + [a], base) <==>
              && |Zones(vgs, z, false) - taken| >= k - c && |Zones(vgs[..j], z, false) - taken| == k - c
              && Zones(vgs, a, false) - taken - Zones(vgs[..j], z, false) != {}
  {
    hide Pass, Zones, FirstFit;
    FewUnused(vgs, k, z, a, base);
    FirstPass(vgs, k, z, a, base);
    var b := Place(vgs, a, true, k, Replicas(vgs, k, z, a, base));
    assert b.count == c && b.zones == taken;
    j := SecondPass(vgs, k, z, a, c, b);
  }

  lemma LeftOver(room: set<string>, x: set<string>, y: set<string>)
    requires x <= room && y <= room && x !! y
    ensures room - x - y != {} <==> |room| > |x| + |y|
  {
    assert |x + y| == |x| + |y|;
    CardLe(x + y, room);
    assert room - x - y == room - (x + y);
    EmptyDiff(room, x + y);
    if room <= x + y {
      assert room == x + y;
    }
  }

  lemma SmallArbiterExactly(vgs: seq<Vg>, k: nat, z: nat, a: nat, base: set<string>)
    requires a <= z
    ensures Succeeds(vgs, Copies(k, z) + [a], base) <==> SmallArbiterFits(vgs, k, z, a, base)
  {
    hide *;
    if |Zones(vgs, z, true) - base| >= k {
      SmallEnough(vgs, k, z, a, base);
    } else {
      SmallFew(vgs, k, z, a, base);
    }
  }

  lemma SmallEnough(vgs: seq<Vg>, k: nat, z: nat, a: nat, base: set<string>)
    requires a <= z && |Zones(vgs, z, true) - base| >= k
    ensures Succeeds(vgs, Copies(k, z) + [a], base) <==> SmallArbiterFits(vgs, k, z, a, base)
  {
    hide Zones, FirstFit, Succeeds;
    var room, all, unused := Zones(vgs, a, false) - base, Zones(vgs, z, false) - base, Zones(vgs, z, true) - base;
    ZonesShrink(vgs, a, z, false);
    ZonesShrink(vgs, z, z, true);
    CardLe(unused, all);
    var j := EnoughUnused(vgs, k, z, a, base);
    PrefixZones(vgs, z, true, j, |vgs|);
    var x := Zones(vgs[..j], z, true) - base;
    LeftOver(room, x, {});
    assert Zones(vgs, a, false) - base - Zones(vgs[..j], z, true) == room - x - {};
  }

  lemma SmallFew(vgs: seq<Vg>, k: nat, z: nat, a: nat, base: set<string>)
    requires a <= z && |Zones(vgs, z, true) - base| < k
    ensures Succeeds(vgs, Copies(k, z) + [a], base) <==> SmallArbiterFits(vgs, k, z, a, base)
  {
    hide Zones, FirstFit, Succeeds;
    var room, all, unused := Zones(vgs, a, false) - base, Zones(vgs, z, false) - base, Zones(vgs, z, true) - base;
    ZonesShrink(vgs, a, z, false);
    ZonesShrink(vgs, z, z, true);
    ZonesShrink(vgs, a, a, true);
    var v := FirstFit(vgs, a, base + Zones(vgs, z, true), true);
    var mine := if v.Some? then {vgs[v.value].zone} else {};
    var taken := base + Zones(vgs, z, true) + mine;
    var j := FewUnusedSucceed(vgs, k, z, a, base, |unused| + |mine|, taken);
    PrefixZones(vgs, z, false, j, |vgs|);
    MineIsRoom(vgs, a, base + Zones(vgs, z, true));
    var y := Zones(vgs[..j], z, false) - taken;
    assert Zones(vgs, z, false) - taken == all - unused - mine;
    assert Zones(vgs, a, false) - taken - Zones(vgs[..j], z, false) == room - (unused + mine) - y;
    SmallCount(room, all, unused, mine, y, k);
  }

  lemma MineIsRoom(vgs: seq<Vg>, a: nat, taken: set<string>)
    ensures var v := FirstFit(vgs, a, taken, true);
            v.Some? ==> v.value < |vgs| && vgs[v.value].zone in Zones(vgs, a, true) - taken
  {
  }

  /** The numbers: the replicas left need zones of their own, and the arbiter one more. */
  lemma SmallCount(room: set<string>, all: set<string>, unused: set<string>, mine: set<string>, y: set<string>, k: nat)
    requires unused <= all <= room && mine <= room && mine !! unused && |mine| <= 1 && |unused| < k
    requires y <= all - unused - mine
    requires |all - unused - mine| >= k - |unused| - |mine| ==> |y| == k - |unused| - |mine|
    ensures && |all - unused - mine| >= k - |unused| - |mine| && |y| == k - |unused| - |mine|
            && room - (unused + mine) - y != {}
            <==> |room| >= k + 1 && (|all| >= k || (|all| + 1 == k && mine != {} && mine !! all))
  {
    LeftOver(room, unused + mine, y);
    assert |unused + mine| == |unused| + |mine|;
    CardLe(unused, all);
    CardLe((all - unused) * mine, all - unused);
    assert all - unused - mine == all - unused - (all - unused) * mine;
    OneOrNone(mine, all);
    assert (all - unused) * mine == all * mine;
  }

  lemma OneOrNone(mine: set<string>, all: set<string>)
    requires |mine| <= 1
    ensures if mine == {} || mine !! all then |all * mine| == 0 else |all * mine| == 1 == |mine|
  {
    if mine != {} {
      var x :| x in mine;
      CardLe({x}, mine);
      assert mine == {x};
      assert all * mine == if x in all then {x} else {};
    }
  }

  lemma BigArbiterExactly(vgs: seq<Vg>, k: nat, z: nat, a: nat, base: set<string>)
    requires a > z
    ensures Succeeds(vgs, Copies(k, z) + [a], base) <==> BigArbiterFits(vgs, k, z, a, base)
  {
    hide *;
    if |Zones(vgs, z, true) - base| >= k {
      BigEnough(vgs, k, z, a, base);
    } else {
      BigFew(vgs, k, z, a, base);
    }
  }

  lemma BigEnough(vgs: seq<Vg>, k: nat, z: nat, a: nat, base: set<string>)
    requires a > z && |Zones(vgs, z, true) - base| >= k
    ensures Succeeds(vgs, Copies(k, z) + [a], base) <==> BigArbiterFits(vgs, k, z, a, base)
  {
    hide Zones, FirstFit, Succeeds;
    var room := Zones(vgs, a, false) - base;
    ZonesShrink(vgs, z, z, true);
    CardLe(Zones(vgs, z, true) - base, Zones(vgs, z, false) - base);
    var j := EnoughUnused(vgs, k, z, a, base);
    if i :| 0 <= i <= |vgs| && |Zones(vgs[..i], z, true) - base| == k && room - Zones(vgs[..i], z, true) != {} {
      SameFirst(vgs, z, base, true, i, j);
      assert room - Zones(vgs[..i], z, true) == room - (Zones(vgs[..i], z, true) - base);
      assert room - Zones(vgs[..j], z, true) == room - (Zones(vgs[..j], z, true) - base);
    }
  }

  lemma BigFew(vgs: seq<Vg>, k: nat, z: nat, a: nat, base: set<string>)
    requires a > z && |Zones(vgs, z, true) - base| < k
    ensures Succeeds(vgs, Copies(k, z) + [a], base) <==> BigArbiterFits(vgs, k, z, a, base)
  {
    hide Zones, FirstFit, Succeeds;
    var room, all, unused := Zones(vgs, a, false) - base, Zones(vgs, z, false) - base, Zones(vgs, z, true) - base;
    ZonesShrink(vgs, z, a, true);
    ZonesShrink(vgs, z, z, true);
    var taken := base + Zones(vgs, z, true);
    assert taken == base + unused;
    FitsIff(vgs, a, taken, true);
    EmptyDiff(Zones(vgs, a, true), taken);
    var j := FewUnusedSucceed(vgs, k, z, a, base, |unused|, taken);
    CardLe(unused, all);
    assert Zones(vgs, z, false) - taken == all - unused;
    assert Zones(vgs, a, false) - taken - Zones(vgs[..j], z, false) == room - unused - Zones(vgs[..j], z, false);
    if i :| |all| >= k && 0 <= i <= |vgs| && |Zones(vgs[..i], z, false) - (base + unused)| == k - |unused|
            && room - unused - Zones(vgs[..i], z, false) != {} {
      SameFirst(vgs, z, taken, false, i, j);
      assert room - unused - Zones(vgs[..i], z, false) == room - unused - (Zones(vgs[..i], z, false) - taken);
      assert room - unused - Zones(vgs[..j], z, false) == room - unused - (Zones(vgs[..j], z, false) - taken);
    }
  }

  ghost predicate ArbiterFits(vgs: seq<Vg>, k: nat, z: nat, a: nat, base: set<string>) {
    if a <= z then SmallArbiterFits(vgs, k, z, a, base) else BigArbiterFits(vgs, k, z, a, base)
  }

  /** Exactly when k replicas of size z and an arbiter of size a are placed, on any devices and with any
      zones taken before. */
  lemma ArbiterSucceedsExactly(vgs: seq<Vg>, k: nat, z: nat, a: nat, base: set<string>)
    ensures Succeeds(vgs, Copies(k, z) + [a], base) <==> ArbiterFits(vgs, k, z, a, base)
  {
    hide Succeeds, SmallArbiterFits, BigArbiterFits;
    if a <= z {
      SmallArbiterExactly(vgs, k, z, a, base);
    } else {
      BigArbiterExactly(vgs, k, z, a, base);
    }
  }

  // ---------------------------------------------------------------- unused devices, biggest first

  /** The zones of the first j devices. */
  ghost function FirstZones(vgs: seq<Vg>, j: nat): set<string>
    requires j <= |vgs|
  {
    set d | 0 <= d < j :: vgs[d].zone
  }

  ghost predicate TakenInOrder(vgs: seq<Vg>, taken: set<string>) {
    exists j | 0 <= j <= |vgs| :: taken == FirstZones(vgs, j)
  }

  ghost predicate AllUnusedSorted(vgs: seq<Vg>) {
    MostSpaceFirst(vgs) && forall v :: 0 <= v < |vgs| ==> !vgs[v].used
  }

  /** On unused devices, biggest first, zones are taken in the order of the devices whatever the sizes. */
  lemma PlaceInOrder(vgs: seq<Vg>, size: nat, freshOnly: bool, k: nat, a: Alloc)
    requires AllUnusedSorted(vgs) && k < |a.placed| && TakenInOrder(vgs, a.zones)
    ensures var b := Place(vgs, size, freshOnly, k, a);
            TakenInOrder(vgs, b.zones) && a.zones <= b.zones && |b.zones| - |a.zones| == b.count - a.count
  {
    var j :| 0 <= j <= |vgs| && a.zones == FirstZones(vgs, j);
    var v := FirstFit(vgs, size, a.zones, freshOnly);
    if v.Some? {
      assert v.value >= j;
      forall u | 0 <= u < v.value
        ensures vgs[u].zone in a.zones
      {
        assert !Fits(vgs[u], size, a.zones, freshOnly);
      }
      assert a.zones + {vgs[v.value].zone} == FirstZones(vgs, v.value + 1);
    }
  }

  lemma {:induction false} PassInOrder(vgs: seq<Vg>, sizes: seq<nat>, freshOnly: bool, from: nat, to: nat, a: Alloc)
    requires AllUnusedSorted(vgs) && from <= to <= |sizes| == |a.placed| && TakenInOrder(vgs, a.zones)
    ensures var b := Pass(vgs, sizes, freshOnly, from, to, a);
            TakenInOrder(vgs, b.zones) && a.zones <= b.zones && |b.zones| - |a.zones| == b.count - a.count
    decreases (to)
  {
    hide TakenInOrder, AllUnusedSorted, Place, Pass;
    if from == to {
      PassNone(vgs, sizes, freshOnly, to, a);
    } else {
      PassInOrder(vgs, sizes, freshOnly, from, to - 1, a);
      PassLast(vgs, sizes, freshOnly, from, to, a);
      PlaceInOrder(vgs, sizes[to - 1], freshOnly, to - 1, Pass(vgs, sizes, freshOnly, from, to - 1, a));
    }
  }

  /** A subvolume takes as many zones as it has bricks. */
  lemma SubvolInOrder(vgs: seq<Vg>, sizes: seq<nat>, base: set<string>)
    requires AllUnusedSorted(vgs) && TakenInOrder(vgs, base) && Succeeds(vgs, sizes, base)
    ensures var after := TwoPasses(vgs, sizes, base).zones; TakenInOrder(vgs, after) && |after| == |base| + |sizes|
  {
    hide TakenInOrder, AllUnusedSorted;
    var blank := Blank(base, |sizes|);
    PassInOrder(vgs, sizes, true, 0, |sizes|, blank);
    var a := Pass(vgs, sizes, true, 0, |sizes|, blank);
    PassInOrder(vgs, sizes, false, a.count, |sizes|, a);
    hide Pass;
  }

  lemma OrderedOrAll(vgs: seq<Vg>, w: nat, taken: set<string>)
    requires AllUnusedSorted(vgs) && TakenInOrder(vgs, taken)
    ensures taken <= Eligible(vgs, w) || Eligible(vgs, w) <= taken
  {
    var j :| 0 <= j <= |vgs| && taken == FirstZones(vgs, j);
    if d :| 0 <= d < j && vgs[d].available < w {
      forall zone | zone in Eligible(vgs, w)
        ensures zone in taken
      {
        var u :| 0 <= u < |vgs| && vgs[u].available >= w && vgs[u].zone == zone;
        assert u < d;
      }
    }
  }

  /** What is left with room for w is a matter of numbers. */
  lemma LeftInOrder(vgs: seq<Vg>, w: nat, taken: set<string>)
    requires AllUnusedSorted(vgs) && TakenInOrder(vgs, taken)
    ensures |Eligible(vgs, w) - taken| == if |taken| <= |Eligible(vgs, w)| then |Eligible(vgs, w)| - |taken| else 0
  {
    hide *;
    OrderedOrAll(vgs, w, taken);
    var e := Eligible(vgs, w);
    if taken <= e {
      CardLe(taken, e);
    } else {
      CardLe(e, taken);
      EmptyDiff(e, taken);
    }
  }

  /** There a subvolume is placed exactly when there are zones for all bricks, and for all replicas but
      one. */
  lemma UnusedArbiterExactly(vgs: seq<Vg>, k: nat, z: nat, a: nat, base: set<string>)
    requires AllUnusedSorted(vgs) && TakenInOrder(vgs, base)
    ensures Succeeds(vgs, Copies(k, z) + [a], base) <==>
            |Eligible(vgs, a) - base| >= k + 1 && |Eligible(vgs, z) - base| + 1 >= k
  {
    hide Succeeds, SmallArbiterFits, BigArbiterFits, TakenInOrder;
    ArbiterSucceedsExactly(vgs, k, z, a, base);
    if a <= z {
      AllZonesUnused(vgs);
      UnusedSmall(vgs, k, z, a, base);
    } else {
      UnusedBig(vgs, k, z, a, base);
    }
  }

  lemma UnusedSmall(vgs: seq<Vg>, k: nat, z: nat, a: nat, base: set<string>)
    requires a <= z && forall w: nat :: Zones(vgs, w, true) == Zones(vgs, w, false) == Eligible(vgs, w)
    ensures SmallArbiterFits(vgs, k, z, a, base) <==>
            |Eligible(vgs, a) - base| >= k + 1 && |Eligible(vgs, z) - base| + 1 >= k
  {
    hide Zones, FirstFit, Eligible;
    var room, all := Zones(vgs, a, false) - base, Zones(vgs, z, false) - base;
    var taken := base + Zones(vgs, z, true);
    ZonesShrink(vgs, a, z, false);
    FitsIff(vgs, a, taken, true);
    MineIsRoom(vgs, a, taken);
    CardLe(all, room);
    assert Zones(vgs, a, true) - taken == room - all;
  }

  lemma AllZonesUnused(vgs: seq<Vg>)
    requires AllUnusedSorted(vgs)
    ensures forall w: nat :: Zones(vgs, w, true) == Zones(vgs, w, false) == Eligible(vgs, w)
  {
  }

  lemma UnusedBig(vgs: seq<Vg>, k: nat, z: nat, a: nat, base: set<string>)
    requires a > z && AllUnusedSorted(vgs)
    ensures BigArbiterFits(vgs, k, z, a, base) <==>
            |Eligible(vgs, a) - base| >= k + 1 && |Eligible(vgs, z) - base| + 1 >= k
  {
    AllZonesUnused(vgs);
    hide *;
    var room, all := Zones(vgs, a, false) - base, Zones(vgs, z, false) - base;
    ZonesShrink(vgs, z, a, false);
    CardLe(room, all);
    if |all| >= k {
      var j := EnoughUnused(vgs, k, z, a, base);
      UnusedBigAt(vgs, k, z, a, base, j);
      BigEnough(vgs, k, z, a, base);
    } else {
      TooFew(vgs, k, z, a, base);
    }
  }

  lemma TooFew(vgs: seq<Vg>, k: nat, z: nat, a: nat, base: set<string>)
    requires |Zones(vgs, z, false) - base| < k
    ensures !BigArbiterFits(vgs, k, z, a, base)
  {
  }

  /** The replicas take the zones of the first devices, all of them with room for the arbiter when any is
      left. */
  lemma UnusedBigAt(vgs: seq<Vg>, k: nat, z: nat, a: nat, base: set<string>, j: nat)
    requires a > z && AllUnusedSorted(vgs) && j <= |vgs| && |Zones(vgs[..j], z, true) - base| == k
    ensures Zones(vgs, a, false) - base - Zones(vgs[..j], z, true) != {} <==> |Zones(vgs, a, false) - base| >= k + 1
  {
    hide *;
    var first, room := Zones(vgs[..j], z, true), Zones(vgs, a, false) - base;
    EmptyDiff(room, first);
    if room <= first {
      CardLe(room, first - base);
    } else {
      var r :| r in room && r !in first;
      PrefixHasRoom(vgs, z, a, j, r);
      CardLe(first - base + {r}, room);
    }
  }

  /** When a zone with more room comes after the first j devices, they all have as much. */
  lemma PrefixHasRoom(vgs: seq<Vg>, z: nat, a: nat, j: nat, r: string)
    requires a > z && AllUnusedSorted(vgs) && j <= |vgs| && r in Zones(vgs, a, false) && r !in Zones(vgs[..j], z, true)
    ensures Zones(vgs[..j], z, true) <= Zones(vgs, a, false)
  {
    var d :| 0 <= d < |vgs| && vgs[d].available >= a && vgs[d].zone == r;
    assert forall u :: 0 <= u < j ==> vgs[..j][u] == vgs[u];
    assert d >= j;
    assert forall u :: 0 <= u < j ==> vgs[u].available >= a;
  }

  // ---------------------------------------------------------------- whole plans

  /** On any devices, one subvolume more is placed without zone overlap exactly when it fits into the
      zones that those before it left, one taken for each of their bricks. */
  lemma ArbiterPlanStep(vgs: seq<Vg>, k: nat, z: nat, a: nat, n: nat)
    requires n >= 1
    ensures var sizes := Copies(k, z) + [a];
            var before := Plan(vgs, Alike(sizes, n - 1), false);
            && (before.Some? ==> |before.value.0| == (n - 1) * (k + 1))
            && (Plan(vgs, Alike(sizes, n), false).Some? <==> before.Some? && ArbiterFits(vgs, k, z, a, before.value.0))
  {
    var sizes := Copies(k, z) + [a];
    hide ArbiterFits, TwoPasses, Eligible, Succeeds;
    var before := Plan(vgs, Alike(sizes, n - 1), false);
    assert Alike(sizes, n)[..n - 1] == Alike(sizes, n - 1);
    if before.Some? {
      PlanNeedsZones(vgs, Alike(sizes, n - 1), 0);
      TotalOfEqual(Alike(sizes, n - 1), k + 1);
      ArbiterSucceedsExactly(vgs, k, z, a, before.value.0);
    }
  }

  /** n subvolumes of k replicas and an arbiter are placed without zone overlap, on unused devices with the
      biggest first, exactly when there are zones with room for an arbiter for all bricks, and zones with
      room for a replica for all but two: the last arbiter, and a replica that the planner may leave out. */
  lemma {:induction false} UnusedArbiterPlanExactly(vgs: seq<Vg>, k: nat, z: nat, a: nat, n: nat)
    requires AllUnusedSorted(vgs) && k >= 2
    ensures Plan(vgs, Alike(Copies(k, z) + [a], n), false).Some? <==>
            n == 0 || (|Eligible(vgs, a)| >= n * (k + 1) && |Eligible(vgs, z)| + 2 >= n * (k + 1))
    ensures Plan(vgs, Alike(Copies(k, z) + [a], n), false).Some? ==>
              var taken := Plan(vgs, Alike(Copies(k, z) + [a], n), false).value.0;
              TakenInOrder(vgs, taken) && |taken| == n * (k + 1)
  {
    var sizes := Copies(k, z) + [a];
    hide TwoPasses, Eligible, Copies;
    if n == 0 {
      assert FirstZones(vgs, 0) == {};
    } else {
      var before := Plan(vgs, Alike(sizes, n - 1), false);
      assert Alike(sizes, n)[..n - 1] == Alike(sizes, n - 1);
      UnusedArbiterPlanExactly(vgs, k, z, a, n - 1);
      if before.Some? {
        ArbiterPlanNext(vgs, k, z, a, n, before.value.0);
      } else {
        FewerFit(|Eligible(vgs, a)|, |Eligible(vgs, z)|, k, n);
      }
    }
  }

  lemma FewerFit(room: nat, all: nat, k: nat, n: nat)
    requires n >= 1
    ensures n * (k + 1) == (n - 1) * (k + 1) + k + 1
    ensures room >= n * (k + 1) && all + 2 >= n * (k + 1) ==> room >= (n - 1) * (k + 1) && all + 2 >= (n - 1) * (k + 1)
  {
  }

  lemma ArbiterPlanNext(vgs: seq<Vg>, k: nat, z: nat, a: nat, n: nat, taken: set<string>)
    requires AllUnusedSorted(vgs) && k >= 2 && n >= 1 && TakenInOrder(vgs, taken) && |taken| == (n - 1) * (k + 1)
    ensures var sizes := Copies(k, z) + [a];
            && (Succeeds(vgs, sizes, taken) <==> |Eligible(vgs, a)| >= n * (k + 1) && |Eligible(vgs, z)| + 2 >= n * (k + 1))
            && (Succeeds(vgs, sizes, taken) ==>
                  var after := TwoPasses(vgs, sizes, taken).zones; TakenInOrder(vgs, after) && |after| == n * (k + 1))
  {
    hide AllUnusedSorted, TakenInOrder, Eligible, Succeeds, Copies, TwoPasses;
    var sizes := Copies(k, z) + [a];
    FewerFit(|Eligible(vgs, a)|, |Eligible(vgs, z)|, k, n);
    UnusedArbiterExactly(vgs, k, z, a, taken);
    LeftInOrder(vgs, a, taken);
    LeftInOrder(vgs, z, taken);
    if Succeeds(vgs, sizes, taken) {
      SubvolInOrder(vgs, sizes, taken);
    }
  }
}
