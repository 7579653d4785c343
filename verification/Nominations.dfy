/**
 The leader's nomination round of the elastic etcd cluster: bring the nominees inside the volunteers
 and to the ideal size, changing as little as needed.
 */
module Nominations {
  import opened Wrappers

  /** The items of a that are not in b, in order. */
  function Without(a: seq<string>, b: seq<string>): seq<string> {
    if a == [] then []
    else Without(a[..|a| - 1], b) + if a[|a| - 1] in b then [] else [a[|a| - 1]]
  }

  /** The order is that of a. */
  lemma {:induction false} WithoutInOrder(a: seq<string>, x: string, c: seq<string>, b: seq<string>)
    ensures Without(a + [x] + c, b) == Without(a, b) + (if x in b then [] else [x]) + Without(c, b)
    decreases |c|
  {
    var s := a + [x] + c;
    if c == [] {
      assert s[..|s| - 1] == a;
    } else {
      assert s[..|s| - 1] == a + [x] + c[..|c| - 1];
      WithoutInOrder(a, x, c[..|c| - 1], b);
    }
  }

  /** The first items of what is left are what is left of the first items. */
  lemma {:induction false} FirstLeft(a: seq<string>, b: seq<string>, m: nat) returns (i: nat)
    requires m <= |Without(a, b)|
    ensures i <= |a| && Without(a, b)[..m] == Without(a[..i], b)
  {
    if m == |Without(a, b)| {
      i := |a|;
      assert a[..i] == a;
    } else {
      var n := |a| - 1;
      i := FirstLeft(a[..n], b, m);
      assert a[..n][..i] == a[..i];
    }
  }

  lemma {:induction false} WithoutHas(a: seq<string>, b: seq<string>)
    ensures forall x :: x in Without(a, b) <==> x in a && x !in b
    ensures Distinct(a) ==> Distinct(Without(a, b))
  {
    if a != [] {
      var a', l := a[..|a| - 1], a[|a| - 1];
      WithoutHas(a', b);
      assert forall x :: x in a' + [l] <==> x in a' || x == l;
      assert a == a' + [l];
      if l in b {
        assert Without(a, b) == Without(a', b);
      } else {
        assert Without(a, b) == Without(a', b) + [l];
        assert Distinct(a) ==> l !in a';
      }
    }
  }

  lemma WithoutElems(a: seq<string>, b: seq<string>)
    ensures Elems(Without(a, b)) == Elems(a) - Elems(b)
    ensures Distinct(a) ==> Distinct(Without(a, b))
  {
    WithoutHas(a, b);
  }

  lemma ElemsSnoc(s: seq<string>, i: nat)
    requires i < |s|
    ensures Elems(s[..i + 1]) == Elems(s[..i]) + {s[i]} && s[i] in Elems(s)
    ensures Distinct(s) ==> s[i] !in Elems(s[..i])
  {
  }

  lemma {:induction false} DistinctCard(s: seq<string>)
    requires Distinct(s)
    ensures |Elems(s)| == |s|
  {
    if s != [] {
      var t := s[..|s| - 1];
      DistinctCard(t);
      assert s == t + [s[|s| - 1]];
      assert Elems(s) == Elems(t) + {s[|s| - 1]};
      assert s[|s| - 1] !in t;
    }
  }

  lemma EmptyElems(s: seq<string>)
    ensures Elems(s[..0]) == {}
  {
  }

  method DiffStringSlices(a: seq<string>, b: seq<string>) returns (diff: seq<string>)
    ensures diff == Without(a, b)
  {
    diff := [];
    var bmap: set<string> := {};
    for i := 0 to |b|
      invariant bmap == Elems(b[..i])
    {
      assert b[..i + 1] == b[..i] + [b[i]];
      bmap := bmap + {b[i]};
    }
    assert b[..|b|] == b;
    for i := 0 to |a|
      invariant diff == Without(a[..i], b)
    {
      assert a[..i + 1][..i] == a[..i];
      if a[i] !in bmap {
        diff := diff + [a[i]];
      }
    }
    assert a[..|a|] == a;
  }

  method CompareStringSlices(a: seq<string>, b: seq<string>) returns (same: bool)
    ensures same <==> a == b
  {
    if |a| != |b| {
      return false;
    }
    for i := 0 to |a|
      invariant a[..i] == b[..i]
    {
      if a[i] != b[i] {
        return false;
      }
    }
    return true;
  }

  function Min(a: int, b: int): int {
    if a < b then a else b
  }

  /** What a round makes of the nominees n, given the volunteers v: nominees that still volunteer are
      kept while there is room for them, the leader always, and others are added until the ideal size
      or the end of the volunteers is reached. */
  ghost predicate RoundResult(n: set<string>, v: set<string>, ideal: int, leader: string, n': set<string>) {
    var kept := n * v;
    && n' <= v
    && (leader in kept ==> leader in n')
    && (|kept| < ideal ==> kept <= n' && |n'| == Min(ideal, |v|))
    && (|kept| == ideal ==> n' == kept)
    && (|kept| > ideal ==> n' <= kept && (ideal >= 1 ==> |n'| == ideal) && (ideal <= 0 ==> n' == kept * {leader}))
  }

  lemma SubsetCard(a: set<string>, b: set<string>)
    requires a <= b
    ensures |a| <= |b| && (|a| == |b| ==> a == b)
  {
    assert b == a + (b - a);
    assert |b| == |a| + |b - a|;
  }

  /** With an ideal size of at least one, a round ends with min(ideal, volunteers) nominees. */
  lemma RoundReachesSize(n: set<string>, v: set<string>, ideal: int, leader: string, n': set<string>)
    requires RoundResult(n, v, ideal, leader, n') && ideal >= 1
    ensures |n'| == Min(ideal, |v|)
  {
    SubsetCard(n * v, v);
    SubsetCard(n', v);
  }

  /** A second round with the same volunteers changes nothing. */
  lemma SecondRoundIsIdle(n: set<string>, v: set<string>, ideal: int, leader: string, n1: set<string>, n2: set<string>)
    requires RoundResult(n, v, ideal, leader, n1) && RoundResult(n1, v, ideal, leader, n2)
    ensures n2 == n1
  {
    assert n1 * v == n1;
    SubsetCard(n1, v);
    SubsetCard(n1, n2);
    if ideal >= 1 {
      RoundReachesSize(n, v, ideal, leader, n1);
      SubsetCard(n2, v);
    } else {
      assert n1 * {leader} <= n1;
      if |n * v| <= ideal {
        assert |n * v| == 0;
      } else {
        assert n1 == n * v * {leader};
      }
    }
  }

  /** The nominees left after withdrawing all of a set but the leader. */
  ghost function StillThere(n: set<string>, gone: set<string>, leader: string): set<string> {
    n - (gone - {leader})
  }

  lemma StillThereStart(n: set<string>, leader: string)
    ensures StillThere(n, {}, leader) == n
  {
  }

  lemma StillThereNext(n: set<string>, gone: set<string>, leader: string, h: string)
    requires h in n && h !in gone
    ensures StillThere(n, gone + {h}, leader) ==
            if h == leader then StillThere(n, gone, leader) else StillThere(n, gone, leader) - {h}
    ensures h in StillThere(n, gone, leader)
  {
  }

  lemma StillThereKeeps(n: set<string>, gone: set<string>, leader: string)
    ensures StillThere(n, gone, leader) <= n && (leader in n ==> leader in StillThere(n, gone, leader))
  {
  }

  lemma StillThereEnd(n: set<string>, leader: string)
    ensures StillThere(n, n, leader) == n * {leader} && |StillThere(n, n, leader)| <= 1
    ensures StillThere(n, n, leader) <= n && (leader in n ==> leader in StillThere(n, n, leader))
  {
  }

  lemma NominateOne(before: set<string>, now: set<string>, available: seq<string>, i: nat)
    requires Distinct(available) && Elems(available) !! before && i < |available| && now == before + Elems(available[..i])
    ensures now + {available[i]} == before + Elems(available[..i + 1]) <= before + Elems(available)
    ensures |now + {available[i]}| == |now| + 1
  {
    ElemsSnoc(available, i);
  }

  /** The volunteers added are the first ones, and those withdrawn stand first in the store's list. */
  ghost predicate FirstAdded(kept: set<string>, volunteers: seq<string>, n': set<string>) {
    exists i | 0 <= i <= |volunteers| :: n' == kept + Elems(volunteers[..i])
  }

  ghost predicate FirstWithdrawn(kept: set<string>, listed: seq<string>, leader: string, n': set<string>) {
    exists i | 0 <= i <= |listed| :: n' == kept - (Elems(listed[..i]) - {leader})
  }

  lemma NoneAdded(kept: set<string>, volunteers: seq<string>)
    ensures FirstAdded(kept, volunteers, kept)
  {
    EmptyElems(volunteers);
    assert kept == kept + Elems(volunteers[..0]);
  }

  lemma AddedFirst(volunteers: seq<string>, current: seq<string>, n': set<string>)
    requires exists m | 0 <= m <= |Without(volunteers, current)| :: n' == Elems(current) + Elems(Without(volunteers, current)[..m])
    ensures FirstAdded(Elems(current), volunteers, n')
  {
    hide Elems, Without;
    var m :| 0 <= m <= |Without(volunteers, current)| && n' == Elems(current) + Elems(Without(volunteers, current)[..m]);
    var i := FirstLeft(volunteers, current, m);
    WithoutElems(volunteers[..i], current);
    assert n' == Elems(current) + Elems(volunteers[..i]);
  }

  lemma WithdrawnFirst(listed: seq<string>, gone: seq<string>, leader: string, n': set<string>)
    requires exists m | 0 <= m <= |Without(listed, gone)| ::
               n' == StillThere(Elems(Without(listed, gone)), Elems(Without(listed, gone)[..m]), leader)
    ensures FirstWithdrawn(Elems(Without(listed, gone)), listed, leader, n')
  {
    hide Elems, Without;
    var kept := Elems(Without(listed, gone));
    var m :| 0 <= m <= |Without(listed, gone)| && n' == StillThere(kept, Elems(Without(listed, gone)[..m]), leader);
    var i := FirstLeft(listed, gone, m);
    WithoutElems(listed[..i], gone);
    WithoutElems(listed, gone);
    assert n' == kept - (Elems(listed[..i]) - {leader});
  }

  class Leader {
    const name: string
    const idealSize: int
    var nominees: set<string>

    constructor (name: string, idealSize: int, nominees: set<string>)
      ensures this.name == name && this.idealSize == idealSize && this.nominees == nominees
    {
      this.name, this.idealSize, this.nominees := name, idealSize, nominees;
    }

    /** Withdraw the nominations of a list of hosts. */
    method RemoveAll(hosts: seq<string>)
      modifies this
      ensures nominees == old(nominees) - Elems(hosts)
    {
      for i := 0 to |hosts|
        invariant nominees == old(nominees) - Elems(hosts[..i])
      {
        assert hosts[..i + 1] == hosts[..i] + [hosts[i]];
        nominees := nominees - {hosts[i]};
      }
      assert hosts[..|hosts|] == hosts;
    }

    /** Nominate hosts in order until the ideal size is met. */
    method NominateFrom(available: seq<string>, count: nat)
      requires Distinct(available) && Elems(available) !! nominees && count == |nominees| < idealSize
      modifies this
      ensures old(nominees) <= nominees <= old(nominees) + Elems(available)
      ensures |nominees| == Min(idealSize, count + |available|)
      ensures exists m | 0 <= m <= |available| :: nominees == old(nominees) + Elems(available[..m])
    {
      var nomineeCount := count;
      hide Elems, Distinct;
      EmptyElems(available);
      for i := 0 to |available|
        invariant nominees == old(nominees) + Elems(available[..i])
        invariant |nominees| == nomineeCount == count + i < idealSize
      {
        var h := available[i];
        NominateOne(old(nominees), nominees, available, i);
        nominees := nominees + {h};
        nomineeCount := nomineeCount + 1;
        if nomineeCount == idealSize {
          return;
        }
      }
      assert available[..|available|] == available;
    }

    /** Withdraw nominations in order, never the leader's own, until the ideal size is met. */
    method WithdrawFrom(current: seq<string>, count: nat)
      requires Distinct(current) && Elems(current) == nominees && count == |nominees| > idealSize
      modifies this
      ensures nominees <= old(nominees) && (name in old(nominees) ==> name in nominees)
      ensures idealSize >= 1 ==> |nominees| == idealSize
      ensures exists m | 0 <= m <= |current| :: nominees == StillThere(old(nominees), Elems(current[..m]), name)
      ensures idealSize <= 0 ==> nominees == old(nominees) * {name}
    {
      var nomineeCount: int := count;
      ghost var n := nominees;
      hide Elems, Distinct;
      assert Elems(current[..0]) == {} by { EmptyElems(current); }
      StillThereStart(n, name);
      hide StillThere;
      for i := 0 to |current|
        invariant nominees == StillThere(n, Elems(current[..i]), name)
        invariant |nominees| == nomineeCount > idealSize
      {
        var h := current[i];
        ElemsSnoc(current, i);
        StillThereNext(n, Elems(current[..i]), name, h);
        if h == name {
          continue;
        }
        nominees := nominees - {h};
        nomineeCount := nomineeCount - 1;
        if nomineeCount == idealSize {
          StillThereKeeps(n, Elems(current[..i + 1]), name);
          return;
        }
      }
      assert current[..|current|] == current;
      StillThereEnd(n, name);
    }

    /** Withdraw the nominations of those who no longer volunteer, and list who is left. */
    method DropUnvolunteered(listed: seq<string>, volunteers: seq<string>) returns (current: seq<string>)
      requires Distinct(listed) && Elems(listed) == nominees
      modifies this
      ensures nominees == old(nominees) * Elems(volunteers) == Elems(current)
      ensures current == Without(listed, Without(listed, volunteers))
      ensures Distinct(current) && |current| == |nominees|
    {
      var unvolunteered := DiffStringSlices(listed, volunteers);
      WithoutElems(listed, volunteers);
      RemoveAll(unvolunteered);
      current := DiffStringSlices(listed, unvolunteered);
      WithoutElems(listed, unvolunteered);
      hide Elems, Distinct, Without;
      assert nominees == Elems(current);
      DistinctCard(current);
    }

    /** One round. The two lists are the store's current nominees and volunteers. */
    method DoNominations(listed: seq<string>, volunteers: seq<string>)
      requires Distinct(listed) && Elems(listed) == nominees && Distinct(volunteers)
      modifies this
      ensures RoundResult(old(nominees), Elems(volunteers), idealSize, name, nominees)
      ensures var kept := old(nominees) * Elems(volunteers);
              && (|kept| < idealSize ==> FirstAdded(kept, volunteers, nominees))
              && (|kept| > idealSize ==> FirstWithdrawn(kept, listed, name, nominees))
    {
      ghost var n, v := nominees, Elems(volunteers);
      var current := DropUnvolunteered(listed, volunteers);
      hide *;
      ghost var kept := nominees;
      DistinctCard(volunteers);
      SubsetCard(kept, v);
      var nomineeCount := |current|;
      if nomineeCount < idealSize {
        var all := CompareStringSlices(current, volunteers);
        if all {
          NoneAdded(kept, volunteers);
          Grown(n, v, idealSize, name, nominees);
          return;
        }
        var available := DiffStringSlices(volunteers, current);
        WithoutElems(volunteers, current);
        DistinctCard(available);
        CardSplit(kept, v);
        NominateFrom(available, nomineeCount);
        AddedFirst(volunteers, current, nominees);
        Grown(n, v, idealSize, name, nominees);
      } else if nomineeCount > idealSize {
        WithdrawFrom(current, nomineeCount);
        WithdrawnFirst(listed, Without(listed, volunteers), name, nominees);
        Shrunk(n, v, idealSize, name, nominees);
      } else {
        Unchanged(n, v, idealSize, name);
      }
    }
  }

  lemma Grown(n: set<string>, v: set<string>, ideal: int, leader: string, n': set<string>)
    requires |n * v| < ideal && n * v <= n' <= v && (|n'| == Min(ideal, |v|) || (|n'| == |v| && |v| <= ideal))
    ensures RoundResult(n, v, ideal, leader, n')
  {
  }

  lemma Shrunk(n: set<string>, v: set<string>, ideal: int, leader: string, n': set<string>)
    requires |n * v| > ideal && n' <= n * v && (leader in n * v ==> leader in n')
    requires if ideal >= 1 then |n'| == ideal else n' == n * v * {leader}
    ensures RoundResult(n, v, ideal, leader, n')
  {
  }

  lemma Unchanged(n: set<string>, v: set<string>, ideal: int, leader: string)
    requires |n * v| == ideal
    ensures RoundResult(n, v, ideal, leader, n * v)
  {
  }

  lemma CardSplit(a: set<string>, b: set<string>)
    requires a <= b
    ensures a + (b - a) == b && |b| == |a| + |b - a|
  {
  }
}
