/**
 Removal of duplicate peers, in place, as both transaction packages do before a transaction starts.
 */
module NodesUnion {
  import opened Wrappers

  /** The first occurrences of the elements of s, in order. */
  function FirstOnes<T(==)>(s: seq<T>): seq<T> {
    if s == [] then []
    else
      var r := FirstOnes(s[..|s| - 1]);
      if s[|s| - 1] in r then r else r + [s[|s| - 1]]
  }

  /** No element is lost and none is added. */
  lemma {:induction false} FirstOnesSame<T(!new)>(s: seq<T>)
    ensures forall x :: x in s <==> x in FirstOnes(s)
  {
    if s != [] {
      FirstOnesSame(s[..|s| - 1]);
      assert s == s[..|s| - 1] + [s[|s| - 1]];
    }
  }

  lemma {:induction false} FirstOnesDistinct<T(!new)>(s: seq<T>)
    ensures Distinct(FirstOnes(s))
  {
    if s != [] {
      FirstOnesDistinct(s[..|s| - 1]);
    }
  }

  /** A list without duplicates is left as it is. */
  lemma {:induction false} FirstOnesOfDistinct<T(!new)>(s: seq<T>)
    requires Distinct(s)
    ensures FirstOnes(s) == s
  {
    if s != [] {
      var t := s[..|s| - 1];
      FirstOnesOfDistinct(t);
      assert s == t + [s[|s| - 1]];
      assert s[|s| - 1] !in t;
    }
  }

  /** Dropping a later copy of an element changes nothing. */
  lemma {:induction false} DropCopy<T(!new)>(x: seq<T>, v: T, y: seq<T>)
    requires v in x
    ensures FirstOnes(x + [v] + y) == FirstOnes(x + y)
    decreases |y|
  {
    if y == [] {
      assert x + [v] + y == x + [v] && x + y == x;
      assert (x + [v])[..|x|] == x;
      FirstOnesSame(x);
    } else {
      var z := y[..|y| - 1];
      DropCopy(x, v, z);
      assert (x + [v] + y)[..|x + [v] + y| - 1] == x + [v] + z;
      assert (x + y)[..|x + y| - 1] == x + z;
    }
  }

  /** Shift the tail of the first n elements left over element j. */
  method ShiftOver<T>(a: array<T>, n: nat, j: nat)
    requires j < n <= a.Length
    modifies a
    ensures a[..n - 1] == old(a[..j]) + old(a[j + 1..n])
  {
    forall k | j <= k < n - 1 {
      a[k] := a[k + 1];
    }
  }

  /** The first i elements do not occur again. */
  ghost predicate Settled<T>(s: seq<T>, i: nat) {
    forall p, q :: 0 <= p < i && p < q < |s| ==> s[p] != s[q]
  }

  ghost predicate NotAgain<T>(s: seq<T>, i: nat, j: nat) {
    i < |s| && forall q :: i < q < j && q < |s| ==> s[i] != s[q]
  }

  lemma ShiftKeeps<T(!new)>(s: seq<T>, i: nat, j: nat)
    requires i < j < |s| && s[i] == s[j] && Settled(s, i) && NotAgain(s, i, j)
    ensures var r := s[..j] + s[j + 1..]; FirstOnes(r) == FirstOnes(s) && Settled(r, i) && NotAgain(r, i, j)
  {
    assert s == s[..j] + [s[j]] + s[j + 1..];
    assert s[i] in s[..j];
    DropCopy(s[..j], s[j], s[j + 1..]);
  }

  lemma Progress<T(!new)>(s: seq<T>, i: nat, j: nat)
    requires i < |s| && i < j && NotAgain(s, i, j)
    ensures j < |s| && s[i] != s[j] ==> NotAgain(s, i, j + 1)
    ensures j >= |s| && Settled(s, i) ==> Settled(s, i + 1)
  {
  }

  /** The inner loop: drop the later copies of element i. */
  method DropCopies<T(==, !new)>(a: array<T>, length: nat, i: nat) returns (n: nat)
    requires i < length <= a.Length && Settled(a[..length], i)
    modifies a
    ensures i < n <= length && FirstOnes(a[..n]) == FirstOnes(old(a[..length])) && Settled(a[..n], i + 1)
  {
    n := length;
    var j := i + 1;
    assert NotAgain(a[..n], i, j);
    hide FirstOnes, Settled, NotAgain;
    while j < n
      invariant i < j <= n <= length
      invariant FirstOnes(a[..n]) == FirstOnes(old(a[..length])) && Settled(a[..n], i) && NotAgain(a[..n], i, j)
      decreases n - j
    {
      ghost var s := a[..n];
      if a[i] == a[j] {
        ShiftKeeps(s, i, j);
        assert s[..j] == a[..j] && s[j + 1..] == a[j + 1..n];
        ShiftOver(a, n, j);
        n := n - 1;
      } else {
        Progress(s, i, j);
        j := j + 1;
      }
    }
    Progress(a[..n], i, j);
  }

  /** The double loop that shifts the tail left over each duplicate; n is the length that remains. */
  method Union<T(==, !new)>(a: array<T>) returns (n: nat)
    modifies a
    ensures n <= a.Length && a[..n] == FirstOnes(old(a[..]))
    ensures Distinct(a[..n]) && forall x :: x in a[..n] <==> x in old(a[..])
  {
    n := a.Length;
    assert a[..n] == a[..] && Settled(a[..n], 0);
    var i := 0;
    while i < n
      invariant 0 <= i <= n <= a.Length
      invariant FirstOnes(a[..n]) == FirstOnes(old(a[..])) && Settled(a[..n], i)
      decreases a.Length - i
    {
      n := DropCopies(a, n, i);
      i := i + 1;
    }
    FirstOnesOfDistinct(a[..n]);
    FirstOnesSame(old(a[..]));
  }
}
