/**
 Types and predicates shared by all modules.
 */
module Wrappers {

  datatype Option<+T> = None | Some(value: T)

  datatype Result<+T> = Ok(value: T) | Err(reason: string)

  /** No element occurs twice. */
  ghost predicate Distinct<T>(s: seq<T>) {
    forall i, j :: 0 <= i < j < |s| ==> s[i] != s[j]
  }

  function Elems<T(==)>(s: seq<T>): set<T> {
    set x | x in s
  }

  /** The names one after the other with a separator between them. */
  function JoinWith(names: seq<string>, sep: string): string {
    if |names| <= 1 then if names == [] then "" else names[0]
    else JoinWith(names[..|names| - 1], sep) + sep + names[|names| - 1]
  }

  /** Names joined in two groups, with the separator between the groups, are the names joined. */
  lemma {:induction false} JoinInGroups(a: seq<string>, b: seq<string>, sep: string)
    requires a != [] && b != []
    ensures JoinWith(a + b, sep) == JoinWith(a, sep) + sep + JoinWith(b, sep)
    decreases |b|
  {
    var n := |b| - 1;
    assert (a + b)[..|a + b| - 1] == a + b[..n];
    if n == 0 {
      assert a + b[..n] == a;
    } else {
      JoinInGroups(a, b[..n], sep);
    }
  }

  lemma MulLe(a: int, b: int, c: nat)
    requires a <= b
    ensures a * c <= b * c
  {
  }
}
