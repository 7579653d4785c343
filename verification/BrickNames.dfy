/**
 The brick numbers and names that volfile templates refer to: each brick gets the number of bricks
 before it in the whole volume, and the default templates name its client after that number.
 */
module BrickNames {
  import opened Wrappers

  datatype Brick = Brick(thinArbiter: bool, decommissioned: bool)

  datatype Subvol = Subvol(name: string, bricks: seq<Brick>)

  /** The extra variables of a subvolume and of its bricks. */
  datatype SubvolVars = SubvolVars(afrPendingXattr: string, brickIndex: seq<string>)

  datatype VolumeVars = VolumeVars(decommissionedBricks: string, subvols: seq<SubvolVars>)

  // ---------------------------------------------------------------- decimal numbers

  predicate IsDigit(c: char) {
    '0' <= c <= '9'
  }

  function Itoa(n: nat): (r: string)
    ensures |r| > 0 && forall i :: 0 <= i < |r| ==> IsDigit(r[i])
  {
    (if n < 10 then "" else Itoa(n / 10)) + [('0' as int + n % 10) as char]
  }

  function Atoi(s: string): int {
    if s == "" then 0 else 10 * Atoi(s[..|s| - 1]) + (s[|s| - 1] as int - '0' as int)
  }

  lemma {:induction false} ItoaRoundTrip(n: nat)
    ensures Atoi(Itoa(n)) == n
  {
    var s := Itoa(n);
    if n >= 10 {
      ItoaRoundTrip(n / 10);
      assert s[..|s| - 1] == Itoa(n / 10);
    } else {
      assert s[..|s| - 1] == "";
    }
  }

  // ---------------------------------------------------------------- numbering

  /** The number of bricks in the subvolumes before the given one. */
  function Before(subvols: seq<Subvol>, s: nat): nat
    requires s <= |subvols|
  {
    if s == 0 then 0 else Before(subvols, s - 1) + |subvols[s - 1].bricks|
  }

  predicate IsBrick(subvols: seq<Subvol>, s: nat, b: nat) {
    s < |subvols| && b < |subvols[s].bricks|
  }

  function Index(subvols: seq<Subvol>, s: nat, b: nat): nat
    requires IsBrick(subvols, s, b)
  {
    Before(subvols, s) + b
  }

  lemma {:induction false} BeforeGrows(subvols: seq<Subvol>, s: nat, u: nat)
    requires s < u <= |subvols|
    ensures Before(subvols, s) + |subvols[s].bricks| <= Before(subvols, u)
    decreases u
  {
    if s < u - 1 {
      BeforeGrows(subvols, s, u - 1);
    }
  }

  /** Indices follow the order of the bricks, so different bricks have different indices. */
  lemma IndexOrder(subvols: seq<Subvol>, s: nat, b: nat, u: nat, c: nat)
    requires IsBrick(subvols, s, b) && IsBrick(subvols, u, c)
    ensures Index(subvols, s, b) < Index(subvols, u, c) <==> s < u || (s == u && b < c)
    ensures Index(subvols, s, b) < Before(subvols, |subvols|)
  {
    BeforeGrows(subvols, s, |subvols|);
    if s < u {
      BeforeGrows(subvols, s, u);
    } else if u < s {
      BeforeGrows(subvols, u, s);
    }
  }

  /** Every number below the number of bricks is the index of one of them. */
  lemma {:induction false} IndexOnto(subvols: seq<Subvol>, n: nat, k: nat) returns (s: nat, b: nat)
    requires n <= |subvols| && k < Before(subvols, n)
    ensures IsBrick(subvols, s, b) && Index(subvols, s, b) == k
    decreases n
  {
    if k < Before(subvols, n - 1) {
      s, b := IndexOnto(subvols, n - 1, k);
    } else {
      s, b := n - 1, k - Before(subvols, n - 1);
    }
  }

  // ---------------------------------------------------------------- names

  function Numbered(stem: string, infix: string, n: nat): string {
    stem + infix + Itoa(n)
  }

  /** The name of a brick's client under the default templates. */
  function ClientName(subvols: seq<Subvol>, s: nat, b: nat): string
    requires IsBrick(subvols, s, b)
  {
    Numbered(subvols[s].name, "-client-", Index(subvols, s, b))
  }

  lemma SuffixDecides(x: string, y: string, d: string, e: string)
    requires x + "-client-" + d == y + "-client-" + e
    requires forall i :: 0 <= i < |d| ==> IsDigit(d[i])
    requires forall i :: 0 <= i < |e| ==> IsDigit(e[i])
    ensures x == y && d == e
  {
    var l, r := x + "-client-" + d, y + "-client-" + e;
    assert l[|x| + 7] == '-' && r[|y| + 7] == '-';
    assert |d| == |e|;
    assert l[..|x|] == x && r[..|y|] == y;
    assert l[|x| + 8..] == d && r[|y| + 8..] == e;
  }

  /** A numbered name determines its stem and its number. */
  lemma NumberedInjective(x: string, m: nat, y: string, n: nat)
    ensures Numbered(x, "-client-", m) == Numbered(y, "-client-", n) <==> x == y && m == n
  {
    if Numbered(x, "-client-", m) == Numbered(y, "-client-", n) {
      SuffixDecides(x, y, Itoa(m), Itoa(n));
      ItoaRoundTrip(m);
      ItoaRoundTrip(n);
    }
  }

  /** Different bricks have differently named clients, whatever the subvolumes are called. */
  lemma ClientNamesDistinct(subvols: seq<Subvol>, s: nat, b: nat, u: nat, c: nat)
    requires IsBrick(subvols, s, b) && IsBrick(subvols, u, c)
    ensures ClientName(subvols, s, b) == ClientName(subvols, u, c) <==> s == u && b == c
  {
    NumberedInjective(subvols[s].name, Index(subvols, s, b), subvols[u].name, Index(subvols, u, c));
    IndexOrder(subvols, s, b, u, c);
    IndexOrder(subvols, u, c, s, b);
  }

  // ---------------------------------------------------------------- the computed variables

  /** The changelog names of a subvolume's bricks, the first of which has index i. */
  function XattrNames(vol: string, bricks: seq<Brick>, i: nat): (r: seq<string>)
    ensures |r| == |bricks|
  {
    seq(|bricks|, b requires 0 <= b < |bricks| =>
      Numbered(vol, if bricks[b].thinArbiter then "-ta-" else "-client-", i + b))
  }

  /** The names listed for the decommissioned bricks of one subvolume: they use the brick's number
      within the subvolume, not its index. */
  function ListedIn(sv: Subvol, n: nat): seq<string>
    requires n <= |sv.bricks|
  {
    if n == 0 then []
    else ListedIn(sv, n - 1) + if sv.bricks[n - 1].decommissioned then [ListedName(sv, n - 1)] else []
  }

  function ListedName(sv: Subvol, b: nat): string {
    Numbered(sv.name, "-client-", b)
  }

  function Listed(subvols: seq<Subvol>, s: nat): seq<string>
    requires s <= |subvols|
  {
    if s == 0 then [] else Listed(subvols, s - 1) + ListedIn(subvols[s - 1], |subvols[s - 1].bricks|)
  }

  /** The variables of one subvolume and its bricks: the volume-wide indices, and the changelog names
      made from them. */
  predicate SubvolVarsOf(vol: string, subvols: seq<Subvol>, s: nat, vars: SubvolVars)
    requires s < |subvols|
  {
    && |vars.brickIndex| == |subvols[s].bricks|
    && vars.afrPendingXattr == JoinWith(XattrNames(vol, subvols[s].bricks, Before(subvols, s)), ",")
    && forall b :: 0 <= b < |subvols[s].bricks| ==> vars.brickIndex[b] == Itoa(Index(subvols, s, b))
  }

  method GetExtraStringMaps(vol: string, subvols: seq<Subvol>) returns (data: VolumeVars)
    ensures |data.subvols| == |subvols|
    ensures forall s :: 0 <= s < |subvols| ==> SubvolVarsOf(vol, subvols, s, data.subvols[s])
    ensures data.decommissionedBricks == JoinWith(Listed(subvols, |subvols|), " ")
  {
    hide JoinWith, Itoa, Numbered;
    var out: seq<SubvolVars> := [];
    var decommissioned: seq<string> := [];
    var clientIdx := 0;
    for s := 0 to |subvols|
      invariant |out| == s && clientIdx == Before(subvols, s) && decommissioned == Listed(subvols, s)
      invariant forall u :: 0 <= u < s ==> SubvolVarsOf(vol, subvols, u, out[u])
    {
      var sv := subvols[s];
      ghost var names := XattrNames(vol, sv.bricks, Before(subvols, s));
      var xattrs: seq<string> := [];
      var indices: seq<string> := [];
      for b := 0 to |sv.bricks|
        invariant |indices| == b && clientIdx == Before(subvols, s) + b
        invariant decommissioned == Listed(subvols, s) + ListedIn(sv, b)
        invariant forall c :: 0 <= c < b ==> indices[c] == Itoa(Before(subvols, s) + c)
        invariant xattrs == names[..b]
      {
        indices := indices + [Itoa(clientIdx)];
        if sv.bricks[b].decommissioned {
          decommissioned := decommissioned + [Numbered(sv.name, "-client-", b)];
        }
        xattrs := xattrs + [Numbered(vol, if sv.bricks[b].thinArbiter then "-ta-" else "-client-", clientIdx)];
        clientIdx := clientIdx + 1;
      }
      assert names[..|sv.bricks|] == names;
      var vars := SubvolVars(JoinWith(xattrs, ","), indices);
      assert SubvolVarsOf(vol, subvols, s, vars);
      out := out + [vars];
    }
    data := VolumeVars(JoinWith(decommissioned, " "), out);
  }

  /** No two bricks of a volume share a changelog name, and a brick's is the name of its client exactly
      when its subvolume is called like the volume and it is not a thin arbiter. */
  lemma XattrNamesDistinct(vol: string, subvols: seq<Subvol>, s: nat, b: nat, u: nat, c: nat)
    requires IsBrick(subvols, s, b) && IsBrick(subvols, u, c)
    ensures XattrName(vol, subvols, s, b) == XattrName(vol, subvols, u, c) <==> s == u && b == c
    ensures XattrName(vol, subvols, s, b) == ClientName(subvols, s, b) <==>
            vol == subvols[s].name && !subvols[s].bricks[b].thinArbiter
  {
    var m, n := Index(subvols, s, b), Index(subvols, u, c);
    IndexOrder(subvols, s, b, u, c);
    IndexOrder(subvols, u, c, s, b);
    NumberedInjective(vol, m, vol, n);
    NumberedInjective(vol, m, subvols[s].name, m);
    ThinArbiterApart(vol, vol, m, n);
    ThinArbiterApart(vol, vol, n, m);
    ThinArbiterApart(vol, subvols[s].name, m, m);
  }

  function XattrName(vol: string, subvols: seq<Subvol>, s: nat, b: nat): string
    requires IsBrick(subvols, s, b)
  {
    XattrNames(vol, subvols[s].bricks, Before(subvols, s))[b]
  }

  /** A thin arbiter is never called like a client, and thin arbiters are told apart by their number. */
  lemma ThinArbiterApart(x: string, y: string, m: nat, n: nat)
    ensures Numbered(x, "-ta-", m) == Numbered(x, "-ta-", n) <==> m == n
    ensures Numbered(x, "-ta-", m) != Numbered(y, "-client-", n)
  {
    hide Itoa;
    ItoaRoundTrip(m);
    ItoaRoundTrip(n);
    var l, k := Numbered(x, "-ta-", m), Numbered(x, "-ta-", n);
    assert l[|x| + 4..] == Itoa(m) && k[|x| + 4..] == Itoa(n);
    LastDash(x, y, Itoa(m), Itoa(n));
  }

  /** What stands before the last dash tells the two kinds apart. */
  lemma LastDash(x: string, y: string, d: string, e: string)
    requires forall i :: 0 <= i < |d| ==> IsDigit(d[i])
    requires forall i :: 0 <= i < |e| ==> IsDigit(e[i])
    ensures x + "-ta-" + d != y + "-client-" + e
  {
    var l, r := x + "-ta-" + d, y + "-client-" + e;
    assert l[|x| + 2] == 'a' && l[|x| + 3] == '-' && forall i :: |x| + 4 <= i < |l| ==> IsDigit(l[i]);
    assert r[|y| + 6] == 't' && r[|y| + 7] == '-' && forall i :: |y| + 8 <= i < |r| ==> IsDigit(r[i]);
  }

  // ---------------------------------------------------------------- decommissioned bricks

  /** Exactly which client the name listed for a decommissioned brick belongs to. */
  lemma ListedNameMeans(subvols: seq<Subvol>, s: nat, b: nat, u: nat, c: nat)
    requires IsBrick(subvols, s, b) && IsBrick(subvols, u, c)
    ensures ListedName(subvols[s], b) == ClientName(subvols, u, c) <==>
            subvols[s].name == subvols[u].name && b == Index(subvols, u, c)
  {
    NumberedInjective(subvols[s].name, b, subvols[u].name, Index(subvols, u, c));
  }

  /** The brick's own client is listed exactly when no brick stands in an earlier subvolume. */
  lemma ListedNameIsOwnExactly(subvols: seq<Subvol>, s: nat, b: nat)
    requires IsBrick(subvols, s, b)
    ensures ListedName(subvols[s], b) == ClientName(subvols, s, b) <==>
            forall u :: 0 <= u < s ==> subvols[u].bricks == []
  {
    ListedNameMeans(subvols, s, b, s, b);
    NoneBefore(subvols, s);
  }

  lemma {:induction false} NoneBefore(subvols: seq<Subvol>, s: nat)
    requires s <= |subvols|
    ensures Before(subvols, s) == 0 <==> forall u :: 0 <= u < s ==> subvols[u].bricks == []
  {
    if s > 0 {
      NoneBefore(subvols, s - 1);
    }
  }

  /** A volume of one brick and three, with the last brick decommissioned: the name listed is that
      of the healthy brick before it. */
  lemma WrongClientListed(d: string, r: string)
    ensures var subvols := [Subvol(d, [Brick(false, false)]),
                            Subvol(r, [Brick(false, false), Brick(false, false), Brick(false, true)])];
            && Listed(subvols, 2) == [ClientName(subvols, 1, 1)]
            && ClientName(subvols, 1, 1) != ClientName(subvols, 1, 2)
  {
    var fine, bad := Brick(false, false), Brick(false, true);
    var x, y := Subvol(d, [fine]), Subvol(r, [fine, fine, bad]);
    var subvols := [x, y];
    assert ListedIn(x, 1) == [] by { assert ListedIn(x, 0) == []; }
    assert ListedIn(y, 0) == [] && ListedIn(y, 1) == [] && ListedIn(y, 2) == [];
    assert ListedIn(y, 3) == [ListedName(y, 2)];
    assert Listed(subvols, 0) == [] && Listed(subvols, 1) == [];
    assert Before(subvols, 0) == 0 && Before(subvols, 1) == 1;
    ClientNamesDistinct(subvols, 1, 1, 1, 2);
  }
}
