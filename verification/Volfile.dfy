/**
 Volfile generation: a tree of translator entries printed so that every entry stands after its
 descendants and refers to its children by name. An entry is a Go struct copied by value, and so is
 it here.
 */
module Volfile {
  import opened Wrappers

  datatype Xlator = Xlator(ty: string, typeTmpl: string, nameTmpl: string,
                           options: seq<(string, string)>, ignored: seq<string>)

  datatype Entry = Entry(name: string, namePrefix: string, nameSuffix: string,
                         xl: Xlator, subs: seq<Entry>, vars: map<string, string>)

  /** Template substitution (nothing when a variable is unknown), the test for template variables,
      and the last component of a type path. */
  datatype Tmpl = Tmpl(subst: (string, map<string, string>) -> Option<string>, isVar: string -> bool, base: string -> string)

  /** One printed section. */
  datatype Block = Block(name: string, ty: string, options: seq<(string, string)>, subvolumes: seq<string>)

  // ---------------------------------------------------------------- names and types

  function DefaultName(t: Tmpl, e: Entry, ty: string): string {
    var stem :=
      if e.namePrefix == "" && "volume.name" in e.vars then e.vars["volume.name"] + "-" + t.base(ty) else e.namePrefix;
    if e.nameSuffix != "" then stem + "-" + e.nameSuffix else stem
  }

  function SetNameAndType(t: Tmpl, e: Entry): Option<Entry> {
    var ty := if e.xl.ty == "" && e.xl.typeTmpl != "" then t.subst(e.xl.typeTmpl, e.vars) else Some(e.xl.ty);
    if ty.None? then None
    else
      var given := if e.xl.nameTmpl != "" then t.subst(e.xl.nameTmpl, e.vars) else Some(e.name);
      if given.None? then None
      else
        var name := if given.value == "" then DefaultName(t, e, ty.value) else given.value;
        Some(e.(name := name, xl := e.xl.(ty := ty.value)))
  }

  /** Setting name and type twice is the same as once. Parents and children rely on it: the parent
      sets them to list the child, the child to print itself. */
  lemma SetTwice(t: Tmpl, e: Entry)
    requires SetNameAndType(t, e).Some?
    ensures SetNameAndType(t, SetNameAndType(t, e).value) == SetNameAndType(t, e)
    ensures SetNameAndType(t, e).value.subs == e.subs
  {
  }

  /** The type given counts, and only without one its template; for the name the template counts, if it
      gives one, and only then the name given. It fails exactly when a template that counts has an unknown
      variable. */
  lemma TypeAndNameGiven(t: Tmpl, e: Entry)
    ensures SetNameAndType(t, e).None? <==>
            || (e.xl.ty == "" && e.xl.typeTmpl != "" && t.subst(e.xl.typeTmpl, e.vars).None?)
            || (e.xl.nameTmpl != "" && t.subst(e.xl.nameTmpl, e.vars).None?)
    ensures SetNameAndType(t, e).Some? ==>
              var own := SetNameAndType(t, e).value;
              && own == e.(name := own.name, xl := e.xl.(ty := own.xl.ty))
              && (e.xl.ty != "" || e.xl.typeTmpl == "" ==> own.xl.ty == e.xl.ty)
              && (e.xl.ty == "" && e.xl.typeTmpl != "" ==> t.subst(e.xl.typeTmpl, e.vars) == Some(own.xl.ty))
              && (e.xl.nameTmpl == "" && e.name != "" ==> own.name == e.name)
              && (e.xl.nameTmpl != "" && t.subst(e.xl.nameTmpl, e.vars) != Some("") ==>
                    t.subst(e.xl.nameTmpl, e.vars) == Some(own.name))
  {
  }

  /** An entry that is neither named nor has a name template is called after its prefix, or else after the
      volume and its type, or after neither, and its suffix follows a dash. */
  lemma UnnamedIsCalled(t: Tmpl, e: Entry)
    requires SetNameAndType(t, e).Some? && e.name == "" && e.xl.nameTmpl == ""
    ensures var own, tail := SetNameAndType(t, e).value, if e.nameSuffix == "" then "" else "-" + e.nameSuffix;
            && (e.namePrefix != "" ==> own.name == e.namePrefix + tail)
            && (e.namePrefix == "" && "volume.name" in e.vars ==>
                  own.name == e.vars["volume.name"] + "-" + t.base(own.xl.ty) + tail)
            && (e.namePrefix == "" && "volume.name" !in e.vars ==> own.name == tail)
  {
  }

  /** So entries that differ only in their suffix get different names. */
  lemma SuffixesTellApart(t: Tmpl, e: Entry, suffix: string)
    requires SetNameAndType(t, e).Some? && e.name == "" && e.xl.nameTmpl == ""
    ensures var other := e.(nameSuffix := suffix);
            && SetNameAndType(t, other).Some?
            && (SetNameAndType(t, other).value.name == SetNameAndType(t, e).value.name <==> suffix == e.nameSuffix)
  {
    var other := e.(nameSuffix := suffix);
    UnnamedIsCalled(t, e);
    UnnamedIsCalled(t, other);
    var stem := DefaultName(t, e.(nameSuffix := ""), SetNameAndType(t, e).value.xl.ty);
    SameTail(stem, if suffix == "" then "" else "-" + suffix, if e.nameSuffix == "" then "" else "-" + e.nameSuffix);
    if suffix != "" && e.nameSuffix != "" {
      SameTail("-", suffix, e.nameSuffix);
    }
  }

  lemma SameTail(stem: string, x: string, y: string)
    ensures stem + x == stem + y <==> x == y
  {
    assert (stem + x)[|stem|..] == x && (stem + y)[|stem|..] == y;
  }

  function OptionText(t: Tmpl, s: string, vars: map<string, string>): Option<string> {
    if t.isVar(s) then t.subst(s, vars) else Some(s)
  }

  /** The characters that trimming removes. */
  predicate IsSpace(c: char) {
    c == ' ' || '\t' <= c <= '\r' || c in "\U{0085}\U{00A0}\U{1680}\U{2028}\U{2029}\U{202F}\U{205F}\U{3000}"
    || '\U{2000}' <= c <= '\U{200A}'
  }

  predicate Blank(s: string) {
    forall i :: 0 <= i < |s| ==> IsSpace(s[i])
  }

  /** The option lines of an entry, in the order the options are visited. */
  function OptionLines(t: Tmpl, e: Entry, opts: seq<(string, string)>): Option<seq<(string, string)>> {
    if opts == [] then Some([])
    else
      var before := OptionLines(t, e, opts[..|opts| - 1]);
      var (k, v) := opts[|opts| - 1];
      if before.None? || k in e.xl.ignored then before
      else
        var key, val := OptionText(t, k, e.vars), OptionText(t, v, e.vars);
        if key.None? || val.None? then None
        else Some(before.value + if Blank(val.value) then [] else [(key.value, val.value)])
  }

  // ---------------------------------------------------------------- what the option lines are

  /** What is printed for a key or a value: a template is filled in, any other text stays as it is. */
  ghost predicate TextIs(t: Tmpl, s: string, vars: map<string, string>, r: string) {
    if t.isVar(s) then t.subst(s, vars) == Some(r) else r == s
  }

  ghost predicate HasNoText(t: Tmpl, s: string, vars: map<string, string>) {
    t.isVar(s) && t.subst(s, vars).None?
  }

  /** Option i is not ignored and its value is not blank. */
  ghost predicate Shown(t: Tmpl, e: Entry, opts: seq<(string, string)>, i: nat) {
    i < |opts| && opts[i].0 !in e.xl.ignored && exists v :: TextIs(t, opts[i].1, e.vars, v) && !Blank(v)
  }

  ghost predicate LineIs(t: Tmpl, e: Entry, option: (string, string), line: (string, string)) {
    TextIs(t, option.0, e.vars, line.0) && TextIs(t, option.1, e.vars, line.1)
  }

  /** The lines are those of the options at these indices, which are in order and all that are shown. */
  ghost predicate LinesAt(t: Tmpl, e: Entry, opts: seq<(string, string)>, lines: seq<(string, string)>, at: seq<nat>) {
    && |at| == |lines|
    && (forall k, l :: 0 <= k < l < |at| ==> at[k] < at[l])
    && (forall i: nat :: i in at <==> Shown(t, e, opts, i))
    && (forall k :: 0 <= k < |at| ==> at[k] < |opts| && LineIs(t, e, opts[at[k]], lines[k]))
  }

  ghost predicate LinesOf(t: Tmpl, e: Entry, opts: seq<(string, string)>, lines: seq<(string, string)>) {
    exists at :: LinesAt(t, e, opts, lines, at)
  }

  /** There is one line for every option that is shown, in order. */
  lemma {:induction false} LinesExact(t: Tmpl, e: Entry, opts: seq<(string, string)>) returns (at: seq<nat>)
    requires OptionLines(t, e, opts).Some?
    ensures LinesAt(t, e, opts, OptionLines(t, e, opts).value, at)
  {
    hide Blank;
    if opts == [] {
      at := [];
    } else {
      var n := |opts| - 1;
      var before := OptionLines(t, e, opts[..n]).value;
      at := LinesExact(t, e, opts[..n]);
      LastShown(t, e, opts);
      hide Shown, OptionLines;
      forall i: nat | i != n
        ensures Shown(t, e, opts, i) <==> Shown(t, e, opts[..n], i)
      {
        ShownPrefix(t, e, opts, n, i);
      }
      if Shown(t, e, opts, n) {
        at := at + [n];
      }
    }
  }

  lemma ShownPrefix(t: Tmpl, e: Entry, opts: seq<(string, string)>, n: nat, i: nat)
    requires n + 1 == |opts| && i != n
    ensures Shown(t, e, opts, i) <==> Shown(t, e, opts[..n], i)
  {
  }

  /** What the last option adds. */
  lemma LastShown(t: Tmpl, e: Entry, opts: seq<(string, string)>)
    requires opts != [] && OptionLines(t, e, opts).Some?
    ensures var n := |opts| - 1;
            && OptionLines(t, e, opts[..n]).Some?
            && var before, lines := OptionLines(t, e, opts[..n]).value, OptionLines(t, e, opts).value;
            && !Shown(t, e, opts[..n], n)
            && if Shown(t, e, opts, n)
               then lines == before + [lines[|before|]] && LineIs(t, e, opts[n], lines[|before|])
               else lines == before
  {
    hide Blank;
    var n := |opts| - 1;
    var (k, v) := opts[n];
    var before := OptionLines(t, e, opts[..n]).value;
    if k !in e.xl.ignored {
      var val := OptionText(t, v, e.vars).value;
      assert TextIs(t, v, e.vars, val);
      if !Blank(val) {
        assert Shown(t, e, opts, n);
      }
    }
  }

  /** And it fails exactly when an option that is not ignored has an unknown variable in its key or
      value. */
  lemma {:induction false} OptionsFailExactly(t: Tmpl, e: Entry, opts: seq<(string, string)>)
    ensures OptionLines(t, e, opts).None? <==>
            exists option | option in opts ::
              option.0 !in e.xl.ignored && (HasNoText(t, option.0, e.vars) || HasNoText(t, option.1, e.vars))
  {
    hide Blank;
    if opts != [] {
      var n := |opts| - 1;
      OptionsFailExactly(t, e, opts[..n]);
      assert forall option :: option in opts <==> option in opts[..n] || option == opts[n];
    }
  }

  // ---------------------------------------------------------------- generation

  function Size(e: Entry): nat {
    1 + SubsSize(e.subs)
  }

  function SubsSize(subs: seq<Entry>): nat {
    if subs == [] then 0 else SubsSize(subs[..|subs| - 1]) + 1 + Size(subs[|subs| - 1])
  }

  /** The blocks of an entry's subtree; the entry itself is left out when it has no type. */
  function Gen(t: Tmpl, e: Entry): Option<seq<Block>>
    decreases Size(e)
  {
    var below := GenSubs(t, e.subs);
    if below.None? then None
    else if e.xl.ty == "" then Some(below.value.0)
    else
      var own := SetNameAndType(t, e);
      if own.None? then None
      else
        var lines := OptionLines(t, own.value, own.value.xl.options);
        if lines.None? then None
        else Some(below.value.0 + [Block(own.value.name, own.value.xl.ty, lines.value, below.value.1)])
  }

  /** The blocks of a list of entries, and the names to refer to them by. */
  function GenSubs(t: Tmpl, subs: seq<Entry>): Option<(seq<Block>, seq<string>)>
    decreases SubsSize(subs)
  {
    if subs == [] then Some(([], []))
    else
      var n := |subs| - 1;
      var before := GenSubs(t, subs[..n]);
      if before.None? then None
      else
        var entry := SetNameAndType(t, subs[n]);
        if entry.None? then None
        else
          assert Size(entry.value) == Size(subs[n]);
          var out := Gen(t, entry.value);
          if out.None? then None
          else Some((before.value.0 + out.value, before.value.1 + [entry.value.name]))
  }

  // ---------------------------------------------------------------- places in the tree

  type Path = seq<nat>

  predicate ValidPath(subs: seq<Entry>, p: Path) {
    p != [] && p[0] < |subs| && (|p| > 1 ==> ValidPath(subs[p[0]].subs, p[1..]))
  }

  function EntryAt(subs: seq<Entry>, p: Path): Entry
    requires ValidPath(subs, p)
  {
    if |p| == 1 then subs[p[0]] else EntryAt(subs[p[0]].subs, p[1..])
  }

  function Below(n: nat, ps: seq<Path>): (r: seq<Path>)
    ensures |r| == |ps| && forall i :: 0 <= i < |ps| ==> r[i] == [n] + ps[i]
  {
    seq(|ps|, i requires 0 <= i < |ps| => [n] + ps[i])
  }

  /** The entry ends up with a type, and so is printed. */
  predicate Typed(t: Tmpl, e: Entry) {
    SetNameAndType(t, e).Some? && SetNameAndType(t, e).value.xl.ty != ""
  }

  /** The places of all entries that have a type, children before parents. */
  function Order(t: Tmpl, subs: seq<Entry>): seq<Path> {
    if subs == [] then []
    else
      var n := |subs| - 1;
      Order(t, subs[..n]) + Below(n, Order(t, subs[n].subs)) + if Typed(t, subs[n]) then [[n]] else []
  }

  lemma {:induction false} PrefixPath(subs: seq<Entry>, n: nat, p: Path)
    requires n <= |subs| && p != [] && p[0] < n
    ensures ValidPath(subs[..n], p) <==> ValidPath(subs, p)
    ensures ValidPath(subs, p) ==> EntryAt(subs[..n], p) == EntryAt(subs, p)
  {
  }

  lemma TopPath(subs: seq<Entry>, n: nat)
    requires n < |subs|
    ensures ValidPath(subs, [n]) && EntryAt(subs, [n]) == subs[n]
  {
  }

  lemma UnderPath(subs: seq<Entry>, n: nat, p: Path)
    requires n < |subs| && ValidPath(subs[n].subs, p)
    ensures ValidPath(subs, [n] + p) && EntryAt(subs, [n] + p) == EntryAt(subs[n].subs, p)
  {
  }

  /** Only places of typed entries are listed. */
  lemma {:induction false} OrderValid(t: Tmpl, subs: seq<Entry>, i: nat)
    requires i < |Order(t, subs)|
    ensures ValidPath(subs, Order(t, subs)[i]) && Typed(t, EntryAt(subs, Order(t, subs)[i]))
    decreases subs
  {
    hide Typed, ValidPath, EntryAt;
    var n := |subs| - 1;
    var a, b := Order(t, subs[..n]), Order(t, subs[n].subs);
    if i < |a| {
      OrderValid(t, subs[..n], i);
      PathHead(subs[..n], a[i]);
      PrefixPath(subs, n, a[i]);
    } else if i < |a| + |b| {
      OrderValid(t, subs[n].subs, i - |a|);
      assert Order(t, subs)[i] == [n] + b[i - |a|];
      UnderPath(subs, n, b[i - |a|]);
    } else {
      TopPath(subs, n);
    }
  }

  lemma PathHead(subs: seq<Entry>, p: Path)
    requires ValidPath(subs, p)
    ensures p != [] && p[0] < |subs|
  {
  }

  /** Every such place is listed. */
  lemma {:induction false} OrderComplete(t: Tmpl, subs: seq<Entry>, p: Path) returns (i: nat)
    requires ValidPath(subs, p) && Typed(t, EntryAt(subs, p))
    ensures i < |Order(t, subs)| && Order(t, subs)[i] == p
    decreases subs
  {
    hide Typed;
    var n := |subs| - 1;
    var a, b := Order(t, subs[..n]), Order(t, subs[n].subs);
    if p[0] < n {
      PrefixPath(subs, n, p);
      i := OrderComplete(t, subs[..n], p);
    } else if |p| == 1 {
      i := |a| + |b|;
      assert p == [n];
    } else {
      var j := OrderComplete(t, subs[n].subs, p[1..]);
      i := |a| + j;
      assert p == [n] + p[1..];
    }
  }

  /** The part of the order a position falls in. */
  lemma OrderParts(t: Tmpl, subs: seq<Entry>, i: nat)
    requires i < |Order(t, subs)|
    ensures subs != []
    ensures var n := |subs| - 1; var a, b := Order(t, subs[..n]), Order(t, subs[n].subs);
            && |Order(t, subs)| == |a| + |b| + (if Typed(t, subs[n]) then 1 else 0)
            && (i < |a| ==> Order(t, subs)[i] == a[i] && a[i] != [] && a[i][0] < n)
            && (|a| <= i < |a| + |b| ==> Order(t, subs)[i] == [n] + b[i - |a|] && b[i - |a|] != [])
            && (i == |a| + |b| ==> Order(t, subs)[i] == [n])
  {
    hide Typed;
    var n := |subs| - 1;
    var a, b := Order(t, subs[..n]), Order(t, subs[n].subs);
    if i < |a| {
      OrderValid(t, subs[..n], i);
    } else if i < |a| + |b| {
      OrderValid(t, subs[n].subs, i - |a|);
    }
  }

  /** No place is listed twice. */
  lemma {:induction false} OrderDistinct(t: Tmpl, subs: seq<Entry>, i: nat, j: nat)
    requires i < j < |Order(t, subs)|
    ensures Order(t, subs)[i] != Order(t, subs)[j]
    decreases subs
  {
    hide Order, Typed;
    OrderParts(t, subs, i);
    OrderParts(t, subs, j);
    var n := |subs| - 1;
    var a, b := Order(t, subs[..n]), Order(t, subs[n].subs);
    if j < |a| {
      OrderDistinct(t, subs[..n], i, j);
    } else if |a| <= i && j < |a| + |b| {
      OrderDistinct(t, subs[n].subs, i - |a|, j - |a|);
      assert ([n] + b[i - |a|])[1..] == b[i - |a|] && ([n] + b[j - |a|])[1..] == b[j - |a|];
    } else if |a| <= i {
      assert |Order(t, subs)[i]| > 1;
    }
  }

  /** A descendant is listed before its ancestor, whose place is a proper prefix of its own. */
  lemma {:induction false} DescendantsFirst(t: Tmpl, subs: seq<Entry>, i: nat, j: nat)
    requires i < |Order(t, subs)| && j < |Order(t, subs)| && Order(t, subs)[i] < Order(t, subs)[j]
    ensures j < i
    decreases subs
  {
    hide Order;
    DescendantParts(t, subs, i, j);
    var n := |subs| - 1;
    var a, b := Order(t, subs[..n]), Order(t, subs[n].subs);
    if i < |a| {
      DescendantsFirst(t, subs[..n], i, j);
    } else if i < |a| + |b| {
      DescendantsFirst(t, subs[n].subs, i - |a|, j - |a|);
    }
  }

  /** The part of the order that two such positions share. */
  lemma DescendantParts(t: Tmpl, subs: seq<Entry>, i: nat, j: nat)
    requires i < |Order(t, subs)| && j < |Order(t, subs)| && Order(t, subs)[i] < Order(t, subs)[j]
    ensures subs != []
    ensures var n := |subs| - 1; var a, b := Order(t, subs[..n]), Order(t, subs[n].subs);
            || (i < |a| && j < |a| && a[i] < a[j])
            || (|a| <= i < |a| + |b| && |a| <= j < |a| + |b| && b[i - |a|] < b[j - |a|])
            || (i == |a| + |b| && j < i)
  {
    hide Order, Typed;
    OrderParts(t, subs, i);
    OrderParts(t, subs, j);
    var n := |subs| - 1;
    var a, b := Order(t, subs[..n]), Order(t, subs[n].subs);
    var x, y := Order(t, subs)[i], Order(t, subs)[j];
    assert x[0] == y[0] && |x| < |y|;
    if |a| <= i < |a| + |b| {
      DropHead(n, b[i - |a|], b[j - |a|]);
    }
  }

  lemma DropHead(n: nat, x: Path, y: Path)
    requires [n] + x < [n] + y
    ensures x < y
  {
    forall k | 0 <= k < |x|
      ensures x[k] == y[k]
    {
      assert ([n] + x)[k + 1] == ([n] + y)[k + 1];
    }
  }

  // ---------------------------------------------------------------- what is printed

  /** The block is the entry's: its name and type, its option lines, and the names of its children. */
  ghost predicate BlockOf(t: Tmpl, e: Entry, b: Block) {
    && SetNameAndType(t, e).Some?
    && b.name == SetNameAndType(t, e).value.name && b.ty == SetNameAndType(t, e).value.xl.ty
    && LinesOf(t, e, e.xl.options, b.options) && NamesOf(t, e.subs, b.subvolumes)
  }

  ghost predicate NamesOf(t: Tmpl, subs: seq<Entry>, names: seq<string>) {
    |names| == |subs| && forall k :: 0 <= k < |subs| ==>
      SetNameAndType(t, subs[k]).Some? && names[k] == SetNameAndType(t, subs[k]).value.name
  }

  /** The blocks are those of the typed entries, in order. */
  ghost predicate PrintedInOrder(t: Tmpl, subs: seq<Entry>, blocks: seq<Block>) {
    |blocks| == |Order(t, subs)| && forall i :: 0 <= i < |blocks| ==>
      ValidPath(subs, Order(t, subs)[i]) && BlockOf(t, EntryAt(subs, Order(t, subs)[i]), blocks[i])
  }

  /** What an entry prints after its subtree: its own block, or nothing. */
  ghost predicate OwnBlock(t: Tmpl, e: Entry, own: seq<Block>) {
    if Typed(t, e) then |own| == 1 && BlockOf(t, e, own[0]) else own == []
  }

  lemma GenOwn(t: Tmpl, e: Entry, own: Entry) returns (below: seq<Block>, last: seq<Block>)
    requires SetNameAndType(t, e) == Some(own) && Gen(t, own).Some?
    requires GenSubs(t, e.subs).Some? && NamesOf(t, e.subs, GenSubs(t, e.subs).value.1)
    ensures below == GenSubs(t, e.subs).value.0 && OwnBlock(t, e, last) && Gen(t, own).value == below + last
  {
    SetTwice(t, e);
    hide NamesOf, OptionLines, LinesOf;
    below := GenSubs(t, e.subs).value.0;
    last := Gen(t, own).value[|below|..];
    if own.xl.ty != "" {
      OwnLines(t, e, own);
    }
  }

  lemma OwnLines(t: Tmpl, e: Entry, own: Entry)
    requires SetNameAndType(t, e) == Some(own) && OptionLines(t, own, own.xl.options).Some?
    ensures LinesOf(t, e, e.xl.options, OptionLines(t, own, own.xl.options).value)
  {
    hide OptionLines;
    var at := LinesExact(t, own, own.xl.options);
    forall i: nat
      ensures Shown(t, own, own.xl.options, i) <==> Shown(t, e, e.xl.options, i)
    {
    }
    assert LinesAt(t, e, e.xl.options, OptionLines(t, own, own.xl.options).value, at);
  }

  lemma NamesExtend(t: Tmpl, subs: seq<Entry>, names: seq<string>, own: Entry)
    requires subs != [] && NamesOf(t, subs[..|subs| - 1], names) && SetNameAndType(t, subs[|subs| - 1]) == Some(own)
    ensures NamesOf(t, subs, names + [own.name])
  {
  }

  lemma GenSubsParts(t: Tmpl, subs: seq<Entry>)
    requires subs != []
    ensures var n := |subs| - 1;
            GenSubs(t, subs).Some? <==>
              && GenSubs(t, subs[..n]).Some? && SetNameAndType(t, subs[n]).Some?
              && Gen(t, SetNameAndType(t, subs[n]).value).Some?
    ensures GenSubs(t, subs).Some? ==>
              var n := |subs| - 1;
              var own := SetNameAndType(t, subs[n]).value;
              var before := GenSubs(t, subs[..n]).value;
              && GenSubs(t, subs).value == (before.0 + Gen(t, own).value, before.1 + [own.name])
              && GenSubs(t, subs[n].subs).Some?
    ensures SubsSize(subs[..|subs| - 1]) < SubsSize(subs) && SubsSize(subs[|subs| - 1].subs) < SubsSize(subs)
  {
  }

  /** Generation prints the typed entries at exactly the places of the order, in that order. */
  lemma {:induction false} GenInOrder(t: Tmpl, subs: seq<Entry>)
    requires GenSubs(t, subs).Some?
    ensures NamesOf(t, subs, GenSubs(t, subs).value.1)
    ensures PrintedInOrder(t, subs, GenSubs(t, subs).value.0)
    decreases SubsSize(subs)
  {
    if subs == [] {
      EmptySubs(t);
    } else {
      hide *;
      GenSubsParts(t, subs);
      var n := |subs| - 1;
      var own := SetNameAndType(t, subs[n]).value;
      var before := GenSubs(t, subs[..n]).value;
      GenInOrder(t, subs[..n]);
      GenInOrder(t, subs[n].subs);
      NamesExtend(t, subs, before.1, own);
      var below, last := GenOwn(t, subs[n], own);
      JoinInOrder(t, subs, before.0, below, last);
    }
  }

  lemma JoinInOrder(t: Tmpl, subs: seq<Entry>, before: seq<Block>, below: seq<Block>, last: seq<Block>)
    requires subs != [] && OwnBlock(t, subs[|subs| - 1], last)
    requires PrintedInOrder(t, subs[..|subs| - 1], before) && PrintedInOrder(t, subs[|subs| - 1].subs, below)
    ensures PrintedInOrder(t, subs, before + (below + last))
  {
    hide BlockOf, Typed;
    var all := before + (below + last);
    assert |Order(t, subs)| == |all|;
    forall i | 0 <= i < |all|
      ensures ValidPath(subs, Order(t, subs)[i]) && BlockOf(t, EntryAt(subs, Order(t, subs)[i]), all[i])
    {
      JoinAt(t, subs, before, below, last, i);
    }
  }

  lemma JoinAt(t: Tmpl, subs: seq<Entry>, before: seq<Block>, below: seq<Block>, last: seq<Block>, i: nat)
    requires subs != [] && OwnBlock(t, subs[|subs| - 1], last)
    requires PrintedInOrder(t, subs[..|subs| - 1], before) && PrintedInOrder(t, subs[|subs| - 1].subs, below)
    requires i < |Order(t, subs)|
    ensures i < |before + (below + last)| && ValidPath(subs, Order(t, subs)[i])
    ensures BlockOf(t, EntryAt(subs, Order(t, subs)[i]), (before + (below + last))[i])
  {
    hide BlockOf, Order, ValidPath, EntryAt, Typed, PrintedInOrder;
    var n := |subs| - 1;
    var a, b := Order(t, subs[..n]), Order(t, subs[n].subs);
    OrderParts(t, subs, i);
    PrintedLength(t, subs[..n], before);
    PrintedLength(t, subs[n].subs, below);
    if i < |a| {
      JoinLeft(t, subs, before, i);
      assert (before + (below + last))[i] == before[i];
    } else if i < |a| + |b| {
      PrintedAt(t, subs[n].subs, below, i - |a|);
      assert (before + (below + last))[i] == below[i - |a|];
      UnderPath(subs, n, b[i - |a|]);
    } else {
      assert (before + (below + last))[i] == last[0];
      TopPath(subs, n);
    }
  }

  lemma JoinLeft(t: Tmpl, subs: seq<Entry>, before: seq<Block>, i: nat)
    requires subs != [] && PrintedInOrder(t, subs[..|subs| - 1], before) && i < |before|
    ensures i < |Order(t, subs[..|subs| - 1])|
    ensures var p := Order(t, subs[..|subs| - 1])[i]; ValidPath(subs, p) && BlockOf(t, EntryAt(subs, p), before[i])
  {
    hide BlockOf, Order;
    PrefixPath(subs, |subs| - 1, Order(t, subs[..|subs| - 1])[i]);
  }

  lemma PrintedLength(t: Tmpl, subs: seq<Entry>, blocks: seq<Block>)
    requires PrintedInOrder(t, subs, blocks)
    ensures |blocks| == |Order(t, subs)|
  {
  }

  lemma PrintedAt(t: Tmpl, subs: seq<Entry>, blocks: seq<Block>, i: nat)
    requires PrintedInOrder(t, subs, blocks) && i < |blocks|
    ensures |blocks| == |Order(t, subs)|
    ensures ValidPath(subs, Order(t, subs)[i]) && BlockOf(t, EntryAt(subs, Order(t, subs)[i]), blocks[i])
  {
  }

  lemma {:induction false} ChildPath(subs: seq<Entry>, p: Path, k: nat)
    requires ValidPath(subs, p) && k < |EntryAt(subs, p).subs|
    ensures ValidPath(subs, p + [k]) && EntryAt(subs, p + [k]) == EntryAt(subs, p).subs[k]
    decreases |p|
  {
    if |p| == 1 {
      assert (p + [k])[1..] == [k];
    } else {
      ChildPath(subs[p[0]].subs, p[1..], k);
      assert (p + [k])[1..] == p[1..] + [k];
    }
  }

  /** All places of typed entries, each listed once and after all places below it. */
  ghost predicate PostOrder(t: Tmpl, subs: seq<Entry>, ps: seq<Path>) {
    && (forall p :: p in ps <==> ValidPath(subs, p) && Typed(t, EntryAt(subs, p)))
    && Distinct(ps)
    && (forall i, j :: 0 <= i < |ps| && 0 <= j < |ps| && ps[i] < ps[j] ==> j < i)
  }

  lemma OrderIsPostOrder(t: Tmpl, subs: seq<Entry>)
    ensures PostOrder(t, subs, Order(t, subs))
  {
    hide Order, Typed;
    var ps := Order(t, subs);
    forall p
      ensures p in ps <==> ValidPath(subs, p) && Typed(t, EntryAt(subs, p))
    {
      if ValidPath(subs, p) && Typed(t, EntryAt(subs, p)) {
        var i := OrderComplete(t, subs, p);
      } else if i: nat :| i < |ps| && ps[i] == p {
        OrderValid(t, subs, i);
      }
    }
    forall i, j | 0 <= i < j < |ps|
      ensures ps[i] != ps[j]
    {
      OrderDistinct(t, subs, i, j);
    }
    forall i, j | 0 <= i < |ps| && 0 <= j < |ps| && ps[i] < ps[j]
      ensures j < i
    {
      DescendantsFirst(t, subs, i, j);
    }
  }

  /** A printed volfile: the root has no type and is not printed; the blocks are those of the entries
      that have one, each once and after its descendants. */
  lemma VolfileWellFormed(t: Tmpl, root: Entry)
    requires root.xl.ty == "" && Gen(t, root).Some?
    ensures PrintedInOrder(t, root.subs, Gen(t, root).value) && PostOrder(t, root.subs, Order(t, root.subs))
  {
    assert GenSubs(t, root.subs).Some? && Gen(t, root).value == GenSubs(t, root.subs).value.0;
    hide *;
    GenInOrder(t, root.subs);
    OrderIsPostOrder(t, root.subs);
  }

  // ---------------------------------------------------------------- names

  ghost predicate DefinedBefore(blocks: seq<Block>, i: nat, name: string)
    requires i <= |blocks|
  {
    exists j :: 0 <= j < i && blocks[j].name == name
  }

  /** A subvolumes line only names earlier blocks. */
  ghost predicate DefinedFirst(blocks: seq<Block>) {
    forall i, k :: 0 <= i < |blocks| && 0 <= k < |blocks[i].subvolumes| ==>
      DefinedBefore(blocks, i, blocks[i].subvolumes[k])
  }

  ghost predicate TypedAt(t: Tmpl, subs: seq<Entry>, p: Path) {
    ValidPath(subs, p) && Typed(t, EntryAt(subs, p))
  }

  ghost predicate HasChild(subs: seq<Entry>, p: Path, k: nat) {
    ValidPath(subs, p) && k < |EntryAt(subs, p).subs|
  }

  /** No typed entry has a child without a type. */
  ghost predicate ChildrenTyped(t: Tmpl, subs: seq<Entry>) {
    forall p, k :: TypedAt(t, subs, p) && HasChild(subs, p, k) ==> TypedAt(t, subs, p + [k])
  }

  /** Different places have different names. */
  ghost predicate NamesDiffer(t: Tmpl, subs: seq<Entry>) {
    forall p, q :: ValidPath(subs, p) && ValidPath(subs, q) && p != q ==>
      SetNameAndType(t, EntryAt(subs, p)).None? || SetNameAndType(t, EntryAt(subs, q)).None?
      || SetNameAndType(t, EntryAt(subs, p)).value.name != SetNameAndType(t, EntryAt(subs, q)).value.name
  }

  /** The place of a block, and what its subvolumes line says about a child. */
  lemma BlockChild(t: Tmpl, subs: seq<Entry>, blocks: seq<Block>, i: nat, k: nat)
    requires PrintedInOrder(t, subs, blocks) && i < |blocks| && k < |blocks[i].subvolumes|
    ensures |blocks| == |Order(t, subs)|
    ensures var p := Order(t, subs)[i];
            && TypedAt(t, subs, p) && HasChild(subs, p, k) && ValidPath(subs, p + [k])
            && SetNameAndType(t, EntryAt(subs, p + [k])).Some?
            && blocks[i].subvolumes[k] == SetNameAndType(t, EntryAt(subs, p + [k])).value.name
  {
    hide Order, SetNameAndType;
    PrintedAt(t, subs, blocks, i);
    OrderValid(t, subs, i);
    ChildPath(subs, Order(t, subs)[i], k);
  }

  lemma BlockName(t: Tmpl, subs: seq<Entry>, blocks: seq<Block>, j: nat)
    requires PrintedInOrder(t, subs, blocks) && j < |blocks|
    ensures |blocks| == |Order(t, subs)| && TypedAt(t, subs, Order(t, subs)[j])
    ensures SetNameAndType(t, EntryAt(subs, Order(t, subs)[j])).Some?
    ensures blocks[j].name == SetNameAndType(t, EntryAt(subs, Order(t, subs)[j])).value.name
  {
    hide Order, SetNameAndType;
    PrintedAt(t, subs, blocks, j);
    OrderValid(t, subs, j);
  }

  /** Each name of a typed child on a subvolumes line is the name of an earlier block. */
  lemma DefinedBeforeUse(t: Tmpl, subs: seq<Entry>, blocks: seq<Block>, i: nat, k: nat) returns (j: nat)
    requires PrintedInOrder(t, subs, blocks) && i < |blocks| == |Order(t, subs)| && k < |blocks[i].subvolumes|
    requires TypedAt(t, subs, Order(t, subs)[i] + [k])
    ensures j < i && blocks[j].name == blocks[i].subvolumes[k]
  {
    hide *;
    BlockChild(t, subs, blocks, i, k);
    var p := Order(t, subs)[i];
    TypedParts(t, subs, p + [k]);
    j := OrderComplete(t, subs, p + [k]);
    DescendantsFirst(t, subs, i, j);
    BlockName(t, subs, blocks, j);
  }

  lemma TypedParts(t: Tmpl, subs: seq<Entry>, p: Path)
    requires TypedAt(t, subs, p)
    ensures ValidPath(subs, p) && Typed(t, EntryAt(subs, p))
  {
  }

  /** The other way round: when names differ, a name that an earlier block defines is a typed child's. */
  lemma UsedIsTyped(t: Tmpl, subs: seq<Entry>, blocks: seq<Block>, i: nat, k: nat)
    requires PrintedInOrder(t, subs, blocks) && NamesDiffer(t, subs)
    requires i < |blocks| == |Order(t, subs)| && k < |blocks[i].subvolumes|
    requires DefinedBefore(blocks, i, blocks[i].subvolumes[k])
    ensures TypedAt(t, subs, Order(t, subs)[i] + [k])
  {
    hide Order, SetNameAndType, PrintedInOrder, EntryAt, ValidPath;
    var j :| 0 <= j < i && blocks[j].name == blocks[i].subvolumes[k];
    BlockChild(t, subs, blocks, i, k);
    BlockName(t, subs, blocks, j);
    var p, q := Order(t, subs)[i] + [k], Order(t, subs)[j];
    assert ValidPath(subs, p) && ValidPath(subs, q);
    assert p == q;
  }

  /** Every name on a subvolumes line is defined before it is used exactly when no typed entry has a
      child without a type, for every tree whose places have different names; and that is enough
      whatever the names. */
  lemma DefinedFirstExactly(t: Tmpl, root: Entry)
    requires root.xl.ty == "" && Gen(t, root).Some?
    ensures ChildrenTyped(t, root.subs) ==> DefinedFirst(Gen(t, root).value)
    ensures NamesDiffer(t, root.subs) ==> (DefinedFirst(Gen(t, root).value) <==> ChildrenTyped(t, root.subs))
  {
    hide Gen, Order, PrintedInOrder, TypedAt, HasChild, NamesDiffer, DefinedBefore, Typed, EntryAt, ValidPath;
    var subs, blocks := root.subs, Gen(t, root).value;
    VolfileWellFormed(t, root);
    PrintedLength(t, subs, blocks);
    if ChildrenTyped(t, subs) {
      forall i, k | 0 <= i < |blocks| && 0 <= k < |blocks[i].subvolumes|
        ensures DefinedBefore(blocks, i, blocks[i].subvolumes[k])
      {
        BlockChild(t, subs, blocks, i, k);
        var j := DefinedBeforeUse(t, subs, blocks, i, k);
        DefinedAt(blocks, i, j);
      }
    }
    if NamesDiffer(t, subs) && DefinedFirst(blocks) {
      forall p, k: nat | TypedAt(t, subs, p) && HasChild(subs, p, k)
        ensures TypedAt(t, subs, p + [k])
      {
        TypedParts(t, subs, p);
        var i := OrderComplete(t, subs, p);
        ListsChildren(t, subs, blocks, i, k);
        UsedIsTyped(t, subs, blocks, i, k);
      }
    }
  }

  lemma DefinedAt(blocks: seq<Block>, i: nat, j: nat)
    requires j < i <= |blocks|
    ensures DefinedBefore(blocks, i, blocks[j].name)
  {
  }

  lemma ListsChildren(t: Tmpl, subs: seq<Entry>, blocks: seq<Block>, i: nat, k: nat)
    requires PrintedInOrder(t, subs, blocks) && i < |blocks| == |Order(t, subs)| && HasChild(subs, Order(t, subs)[i], k)
    ensures k < |blocks[i].subvolumes|
  {
    hide Order;
    PrintedAt(t, subs, blocks, i);
  }

  /** The number of entries of the list and below it. */
  function Entries(subs: seq<Entry>): nat {
    if subs == [] then 0
    else var n := |subs| - 1; Entries(subs[..n]) + Entries(subs[n].subs) + 1
  }

  ghost predicate AllTyped(t: Tmpl, subs: seq<Entry>) {
    forall p :: ValidPath(subs, p) ==> Typed(t, EntryAt(subs, p))
  }

  /** A list is typed when all but its last entry are, and the last with its subtree. */
  lemma AllTypedParts(t: Tmpl, subs: seq<Entry>)
    requires subs != []
    ensures var n := |subs| - 1;
            AllTyped(t, subs) <==> AllTyped(t, subs[..n]) && AllTyped(t, subs[n].subs) && Typed(t, subs[n])
  {
    hide Typed;
    var n := |subs| - 1;
    TopPath(subs, n);
    forall p | ValidPath(subs[..n], p)
      ensures ValidPath(subs, p) && EntryAt(subs[..n], p) == EntryAt(subs, p)
    {
      PrefixPath(subs, n, p);
    }
    forall p | ValidPath(subs[n].subs, p)
      ensures ValidPath(subs, [n] + p) && EntryAt(subs, [n] + p) == EntryAt(subs[n].subs, p)
    {
      UnderPath(subs, n, p);
    }
    forall p | ValidPath(subs, p)
      ensures if p[0] < n then ValidPath(subs[..n], p) else p == [n] || ValidPath(subs[n].subs, p[1..])
    {
      if p[0] < n {
        PrefixPath(subs, n, p);
      }
    }
  }

  lemma {:induction false} OrderCount(t: Tmpl, subs: seq<Entry>)
    ensures |Order(t, subs)| <= Entries(subs)
    ensures |Order(t, subs)| == Entries(subs) <==> AllTyped(t, subs)
    decreases subs
  {
    hide AllTyped, Typed;
    if subs == [] {
      NothingUntyped(t);
    } else {
      AllTypedParts(t, subs);
      OrderCount(t, subs[..|subs| - 1]);
      OrderCount(t, subs[|subs| - 1].subs);
    }
  }

  lemma NothingUntyped(t: Tmpl)
    ensures AllTyped(t, [])
  {
  }

  /** There are never more blocks than entries, and as many exactly when every entry has a type. */
  lemma AllPrintedExactly(t: Tmpl, root: Entry)
    requires root.xl.ty == "" && Gen(t, root).Some?
    ensures |Gen(t, root).value| <= Entries(root.subs)
    ensures |Gen(t, root).value| == Entries(root.subs) <==> AllTyped(t, root.subs)
  {
    hide *;
    VolfileWellFormed(t, root);
    PrintedLength(t, root.subs, Gen(t, root).value);
    OrderCount(t, root.subs);
  }

  /** Where the condition is needed: an entry that gets no type is not printed, and its parent refers
      to it all the same. */
  lemma UntypedChildIsUndefined(t: Tmpl, child: Entry, parent: Entry)
    requires child.subs == [] && child.xl.ty == "" && child.xl.typeTmpl == "" && child.xl.nameTmpl == "" && child.name != ""
    requires parent.subs == [child] && parent.xl.ty != "" && parent.xl.nameTmpl == "" && parent.xl.options == []
    requires parent.name != "" && parent.name != child.name
    ensures Gen(t, parent) == Some([Block(parent.name, parent.xl.ty, [], [child.name])])
  {
    assert GenSubs(t, child.subs) == Some(([], []));
    OneSub(t, child, []);
    assert SetNameAndType(t, parent) == Some(parent);
    assert OptionLines(t, parent, []) == Some([]);
    var own := Block(parent.name, parent.xl.ty, [], [child.name]);
    assert Gen(t, parent) == Some([] + [own]);
    assert [] + [own] == [own];
  }

  lemma OneSub(t: Tmpl, e: Entry, out: seq<Block>)
    requires SetNameAndType(t, e) == Some(e) && Gen(t, e) == Some(out)
    ensures GenSubs(t, [e]) == Some((out, [e.name]))
  {
    var subs := [e];
    GenSubsParts(t, subs);
    assert subs[..|subs| - 1] == [];
    assert GenSubs(t, subs[..|subs| - 1]) == Some(([], []));
    assert [] + out == out && [] + [e.name] == [e.name];
  }

  // ---------------------------------------------------------------- the printer

  function RenderOptions(lines: seq<(string, string)>): string {
    if lines == [] then ""
    else var l := lines[|lines| - 1]; RenderOptions(lines[..|lines| - 1]) + "    option " + l.0 + " " + l.1 + "\n"
  }

  function SubvolumesLine(names: seq<string>): string {
    if names == [] then "" else "    subvolumes " + JoinWith(names, " ") + "\n"
  }

  function RenderBlock(b: Block): string {
    ("volume " + b.name + "\n") + ("    type " + b.ty + "\n") + RenderOptions(b.options)
    + SubvolumesLine(b.subvolumes) + "end-volume\n\n"
  }

  function Render(blocks: seq<Block>): string {
    if blocks == [] then "" else Render(blocks[..|blocks| - 1]) + RenderBlock(blocks[|blocks| - 1])
  }

  lemma Assoc(a: string, b: string, c: string)
    ensures (a + b) + c == a + (b + c)
  {
  }

  lemma {:induction false} RenderJoin(a: seq<Block>, b: seq<Block>)
    ensures Render(a + b) == Render(a) + Render(b)
  {
    hide RenderBlock;
    if b == [] {
      assert a + b == a;
    } else {
      var n := |b| - 1;
      RenderJoin(a, b[..n]);
      assert a + b == a + b[..n] + [b[n]];
      RenderLast(a + b[..n], b[n]);
      Assoc(Render(a), Render(b[..n]), RenderBlock(b[n]));
    }
  }

  lemma RenderLast(blocks: seq<Block>, b: Block)
    ensures Render(blocks + [b]) == Render(blocks) + RenderBlock(b)
  {
  }

  lemma RenderLastOption(lines: seq<(string, string)>, k: string, v: string)
    ensures RenderOptions(lines + [(k, v)]) == RenderOptions(lines) + "    option " + k + " " + v + "\n"
  {
  }

  /** Appending a block piece by piece appends its text. */
  lemma Pieces(out: string, a: string, b: string, c: string, d: string, e: string)
    ensures out + a + b + c + d + e == out + (a + b + c + d + e)
  {
  }

  /** A list fails when a prefix of it fails. */
  lemma {:induction false} PrefixFails(t: Tmpl, subs: seq<Entry>, n: nat)
    requires n <= |subs| && GenSubs(t, subs[..n]).None?
    ensures GenSubs(t, subs).None?
    decreases |subs|
  {
    if n == |subs| {
      assert subs[..n] == subs;
    } else {
      var m := |subs| - 1;
      assert subs[..m][..n] == subs[..n];
      PrefixFails(t, subs[..m], n);
      GenSubsParts(t, subs);
    }
  }

  lemma {:induction false} OptionsPrefixFails(t: Tmpl, e: Entry, opts: seq<(string, string)>, n: nat)
    requires n <= |opts| && OptionLines(t, e, opts[..n]).None?
    ensures OptionLines(t, e, opts).None?
    decreases |opts|
  {
    if n == |opts| {
      assert opts[..n] == opts;
    } else {
      var m := |opts| - 1;
      assert opts[..m][..n] == opts[..n];
      OptionsPrefixFails(t, e, opts[..m], n);
    }
  }

  /** One more option of the list. */
  lemma NextOption(t: Tmpl, e: Entry, opts: seq<(string, string)>, i: nat)
    requires i < |opts| && OptionLines(t, e, opts[..i]).Some?
    ensures var before := OptionLines(t, e, opts[..i]).value;
            var (k, v) := opts[i];
            var key, val := OptionText(t, k, e.vars), OptionText(t, v, e.vars);
            OptionLines(t, e, opts[..i + 1]) ==
              if k in e.xl.ignored then Some(before)
              else if key.None? || val.None? then None
              else if Blank(val.value) then Some(before)
              else Some(before + [(key.value, val.value)])
  {
    hide Blank, OptionText;
    assert opts[..i + 1][..i] == opts[..i];
    assert OptionLines(t, e, opts[..i]).value + [] == OptionLines(t, e, opts[..i]).value;
  }

  /** The option lines of an entry, appended one by one. */
  method GenerateOptions(t: Tmpl, e: Entry) returns (r: Option<string>)
    ensures r.None? <==> OptionLines(t, e, e.xl.options).None?
    ensures r.Some? ==> r.value == RenderOptions(OptionLines(t, e, e.xl.options).value)
    ensures r.Some? ==> exists lines :: LinesOf(t, e, e.xl.options, lines) && r.value == RenderOptions(lines)
    ensures r.None? <==> exists option | option in e.xl.options ::
                           option.0 !in e.xl.ignored && (HasNoText(t, option.0, e.vars) || HasNoText(t, option.1, e.vars))
  {
    hide OptionLines, RenderOptions, Blank, OptionText;
    var out := "";
    var opts := e.xl.options;
    OptionsFailExactly(t, e, opts);
    if OptionLines(t, e, opts).Some? {
      ghost var at := LinesExact(t, e, opts);
    }
    hide HasNoText, LinesAt;
    EmptyOptions(t, e);
    assert opts[..0] == [];
    for i := 0 to |opts|
      invariant OptionLines(t, e, opts[..i]).Some? && out == RenderOptions(OptionLines(t, e, opts[..i]).value)
    {
      NextOption(t, e, opts, i);
      var (k, v) := opts[i];
      var ignore := k in e.xl.ignored;
      if !ignore {
        var key, val := OptionText(t, k, e.vars), OptionText(t, v, e.vars);
        if key.None? || val.None? {
          OptionsPrefixFails(t, e, opts, i + 1);
          return None;
        }
        if !Blank(val.value) {
          RenderLastOption(OptionLines(t, e, opts[..i]).value, key.value, val.value);
          out := out + "    option " + key.value + " " + val.value + "\n";
        }
      }
    }
    assert opts[..|opts|] == opts;
    r := Some(out);
  }

  lemma EmptyOptions(t: Tmpl, e: Entry)
    ensures OptionLines(t, e, []) == Some([]) && RenderOptions([]) == ""
  {
  }

  /** The text of an entry's subtree is the text of its blocks. */
  method Generate(t: Tmpl, e: Entry) returns (r: Option<string>)
    ensures r.None? <==> Gen(t, e).None?
    ensures r.Some? ==> r.value == Render(Gen(t, e).value)
    decreases Size(e)
  {
    hide Gen, GenSubs, SetNameAndType, OptionLines, RenderOptions, RenderBlock, JoinWith;
    var out, subvolumes := "", [];
    var subs := e.subs;
    EmptySubs(t);
    assert subs[..0] == [];
    for i := 0 to |subs|
      invariant GenSubs(t, subs[..i]).Some?
      invariant out == Render(GenSubs(t, subs[..i]).value.0) && subvolumes == GenSubs(t, subs[..i]).value.1
    {
      NextSub(t, subs, i);
      var entry := SetNameAndType(t, subs[i]);
      if entry.None? {
        SubFails(t, e, i + 1);
        return None;
      }
      var text := Generate(t, entry.value);
      if text.None? {
        SubFails(t, e, i + 1);
        return None;
      }
      RenderJoin(GenSubs(t, subs[..i]).value.0, Gen(t, entry.value).value);
      out := out + text.value;
      subvolumes := subvolumes + [entry.value.name];
    }
    assert subs[..|subs|] == subs;
    GenUnfold(t, e);
    if e.xl.ty == "" {
      return Some(out);
    }
    var own := SetNameAndType(t, e);
    if own.None? {
      return None;
    }
    var options := GenerateOptions(t, own.value);
    if options.None? {
      return None;
    }
    BlockText(out, own.value.name, own.value.xl.ty, OptionLines(t, own.value, own.value.xl.options).value, subvolumes);
    RenderLast(GenSubs(t, subs).value.0, Gen(t, e).value[|Gen(t, e).value| - 1]);
    out := out + ("volume " + own.value.name + "\n");
    out := out + ("    type " + own.value.xl.ty + "\n");
    out := out + options.value;
    if |subvolumes| > 0 {
      out := out + ("    subvolumes " + JoinWith(subvolumes, " ") + "\n");
    }
    out := out + "end-volume\n\n";
    r := Some(out);
  }

  lemma SubFails(t: Tmpl, e: Entry, n: nat)
    requires n <= |e.subs| && GenSubs(t, e.subs[..n]).None?
    ensures Gen(t, e).None?
  {
    PrefixFails(t, e.subs, n);
  }

  lemma EmptySubs(t: Tmpl)
    ensures GenSubs(t, []) == Some(([], []))
  {
  }

  lemma GenUnfold(t: Tmpl, e: Entry)
    requires GenSubs(t, e.subs).Some?
    ensures var below := GenSubs(t, e.subs).value;
            var own := SetNameAndType(t, e);
            Gen(t, e) ==
              if e.xl.ty == "" then Some(below.0)
              else if own.None? || OptionLines(t, own.value, own.value.xl.options).None? then None
              else Some(below.0 + [Block(own.value.name, own.value.xl.ty,
                                         OptionLines(t, own.value, own.value.xl.options).value, below.1)])
  {
  }

  lemma BlockText(out: string, name: string, ty: string, lines: seq<(string, string)>, names: seq<string>)
    ensures var head := out + ("volume " + name + "\n") + ("    type " + ty + "\n") + RenderOptions(lines);
            (if |names| > 0 then head + ("    subvolumes " + JoinWith(names, " ") + "\n") else head) + "end-volume\n\n"
            == out + RenderBlock(Block(name, ty, lines, names))
  {
    hide RenderOptions, JoinWith;
    var head := out + ("volume " + name + "\n") + ("    type " + ty + "\n") + RenderOptions(lines);
    assert head + "" == head;
    Pieces(out, "volume " + name + "\n", "    type " + ty + "\n", RenderOptions(lines), SubvolumesLine(names), "end-volume\n\n");
  }

  /** One more entry of the list. */
  lemma NextSub(t: Tmpl, subs: seq<Entry>, i: nat)
    requires i < |subs| && GenSubs(t, subs[..i]).Some?
    ensures SetNameAndType(t, subs[i]).Some? ==> Size(SetNameAndType(t, subs[i]).value) <= SubsSize(subs)
    ensures GenSubs(t, subs[..i + 1]) ==
            if SetNameAndType(t, subs[i]).None? || Gen(t, SetNameAndType(t, subs[i]).value).None? then None
            else Some((GenSubs(t, subs[..i]).value.0 + Gen(t, SetNameAndType(t, subs[i]).value).value,
                       GenSubs(t, subs[..i]).value.1 + [SetNameAndType(t, subs[i]).value.name]))
  {
    assert subs[..i + 1][..i] == subs[..i];
    GenSubsParts(t, subs[..i + 1]);
    SubSmaller(subs, i);
  }

  lemma {:induction false} SubSmaller(subs: seq<Entry>, i: nat)
    requires i < |subs|
    ensures Size(subs[i]) < SubsSize(subs)
    decreases |subs|
  {
    if i < |subs| - 1 {
      SubSmaller(subs[..|subs| - 1], i);
    }
  }
}
