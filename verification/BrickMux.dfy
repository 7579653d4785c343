/**
 Brick multiplexing: choosing a running brick process for another brick, and the limit on bricks per
 process.
 */
module BrickMux {
  import opened Wrappers
  import opened PortMap

  datatype BrickInfo = BrickInfo(id: string, path: string)

  /** A volume with the bricks it has on this machine. */
  datatype Volume = Volume(started: bool, options: map<string, string>, local: seq<BrickInfo>)

  /** What the search sees besides the volumes: the registry, and which brick daemons run. */
  datatype World = World(reg: Reg, running: BrickInfo -> bool)

  /** A brick process that b may join: another, running, registered brick whose port does not hold
      exactly the maximum. */
  predicate Candidate(w: World, b: BrickInfo, c: BrickInfo, max: int) {
    && c.id != b.id && w.running(c)
    && Search(w.reg, c.path).Some?
    && NumOnPort(w.reg, Search(w.reg, c.path).value).Some?
    && NumOnPort(w.reg, Search(w.reg, c.path).value).value != max
  }

  ghost predicate HasCandidate(w: World, b: BrickInfo, v: Volume, max: int) {
    exists c :: c in v.local && Candidate(w, b, c, max)
  }

  /** The volume may share processes with the bricks of `own`. */
  predicate Compatible(own: Volume, v: Volume) {
    v.started && v.local != [] && v.options == own.options
  }

  method ValidateBmuxTarget(w: World, b: BrickInfo, v: Volume, max: int) returns (r: Option<BrickInfo>)
    ensures r.Some? ==> r.value in v.local && Candidate(w, b, r.value, max)
    ensures r.None? ==> !HasCandidate(w, b, v, max)
  {
    for i := 0 to |v.local|
      invariant forall k :: 0 <= k < i ==> !Candidate(w, b, v.local[k], max)
    {
      var c := v.local[i];
      if b.id == c.id {
        continue;
      }
      if !w.running(c) {
        continue;
      }
      var port := Search(w.reg, c.path);
      if port.None? {
        continue;
      }
      var num := NumOnPort(w.reg, port.value);
      if num.None? || num.value == max {
        continue;
      }
      return Some(c);
    }
    return None;
  }

  /** The volume searched when there is no limit: the first compatible one, or the brick's own. */
  function TargetVolume(own: Volume, volumes: seq<Volume>): Volume {
    if volumes == [] then own
    else if Compatible(own, volumes[0]) then volumes[0] else TargetVolume(own, volumes[1..])
  }

  ghost predicate FirstOf(own: Volume, volumes: seq<Volume>, i: nat) {
    i < |volumes| && Compatible(own, volumes[i]) && forall j :: 0 <= j < i ==> !Compatible(own, volumes[j])
  }

  lemma {:induction false} TargetIsFirst(own: Volume, volumes: seq<Volume>)
    ensures forall i: nat :: FirstOf(own, volumes, i) ==> TargetVolume(own, volumes) == volumes[i]
    ensures (forall v :: v in volumes ==> !Compatible(own, v)) ==> TargetVolume(own, volumes) == own
    ensures (exists i: nat :: FirstOf(own, volumes, i)) || forall v :: v in volumes ==> !Compatible(own, v)
  {
    if volumes != [] {
      TargetIsFirst(own, volumes[1..]);
      if i: nat :| FirstOf(own, volumes[1..], i) && !Compatible(own, volumes[0]) {
        assert FirstOf(own, volumes, i + 1);
      }
      if Compatible(own, volumes[0]) {
        assert FirstOf(own, volumes, 0);
      }
      forall i: nat | FirstOf(own, volumes, i) && i > 0
        ensures FirstOf(own, volumes[1..], i - 1)
      {
      }
    }
  }

  /** There is a brick to find: in the own volume or a compatible one when there is a limit, in the
      target volume when there is none. */
  ghost predicate Findable(w: World, b: BrickInfo, own: Volume, volumes: seq<Volume>, max: int) {
    if max > 0 then
      HasCandidate(w, b, own, max) || exists v :: v in volumes && Compatible(own, v) && HasCandidate(w, b, v, max)
    else HasCandidate(w, b, TargetVolume(own, volumes), max)
  }

  /** With a positive limit the search is complete: it fails exactly when no brick of the own volume
      or of a compatible one is a candidate. Whatever it finds is one. */
  method FindCompatibleBrick(w: World, b: BrickInfo, own: Volume, volumes: seq<Volume>, max: int)
    returns (r: Option<BrickInfo>)
    ensures r.Some? ==>
              && Candidate(w, b, r.value, max)
              && (r.value in own.local || exists v :: v in volumes && Compatible(own, v) && r.value in v.local)
    ensures r.Some? <==> Findable(w, b, own, volumes, max)
  {
    var startedVolsPresent := false;
    for i := 0 to |volumes|
      invariant startedVolsPresent <==> exists k :: 0 <= k < i && volumes[k].started
    {
      if volumes[i].started {
        startedVolsPresent := true;
        break;
      }
    }
    if !startedVolsPresent {
      NoneStarted(own, volumes);
      r := ValidateBmuxTarget(w, b, own, max);
      return;
    }
    if max > 0 {
      r := SearchLimited(w, b, own, volumes, max);
      return;
    }
    var target := FirstCompatible(own, volumes);
    r := ValidateBmuxTarget(w, b, target, max);
  }

  lemma NoneStarted(own: Volume, volumes: seq<Volume>)
    requires forall k :: 0 <= k < |volumes| ==> !volumes[k].started
    ensures TargetVolume(own, volumes) == own
  {
  }

  /** With a limit: try every compatible volume, then the brick's own. */
  method SearchLimited(w: World, b: BrickInfo, own: Volume, volumes: seq<Volume>, max: int) returns (r: Option<BrickInfo>)
    ensures r.Some? ==>
              && Candidate(w, b, r.value, max)
              && (r.value in own.local || exists v :: v in volumes && Compatible(own, v) && r.value in v.local)
    ensures r.None? ==>
              !HasCandidate(w, b, own, max) && forall v :: v in volumes && Compatible(own, v) ==> !HasCandidate(w, b, v, max)
  {
    for i := 0 to |volumes|
      invariant forall k :: 0 <= k < i && Compatible(own, volumes[k]) ==> !HasCandidate(w, b, volumes[k], max)
    {
      var v := volumes[i];
      if |v.local| == 0 {
        continue;
      }
      if !v.started {
        continue;
      }
      if v.options == own.options {
        r := ValidateBmuxTarget(w, b, v, max);
        if r.Some? {
          return;
        }
      }
    }
    r := ValidateBmuxTarget(w, b, own, max);
  }

  method FirstCompatible(own: Volume, volumes: seq<Volume>) returns (v: Volume)
    ensures v == TargetVolume(own, volumes)
    ensures v == own || (v in volumes && Compatible(own, v))
    ensures forall i: nat :: FirstOf(own, volumes, i) ==> v == volumes[i]
    ensures (forall w :: w in volumes ==> !Compatible(own, w)) ==> v == own
  {
    TargetIsFirst(own, volumes);
    for i := 0 to |volumes|
      invariant TargetVolume(own, volumes[i..]) == TargetVolume(own, volumes)
    {
      assert volumes[i..][1..] == volumes[i + 1..];
      if |volumes[i].local| == 0 {
        continue;
      }
      if !volumes[i].started {
        continue;
      }
      if volumes[i].options == own.options {
        return volumes[i];
      }
    }
    return own;
  }

  // ---------------------------------------------------------------- the limit over whole runs

  /** A brick process starts, a brick is attached to the process of a chosen target, an attached or
      started brick signs in again on its port, a brick signs out, a process goes away. */
  datatype MuxOp =
    | StartProcess(port: int, path: string, conn: Conn, pid: int)
    | Attach(target: string, path: string, pid: int)
    | SignInAgain(port: int, path: string, conn: Conn, pid: int)
    | Leave(port: int, path: string, conn: Conn)
    | Gone(conn: Conn)

  /** The registry's part of the test in the search: the target's port is not exactly full. */
  predicate NotExactlyFull(r: Reg, target: string, max: int) {
    Search(r, target).Some? && NumOnPort(r, Search(r, target).value).Some?
    && NumOnPort(r, Search(r, target).value).value != max
  }

  function MuxStep(r: Reg, op: MuxOp, max: int): Reg {
    match op
    case StartProcess(port, path, conn, pid) =>
      if |OnPort(r, port)| == 0 then UpdateReg(r, port, path, conn, pid) else r
    case Attach(target, path, pid) =>
      if NotExactlyFull(r, target, max) then UpdateReg(r, Search(r, target).value, path, NIL, pid) else r
    case SignInAgain(port, path, conn, pid) =>
      if path in OnPort(r, port) then UpdateReg(r, port, path, conn, pid) else r
    case Leave(port, path, conn) => RemoveReg(r, port, path, conn)
    case Gone(conn) => DisconnectReg(r, conn)
  }

  function MuxRun(ops: seq<MuxOp>, max: int): Reg {
    if ops == [] then Reg(map[], map[], map[]) else MuxStep(MuxRun(ops[..|ops| - 1], max), ops[|ops| - 1], max)
  }

  /** Attach brick b to a compatible process and extend the registry. `attached` tells whether the
      attach request and the socket and pid file of the target went through. */
  method Multiplex(registry: Registry, running: BrickInfo -> bool, b: BrickInfo, own: Volume, volumes: seq<Volume>,
                   max: int, attached: bool, pid: int)
    returns (target: Option<BrickInfo>)
    modifies registry
    ensures target.Some? <==> attached && Findable(World(old(registry.State()), running), b, own, volumes, max)
    ensures target.None? ==> registry.State() == old(registry.State())
    ensures target.Some? ==>
              && Candidate(World(old(registry.State()), running), b, target.value, max)
              && registry.State() == MuxStep(old(registry.State()), Attach(target.value.path, b.path, pid), max)
              && Search(registry.State(), b.path) ==
                 (if b.path == "" then None else Search(old(registry.State()), target.value.path))
  {
    target := FindCompatibleBrick(World(registry.State(), running), b, own, volumes, max);
    if target.None? {
      return;
    }
    var port := registry.SearchByBrickPath(target.value.path);
    if port.None? || !attached {
      return None;
    }
    var ok := registry.Update(port.value, b.path, NIL, pid);
  }

  ghost predicate WithinLimit(r: Reg, max: int) {
    forall q :: q in r.ports ==> |r.ports[q]| <= max
  }

  lemma MuxStepKeeps(r: Reg, op: MuxOp, max: int)
    requires max >= 1 && WithinLimit(r, max)
    ensures WithinLimit(MuxStep(r, op, max), max)
  {
  }

  /** For a fixed positive maximum no port ever holds more bricks than that, although the search
      tests only for equality with it. */
  lemma {:induction false} LimitIsKept(ops: seq<MuxOp>, max: int)
    requires max >= 1
    ensures WithinLimit(MuxRun(ops, max), max)
  {
    if ops != [] {
      LimitIsKept(ops[..|ops| - 1], max);
      MuxStepKeeps(MuxRun(ops[..|ops| - 1], max), ops[|ops| - 1], max);
    }
  }

  // ---------------------------------------------------------------- racing attaches

  /** Bricks attached one after the other to a port chosen before. */
  function JoinAll(r: Reg, port: int, paths: seq<string>, pid: int): Reg {
    if paths == [] then r
    else UpdateReg(JoinAll(r, port, paths[..|paths| - 1], pid), port, paths[|paths| - 1], NIL, pid)
  }

  lemma {:induction false} JoinAllOnPort(r: Reg, port: int, paths: seq<string>, pid: int)
    requires ValidPort(port) && port in r.ports
    ensures var r' := JoinAll(r, port, paths, pid);
            && r'.ports.Keys == r.ports.Keys && r'.ports[port].Keys == r.ports[port].Keys + Elems(paths)
            && forall q :: q in r.ports && q != port ==> r'.ports[q] == r.ports[q]
  {
    if paths != [] {
      var before, last := paths[..|paths| - 1], paths[|paths| - 1];
      JoinAllOnPort(r, port, before, pid);
      assert paths == before + [last];
      assert Elems(paths) == Elems(before) + {last};
    }
  }

  /** The equality test needs choosing and attaching to be one step: bricks that choose the same
      process together stay within the limit exactly when there is room for all of them. */
  lemma RacingAttachesExactly(r: Reg, target: string, paths: seq<string>, pid: int, max: int)
    requires Listed(r) && WithinLimit(r, max) && NotExactlyFull(r, target, max)
    ensures var q := Search(r, target).value;
            WithinLimit(JoinAll(r, q, paths, pid), max) <==> |OnPort(r, q).Keys + Elems(paths)| <= max
  {
    var q := Search(r, target).value;
    JoinAllOnPort(r, q, paths, pid);
    var r' := JoinAll(r, q, paths, pid);
    assert |r'.ports[q]| == |r'.ports[q].Keys|;
    if |OnPort(r, q).Keys + Elems(paths)| <= max {
      forall p | p in r'.ports
        ensures |r'.ports[p]| <= max
      {
        assert p == q || r'.ports[p] == r.ports[p];
      }
    } else {
      assert q in r'.ports && |r'.ports[q]| > max;
    }
  }

  /** Two bricks that choose the last free place together overfill the process, and it then counts as
      not full. */
  lemma RacingAttachesOverfill(r: Reg, target: string, a: string, b: string, pid: int, max: int)
    requires NotExactlyFull(r, target, max) && a != b && target != a && target != b
    requires var q := Search(r, target).value; |OnPort(r, q)| == max - 1 && a !in OnPort(r, q) && b !in OnPort(r, q)
    ensures var q := Search(r, target).value;
            var r2 := UpdateReg(UpdateReg(r, q, a, NIL, pid), q, b, NIL, pid);
            |OnPort(r2, q)| == max + 1 && NotExactlyFull(r2, target, max)
  {
  }

  /** Runs in which choosing a process and joining it are two steps, with anything in between. */
  datatype RaceOp = Other(op: MuxOp) | Choose(target: string, path: string) | Join(path: string, pid: int)

  datatype Race = Race(reg: Reg, chosen: map<string, int>)

  function RaceStep(m: Race, op: RaceOp, max: int): Race {
    match op
    case Other(o) => m.(reg := MuxStep(m.reg, o, max))
    case Choose(target, path) =>
      if NotExactlyFull(m.reg, target, max) then m.(chosen := m.chosen[path := Search(m.reg, target).value]) else m
    case Join(path, pid) =>
      if path in m.chosen then Race(UpdateReg(m.reg, m.chosen[path], path, NIL, pid), m.chosen - {path}) else m
  }

  function RaceRun(ops: seq<RaceOp>, max: int): Race {
    if ops == [] then Race(Reg(map[], map[], map[]), map[])
    else RaceStep(RaceRun(ops[..|ops| - 1], max), ops[|ops| - 1], max)
  }

  /** A join that comes while the test that allowed it would still pass, or for a brick already there. */
  predicate Timely(m: Race, op: RaceOp, max: int) {
    op.Join? && op.path in m.chosen ==>
      var here := OnPort(m.reg, m.chosen[op.path]);
      op.path in here || |here| != max
  }

  ghost predicate RaceInv(m: Race) {
    Listed(m.reg) && forall p :: p in m.chosen ==> ValidPort(m.chosen[p])
  }

  lemma MuxListed(r: Reg, op: MuxOp, max: int)
    requires Listed(r)
    ensures Listed(MuxStep(r, op, max))
  {
  }

  lemma {:induction false} RaceRunInv(ops: seq<RaceOp>, max: int)
    ensures RaceInv(RaceRun(ops, max))
  {
    if ops != [] {
      var m, op := RaceRun(ops[..|ops| - 1], max), ops[|ops| - 1];
      RaceRunInv(ops[..|ops| - 1], max);
      if op.Other? {
        MuxListed(m.reg, op.op, max);
      }
    }
  }

  lemma RaceStepExactly(m: Race, op: RaceOp, max: int)
    requires max >= 1 && RaceInv(m) && WithinLimit(m.reg, max)
    ensures WithinLimit(RaceStep(m, op, max).reg, max) <==> Timely(m, op, max)
  {
    match op
    case Other(o) => MuxStepKeeps(m.reg, o, max);
    case Choose(_, _) =>
    case Join(path, pid) =>
      if path in m.chosen {
        JoinExactly(m.reg, m.chosen[path], path, pid, max);
      }
  }

  lemma JoinExactly(r: Reg, port: int, path: string, pid: int, max: int)
    requires max >= 1 && WithinLimit(r, max) && ValidPort(port)
    ensures WithinLimit(UpdateReg(r, port, path, NIL, pid), max) <==> path in OnPort(r, port) || |OnPort(r, port)| != max
  {
    var here, r' := OnPort(r, port), UpdateReg(r, port, path, NIL, pid);
    assert r'.ports[port] == here[path := pid];
    assert here[path := pid].Keys == here.Keys + {path};
    assert |here.Keys| == |here| && |here[path := pid].Keys| == |here[path := pid]|;
  }

  /** After every step of a run. */
  ghost predicate KeptThroughout(ops: seq<RaceOp>, max: int) {
    WithinLimit(RaceRun(ops, max).reg, max) && (ops == [] || KeptThroughout(ops[..|ops| - 1], max))
  }

  predicate AllTimely(ops: seq<RaceOp>, max: int) {
    ops == [] || (AllTimely(ops[..|ops| - 1], max) && Timely(RaceRun(ops[..|ops| - 1], max), ops[|ops| - 1], max))
  }

  /** In every run, joins racing as they like, the limit holds throughout exactly when every join is
      timely. */
  lemma {:induction false} LimitKeptExactly(ops: seq<RaceOp>, max: int)
    requires max >= 1
    ensures KeptThroughout(ops, max) <==> AllTimely(ops, max)
  {
    if ops != [] {
      var before := ops[..|ops| - 1];
      LimitKeptExactly(before, max);
      RaceRunInv(before, max);
      if WithinLimit(RaceRun(before, max).reg, max) {
        RaceStepExactly(RaceRun(before, max), ops[|ops| - 1], max);
      }
    }
  }
}
