/**
 Rollback. In calm runs the cleaner deletes a transaction only when every step function that ran on any
 peer has been undone, last first.
 */
module TxnRollback {
  import opened Wrappers
  import opened TxnEngine
  import opened TxnRuns

  // ---------------------------------------------------------------- logs of step functions

  predicate Forward(o: Op) {
    o.Did? || o.Broke?
  }

  /** The runs left in a log once every undo has cancelled the latest run, which must be of the same
      step; an undo that finds anything else on top stays. */
  function Net(log: seq<Op>): seq<Op> {
    if log == [] then []
    else Push(Net(log[..|log| - 1]), log[|log| - 1])
  }

  function Push(st: seq<Op>, o: Op): seq<Op> {
    if o.Undid? && st != [] && Forward(st[|st| - 1]) && st[|st| - 1].step == o.step
    then st[..|st| - 1] else st + [o]
  }

  /** What a log does to a peer whose step functions are given by `run`. */
  function Effect<L>(run: (Op, L) -> L, log: seq<Op>, l: L): L {
    if log == [] then l
    else run(log[|log| - 1], Effect(run, log[..|log| - 1], l))
  }

  /** Each undo inverts its step, even a step that failed half way. */
  ghost predicate UndoInverts<L(!new)>(run: (Op, L) -> L) {
    forall i: nat, l: L ::
      run(Undid(i), run(Did(i), l)) == l && run(Undid(i), run(Broke(i), l)) == l
  }

  ghost predicate SameEffect<L(!new)>(run: (Op, L) -> L, a: seq<Op>, b: seq<Op>) {
    forall l: L :: Effect(run, a, l) == Effect(run, b, l)
  }

  /** The log leaves every state of the peer as it was. */
  ghost predicate Restored<L(!new)>(run: (Op, L) -> L, log: seq<Op>) {
    forall l: L :: Effect(run, log, l) == l
  }

  /** A log does what its uncancelled part does. */
  lemma {:induction false} NetEffect<L(!new)>(run: (Op, L) -> L, log: seq<Op>)
    requires UndoInverts(run)
    ensures SameEffect(run, log, Net(log))
  {
    if log != [] {
      var st, o := Net(log[..|log| - 1]), log[|log| - 1];
      NetEffect(run, log[..|log| - 1]);
      forall l: L
        ensures Effect(run, log, l) == Effect(run, Net(log), l)
      {
        assert Effect(run, log[..|log| - 1], l) == Effect(run, st, l);
        if Net(log) == st + [o] {
          assert Net(log)[..|Net(log)| - 1] == st;
        } else {
          var below := Effect(run, st[..|st| - 1], l);
          assert Effect(run, st, l) == run(st[|st| - 1], below);
          assert st[|st| - 1] == Did(o.step) || st[|st| - 1] == Broke(o.step);
        }
      }
    }
  }

  /** The steps up to k that a peer takes part in. */
  function Stack(t: Txn, n: nat, k: int): seq<nat>
    requires k < |t.steps|
    decreases k + 1
  {
    if k < 0 then [] else Stack(t, n, k - 1) + if ShouldRun(t, n, k) then [k] else []
  }

  ghost predicate Holds(st: seq<Op>, want: seq<nat>) {
    |st| == |want| && forall k :: 0 <= k < |st| ==> Forward(st[k]) && st[k].step == want[k]
  }

  lemma HoldsAfterUndo(t: Txn, n: nat, i: nat, log: seq<Op>)
    requires i < |t.steps| && Holds(Net(log), Stack(t, n, i))
    ensures Holds(Net(UndoLog(t, n, i, log, true)), Stack(t, n, i - 1))
  {
  }

  // ---------------------------------------------------------------- the invariant of one peer

  /** Steps done and not undone are 0..last, plus the step in flight, minus those already rolled
      back. */
  ghost predicate LevelInv(t: Txn, n: nat, x: Node) {
    var st := Net(x.log);
    if x.rolls != [] then
      && |x.rolls| == 1 && -1 <= x.rolls[0] < |t.steps| && Holds(st, Stack(t, n, x.rolls[0]))
      && !Live(x) && !InFlight(x.proc) && x.last != Some(-1)
    else if InFlight(x.proc) then
      x.proc.step < |t.steps| && Holds(st, Stack(t, n, x.proc.step))
    else
      x.last.Some? ==> -1 <= x.last.value < |t.steps| && Holds(st, Stack(t, n, x.last.value))
  }

  ghost predicate LiveInv(t: Txn, x: Node) {
    && (InFlight(x.proc) ==> Live(x) || (x.status.None? && x.last.None? && Failed !in x.seen))
    && (Live(x) ==>
          && x.last.Some? && Succeeded !in x.seen && Failed !in x.seen
          && (x.proc.Working? ==>
                x.proc.step < |t.steps|
                && x.last.value == if x.proc.phase.Recorded? then x.proc.step else x.proc.step - 1)
          && (x.status == Some(Pending) ==>
                !x.proc.Resuming? && (x.proc.Working? ==> !x.proc.once) &&
                (x.last.value == -1 || (x.proc.Working? && x.proc.step == 0 && x.proc.phase.Recorded?))))
  }

  ghost predicate CalmNode(t: Txn, n: nat, x: Node) {
    LevelInv(t, n, x) && LiveInv(t, x)
  }

  /** Before `prepare` has stored the first last step. */
  ghost predicate Unready(x: Node) {
    x.proc.Idle? && x.log == [] && x.rolls == [] && x.last.None? && Succeeded !in x.seen && Failed !in x.seen
  }

  /** Nothing left to undo, and nothing that could still run. */
  ghost predicate CleanNode(x: Node) {
    Net(x.log) == [] && x.rolls == [] && !Live(x) && !InFlight(x.proc) && (x.last.Some? ==> x.last.value == -1)
  }

  lemma StartKeeps(t: Txn, s: State, n: nat, x: Node, e: Local)
    requires CalmNode(t, n, x) && CalmLocal(x, e) && e in {Dispatch, ReadLast, Crash}
    ensures CalmNode(t, n, LocalStep(t, s, n, x, e))
  {
    var y := LocalStep(t, s, n, x, e);
    assert y == x.(proc := y.proc, rolls := y.rolls, boots := y.boots) && y.rolls == x.rolls;
    assert InFlight(y.proc) ==> y == x;
    assert InFlight(x.proc) ==> y == x;
    hide Net, Holds, Stack;
  }

  lemma SyncKeeps(t: Txn, s: State, n: nat, x: Node, e: Local)
    requires CalmNode(t, n, x) && (e.SyncReport? || e.SyncPass? || e.SyncTimeout? || e.NoticeFailure?)
    ensures CalmNode(t, n, LocalStep(t, s, n, x, e))
  {
    var y := LocalStep(t, s, n, x, e);
    assert y == x.(proc := y.proc) && InFlight(y.proc) == InFlight(x.proc);
  }

  /** What running a body changes. */
  lemma BodyShape(t: Txn, s: State, n: nat, x: Node, ok: bool)
    requires x.proc.Working? && x.proc.phase.Ready? && x.proc.step < |t.steps|
    ensures var i, y := x.proc.step, LocalStep(t, s, n, x, RunBody(ok));
            && y == x.(proc := y.proc, log := y.log, runs := y.runs, completed := y.completed)
            && y.proc == x.proc.(phase := y.proc.phase) && (y.proc.phase.Ran? || y.proc.phase.Broken?)
            && y.log == if ShouldRun(t, n, i) then x.log + [if ok then Did(i) else Broke(i)] else x.log
  {
  }

  lemma BodyHolds(t: Txn, n: nat, i: nat, log: seq<Op>, ok: bool)
    requires i < |t.steps| && Holds(Net(log), Stack(t, n, i - 1))
    ensures Holds(Net(if ShouldRun(t, n, i) then log + [if ok then Did(i) else Broke(i)] else log), Stack(t, n, i))
  {
  }

  lemma BodyKeeps(t: Txn, s: State, n: nat, x: Node, ok: bool)
    requires CalmNode(t, n, x) && Live(x)
    ensures CalmNode(t, n, LocalStep(t, s, n, x, RunBody(ok)))
  {
    if x.proc.Working? && x.proc.phase.Ready? && x.proc.step < |t.steps| {
      hide LocalStep, Net, Holds, Stack, ShouldRun;
      BodyShape(t, s, n, x, ok);
      assert x.last.value == x.proc.step - 1;
      BodyHolds(t, n, x.proc.step, x.log, ok);
    }
  }

  lemma UndoOwnKeeps(t: Txn, s: State, n: nat, x: Node)
    requires CalmNode(t, n, x)
    ensures CalmNode(t, n, LocalStep(t, s, n, x, UndoOwn(true)))
  {
    if x.proc.Working? && x.proc.phase.Broken? {
      HoldsAfterUndo(t, n, x.proc.step, x.log);
    }
  }

  lemma WritesKeep(t: Txn, s: State, n: nat, x: Node, e: Local)
    requires CalmNode(t, n, x) && CalmLocal(x, e) && (e.Record? || e.Advance? || e.Fail? || e.Finish?)
    ensures CalmNode(t, n, LocalStep(t, s, n, x, e))
  {
    hide Net, Holds, Stack;
  }

  lemma RollsKeep(t: Txn, s: State, n: nat, x: Node, e: Local)
    requires CalmNode(t, n, x) && CalmLocal(x, e) && (e.RollStart? || e.RollUndo? || e.RollEnd?)
    ensures CalmNode(t, n, LocalStep(t, s, n, x, e))
  {
    if e.RollUndo? && e.which < |x.rolls| && x.rolls[e.which] >= 0 {
      HoldsAfterUndo(t, n, x.rolls[0], x.log);
    }
  }

  lemma LocalCalm(t: Txn, s: State, n: nat, x: Node, e: Local)
    requires CalmNode(t, n, x) && CalmLocal(x, e)
    ensures CalmNode(t, n, LocalStep(t, s, n, x, e))
  {
    hide LocalStep;
    if e in {Dispatch, ReadLast, Crash} {
      StartKeeps(t, s, n, x, e);
    } else if e.SyncReport? || e.SyncPass? || e.SyncTimeout? || e.NoticeFailure? {
      SyncKeeps(t, s, n, x, e);
    } else if e.RunBody? {
      BodyKeeps(t, s, n, x, e.ok);
    } else if e.UndoOwn? {
      UndoOwnKeeps(t, s, n, x);
    } else if e.Record? || e.Advance? || e.Fail? || e.Finish? {
      WritesKeep(t, s, n, x, e);
    } else {
      RollsKeep(t, s, n, x, e);
    }
  }

  /** Once a peer is not live it stays so, and a clean peer stays clean. */
  lemma LocalStaysClean(t: Txn, s: State, n: nat, x: Node, e: Local)
    requires CalmNode(t, n, x) && CalmLocal(x, e) && !Live(x)
    ensures !Live(LocalStep(t, s, n, x, e))
    ensures CleanNode(x) ==> CleanNode(LocalStep(t, s, n, x, e))
  {
  }

  lemma LocalUnready(t: Txn, s: State, n: nat, x: Node, e: Local)
    requires Unready(x) && !s.record
    ensures Unready(LocalStep(t, s, n, x, e))
  {
  }

  lemma KeysCalm(t: Txn, n: nat, x: Node, w: KeyWrite)
    requires CalmNode(t, n, x)
    requires (w == SetStatus(Failed) && !InFlight(x.proc)) || w == Drop
    ensures CalmNode(t, n, WriteKeys(w, x)) && !Live(WriteKeys(w, x))
    ensures CleanNode(x) ==> CleanNode(WriteKeys(w, x))
  {
  }

  lemma KeysUnready(t: Txn, n: nat, x: Node)
    requires Unready(x)
    ensures Unready(WriteKeys(SetStatus(Pending), x)) && Unready(WriteKeys(Drop, x))
    ensures CalmNode(t, n, WriteKeys(SetLast(-1), x))
  {
  }

  // ---------------------------------------------------------------- the invariant of the state

  ghost predicate CleanUpTo(s: State, k: nat) {
    forall m: nat :: m < k && m < |s.nodes| ==> CleanNode(s.nodes[m])
  }

  /** What the cleaner has seen of the peers, one read at a time, is still true of them. */
  ghost predicate CleanerInv(t: Txn, s: State) {
    match s.cleaner
    case Resting => true
    case Scanning(i, count, sawFailed) =>
      && count <= i <= t.size && s.prep.Added?
      && (count == i ==> CleanUpTo(s, i))
      && (sawFailed ==> i < |s.nodes| && !Live(s.nodes[i]))
    case Deleting => s.prep.Added? && CleanUpTo(s, t.size)
  }

  predicate Primed(s: State) {
    s.prep.LastPut? || s.prep.Added?
  }

  ghost predicate PeerInv(t: Txn, s: State, n: nat)
    requires n < |s.nodes|
  {
    if Primed(s) then CalmNode(t, n, s.nodes[n]) else !s.record && Unready(s.nodes[n])
  }

  ghost predicate CalmInv(t: Txn, s: State) {
    && |s.nodes| == t.size
    && (forall n: nat :: n < |s.nodes| ==> PeerInv(t, s, n))
    && (s.record ==> s.prep.Added?)
    && CleanerInv(t, s)
  }

  lemma Priming(t: Txn, s: State, a: Action, n: nat)
    requires |s.nodes| == t.size && n < |s.nodes|
    ensures var s' := Step(t, s, a);
            && |s'.nodes| == |s.nodes|
            && Primed(s') == (Primed(s) || (a.PutLast? && s'.prep.LastPut? && s.prep.StatusPut?))
            && (s'.record ==> s.record || s.prep.LastPut?)
            && (a.PutLast? && !Primed(s') ==> s'.nodes == s.nodes)
            && (s.prep.StatusPut? && a.PutLast? && s'.prep.LastPut? ==> s'.nodes[n] == WriteKeys(SetLast(-1), s.nodes[n]))
  {
    hide LocalStep, WriteKeys;
  }

  /** What one calm action does to one peer. */
  lemma PeerKeeps(t: Txn, s: State, a: Action, n: nat)
    requires CalmInv(t, s) && Calm(s, a) && n < |s.nodes|
    ensures |Step(t, s, a).nodes| == |s.nodes| && PeerInv(t, Step(t, s, a), n)
    ensures Primed(s) ==>
              var x, y := s.nodes[n], Step(t, s, a).nodes[n];
              (!Live(x) ==> !Live(y)) && (CleanNode(x) ==> CleanNode(y))
  {
    var s' := Step(t, s, a);
    hide Step, LocalStep;
    Priming(t, s, a, n);
    StepOnNode(t, s, a, n);
    var x, y := s.nodes[n], s'.nodes[n];
    assert PeerInv(t, s, n);
    if a.At? && a.node == n {
      if Primed(s) {
        LocalCalm(t, s, n, x, a.event);
        if !Live(x) {
          LocalStaysClean(t, s, n, x, a.event);
        }
      } else {
        LocalUnready(t, s, n, x, a.event);
      }
    } else if !Primed(s) {
      KeysUnready(t, n, x);
      assert if Primed(s') then y == WriteKeys(SetLast(-1), x)
             else y == x || y == WriteKeys(SetStatus(Pending), x) || y == WriteKeys(Drop, x);
      hide *;
    } else if y != x {
      if a.DoneDeletesKeys? || a.CleanDeletesKeys? {
        KeysCalm(t, n, x, Drop);
      } else {
        KeysCalm(t, n, x, SetStatus(Failed));
      }
    }
  }

  /** The cleaner's reads. A peer read as failed and at -1 is clean. */
  lemma CleanerKeeps(t: Txn, s: State, a: Action)
    requires CalmInv(t, s) && |Step(t, s, a).nodes| == |s.nodes|
    requires forall n: nat :: n < |s.nodes| && Primed(s) ==>
               var x, y := s.nodes[n], Step(t, s, a).nodes[n];
               (!Live(x) ==> !Live(y)) && (CleanNode(x) ==> CleanNode(y))
    ensures CleanerInv(t, Step(t, s, a))
  {
    CleanerAfter(t, s, a);
    hide Step, LocalStep;
    if a.CleanRead? && s.cleaner.Scanning? && s.cleaner.sawFailed && Step(t, s, a).cleaner != s.cleaner {
      var x := s.nodes[s.cleaner.next];
      assert PeerInv(t, s, s.cleaner.next);
      if x.last == Some(-1) {
        assert CleanNode(x);
      }
    }
  }

  /** What one action does to the cleaner. */
  lemma CleanerAfter(t: Txn, s: State, a: Action)
    ensures var s' := Step(t, s, a); var c, c' := s.cleaner, s'.cleaner;
            && (s.prep.Added? ==> s'.prep.Added?)
            && (|| c' == c || c'.Resting?
                || (a.CleanStart? && s.record && c' == Scanning(0, 0, false))
                || (a.CleanRead? && c.Scanning? && c.next < t.size && c.next < |s.nodes| && s' == s.(cleaner := c')
                    && c' == CleanReadStep(t, s, c.next, c.count, c.sawFailed))
                || (a.CleanDecide? && c.Scanning? && c.next == c.count == t.size && s' == s.(cleaner := Deleting)))
  {
    hide LocalStep;
  }

  lemma RecordKeeps(t: Txn, s: State, a: Action)
    requires s.record ==> s.prep.Added?
    ensures var s' := Step(t, s, a); |s'.nodes| == |s.nodes| && (s'.record ==> s'.prep.Added?)
  {
  }

  lemma StepCalm(t: Txn, s: State, a: Action)
    requires CalmInv(t, s) && Calm(s, a)
    ensures CalmInv(t, Step(t, s, a))
  {
    hide Step, LocalStep, PeerInv, CleanerInv, CleanNode;
    var s' := Step(t, s, a);
    RecordKeeps(t, s, a);
    forall n: nat | n < |s.nodes|
      ensures PeerInv(t, s', n)
      ensures Primed(s) ==> (!Live(s.nodes[n]) ==> !Live(s'.nodes[n])) && (CleanNode(s.nodes[n]) ==> CleanNode(s'.nodes[n]))
    {
      PeerKeeps(t, s, a, n);
    }
    CleanerKeeps(t, s, a);
  }

  lemma {:induction false} RunCalm(t: Txn, acts: seq<Action>)
    requires CalmRun(t, acts, {})
    ensures CalmInv(t, Run(t, acts))
  {
    hide Step, LocalStep;
    if acts != [] {
      var before := acts[..|acts| - 1];
      RunCalm(t, before);
      StepCalm(t, Run(t, before), acts[|acts| - 1]);
    }
  }

  /** In every calm run the cleaner gets to deleting a transaction only when every peer's runs have
      all been undone, last first; so when each undo inverts its step, every peer is back to what it
      was. */
  lemma DeletedOnlyWhenUndone<L(!new)>(t: Txn, acts: seq<Action>, n: nat, run: (Op, L) -> L)
    requires CalmRun(t, acts, {}) && Run(t, acts).cleaner.Deleting? && n < t.size
    requires UndoInverts(run)
    ensures |Run(t, acts).nodes| == t.size && Net(Run(t, acts).nodes[n].log) == []
    ensures Restored(run, Run(t, acts).nodes[n].log)
  {
    hide Step, LocalStep;
    RunCalm(t, acts);
    assert CleanNode(Run(t, acts).nodes[n]);
    NetEffect(run, Run(t, acts).nodes[n].log);
    assert SameEffect(run, Run(t, acts).nodes[n].log, []);
  }

  /** The run invariant behind it: with no rollback and no step in flight, the steps done and not
      undone are those up to the recorded last step. */
  lemma DoneStepsAreUpToLast(t: Txn, acts: seq<Action>, n: nat)
    requires CalmRun(t, acts, {}) && n < t.size
    ensures |Run(t, acts).nodes| == t.size
    ensures var x := Run(t, acts).nodes[n];
            x.last.Some? && x.rolls == [] && !InFlight(x.proc) ==>
              -1 <= x.last.value < |t.steps| && Holds(Net(x.log), Stack(t, n, x.last.value))
  {
    hide Step, LocalStep;
    RunCalm(t, acts);
    assert PeerInv(t, Run(t, acts), n);
  }
}
