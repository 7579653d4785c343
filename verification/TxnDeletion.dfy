/**
 When deleting a failed transaction is safe: exactly when there was nothing to do. And why the calm
 runs of the rollback claim are as they are: for each thing they rule out, a run in which nothing else
 goes wrong and a transaction is deleted with work left behind.
 */
module TxnDeletion {
  import opened Wrappers
  import opened TxnEngine
  import opened TxnRuns
  import opened TxnRollback

  /** The cleaner is about to delete a transaction while step functions run on peer n are not undone,
      and all actions but those excepted were calm. */
  ghost predicate LeavesWork(t: Txn, acts: seq<Action>, n: nat, but: set<Action>) {
    && CalmRun(t, acts, but) && Run(t, acts).cleaner.Deleting?
    && |Run(t, acts).nodes| > n && Net(Run(t, acts).nodes[n].log) != []
  }

  // ---------------------------------------------------------------- the cleaner's scan

  ghost predicate RolledBack(xs: seq<Node>) {
    forall m :: 0 <= m < |xs| ==> xs[m].status == Some(Failed) && xs[m].last == Some(-1)
  }

  /** Scanning peers that all look rolled back. */
  lemma {:induction false} Scan(t: Txn, acts: seq<Action>, but: set<Action>, k: nat) returns (more: seq<Action>)
    requires CalmRun(t, acts, but) && |Run(t, acts).nodes| == t.size && RolledBack(Run(t, acts).nodes)
    requires k <= t.size && Run(t, acts).cleaner == Scanning(k, k, false)
    ensures CalmRun(t, more, but) && Run(t, more) == Run(t, acts).(cleaner := Deleting)
    decreases t.size - k
  {
    hide Run, CalmRun;
    var s := Run(t, acts);
    ScanStep(t, s, k);
    if k == t.size {
      more := acts + [CleanDecide];
      RunNext(t, acts, CleanDecide, but);
    } else {
      RunNext(t, acts, CleanRead, but);
      more := acts + [CleanRead];
      RunNext(t, more, CleanRead, but);
      more := Scan(t, more + [CleanRead], but, k + 1);
    }
  }

  lemma ScanStep(t: Txn, s: State, k: nat)
    requires |s.nodes| == t.size && RolledBack(s.nodes) && k <= t.size && s.cleaner == Scanning(k, k, false)
    ensures k == t.size ==> Step(t, s, CleanDecide) == s.(cleaner := Deleting)
    ensures k < t.size ==> Step(t, Step(t, s, CleanRead), CleanRead) == s.(cleaner := Scanning(k + 1, k + 1, false))
  {
  }

  lemma Clean(t: Txn, acts: seq<Action>, n: nat, x: Node, o: seq<Node>, but: set<Action>) returns (more: seq<Action>)
    requires Lone(t, acts, n, x, o, but) && RolledBack(o[n := x])
    ensures CalmRun(t, more, but) && Run(t, more).cleaner.Deleting? && Run(t, more).nodes == o[n := x]
  {
    hide Run, CalmRun;
    var s := Run(t, acts);
    RunNext(t, acts, CleanStart, but);
    assert Step(t, s, CleanStart) == s.(cleaner := Scanning(0, 0, false)) by { hide LocalStep; }
    more := Scan(t, acts + [CleanStart], but, 0);
  }

  lemma CleanDirty(t: Txn, acts: seq<Action>, n: nat, x: Node, o: seq<Node>, but: set<Action>) returns (more: seq<Action>)
    requires Lone(t, acts, n, x, o, but) && Net(x.log) != []
    requires x.status == Some(Failed) && x.last == Some(-1) && RolledBack(o)
    ensures LeavesWork(t, more, n, but)
  {
    hide Run, CalmRun, Net;
    more := Clean(t, acts, n, x, o, but);
  }

  // ---------------------------------------------------------------- rolled back and deleted

  /** Roll back whatever is recorded, and let the cleaner see it. */
  lemma RollBackAndClean(t: Txn, acts: seq<Action>, n: nat, x: Node, o: seq<Node>, but: set<Action>) returns (more: seq<Action>)
    requires Lone(t, acts, n, x, o, but) && x.rolls == [] && Failed in x.seen
    requires x.last.Some? && -1 <= x.last.value < |t.steps| && Net(x.log + Undone(t, n, x.last.value)) != []
    requires x.status == Some(Failed) && RolledBack(o)
    ensures LeavesWork(t, more, n, but)
  {
    hide Lone, Undone, Net, LeavesWork;
    var y;
    more, y := RollBack(t, acts, n, x, o, but);
    more := CleanDirty(t, more, n, y, o, but);
  }

  // ---------------------------------------------------------------- what stays in a log

  lemma NetNext(log: seq<Op>, o: Op)
    ensures Net(log + [o]) == Push(Net(log), o)
  {
    assert (log + [o])[..|log + [o]| - 1] == log;
  }

  lemma {:induction false} DoneHolds(t: Txn, n: nat, i: nat)
    requires i <= |t.steps|
    ensures Holds(Net(Done(t, n, i)), Stack(t, n, i - 1))
  {
    if i > 0 {
      hide Net, Holds, Stack;
      DoneHolds(t, n, i - 1);
      BodyHolds(t, n, i - 1, Done(t, n, i - 1), true);
    }
  }

  /** An undo on top of something it does not cancel stays, and so does everything below it. */
  ghost predicate Stuck(st: seq<Op>) {
    st != [] && !Forward(st[|st| - 1])
  }

  /** Or a run stands on top that the coming undos, of earlier steps only, do not cancel. */
  ghost predicate StuckBelow(st: seq<Op>, k: int) {
    Stuck(st) || (st != [] && st[|st| - 1].step > k)
  }

  lemma {:induction false} UndoneStuck(t: Txn, n: nat, log: seq<Op>, k: int)
    requires -1 <= k < |t.steps| && StuckBelow(Net(log), k)
    ensures Net(log + Undone(t, n, k)) != []
    decreases k + 1
  {
    hide Net;
    if k < 0 {
      assert log + Undone(t, n, k) == log;
    } else if ShouldRun(t, n, k) {
      NetNext(log, Undid(k));
      UndoneStuck(t, n, log + [Undid(k)], k - 1);
      assert log + [Undid(k)] + Undone(t, n, k - 1) == log + Undone(t, n, k);
    } else {
      UndoneStuck(t, n, log, k - 1);
      assert Undone(t, n, k) == Undone(t, n, k - 1);
    }
  }

  /** Undoing exactly what was done leaves nothing. */
  lemma {:induction false} UndoneCancels(t: Txn, n: nat, log: seq<Op>, k: int)
    requires -1 <= k < |t.steps| && Holds(Net(log), Stack(t, n, k))
    ensures Net(log + Undone(t, n, k)) == []
    decreases k + 1
  {
    if k < 0 {
      assert log + Undone(t, n, k) == log;
    } else {
      HoldsAfterUndo(t, n, k, log);
      var next := UndoLog(t, n, k, log, true);
      UndoneCancels(t, n, next, k - 1);
      assert next == log + UndoLog(t, n, k, [], true);
      assert next + Undone(t, n, k - 1) == log + Undone(t, n, k);
    }
  }

  lemma {:induction false} StackBelow(t: Txn, n: nat, k: int, j: nat)
    requires -1 <= k < |t.steps| && j < |Stack(t, n, k)|
    ensures Stack(t, n, k)[j] <= k
    decreases k + 1
  {
    if j < |Stack(t, n, k - 1)| {
      StackBelow(t, n, k - 1, j);
    }
  }

  /** The undo of step i on top of the earlier steps only. */
  lemma SecondUndoStuck(t: Txn, n: nat, log: seq<Op>, i: nat)
    requires i < |t.steps| && ShouldRun(t, n, i) && Holds(Net(log), Stack(t, n, i - 1))
    ensures Net(log + Undone(t, n, i)) != []
  {
    hide Net, Holds, Stack;
    NetNext(log, Undid(i));
    UndoOfMissing(t, n, Net(log), i);
    UndoneStuck(t, n, log + [Undid(i)], i - 1);
    assert log + [Undid(i)] + Undone(t, n, i - 1) == log + Undone(t, n, i);
  }

  lemma UndoOfMissing(t: Txn, n: nat, st: seq<Op>, i: nat)
    requires i < |t.steps| && Holds(st, Stack(t, n, i - 1))
    ensures Stuck(Push(st, Undid(i)))
  {
    if st != [] {
      StackBelow(t, n, i - 1, |st| - 1);
    }
  }

  // ---------------------------------------------------------------- work left behind

  /** A peer that has climbed to step i, and run its body. */
  lemma ClimbAndRun(t: Txn, n: nat, i: nat, but: set<Action>) returns (acts: seq<Action>, x: Node)
    requires n < t.size && i < |t.steps| && ShouldRun(t, n, i)
    ensures Lone(t, acts, n, x, AllPrepared(t), but)
    ensures x.proc == Working(i, Ran, true, i > 0) && x.last.Some? && x.last.value == i - 1
    ensures x.log == Done(t, n, i) + [Did(i)] && x.rolls == [] && Live(x)
  {
    hide Lone, Solo;
    acts, x := Climb(t, n, i, but);
    SoloBody(t, n, x);
    acts := Go(t, acts, n, x, AllPrepared(t), but, RunBody(true));
    x := Solo(t, n, x, RunBody(true));
  }

  /** ... and recorded it, and been marked failed together with all others. */
  lemma ClimbAndMark(t: Txn, n: nat, i: nat, but: set<Action>) returns (acts: seq<Action>, x: Node)
    requires n < t.size && i < |t.steps| && ShouldRun(t, n, i)
    ensures Lone(t, acts, n, x, MarkedAll(AllPrepared(t)), but)
    ensures x.proc == Working(i, Recorded, true, i > 0) && x.last == Some(i) && x.rolls == []
    ensures x.log == Done(t, n, i) + [Did(i)] && x.status == Some(Failed) && Failed in x.seen
  {
    hide Lone, Solo;
    acts, x := ClimbAndRun(t, n, i, but);
    SoloRecord(t, n, x);
    acts := Go(t, acts, n, x, AllPrepared(t), but, Record(true));
    x := Solo(t, n, x, Record(true));
    acts := MarkAll(t, acts, n, x, AllPrepared(t), but);
    x := Marked(x);
  }

  /** The run of step i stays when only earlier steps are undone. */
  lemma LastRunStays(t: Txn, n: nat, i: nat)
    requires i < |t.steps|
    ensures Net(Done(t, n, i) + [Did(i)] + Undone(t, n, i - 1)) != []
  {
    NetNext(Done(t, n, i), Did(i));
    UndoneStuck(t, n, Done(t, n, i) + [Did(i)], i - 1);
  }

  /** A run with anything but its undo on top stays. */
  lemma FailedUndoStays(t: Txn, n: nat, log: seq<Op>, i: nat, k: int)
    requires -1 <= k < |t.steps|
    ensures Net(log + [UndoFailed(i)] + Undone(t, n, k)) != []
  {
    NetNext(log, UndoFailed(i));
    UndoneStuck(t, n, log + [UndoFailed(i)], k);
  }

  /** An executor goes on after the mark: the body of any step of any peer can run when the peer has
      already been rolled back. */
  lemma LateBodySurvives(t: Txn, n: nat, i: nat) returns (acts: seq<Action>)
    requires n < t.size && i < |t.steps| && ShouldRun(t, n, i)
    ensures LeavesWork(t, acts, n, {At(n, RunBody(true))})
  {
    hide Lone, Solo, LeavesWork, Net, Undone;
    var but := {At(n, RunBody(true))};
    var o := MarkedAll(AllPrepared(t));
    var x;
    acts, x := Climb(t, n, i, but);
    acts := MarkAll(t, acts, n, x, AllPrepared(t), but);
    acts, x := RollBack(t, acts, n, Marked(x), o, but);
    SoloBody(t, n, x);
    acts := Go(t, acts, n, x, o, but, RunBody(true));
    NetNext(x.log, Did(i));
    acts := CleanDirty(t, acts, n, Solo(t, n, x, RunBody(true)), o, but);
  }

  /** A peer is marked failed between a body and its record. */
  lemma UnrecordedStepSurvives(t: Txn, n: nat, i: nat) returns (acts: seq<Action>)
    requires n < t.size && i < |t.steps| && ShouldRun(t, n, i)
    ensures LeavesWork(t, acts, n, {MarkFailed(Below(t.size))})
  {
    hide Lone, Solo, LeavesWork, Net, Undone;
    var but := {MarkFailed(Below(t.size))};
    var x;
    acts, x := ClimbAndRun(t, n, i, but);
    acts := MarkAll(t, acts, n, x, AllPrepared(t), but);
    LastRunStays(t, n, i);
    acts := RollBackAndClean(t, acts, n, Marked(x), MarkedAll(AllPrepared(t)), but);
  }

  /** `Do` gives up between a body and its record. */
  lemma GivenUpStepSurvives(t: Txn, n: nat, i: nat) returns (acts: seq<Action>)
    requires n < t.size && i < |t.steps| && ShouldRun(t, n, i)
    ensures LeavesWork(t, acts, n, {DoFails(true)})
  {
    hide Lone, Solo, LeavesWork, Net, Undone;
    var x;
    acts, x := ClimbAndRun(t, n, i, {});
    acts := GiveUp(t, acts, n, x, AllPrepared(t));
    LastRunStays(t, n, i);
    acts := RollBackAndClean(t, acts, n, Marked(x), MarkedAll(AllPrepared(t)), {DoFails(true)});
  }

  /** A peer crashes between a body and its record. */
  lemma CrashInFlightSurvives(t: Txn, n: nat, i: nat) returns (acts: seq<Action>)
    requires n < t.size && i < |t.steps| && ShouldRun(t, n, i)
    ensures LeavesWork(t, acts, n, {At(n, Crash)})
  {
    hide Lone, Solo, LeavesWork, Net, Undone;
    var but := {At(n, Crash)};
    var x;
    acts, x := ClimbAndRun(t, n, i, but);
    SoloCrash(t, n, x);
    acts := Go(t, acts, n, x, AllPrepared(t), but, Crash);
    x := Solo(t, n, x, Crash);
    acts := MarkAll(t, acts, n, x, AllPrepared(t), but);
    LastRunStays(t, n, i);
    acts := RollBackAndClean(t, acts, n, Marked(x), MarkedAll(AllPrepared(t)), but);
  }

  /** A peer crashes in the middle of a rollback, which then starts again. */
  lemma CrashInRollbackSurvives(t: Txn, n: nat, i: nat) returns (acts: seq<Action>)
    requires n < t.size && i < |t.steps| && ShouldRun(t, n, i)
    ensures LeavesWork(t, acts, n, {At(n, Crash)})
  {
    hide Lone, Solo, LeavesWork, Net, Undone, Holds, Stack;
    var but := {At(n, Crash)};
    var o := MarkedAll(AllPrepared(t));
    var x;
    acts, x := ClimbAndMark(t, n, i, but);
    acts := StartRollBack(t, acts, n, x, o, but);
    x := x.(rolls := x.rolls + [i]);
    SoloUndo(t, n, x, true);
    acts := Go(t, acts, n, x, o, but, RollUndo(0, true));
    x := Solo(t, n, x, RollUndo(0, true));
    SoloCrash(t, n, x);
    acts := Go(t, acts, n, x, o, but, Crash);
    x := Solo(t, n, x, Crash);
    OnceUndone(t, n, i);
    SecondUndoStuck(t, n, x.log, i);
    acts := RollBackAndClean(t, acts, n, x, o, but);
  }

  lemma OnceUndone(t: Txn, n: nat, i: nat)
    requires i < |t.steps| && ShouldRun(t, n, i)
    ensures Holds(Net(Done(t, n, i) + [Did(i)] + UndoLog(t, n, i, [], true)), Stack(t, n, i - 1))
    ensures Holds(Net(Done(t, n, i) + [Did(i)]), Stack(t, n, i))
  {
    hide Net, Holds, Stack;
    DoneHolds(t, n, i + 1);
    HoldsAfterUndo(t, n, i, Done(t, n, i) + [Did(i)]);
    assert [] + [Undid(i)] == [Undid(i)];
  }

  /** An undo of a rollback fails. */
  lemma FailedUndoSurvives(t: Txn, n: nat, i: nat) returns (acts: seq<Action>)
    requires n < t.size && i < |t.steps| && ShouldRun(t, n, i)
    ensures LeavesWork(t, acts, n, {At(n, RollUndo(0, false))})
  {
    hide Lone, Solo, LeavesWork, Net, Undone;
    var but := {At(n, RollUndo(0, false))};
    var o := MarkedAll(AllPrepared(t));
    var x;
    acts, x := ClimbAndMark(t, n, i, but);
    acts := StartRollBack(t, acts, n, x, o, but);
    x := x.(rolls := x.rolls + [i]);
    SoloUndo(t, n, x, false);
    acts := Go(t, acts, n, x, o, but, RollUndo(0, false));
    FailedUndoStays(t, n, x.log, i, i - 1);
    assert [] + [UndoFailed(i)] == [UndoFailed(i)];
    x := Solo(t, n, x, RollUndo(0, false));
    acts := FinishRollBack(t, acts, n, x, o, but, true);
    x := PutNodeLast(x.(log := x.log + Undone(t, n, i - 1), rolls := x.rolls[1..]), -1, true);
    acts := CleanDirty(t, acts, n, x, o, but);
  }

  /** The undo of a step that failed, by its own executor, fails. */
  lemma FailedOwnUndoSurvives(t: Txn, n: nat, i: nat) returns (acts: seq<Action>)
    requires n < t.size && i < |t.steps| && ShouldRun(t, n, i)
    ensures LeavesWork(t, acts, n, {At(n, UndoOwn(false))})
  {
    hide Lone, LeavesWork, Net, Undone;
    var but := {At(n, UndoOwn(false))};
    var o := AllPrepared(t);
    var x;
    acts, x := Climb(t, n, i, but);
    acts := Go(t, acts, n, x, o, but, RunBody(false));
    x := Solo(t, n, x, RunBody(false));
    acts := Go(t, acts, n, x, o, but, UndoOwn(false));
    FailedUndoStays(t, n, x.log, i, i - 1);
    x := Solo(t, n, x, UndoOwn(false));
    acts := MarkAll(t, acts, n, x, o, but);
    acts := RollBackAndClean(t, acts, n, Marked(x), MarkedAll(o), but);
  }

  /** The write at the end of a rollback is lost, and the rollback starts again. */
  lemma LostEndSurvives(t: Txn, n: nat, i: nat) returns (acts: seq<Action>)
    requires n < t.size && i < |t.steps| && ShouldRun(t, n, i)
    ensures LeavesWork(t, acts, n, {At(n, RollEnd(0, false))})
  {
    hide Lone, Solo, LeavesWork, Net, Undone, Holds, Stack;
    var but := {At(n, RollEnd(0, false))};
    var o := MarkedAll(AllPrepared(t));
    var x;
    acts, x := ClimbAndMark(t, n, i, but);
    acts := StartRollBack(t, acts, n, x, o, but);
    var y := x.(rolls := x.rolls + [i]);
    acts := FinishRollBack(t, acts, n, y, o, but, false);
    y := y.(log := x.log + Undone(t, n, i), rolls := y.rolls[1..]);
    TwiceUndone(t, n, i);
    acts := RollBackAndClean(t, acts, n, y, o, but);
  }

  lemma TwiceUndone(t: Txn, n: nat, i: nat)
    requires i < |t.steps| && ShouldRun(t, n, i)
    ensures Net(Done(t, n, i) + [Did(i)] + Undone(t, n, i) + Undone(t, n, i)) != []
  {
    hide Net, Holds, Stack, Undone;
    OnceUndone(t, n, i);
    UndoneCancels(t, n, Done(t, n, i) + [Did(i)], i);
    UndoneFromNothing(t, n, Done(t, n, i) + [Did(i)] + Undone(t, n, i), i);
  }

  lemma UndoneFromNothing(t: Txn, n: nat, log: seq<Op>, i: nat)
    requires i < |t.steps| && ShouldRun(t, n, i) && Net(log) == []
    ensures Net(log + Undone(t, n, i)) != []
  {
    hide Net;
    NetNext(log, Undid(i));
    UndoneStuck(t, n, log + [Undid(i)], i - 1);
    assert log + [Undid(i)] + Undone(t, n, i - 1) == log + Undone(t, n, i);
  }

  /** Two rollbacks at a time. */
  lemma TwoRollbacksSurvive(t: Txn, n: nat, i: nat) returns (acts: seq<Action>)
    requires n < t.size && i < |t.steps| && ShouldRun(t, n, i)
    ensures LeavesWork(t, acts, n, {At(n, RollStart)})
  {
    hide Lone, Solo, LeavesWork, Net, Undone;
    var but := {At(n, RollStart)};
    var o := MarkedAll(AllPrepared(t));
    var x;
    acts, x := ClimbAndMark(t, n, i, but);
    acts := StartRollBack(t, acts, n, x, o, but);
    var y := x.(rolls := x.rolls + [i]);
    acts := StartRollBack(t, acts, n, y, o, but);
    y := y.(rolls := y.rolls + [i]);
    acts := FinishRollBack(t, acts, n, y, o, but, true);
    y := PutNodeLast(y.(log := x.log + Undone(t, n, i), rolls := y.rolls[1..]), -1, true);
    acts := FinishRollBack(t, acts, n, y, o, but, true);
    y := PutNodeLast(y.(log := y.log + Undone(t, n, i), rolls := y.rolls[1..]), -1, true);
    TwiceUndone(t, n, i);
    acts := CleanDirty(t, acts, n, y, o, but);
  }

  /** A peer that has recorded step 0 while its status is Pending crashes and starts over, and its first
      run of the step is never undone: it crashes before the Running write, or after that was lost. */
  lemma StartsOver(t: Txn, n: nat, lost: bool) returns (acts: seq<Action>)
    requires n < t.size && t.steps != [] && ShouldRun(t, n, 0)
    ensures LeavesWork(t, acts, n, {At(n, if lost then Advance(false) else Crash)})
  {
    hide Lone, Solo, LeavesWork, Net, Undone;
    var but := {At(n, if lost then Advance(false) else Crash)};
    var o, x := AllPrepared(t), PreparedNode();
    acts, x := Climb(t, n, 0, but);
    acts := RunAndRecord(t, acts, n, x, o, but);
    x := AfterRecord(t, n, x);
    if lost {
      SoloAdvance(t, n, x, false);
      acts := Go(t, acts, n, x, o, but, Advance(false));
      x := x.(proc := LoopHead(t, 1, true));
    }
    SoloCrash(t, n, x);
    acts := Go(t, acts, n, x, o, but, Crash);
    x := Solo(t, n, x, Crash);
    SoloDispatch(t, n, x);
    acts := Go(t, acts, n, x, o, but, Dispatch);
    x := x.(proc := LoopHead(t, 0, false));
    acts := Unwait(t, acts, n, x, o, but, 0, false);
    x := x.(proc := Working(0, Ready(false), true, false));
    acts := RunAndRecord(t, acts, n, x, o, but);
    x := AfterRecord(t, n, x);
    acts := MarkAll(t, acts, n, x, o, but);
    TwiceDone(t, n);
    assert x.log == [Did(0), Did(0)];
    acts := RollBackAndClean(t, acts, n, Marked(x), MarkedAll(o), but);
  }

  lemma TwiceDone(t: Txn, n: nat)
    requires t.steps != [] && ShouldRun(t, n, 0)
    ensures Net([Did(0), Did(0)] + Undone(t, n, 0)) == [Did(0)]
  {
    var log := [Did(0), Did(0)];
    assert Net([]) == [] && [] + [Did(0)] == [Did(0)] && [Did(0)] + [Did(0)] == log;
    NetNext([], Did(0));
    NetNext([Did(0)], Did(0));
    NetNext(log, Undid(0));
    assert Undone(t, n, 0) == [Undid(0)] by { NothingUndone(t, n); }
  }

  /** A peer crashes after the record of step 0 and before its status says that it is running. */
  lemma CrashBeforeRunningSurvives(t: Txn, n: nat) returns (acts: seq<Action>)
    requires n < t.size && t.steps != [] && ShouldRun(t, n, 0)
    ensures LeavesWork(t, acts, n, {At(n, Crash)})
  {
    hide LeavesWork;
    acts := StartsOver(t, n, false);
  }

  /** The write of that status is lost. */
  lemma LostRunningSurvives(t: Txn, n: nat) returns (acts: seq<Action>)
    requires n < t.size && t.steps != [] && ShouldRun(t, n, 0)
    ensures LeavesWork(t, acts, n, {At(n, Advance(false))})
  {
    hide LeavesWork;
    acts := StartsOver(t, n, true);
  }

  /** An executor moves on although the transaction has failed and been rolled back. */
  lemma LateAdvanceSurvives(t: Txn, n: nat) returns (acts: seq<Action>)
    requires n < t.size && |t.steps| >= 2 && ShouldRun(t, n, 0)
    ensures LeavesWork(t, acts, n, {At(n, Advance(true))})
  {
    hide Lone, Solo, LeavesWork, Net, Undone, Holds, Stack;
    var but := {At(n, Advance(true))};
    var o := MarkedAll(AllPrepared(t));
    var x;
    acts, x := ClimbAndMark(t, n, 0, but);
    acts, x := RollBack(t, acts, n, x, o, but);
    OnceUndone(t, n, 0);
    UndoneCancels(t, n, Done(t, n, 0) + [Did(0)], 0);
    SoloAdvance(t, n, x, true);
    acts := Go(t, acts, n, x, o, but, Advance(true));
    x := Solo(t, n, x, Advance(true));
    acts := Unwait(t, acts, n, x, o, but, 1, true);
    x := x.(proc := Working(1, Ready(false), true, true));
    AgainUndone(t, n, x.log);
    acts := RunAndRecord(t, acts, n, x, o, but);
    x := AfterRecord(t, n, x);
    acts := MarkAll(t, acts, n, x, o, but);
    acts := RollBackAndClean(t, acts, n, Marked(x), MarkedAll(o), but);
  }

  lemma AgainUndone(t: Txn, n: nat, log: seq<Op>)
    requires |t.steps| >= 2 && ShouldRun(t, n, 0) && Net(log) == []
    ensures Net(DidLog(t, n, 1, log) + Undone(t, n, 1)) != []
  {
    hide Net;
    if ShouldRun(t, n, 1) {
      var once := log + [Did(1)];
      NetNext(log, Did(1));
      NetNext(once, Undid(1));
      UndoneFromNothing(t, n, once + [Undid(1)], 0);
      assert once + Undone(t, n, 1) == once + [Undid(1)] + Undone(t, n, 0);
    } else {
      UndoneFromNothing(t, n, log, 0);
      assert Undone(t, n, 1) == Undone(t, n, 0);
    }
  }

  /** The cleaner is about to delete a transaction of which peer n has run and undone step i. */
  ghost predicate DeletesUndone(t: Txn, s: State, n: nat, i: nat) {
    s.cleaner.Deleting? && |s.nodes| == t.size > n
    && Did(i) in s.nodes[n].log && Undid(i) in s.nodes[n].log && Net(s.nodes[n].log) == []
  }

  /** Calm runs do delete transactions: any step of any peer is run, recorded and undone, and the
      transaction deleted. */
  lemma CalmRunDeletes(t: Txn, n: nat, i: nat) returns (acts: seq<Action>)
    requires n < t.size && i < |t.steps| && ShouldRun(t, n, i)
    ensures CalmRun(t, acts, {}) && DeletesUndone(t, Run(t, acts), n, i)
  {
    hide Lone, Solo, Net, Holds, Stack, Run, CalmRun;
    var x;
    acts, x := ClimbAndMark(t, n, i, {});
    var o := MarkedAll(AllPrepared(t));
    OnceUndone(t, n, i);
    UndoneCancels(t, n, x.log, i);
    assert Did(i) in x.log && Undid(i) in Undone(t, n, i);
    acts, x := RollBack(t, acts, n, x, o, {});
    LoneSize(t, acts, n, x, o, {});
    acts := Clean(t, acts, n, x, o, {});
  }

  lemma LoneSize(t: Txn, acts: seq<Action>, n: nat, x: Node, o: seq<Node>, but: set<Action>)
    requires Lone(t, acts, n, x, o, but)
    ensures n < t.size == |o|
  {
  }

  // ---------------------------------------------------------------- exactly when deletion is safe

  ghost predicate SafeAfter(t: Txn, acts: seq<Action>, n: nat) {
    Run(t, acts).cleaner.Deleting? ==> |Run(t, acts).nodes| > n && Net(Run(t, acts).nodes[n].log) == []
  }

  ghost predicate DeletionIsSafe(t: Txn) {
    forall acts: seq<Action>, n: nat :: n < t.size ==> SafeAfter(t, acts, n)
  }

  predicate NothingToRun(t: Txn, n: nat) {
    forall i :: 0 <= i < |t.steps| ==> !ShouldRun(t, n, i)
  }

  lemma {:induction false} NothingLogged(t: Txn, acts: seq<Action>, n: nat)
    requires n < t.size && NothingToRun(t, n)
    ensures |Run(t, acts).nodes| == t.size && Run(t, acts).nodes[n].log == []
  {
    hide Step, LocalStep;
    if acts != [] {
      var before, a := acts[..|acts| - 1], acts[|acts| - 1];
      NothingLogged(t, before, n);
      var s := Run(t, before);
      StepOnNode(t, s, a, n);
      if a.At? && a.node == n {
        LogUnchanged(t, s, n, s.nodes[n], a.event);
      }
    }
  }

  lemma LogUnchanged(t: Txn, s: State, n: nat, x: Node, e: Local)
    requires NothingToRun(t, n)
    ensures LocalStep(t, s, n, x, e).log == x.log
  {
  }

  /** Over all runs, a transaction is deleted only when everything was undone exactly when no peer had
      anything to run. */
  lemma DeletionSafeExactly(t: Txn)
    ensures DeletionIsSafe(t) <==> forall n: nat :: n < t.size ==> NothingToRun(t, n)
  {
    if n: nat, i: nat :| n < t.size && i < |t.steps| && ShouldRun(t, n, i) {
      var acts := LateBodySurvives(t, n, i);
      assert !NothingToRun(t, n) && !SafeAfter(t, acts, n);
    } else {
      assert forall n: nat :: n < t.size ==> NothingToRun(t, n);
      hide Run, NothingToRun;
      forall acts: seq<Action>, n: nat | n < t.size
        ensures SafeAfter(t, acts, n)
      {
        NothingLogged(t, acts, n);
      }
    }
  }
}
