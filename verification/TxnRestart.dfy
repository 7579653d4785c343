/**
 Crashes and restarts of one peer. As long as its progress writes succeed and it has not started to
 roll back, the step bodies it starts climb one step at a time, and each restart costs at most one
 repeated body.
 */
module TxnRestart {
  import opened Wrappers
  import opened TxnEngine
  import TxnRuns

  /** The highest step a peer has started, or -1. */
  function Top(runs: seq<nat>): int {
    if runs == [] then -1 else runs[|runs| - 1]
  }

  /** Starts at 0 and never skips a step; a step may be repeated. */
  ghost predicate Ladder(runs: seq<nat>) {
    && (runs != [] ==> runs[0] == 0)
    && (forall k :: 0 < k < |runs| ==> runs[k] == runs[k - 1] || runs[k] == runs[k - 1] + 1)
  }

  /** How many step bodies were started more than once. */
  function Repeats(x: Node): int {
    |x.runs| - (Top(x.runs) + 1)
  }

  /** The executor has started no step body since the last restart. */
  predicate Unstarted(p: Proc) {
    p.Idle? || p.Resuming? || (p.Working? && !p.once && (p.phase.Waiting? || p.phase.Ready?))
  }

  ghost predicate ProgressInv(t: Txn, x: Node) {
    && -1 <= Top(x.runs) < |t.steps|
    && (x.last.Some? ==> -1 <= x.last.value <= Top(x.runs) <= x.last.value + 1)
    && (x.status == Some(Pending) ==>
          Top(x.runs) <= 0 && (x.last.Some? ==> x.last.value <= 0) && !x.proc.Resuming?
          && (x.proc.Working? ==> x.proc.step == 0 && !x.proc.once))
    && (Succeeded in x.seen || x.proc.Finishing? ==> Top(x.runs) == |t.steps| - 1)
    && x.rolls == []
  }

  ghost predicate WorkingInv(t: Txn, x: Node) {
    x.proc.Working? ==>
      var i, ph := x.proc.step, x.proc.phase;
      && i < |t.steps|
      && (x.last.Some? ==> i - 1 <= x.last.value <= i)
      && (ph.Waiting? || ph.Ready? ==> Top(x.runs) <= i <= Top(x.runs) + 1 && (x.proc.once ==> i == Top(x.runs) + 1))
      && (!ph.Waiting? && !ph.Ready? ==> Top(x.runs) == i)
      && (ph.Recorded? && x.last.Some? ==> x.last.value == i)
  }

  ghost predicate BudgetInv(x: Node) {
    && Ladder(x.runs)
    && 0 <= Repeats(x) <= x.boots
    && (Unstarted(x.proc) ==> (x.boots == 0 ==> x.runs == []) && (Repeats(x) == 0 || Repeats(x) < x.boots))
  }

  ghost predicate SteadyNode(t: Txn, x: Node) {
    ProgressInv(t, x) && WorkingInv(t, x) && BudgetInv(x)
  }

  ghost predicate Unprepared(x: Node) {
    x.proc.Idle? && x.runs == []
  }

  ghost predicate SteadyInv(t: Txn, s: State, n: nat) {
    && n < |s.nodes|
    && SteadyNode(t, s.nodes[n])
    && (!s.prep.Added? ==> !s.record && Unprepared(s.nodes[n]))
  }

  /** The two events that are outside the claim: a lost write of the Running status, and a rollback. */
  predicate Steady(n: nat, a: Action) {
    a != At(n, Advance(false)) && a != At(n, RollStart)
  }

  lemma BudgetAfterBody(x: Node, y: Node, i: nat)
    requires BudgetInv(x) && y.runs == x.runs + [i] && y.boots == x.boots && !Unstarted(y.proc)
    requires Top(x.runs) <= i <= Top(x.runs) + 1
    requires i == Top(x.runs) ==> Unstarted(x.proc)
    ensures BudgetInv(y)
  {
  }

  lemma RunBodyKeeps(t: Txn, s: State, n: nat, x: Node, ok: bool)
    requires SteadyNode(t, x)
    ensures SteadyNode(t, LocalStep(t, s, n, x, RunBody(ok)))
  {
    var y := LocalStep(t, s, n, x, RunBody(ok));
    if y != x {
      var i := x.proc.step;
      assert y.runs == x.runs + [i];
      BudgetAfterBody(x, y, i);
    }
  }

  /** Starting, resuming and crashing. */
  lemma LifecycleKeeps(t: Txn, s: State, n: nat, x: Node, e: Local)
    requires SteadyNode(t, x) && e in {Dispatch, ReadLast, Crash}
    ensures SteadyNode(t, LocalStep(t, s, n, x, e))
  {
    var y := LocalStep(t, s, n, x, e);
    assert y.runs == x.runs && y.boots == x.boots + if e.Crash? then 1 else 0;
    assert y.last == x.last && y.status == x.status && y.seen == x.seen;
    hide Ladder, Top;
  }

  /** Writing the last step and moving on. */
  lemma ProgressKeeps(t: Txn, s: State, n: nat, x: Node, e: Local)
    requires SteadyNode(t, x) && (e.Record? || e == Advance(true))
    ensures SteadyNode(t, LocalStep(t, s, n, x, e))
  {
  }

  lemma WaitingKeeps(t: Txn, s: State, n: nat, x: Node, e: Local)
    requires SteadyNode(t, x) && (e.SyncReport? || e.SyncPass? || e.SyncTimeout? || e.NoticeFailure?)
    ensures SteadyNode(t, LocalStep(t, s, n, x, e))
  {
  }

  lemma EndingKeeps(t: Txn, s: State, n: nat, x: Node, e: Local)
    requires SteadyNode(t, x) && (e.UndoOwn? || e.Fail? || e.Finish? || e.RollUndo? || e.RollEnd?)
    ensures SteadyNode(t, LocalStep(t, s, n, x, e))
  {
    var y := LocalStep(t, s, n, x, e);
    assert y.runs == x.runs && y.boots == x.boots && y.last == x.last;
    assert y.proc == x.proc || (e.UndoOwn? && y.proc == x.proc.(phase := Erred)) || y.proc == Finished;
    assert || (y.status == x.status && y.seen == x.seen)
           || y == PutNodeStatus(x, if e.Fail? then Failed else Succeeded, true).(proc := Finished);
    hide LocalStep, Ladder, Top;
  }

  lemma LocalSteady(t: Txn, s: State, n: nat, x: Node, e: Local)
    requires SteadyNode(t, x) && e != Advance(false) && e != RollStart
    ensures SteadyNode(t, LocalStep(t, s, n, x, e))
  {
    hide LocalStep;
    if e.RunBody? {
      RunBodyKeeps(t, s, n, x, e.ok);
    } else if e in {Dispatch, ReadLast, Crash} {
      LifecycleKeeps(t, s, n, x, e);
    } else if e.Record? || e.Advance? {
      ProgressKeeps(t, s, n, x, e);
    } else if e.SyncReport? || e.SyncPass? || e.SyncTimeout? || e.NoticeFailure? {
      WaitingKeeps(t, s, n, x, e);
    } else {
      EndingKeeps(t, s, n, x, e);
    }
  }

  lemma LocalUnprepared(t: Txn, s: State, n: nat, x: Node, e: Local)
    requires Unprepared(x) && !s.record
    ensures Unprepared(LocalStep(t, s, n, x, e))
  {
  }

  lemma KeysSteady(t: Txn, x: Node, w: KeyWrite)
    requires SteadyNode(t, x)
    requires w == SetStatus(Failed) || w == Drop || (Unprepared(x) && w in {SetStatus(Pending), SetLast(-1)})
    ensures SteadyNode(t, WriteKeys(w, x))
  {
  }

  lemma KeysUnprepared(x: Node, w: KeyWrite)
    requires Unprepared(x)
    ensures Unprepared(WriteKeys(w, x))
  {
  }

  lemma RecordNeedsAdded(t: Txn, s: State, a: Action)
    requires !s.prep.Added? ==> !s.record
    ensures var s' := Step(t, s, a); (s.prep.Added? ==> s'.prep.Added?) && (!s'.prep.Added? ==> !s'.record)
  {
  }

  lemma StepSteady(t: Txn, s: State, a: Action, n: nat)
    requires SteadyInv(t, s, n) && Steady(n, a)
    ensures SteadyInv(t, Step(t, s, a), n)
  {
    hide Step, LocalStep, SteadyNode, Unprepared;
    var x := s.nodes[n];
    RecordNeedsAdded(t, s, a);
    StepOnNode(t, s, a, n);
    var y := Step(t, s, a).nodes[n];
    if a.At? && a.node == n {
      LocalSteady(t, s, n, x, a.event);
      if !s.prep.Added? {
        LocalUnprepared(t, s, n, x, a.event);
      }
    } else if y != x {
      var w :| w in {SetStatus(Pending), SetStatus(Failed), SetLast(-1), Drop} && y == WriteKeys(w, x)
               && (w in {SetStatus(Pending), SetLast(-1)} ==> !s.prep.Added?);
      KeysSteady(t, x, w);
      if !s.prep.Added? {
        KeysUnprepared(x, w);
      }
    }
  }

  lemma {:induction false} RunSteady(t: Txn, acts: seq<Action>, n: nat)
    requires n < t.size && forall k :: 0 <= k < |acts| ==> Steady(n, acts[k])
    ensures SteadyInv(t, Run(t, acts), n)
  {
    hide Step, LocalStep;
    if acts != [] {
      RunSteady(t, acts[..|acts| - 1], n);
      StepSteady(t, Run(t, acts[..|acts| - 1]), acts[|acts| - 1], n);
    }
  }

  /** Over any number of crashes no step is skipped, no more bodies are repeated than there were
      restarts, and a peer that reports success has started them all. */
  lemma RestartsRepeatAtMostOne(t: Txn, acts: seq<Action>, n: nat)
    requires n < t.size && forall k :: 0 <= k < |acts| ==> Steady(n, acts[k])
    ensures |Run(t, acts).nodes| > n
    ensures var x := Run(t, acts).nodes[n];
            && Ladder(x.runs)
            && Top(x.runs) + 1 <= |x.runs| <= Top(x.runs) + 1 + x.boots
            && (Succeeded in x.seen ==> Top(x.runs) == |t.steps| - 1)
  {
    hide Step, LocalStep;
    RunSteady(t, acts, n);
  }

  // ---------------------------------------------------------------- each restart

  /** Between two crashes: the first body an executor starts may be a repeat, no other one is. */
  lemma LocalRepeats(t: Txn, s: State, n: nat, x: Node, e: Local)
    requires SteadyNode(t, x) && !e.Crash? && e != Advance(false) && e != RollStart
    ensures var y := LocalStep(t, s, n, x, e);
            && (Unstarted(y.proc) ==> Unstarted(x.proc))
            && (Repeats(y) == Repeats(x) || (Repeats(y) == Repeats(x) + 1 && Unstarted(x.proc) && !Unstarted(y.proc)))
  {
    hide Ladder;
  }

  lemma StepRepeats(t: Txn, s: State, a: Action, n: nat)
    requires SteadyInv(t, s, n) && Steady(n, a) && a != At(n, Crash)
    ensures |Step(t, s, a).nodes| == |s.nodes|
    ensures var x, y := s.nodes[n], Step(t, s, a).nodes[n];
            && (Unstarted(y.proc) ==> Unstarted(x.proc))
            && (Repeats(y) == Repeats(x) || (Repeats(y) == Repeats(x) + 1 && Unstarted(x.proc) && !Unstarted(y.proc)))
  {
    hide Step, LocalStep, SteadyNode, Repeats;
    StepOnNode(t, s, a, n);
    if a.At? && a.node == n {
      LocalRepeats(t, s, n, s.nodes[n], a.event);
    } else {
      SameRuns(s.nodes[n], Step(t, s, a).nodes[n]);
    }
  }

  lemma SameRuns(x: Node, y: Node)
    ensures x.runs == y.runs ==> Repeats(x) == Repeats(y)
  {
  }

  /** Each restart repeats at most one body: as long as the peer does not crash, the repeats grow by at
      most one, and only while it had started nothing. */
  lemma {:induction false} EachRestartRepeatsAtMostOne(t: Txn, acts: seq<Action>, n: nat, k: nat)
    requires n < t.size && k <= |acts| && (forall j :: 0 <= j < |acts| ==> Steady(n, acts[j]))
    requires forall j :: k <= j < |acts| ==> acts[j] != At(n, Crash)
    ensures |Run(t, acts).nodes| > n && |Run(t, acts[..k]).nodes| > n
    ensures var x, y := Run(t, acts[..k]).nodes[n], Run(t, acts).nodes[n];
            && (Unstarted(y.proc) ==> Unstarted(x.proc))
            && (Repeats(y) == Repeats(x) || (Repeats(y) == Repeats(x) + 1 && Unstarted(x.proc) && !Unstarted(y.proc)))
    decreases |acts|
  {
    hide Step, LocalStep, SteadyNode, Repeats, Unstarted;
    RunSteady(t, acts, n);
    if k == |acts| {
      assert acts[..k] == acts;
    } else {
      var before := acts[..|acts| - 1];
      assert before[..k] == acts[..k];
      EachRestartRepeatsAtMostOne(t, before, n, k);
      RunSteady(t, before, n);
      StepRepeats(t, Run(t, before), acts[|acts| - 1], n);
    }
  }

  /** Resuming goes on after the recorded last step. */
  ghost predicate ResumeInv(x: Node) {
    x.status == Some(Running) && x.last.Some? && x.proc.Working? && (x.proc.phase.Waiting? || x.proc.phase.Ready?) ==>
      x.proc.step == x.last.value + 1
  }

  lemma LocalResume(t: Txn, s: State, n: nat, x: Node, e: Local)
    requires SteadyNode(t, x) && ResumeInv(x) && e != Advance(false) && e != RollStart
    ensures ResumeInv(LocalStep(t, s, n, x, e))
  {
    hide Ladder, Top;
  }

  lemma KeysResume(x: Node, w: KeyWrite)
    requires ResumeInv(x)
    requires w == SetStatus(Failed) || w == Drop || (Unprepared(x) && w in {SetStatus(Pending), SetLast(-1)})
    ensures ResumeInv(WriteKeys(w, x))
  {
  }

  lemma FreshResumes()
    ensures ResumeInv(FreshNode())
  {
  }

  lemma {:induction false} RunResume(t: Txn, acts: seq<Action>, n: nat)
    requires n < t.size && forall k :: 0 <= k < |acts| ==> Steady(n, acts[k])
    ensures SteadyInv(t, Run(t, acts), n) && ResumeInv(Run(t, acts).nodes[n])
  {
    hide Step, LocalStep, SteadyNode, ResumeInv, Unprepared;
    RunSteady(t, acts, n);
    if acts == [] {
      FreshResumes();
    } else {
      var before, a := acts[..|acts| - 1], acts[|acts| - 1];
      RunResume(t, before, n);
      var s := Run(t, before);
      var x := s.nodes[n];
      StepOnNode(t, s, a, n);
      var y := Step(t, s, a).nodes[n];
      if a.At? && a.node == n {
        LocalResume(t, s, n, x, a.event);
      } else if y != x {
        var w :| w in {SetStatus(Pending), SetStatus(Failed), SetLast(-1), Drop} && y == WriteKeys(w, x)
                 && (w in {SetStatus(Pending), SetLast(-1)} ==> !s.prep.Added?);
        KeysResume(x, w);
      }
    }
  }

  /** Which body a restart repeats: the last one started, before any other, and that is step 0 of a
      pending transaction and the step after the recorded one of a running transaction. */
  lemma RepeatedBody(t: Txn, acts: seq<Action>, n: nat)
    requires n < t.size && forall k :: 0 <= k < |acts| ==> Steady(n, acts[k])
    ensures |Run(t, acts).nodes| > n
    ensures var x := Run(t, acts).nodes[n];
            x.proc.Working? && x.proc.phase.Ready? && x.proc.step <= Top(x.runs) ==>
              && !x.proc.once && x.proc.step == Top(x.runs)
              && (x.status == Some(Pending) ==> x.proc.step == 0)
              && (x.status == Some(Running) && x.last.Some? ==> x.proc.step == x.last.value + 1)
  {
    hide Run;
    RunResume(t, acts, n);
  }

  // ---------------------------------------------------------------- without steady writes

  /** No step is skipped, and no more bodies are repeated than there were restarts. */
  ghost predicate Frugal(x: Node) {
    Ladder(x.runs) && |x.runs| <= Top(x.runs) + 1 + x.boots
  }

  ghost predicate FrugalAfter(t: Txn, acts: seq<Action>, n: nat) {
    n < t.size ==> |Run(t, acts).nodes| > n && Frugal(Run(t, acts).nodes[n])
  }

  ghost predicate AlwaysFrugal(t: Txn) {
    forall acts: seq<Action>, n: nat :: FrugalAfter(t, acts, n)
  }

  lemma NoLadder()
    ensures !Ladder([0, 1, 0])
  {
    var runs: seq<nat> := [0, 1, 0];
    assert runs[2] != runs[1] && runs[2] != runs[1] + 1;
  }

  /** Where the successful writes are needed: after a lost Running write the restart of any peer begins
      at step 0 again although step 1 had been recorded. */
  lemma LostWriteRepeatsMore(t: Txn, n: nat) returns (acts: seq<Action>)
    requires n < t.size && |t.steps| >= 2
    ensures |Run(t, acts).nodes| > n
    ensures var x := Run(t, acts).nodes[n]; x.runs == [0, 1, 0] && x.boots == 1 && !Ladder(x.runs)
  {
    hide TxnRuns.Lone, TxnRuns.Solo, Ladder, Run;
    NoLadder();
    var but := {At(n, Advance(false)), At(n, Crash)};
    var o := TxnRuns.AllPrepared(t);
    var x;
    acts, x := TxnRuns.Climb(t, n, 0, but);
    acts := TxnRuns.RunAndRecord(t, acts, n, x, o, but);
    x := TxnRuns.AfterRecord(t, n, x);
    TxnRuns.SoloAdvance(t, n, x, false);
    acts := TxnRuns.Go(t, acts, n, x, o, but, Advance(false));
    x := x.(proc := LoopHead(t, 1, true));
    acts := TxnRuns.Unwait(t, acts, n, x, o, but, 1, true);
    x := x.(proc := Working(1, Ready(false), true, true));
    acts := TxnRuns.RunAndRecord(t, acts, n, x, o, but);
    x := TxnRuns.AfterRecord(t, n, x);
    TxnRuns.SoloCrash(t, n, x);
    acts := TxnRuns.Go(t, acts, n, x, o, but, Crash);
    x := x.(proc := Idle, rolls := [], boots := 1);
    TxnRuns.SoloDispatch(t, n, x);
    acts := TxnRuns.Go(t, acts, n, x, o, but, Dispatch);
    x := x.(proc := LoopHead(t, 0, false));
    acts := TxnRuns.Unwait(t, acts, n, x, o, but, 0, false);
    x := x.(proc := Working(0, Ready(false), true, false));
    acts := TxnRuns.RunAndRecord(t, acts, n, x, o, but);
    x := TxnRuns.AfterRecord(t, n, x);
    assert x.runs == [0, 1, 0];
    LoneNode(t, acts, n, x, o, but);
  }

  /** Where the absence of rollbacks is needed: with no write lost, an executor that goes on after its
      peer was rolled back resumes at step 0 after a crash. */
  lemma RollbackRepeatsMore(t: Txn, n: nat) returns (acts: seq<Action>)
    requires n < t.size && |t.steps| >= 2
    ensures |Run(t, acts).nodes| > n && forall k :: 0 <= k < |acts| ==> acts[k] != At(n, Advance(false))
    ensures var x := Run(t, acts).nodes[n]; x.runs == [0, 1, 0] && x.boots == 1 && !Ladder(x.runs)
  {
    hide TxnRuns.Lone, TxnRuns.Solo, TxnRuns.Undone, Ladder, Run;
    NoLadder();
    var but := {At(n, Advance(true)), At(n, Crash)};
    var o := TxnRuns.MarkedAll(TxnRuns.AllPrepared(t));
    var x;
    acts, x := TxnRuns.Climb(t, n, 0, but);
    acts := TxnRuns.RunAndRecord(t, acts, n, x, TxnRuns.AllPrepared(t), but);
    x := TxnRuns.AfterRecord(t, n, x);
    acts := TxnRuns.MarkAll(t, acts, n, x, TxnRuns.AllPrepared(t), but);
    acts, x := TxnRuns.RollBack(t, acts, n, TxnRuns.Marked(x), o, but);
    TxnRuns.SoloAdvance(t, n, x, true);
    acts := TxnRuns.Go(t, acts, n, x, o, but, Advance(true));
    x := PutNodeStatus(x, Running, true).(proc := LoopHead(t, 1, true));
    acts := TxnRuns.Unwait(t, acts, n, x, o, but, 1, true);
    x := x.(proc := Working(1, Ready(false), true, true));
    TxnRuns.SoloBody(t, n, x);
    acts := TxnRuns.Go(t, acts, n, x, o, but, RunBody(true));
    x := TxnRuns.Solo(t, n, x, RunBody(true));
    TxnRuns.SoloCrash(t, n, x);
    acts := TxnRuns.Go(t, acts, n, x, o, but, Crash);
    x := x.(proc := Idle, rolls := [], boots := 1);
    TxnRuns.SoloResume(t, n, x);
    acts := TxnRuns.Go(t, acts, n, x, o, but, Dispatch);
    x := x.(proc := Resuming);
    TxnRuns.SoloReadLast(t, n, x);
    acts := TxnRuns.Go(t, acts, n, x, o, but, ReadLast);
    x := x.(proc := LoopHead(t, 0, false));
    acts := TxnRuns.Unwait(t, acts, n, x, o, but, 0, false);
    x := x.(proc := Working(0, Ready(false), true, false));
    acts := TxnRuns.RunAndRecord(t, acts, n, x, o, but);
    x := TxnRuns.AfterRecord(t, n, x);
    assert x.runs == [0, 1, 0];
    LoneNode(t, acts, n, x, o, but);
    forall k | 0 <= k < |acts|
      ensures acts[k] != At(n, Advance(false))
    {
      TxnRuns.CalmKeepsRunning(t, acts, but, n, k);
    }
  }

  lemma LoneNode(t: Txn, acts: seq<Action>, n: nat, x: Node, o: seq<Node>, but: set<Action>)
    requires TxnRuns.Lone(t, acts, n, x, o, but)
    ensures |Run(t, acts).nodes| > n && Run(t, acts).nodes[n] == x && TxnRuns.CalmRun(t, acts, but)
  {
  }

  /** With a single step: every body started is its body, one at most since each restart. */
  ghost predicate OneStepInv(x: Node) {
    && (forall k :: 0 <= k < |x.runs| ==> x.runs[k] == 0)
    && |x.runs| <= x.boots + (if Unstarted(x.proc) then 0 else 1)
    && (x.proc.Working? ==> x.proc.step == 0 && (x.proc.once ==> !x.proc.phase.Waiting? && !x.proc.phase.Ready?))
    && (x.last.Some? ==> x.last.value >= -1)
  }

  lemma LocalOneStep(t: Txn, s: State, n: nat, x: Node, e: Local)
    requires |t.steps| <= 1 && OneStepInv(x)
    ensures OneStepInv(LocalStep(t, s, n, x, e))
  {
  }

  lemma {:induction false} RunOneStep(t: Txn, acts: seq<Action>, n: nat)
    requires |t.steps| <= 1 && n < t.size
    ensures |Run(t, acts).nodes| == t.size && OneStepInv(Run(t, acts).nodes[n])
  {
    hide Step, LocalStep;
    if acts != [] {
      var before, a := acts[..|acts| - 1], acts[|acts| - 1];
      RunOneStep(t, before, n);
      StepOnNode(t, Run(t, before), a, n);
      if a.At? && a.node == n {
        LocalOneStep(t, Run(t, before), n, Run(t, before).nodes[n], a.event);
      }
    }
  }

  /** Over all runs, with writes that may fail and rollbacks, exactly the transactions of at most one
      step keep to one repeated body per restart. */
  lemma FrugalExactly(t: Txn)
    ensures AlwaysFrugal(t) <==> t.size == 0 || |t.steps| <= 1
  {
    if t.size > 0 && |t.steps| >= 2 {
      var acts := LostWriteRepeatsMore(t, 0);
      assert !FrugalAfter(t, acts, 0);
    } else {
      hide Run;
      forall acts: seq<Action>, n: nat
        ensures FrugalAfter(t, acts, n)
      {
        if n < t.size {
          RunOneStep(t, acts, n);
        }
      }
    }
  }
}
