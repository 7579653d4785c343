/**
 Runs of the transaction engine: which of them are calm, and how to build runs in which one peer acts
 and all others only get their keys written.
 */
module TxnRuns {
  import opened Wrappers
  import opened TxnEngine

  // ---------------------------------------------------------------- calm runs

  /** A step body has run, or has failed, and neither its record nor its own undo is done. */
  predicate InFlight(p: Proc) {
    p.Working? && (p.phase.Ran? || p.phase.Broken?)
  }

  predicate Live(x: Node) {
    x.status == Some(Pending) || x.status == Some(Running)
  }

  /** The events the rollback claim allows on a peer: its executor runs bodies and moves on only while
      its status is live, writes and undos succeed, one rollback at a time, and no crash falls between
      a step body and the writes that record it, or into a rollback. */
  predicate CalmLocal(x: Node, e: Local) {
    match e
    case RunBody(_) => Live(x)
    case Advance(ok) => Live(x) && ok
    case UndoOwn(ok) => ok
    case RollUndo(_, ok) => ok
    case RollEnd(_, ok) => ok
    case RollStart => x.rolls == []
    case Crash =>
      !InFlight(x.proc) && x.rolls == []
      && !(x.status == Some(Pending) && x.proc.Working? && x.proc.phase.Recorded?)
    case _ => true
  }

  /** ... and a peer is marked failed only while no step is in flight on it. */
  predicate Calm(s: State, a: Action) {
    match a
    case At(n, e) => n < |s.nodes| ==> CalmLocal(s.nodes[n], e)
    case MarkFailed(marked) => forall n: nat :: n < |s.nodes| && n in marked ==> !InFlight(s.nodes[n].proc)
    case DoFails(ok) => ok ==> forall n: nat :: n < |s.nodes| ==> !InFlight(s.nodes[n].proc)
    case _ => true
  }

  /** Every action is calm, or one of those excepted. */
  predicate CalmRun(t: Txn, acts: seq<Action>, but: set<Action>) {
    acts == [] ||
    (var before, a := acts[..|acts| - 1], acts[|acts| - 1];
     CalmRun(t, before, but) && (a in but || Calm(Run(t, before), a)))
  }

  /** No write of the Running status is lost in a calm run. */
  lemma {:induction false} CalmKeepsRunning(t: Txn, acts: seq<Action>, but: set<Action>, n: nat, k: nat)
    requires CalmRun(t, acts, but) && At(n, Advance(false)) !in but && n < t.size && k < |acts|
    ensures acts[k] != At(n, Advance(false))
  {
    hide Step;
    SizeKept(t, acts[..|acts| - 1]);
    if k < |acts| - 1 {
      CalmKeepsRunning(t, acts[..|acts| - 1], but, n, k);
    }
  }

  lemma {:induction false} SizeKept(t: Txn, acts: seq<Action>)
    ensures |Run(t, acts).nodes| == t.size
  {
    hide Step;
    if acts != [] {
      SizeKept(t, acts[..|acts| - 1]);
      SizeStep(t, Run(t, acts[..|acts| - 1]), acts[|acts| - 1]);
    }
  }

  lemma SizeStep(t: Txn, s: State, a: Action)
    ensures |Step(t, s, a).nodes| == |s.nodes|
  {
    hide LocalStep;
  }

  // ---------------------------------------------------------------- one action more

  lemma RunNext(t: Txn, acts: seq<Action>, a: Action, but: set<Action>)
    ensures Run(t, acts + [a]) == Step(t, Run(t, acts), a)
    ensures CalmRun(t, acts, but) && (a in but || Calm(Run(t, acts), a)) ==> CalmRun(t, acts + [a], but)
  {
    hide Step, Calm;
    var all := acts + [a];
    assert all[..|all| - 1] == acts && all[|all| - 1] == a;
  }

  /** No wait of a synchronized step times out. */
  predicate NoTimeouts(acts: seq<Action>) {
    forall k :: 0 <= k < |acts| ==> !(acts[k].At? && acts[k].event == SyncTimeout)
  }

  /** A run of a started transaction in which peer n has become x and the other peers are as in o. */
  ghost predicate Lone(t: Txn, acts: seq<Action>, n: nat, x: Node, o: seq<Node>, but: set<Action>) {
    && n < t.size == |o| && CalmRun(t, acts, but)
    && Run(t, acts) == State(true, o[n := x], Added, NotSpawned, Run(t, acts).outcome, Resting)
    && (DoFails(true) in but || Run(t, acts).outcome.Undecided?)
  }

  /** All peers, as `prepare` leaves them. */
  function AllPrepared(t: Txn): (r: seq<Node>)
    ensures |r| == t.size && forall m :: 0 <= m < |r| ==> r[m] == PreparedNode()
  {
    seq(t.size, _ => PreparedNode())
  }

  lemma Begin(t: Txn, n: nat, but: set<Action>) returns (acts: seq<Action>)
    requires n < t.size
    ensures Lone(t, acts, n, PreparedNode(), AllPrepared(t), but) && NoTimeouts(acts)
  {
    acts := Prepare();
    PrepareRun(t);
    HarmlessCalm(t, acts, but);
    assert Run(t, acts).nodes == AllPrepared(t)[n := PreparedNode()];
  }

  /** Another peer takes over. */
  lemma Switch(t: Txn, acts: seq<Action>, n: nat, x: Node, o: seq<Node>, but: set<Action>, m: nat)
    requires Lone(t, acts, n, x, o, but) && m < t.size
    ensures Lone(t, acts, m, o[n := x][m], o[n := x], but)
  {
    hide Run, CalmRun;
    assert o[n := x][m := o[n := x][m]] == o[n := x];
  }

  lemma {:induction false} HarmlessCalm(t: Txn, acts: seq<Action>, but: set<Action>)
    requires forall k :: 0 <= k < |acts| ==> !acts[k].At? && !acts[k].MarkFailed? && !acts[k].DoFails?
    ensures CalmRun(t, acts, but)
  {
    hide Run;
    if acts != [] {
      HarmlessCalm(t, acts[..|acts| - 1], but);
    }
  }

  /** An event of a peer of a started transaction that does not look at other peers. */
  function Solo(t: Txn, n: nat, x: Node, e: Local): Node {
    LocalStep(t, State(true, [], Added, NotSpawned, Undecided, Resting), n, x, e)
  }

  lemma SoloStep(t: Txn, s: State, n: nat, x: Node, e: Local)
    requires s.record && !e.SyncReport?
    ensures LocalStep(t, s, n, x, e) == Solo(t, n, x, e)
  {
  }

  lemma Go(t: Txn, acts: seq<Action>, n: nat, x: Node, o: seq<Node>, but: set<Action>, e: Local) returns (more: seq<Action>)
    requires Lone(t, acts, n, x, o, but) && !e.SyncReport? && (At(n, e) in but || CalmLocal(x, e))
    ensures Lone(t, more, n, Solo(t, n, x, e), o, but) && more == acts + [At(n, e)]
  {
    hide LocalStep, Step, Solo, CalmRun;
    var s := Run(t, acts);
    more := acts + [At(n, e)];
    RunNext(t, acts, At(n, e), but);
    StepAt(t, s, n, e);
    SoloStep(t, s, n, x, e);
    assert o[n := x][n := Solo(t, n, x, e)] == o[n := Solo(t, n, x, e)];
  }

  function Marked(x: Node): Node {
    PutNodeStatus(x, Failed, true)
  }

  function MarkedAll(o: seq<Node>): (r: seq<Node>)
    ensures |r| == |o| && forall m :: 0 <= m < |r| ==> r[m] == Marked(o[m])
  {
    seq(|o|, m requires 0 <= m < |o| => Marked(o[m]))
  }

  predicate AtRest(o: seq<Node>) {
    forall m :: 0 <= m < |o| ==> !InFlight(o[m].proc)
  }

  /** All peers are marked failed at once. */
  lemma MarkAll(t: Txn, acts: seq<Action>, n: nat, x: Node, o: seq<Node>, but: set<Action>) returns (more: seq<Action>)
    requires Lone(t, acts, n, x, o, but)
    requires MarkFailed(Below(t.size)) in but || (!InFlight(x.proc) && AtRest(o))
    ensures Lone(t, more, n, Marked(x), MarkedAll(o), but)
  {
    hide Step, Run, CalmRun, WriteAll, Calm;
    var a := MarkFailed(Below(t.size));
    more := acts + [a];
    RunNext(t, acts, a, but);
    MarkStep(t, Run(t, acts), Below(t.size));
    assert WriteAll(SetStatus(Failed), Below(t.size), o[n := x]) == MarkedAll(o)[n := Marked(x)];
  }

  /** `Do` gives up and marks them, whatever they are doing. */
  lemma GiveUp(t: Txn, acts: seq<Action>, n: nat, x: Node, o: seq<Node>) returns (more: seq<Action>)
    requires Lone(t, acts, n, x, o, {})
    ensures Lone(t, more, n, Marked(x), MarkedAll(o), {DoFails(true)})
  {
    hide Step, Run, CalmRun, WriteAll, Calm;
    more := acts + [DoFails(true)];
    CalmMore(t, acts, {}, {DoFails(true)});
    RunNext(t, acts, DoFails(true), {DoFails(true)});
    GiveUpStep(t, Run(t, acts));
    assert WriteAll(SetStatus(Failed), Below(t.size), o[n := x]) == MarkedAll(o)[n := Marked(x)];
  }

  lemma GiveUpStep(t: Txn, s: State)
    requires s.prep.Added? && s.outcome.Undecided?
    ensures Step(t, s, DoFails(true)) == s.(outcome := ReturnedErr, nodes := WriteAll(SetStatus(Failed), Below(t.size), s.nodes))
  {
    hide LocalStep, WriteAll, Below;
  }

  lemma {:induction false} CalmMore(t: Txn, acts: seq<Action>, but: set<Action>, more: set<Action>)
    requires CalmRun(t, acts, but) && but <= more
    ensures CalmRun(t, acts, more)
  {
    hide Run, Calm;
    if acts != [] {
      CalmMore(t, acts[..|acts| - 1], but, more);
    }
  }

  lemma MarkStep(t: Txn, s: State, marked: set<nat>)
    requires s.prep.Added?
    ensures Step(t, s, MarkFailed(marked)) == s.(nodes := WriteAll(SetStatus(Failed), marked, s.nodes))
    ensures (forall n: nat :: n < |s.nodes| && n in marked ==> !InFlight(s.nodes[n].proc)) ==> Calm(s, MarkFailed(marked))
  {
    hide LocalStep;
  }

  // ---------------------------------------------------------------- single events

  lemma SoloDispatch(t: Txn, n: nat, x: Node)
    requires x.proc.Idle? && x.status == Some(Pending)
    ensures Solo(t, n, x, Dispatch) == x.(proc := LoopHead(t, 0, false))
  {
  }

  lemma SoloResume(t: Txn, n: nat, x: Node)
    requires x.proc.Idle? && x.status == Some(Running)
    ensures Solo(t, n, x, Dispatch) == x.(proc := Resuming)
  {
  }

  lemma SoloReadLast(t: Txn, n: nat, x: Node)
    requires x.proc.Resuming? && x.last.Some? && x.last.value >= -1
    ensures Solo(t, n, x, ReadLast) == x.(proc := LoopHead(t, x.last.value + 1, false))
  {
  }

  lemma SoloFinish(t: Txn, n: nat, x: Node)
    requires x.proc.Finishing?
    ensures Solo(t, n, x, Finish(true)) == PutNodeStatus(x, Succeeded, true).(proc := Finished)
  {
  }

  lemma SoloTimeout(t: Txn, n: nat, x: Node)
    requires x.proc.Working? && x.proc.phase.Waiting? && x.proc.attached
    ensures Solo(t, n, x, SyncTimeout) == x.(proc := x.proc.(phase := Ready(false)))
  {
  }

  function DidLog(t: Txn, n: nat, i: nat, log: seq<Op>): seq<Op>
    requires i < |t.steps|
  {
    if ShouldRun(t, n, i) then log + [Did(i)] else log
  }

  lemma SoloBody(t: Txn, n: nat, x: Node)
    requires x.proc.Working? && x.proc.phase.Ready? && x.proc.step < |t.steps|
    ensures var i := x.proc.step;
            Solo(t, n, x, RunBody(true)) ==
            x.(proc := x.proc.(phase := Ran), completed := x.completed + {i}, runs := x.runs + [i], log := DidLog(t, n, i, x.log))
  {
  }

  lemma SoloRecord(t: Txn, n: nat, x: Node)
    requires x.proc.Working? && x.proc.phase.Ran?
    ensures Solo(t, n, x, Record(true)) == PutNodeLast(x, x.proc.step, true).(proc := x.proc.(phase := Recorded))
  {
  }

  lemma SoloAdvance(t: Txn, n: nat, x: Node, ok: bool)
    requires x.proc.Working? && x.proc.phase.Recorded? && x.proc.attached
    ensures Solo(t, n, x, Advance(ok)) == PutNodeStatus(x, Running, ok && !x.proc.once).(proc := LoopHead(t, x.proc.step + 1, true))
  {
  }

  lemma SoloCrash(t: Txn, n: nat, x: Node)
    ensures Solo(t, n, x, Crash) == x.(proc := Idle, rolls := [], boots := x.boots + 1)
  {
  }

  // ---------------------------------------------------------------- a peer that never waits

  /** The head of the loop, with the wait of a synchronized step timed out. */
  lemma Unwait(t: Txn, acts: seq<Action>, n: nat, x: Node, o: seq<Node>, but: set<Action>, i: nat, once: bool)
    returns (more: seq<Action>)
    requires i < |t.steps| && x.proc == LoopHead(t, i, once) && Lone(t, acts, n, x, o, but)
    ensures Lone(t, more, n, x.(proc := Working(i, Ready(false), true, once)), o, but)
  {
    hide Lone, Solo;
    if t.steps[i].sync {
      SoloTimeout(t, n, x);
      more := Go(t, acts, n, x, o, but, SyncTimeout);
    } else {
      more := acts;
    }
  }

  /** Run a body and record it. */
  function AfterRecord(t: Txn, n: nat, x: Node): Node
    requires x.proc.Working? && x.proc.step < |t.steps|
  {
    var i := x.proc.step;
    x.(proc := x.proc.(phase := Recorded), completed := x.completed + {i}, runs := x.runs + [i],
       log := DidLog(t, n, i, x.log), last := Some(i), recorded := x.recorded + {i})
  }

  lemma RunAndRecord(t: Txn, acts: seq<Action>, n: nat, x: Node, o: seq<Node>, but: set<Action>) returns (more: seq<Action>)
    requires x.proc.Working? && x.proc.phase.Ready? && x.proc.step < |t.steps|
    requires Lone(t, acts, n, x, o, but) && (Live(x) || At(n, RunBody(true)) in but)
    ensures Lone(t, more, n, AfterRecord(t, n, x), o, but) && (NoTimeouts(acts) ==> NoTimeouts(more))
  {
    hide Lone, Solo;
    var y := Solo(t, n, x, RunBody(true));
    SoloBody(t, n, x);
    more := Go(t, acts, n, x, o, but, RunBody(true));
    SoloRecord(t, n, y);
    more := Go(t, more, n, y, o, but, Record(true));
  }

  /** The runs of the bodies before step i. */
  function Done(t: Txn, n: nat, i: nat): seq<Op>
    requires i <= |t.steps|
  {
    if i == 0 then [] else DidLog(t, n, i - 1, Done(t, n, i - 1))
  }

  /** The peer is about to run step i, with all steps before it run, recorded and nothing else. */
  ghost predicate Climbed(t: Txn, n: nat, x: Node, i: nat)
    requires i < |t.steps|
  {
    && x.proc == Working(i, Ready(false), true, i > 0) && x.last.Some? && x.last.value == i - 1
    && x.status == Some(if i == 0 then Pending else Running) && x.rolls == [] && x.boots == 0
    && x.log == Done(t, n, i) && (i == 0 ==> x.runs == [])
  }

  /** Any step of any peer can be reached in a calm run without the help of other peers. */
  lemma Climb(t: Txn, n: nat, i: nat, but: set<Action>) returns (acts: seq<Action>, x: Node)
    requires n < t.size && i < |t.steps|
    ensures Lone(t, acts, n, x, AllPrepared(t), but) && Climbed(t, n, x, i)
  {
    hide Lone;
    acts := Begin(t, n, but);
    acts, x := ClimbFrom(t, acts, n, AllPrepared(t), i, but);
  }

  lemma {:induction false} ClimbFrom(t: Txn, before: seq<Action>, n: nat, o: seq<Node>, i: nat, but: set<Action>)
    returns (acts: seq<Action>, x: Node)
    requires Lone(t, before, n, PreparedNode(), o, but) && i < |t.steps|
    ensures Lone(t, acts, n, x, o, but) && Climbed(t, n, x, i)
  {
    hide Lone, Solo;
    if i == 0 {
      x := PreparedNode();
      SoloDispatch(t, n, x);
      acts := Go(t, before, n, x, o, but, Dispatch);
      x := x.(proc := LoopHead(t, 0, false));
    } else {
      acts, x := ClimbFrom(t, before, n, o, i - 1, but);
      acts := RunAndRecord(t, acts, n, x, o, but);
      x := AfterRecord(t, n, x);
      SoloAdvance(t, n, x, true);
      acts := Go(t, acts, n, x, o, but, Advance(true));
      x := Solo(t, n, x, Advance(true));
    }
    acts := Unwait(t, acts, n, x, o, but, i, i > 0);
    x := x.(proc := Working(i, Ready(false), true, i > 0));
  }

  // ---------------------------------------------------------------- rollbacks

  /** The undos of a rollback from step k. */
  function Undone(t: Txn, n: nat, k: int): seq<Op>
    requires -1 <= k < |t.steps|
    decreases k + 1
  {
    if k < 0 then [] else UndoLog(t, n, k, [], true) + Undone(t, n, k - 1)
  }

  lemma SoloUndo(t: Txn, n: nat, x: Node, ok: bool)
    requires x.rolls != [] && 0 <= x.rolls[0] < |t.steps|
    ensures Solo(t, n, x, RollUndo(0, ok)) ==
            x.(log := x.log + UndoLog(t, n, x.rolls[0], [], ok), rolls := [x.rolls[0] - 1] + x.rolls[1..])
  {
    assert x.rolls[0 := x.rolls[0] - 1] == [x.rolls[0] - 1] + x.rolls[1..];
  }

  lemma SoloRollEnd(t: Txn, n: nat, x: Node, ok: bool)
    requires x.rolls != [] && x.rolls[0] == -1
    ensures Solo(t, n, x, RollEnd(0, ok)) == PutNodeLast(x, -1, ok).(rolls := x.rolls[1..])
  {
    assert x.rolls[..0] + x.rolls[0 + 1..] == x.rolls[1..];
  }

  lemma SoloRollStart(t: Txn, n: nat, x: Node)
    requires Failed in x.seen && x.last.Some? && 0 <= x.last.value < |t.steps|
    ensures Solo(t, n, x, RollStart) == x.(rolls := x.rolls + [x.last.value])
  {
  }

  /** The loop of a rollback. */
  lemma {:induction false} UndoDown(t: Txn, acts: seq<Action>, n: nat, x: Node, o: seq<Node>, but: set<Action>)
    returns (more: seq<Action>)
    requires Lone(t, acts, n, x, o, but) && x.rolls != [] && -1 <= x.rolls[0] < |t.steps|
    ensures Lone(t, more, n, x.(log := x.log + Undone(t, n, x.rolls[0]), rolls := [-1] + x.rolls[1..]), o, but)
    decreases x.rolls[0] + 1
  {
    hide Lone, Solo;
    var k := x.rolls[0];
    if k == -1 {
      more := acts;
      assert x.rolls == [-1] + x.rolls[1..] && x.log + [] == x.log;
    } else {
      var y := Solo(t, n, x, RollUndo(0, true));
      SoloUndo(t, n, x, true);
      more := Go(t, acts, n, x, o, but, RollUndo(0, true));
      more := UndoDown(t, more, n, y, o, but);
      assert y.rolls[1..] == x.rolls[1..];
      assert y.log + Undone(t, n, k - 1) == x.log + Undone(t, n, k);
    }
  }

  /** The whole of a rollback that has been started. */
  lemma FinishRollBack(t: Txn, acts: seq<Action>, n: nat, x: Node, o: seq<Node>, but: set<Action>, ok: bool)
    returns (more: seq<Action>)
    requires Lone(t, acts, n, x, o, but) && x.rolls != [] && -1 <= x.rolls[0] < |t.steps|
    requires ok || At(n, RollEnd(0, false)) in but
    ensures var y := x.(log := x.log + Undone(t, n, x.rolls[0]), rolls := x.rolls[1..]);
            Lone(t, more, n, PutNodeLast(y, -1, ok), o, but)
  {
    hide Lone, Solo, Undone;
    more := UndoDown(t, acts, n, x, o, but);
    var y := x.(log := x.log + Undone(t, n, x.rolls[0]), rolls := [-1] + x.rolls[1..]);
    SoloRollEnd(t, n, y, ok);
    more := Go(t, more, n, y, o, but, RollEnd(0, ok));
    assert ([-1] + x.rolls[1..])[1..] == x.rolls[1..];
  }

  lemma StartRollBack(t: Txn, acts: seq<Action>, n: nat, x: Node, o: seq<Node>, but: set<Action>) returns (more: seq<Action>)
    requires Lone(t, acts, n, x, o, but) && (x.rolls == [] || At(n, RollStart) in but)
    requires Failed in x.seen && x.last.Some? && 0 <= x.last.value < |t.steps|
    ensures Lone(t, more, n, x.(rolls := x.rolls + [x.last.value]), o, but)
  {
    hide Lone, Solo;
    SoloRollStart(t, n, x);
    more := Go(t, acts, n, x, o, but, RollStart);
  }

  /** Roll back whatever is recorded. */
  lemma RollBack(t: Txn, acts: seq<Action>, n: nat, x: Node, o: seq<Node>, but: set<Action>) returns (more: seq<Action>, y: Node)
    requires Lone(t, acts, n, x, o, but) && x.rolls == [] && Failed in x.seen
    requires x.last.Some? && -1 <= x.last.value < |t.steps|
    ensures Lone(t, more, n, y, o, but)
    ensures y == x.(log := x.log + Undone(t, n, x.last.value), last := Some(-1), recorded := y.recorded)
  {
    hide Lone, Solo, Undone;
    if x.last.value == -1 {
      NothingUndone(t, n);
      assert x.log + [] == x.log;
      more, y := acts, x;
    } else {
      more := StartRollBack(t, acts, n, x, o, but);
      var z := x.(rolls := [x.last.value]);
      assert x.rolls + [x.last.value] == z.rolls;
      more := FinishRollBack(t, more, n, z, o, but, true);
      assert z.rolls[1..] == x.rolls;
      y := PutNodeLast(z.(log := x.log + Undone(t, n, x.last.value), rolls := z.rolls[1..]), -1, true);
    }
  }

  lemma NothingUndone(t: Txn, n: nat)
    ensures Undone(t, n, -1) == []
  {
  }
}
