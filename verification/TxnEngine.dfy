/**
 The second transaction engine as a transition system.

 Every peer works on its own and talks to the others only through three kinds of store key: the
 transaction record, one status per peer and one last executed step per peer. Each `Action` is one
 store operation or one local event; `Step` is total (an action that is not enabled changes
 nothing), so a run is simply a list of actions in any order and a claim about `Run(t, acts)` for
 all `acts` is a claim about every interleaving, with crashes, restarts and rollbacks included.
 */
module TxnEngine {
  import opened Wrappers

  datatype Status = Pending | Running | Succeeded | Failed

  /** A step: the peers it runs on, and whether it is skipped or synchronized. */
  datatype StepDef = StepDef(nodes: seq<nat>, skip: bool, sync: bool)

  /** The peers of the transaction are 0..size-1. `preset` says whether the caller filled the peer
      list before `Do`, instead of leaving it to `prepare`. */
  datatype Txn = Txn(size: nat, steps: seq<StepDef>, preset: bool)

  /** What a step function did to the peer: a complete run, a failed (partial) run, or an undo. */
  datatype Op = Did(step: nat) | Broke(step: nat) | Undid(step: nat) | UndoFailed(step: nat)

  /** Where the goroutine running one step is. `Ready(true)` has come through the success count of
      a synchronized step. */
  datatype Phase =
    | Waiting(reported: set<nat>, count: nat)
    | Ready(counted: bool)
    | Ran
    | Recorded
    | Broken
    | Erred

  /** The executor of a peer. `attached` is false once the executor has returned while its step
      goroutine lives on; `once` is true after the first step of this executor is done. */
  datatype Proc =
    | Idle
    | Resuming
    | Working(step: nat, phase: Phase, attached: bool, once: bool)
    | Finishing
    | Finished

  /** One peer: its two store keys, its executor and its rollbacks (each holds the next step to
      undo), then the history: statuses and last steps ever stored, steps completed, step functions
      run, step bodies started in order, and the number of crashes. */
  datatype Node = Node(
    status: Option<Status>, last: Option<int>, proc: Proc, rolls: seq<int>,
    seen: set<Status>, recorded: set<int>, completed: set<nat>,
    log: seq<Op>, runs: seq<nat>, boots: nat)

  datatype Prep = Fresh | NodesSet | StatusPut | LastPut | Added

  datatype Wait =
    | NotSpawned
    | Spawned(watched: set<nat>)
    | Counting(watched: set<nat>, need: nat, reported: set<nat>, count: nat)
    | Signalled

  datatype Outcome = Undecided | ReturnedNil | ReturnedErr

  datatype Cleaner = Resting | Scanning(next: nat, count: nat, sawFailed: bool) | Deleting

  datatype State = State(record: bool, nodes: seq<Node>,
                         prep: Prep, wait: Wait, outcome: Outcome, cleaner: Cleaner)

  /** Events of one peer. `ok` tells whether the step function or the store write succeeded. */
  datatype Local =
    | Dispatch | ReadLast
    | SyncReport(peer: nat) | SyncPass | SyncTimeout
    | RunBody(ok: bool) | UndoOwn(ok: bool) | Record(ok: bool) | Advance(ok: bool)
    | Fail(ok: bool) | Finish(ok: bool) | NoticeFailure
    | Crash
    | RollStart | RollUndo(which: nat, ok: bool) | RollEnd(which: nat, ok: bool)

  datatype Action =
    | SetNodes | PutStatus | PutLast | AddTxn | PrepareFails
    | WaitSpawn | WaitCount | WaitReport(peer: nat) | WaitSignal
    | DoSucceeds | DoFails(ok: bool) | DoneDeletesKeys | DoneDeletesTxn
    | MarkFailed(marked: set<nat>)
    | CleanStart | CleanRead | CleanDecide | CleanDeletesKeys | CleanDeletesTxn
    | At(node: nat, event: Local)

  /** Whether a peer takes part in a step. */
  predicate ShouldRun(t: Txn, n: nat, i: nat)
    requires i < |t.steps|
  {
    !t.steps[i].skip && n in t.steps[i].nodes
  }

  /** The head of the executor's loop over the steps. */
  function LoopHead(t: Txn, i: nat, once: bool): Proc {
    if i < |t.steps|
    then Working(i, if t.steps[i].sync then Waiting({}, 0) else Ready(false), true, once)
    else Finishing
  }

  function PutNodeStatus(x: Node, st: Status, ok: bool): Node {
    if ok then x.(status := Some(st), seen := x.seen + {st}) else x
  }

  function PutNodeLast(x: Node, k: int, ok: bool): Node {
    if ok then x.(last := Some(k), recorded := x.recorded + {k}) else x
  }

  function DeleteKeys(x: Node): Node {
    x.(status := None, last := None)
  }

  /** The engine reads the status and starts, resumes or ignores the transaction. */
  function DispatchStep(t: Txn, x: Node): Node {
    match x.status
    case Some(Pending) => x.(proc := LoopHead(t, 0, false))
    case Some(Running) => x.(proc := Resuming)
    case _ => x.(proc := Finished)
  }

  function RunBodyStep(t: Txn, n: nat, x: Node, ok: bool): Node
    requires x.proc.Working? && x.proc.step < |t.steps|
  {
    var i := x.proc.step;
    var y := x.(runs := x.runs + [i]);
    if !ShouldRun(t, n, i) then y.(proc := x.proc.(phase := Ran), completed := x.completed + {i})
    else if ok then
      y.(proc := x.proc.(phase := Ran), completed := x.completed + {i}, log := x.log + [Did(i)])
    else y.(proc := x.proc.(phase := Broken), log := x.log + [Broke(i)])
  }

  /** RollBackStep on one peer. */
  function UndoLog(t: Txn, n: nat, i: nat, log: seq<Op>, ok: bool): seq<Op>
    requires i < |t.steps|
  {
    if !ShouldRun(t, n, i) then log else log + [if ok then Undid(i) else UndoFailed(i)]
  }

  function LocalStep(t: Txn, s: State, n: nat, x: Node, e: Local): Node {
    match e
    case Dispatch =>
      if s.record && x.proc.Idle? then DispatchStep(t, x) else x
    case ReadLast =>
      if !x.proc.Resuming? then x
      else if x.last.Some? && -1 <= x.last.value then x.(proc := LoopHead(t, x.last.value + 1, false))
      else x.(proc := Finished)
    case SyncReport(m) =>
      if x.proc.Working? && x.proc.phase.Waiting? && m < t.size && m < |s.nodes|
         && m !in x.proc.phase.reported && x.proc.step - 1 in s.nodes[m].recorded
      then x.(proc := x.proc.(phase := Waiting(x.proc.phase.reported + {m}, x.proc.phase.count + 1)))
      else x
    case SyncPass =>
      if x.proc.Working? && x.proc.phase.Waiting? && x.proc.phase.count == t.size
      then x.(proc := x.proc.(phase := Ready(true))) else x
    case SyncTimeout =>
      if x.proc.Working? && x.proc.phase.Waiting? && x.proc.attached
      then x.(proc := x.proc.(phase := Ready(false))) else x
    case RunBody(ok) =>
      if x.proc.Working? && x.proc.phase.Ready? && x.proc.step < |t.steps|
      then RunBodyStep(t, n, x, ok) else x
    case UndoOwn(ok) =>
      if x.proc.Working? && x.proc.phase.Broken? && x.proc.step < |t.steps|
      then x.(proc := x.proc.(phase := Erred), log := UndoLog(t, n, x.proc.step, x.log, ok)) else x
    case Record(ok) =>
      if x.proc.Working? && x.proc.phase.Ran?
      then PutNodeLast(x, x.proc.step, ok).(proc := x.proc.(phase := if ok then Recorded else Broken))
      else x
    case Advance(ok) =>
      if x.proc.Working? && x.proc.phase.Recorded? && x.proc.attached
      then PutNodeStatus(x, Running, ok && !x.proc.once).(proc := LoopHead(t, x.proc.step + 1, true))
      else x
    case Fail(ok) =>
      if x.proc.Working? && x.proc.phase.Erred? && x.proc.attached
      then PutNodeStatus(x, Failed, ok).(proc := Finished) else x
    case Finish(ok) =>
      if x.proc.Finishing? then PutNodeStatus(x, Succeeded, ok).(proc := Finished) else x
    case NoticeFailure =>
      if x.proc.Working? && Failed in x.seen then x.(proc := x.proc.(attached := false)) else x
    case Crash =>
      x.(proc := Idle, rolls := [], boots := x.boots + 1)
    case RollStart =>
      if s.record && Failed in x.seen && x.last.Some? && 0 <= x.last.value < |t.steps|
      then x.(rolls := x.rolls + [x.last.value]) else x
    case RollUndo(j, ok) =>
      if j < |x.rolls| && 0 <= x.rolls[j] < |t.steps|
      then x.(log := UndoLog(t, n, x.rolls[j], x.log, ok), rolls := x.rolls[j := x.rolls[j] - 1])
      else x
    case RollEnd(j, ok) =>
      if j < |x.rolls| && x.rolls[j] == -1
      then PutNodeLast(x, -1, ok).(rolls := x.rolls[..j] + x.rolls[j + 1..]) else x
  }

  /** The peers 0..n-1. */
  function Below(n: nat): (r: set<nat>)
    ensures forall m: nat :: m in r <==> m < n
    ensures |r| == n
  {
    if n == 0 then {} else Below(n - 1) + {n - 1}
  }

  /** The peers the initiator's waiting goroutine sees: all of them, or none while the list has
      not been filled in yet. */
  function ListedNodes(t: Txn, s: State): set<nat> {
    if t.preset || !s.prep.Fresh? then Below(t.size) else {}
  }

  function CleanReadStep(t: Txn, s: State, i: nat, count: nat, sawFailed: bool): Cleaner
    requires i < |s.nodes|
  {
    if sawFailed then Scanning(i + 1, if s.nodes[i].last == Some(-1) then count + 1 else count, false)
    else if s.nodes[i].status == Some(Failed) then Scanning(i, count, true)
    else Scanning(i + 1, count, false)
  }

  /** A write to the store keys of a peer by anybody. */
  datatype KeyWrite = SetStatus(status: Status) | SetLast(last: int) | Drop

  function WriteKeys(w: KeyWrite, x: Node): Node {
    match w
    case SetStatus(st) => PutNodeStatus(x, st, true)
    case SetLast(k) => PutNodeLast(x, k, true)
    case Drop => DeleteKeys(x)
  }

  /** One store transaction that writes the same keys of several peers. */
  function WriteAll(w: KeyWrite, marked: set<nat>, xs: seq<Node>): (ys: seq<Node>)
    ensures |ys| == |xs|
    ensures forall n: nat :: n < |xs| ==> ys[n] == if n in marked then WriteKeys(w, xs[n]) else xs[n]
  {
    seq(|xs|, n requires 0 <= n < |xs| => if n in marked then WriteKeys(w, xs[n]) else xs[n])
  }

  function Step(t: Txn, s: State, a: Action): State {
    match a
    case SetNodes => if s.prep.Fresh? && s.outcome.Undecided? then s.(prep := NodesSet) else s
    case PutStatus =>
      if !s.prep.NodesSet? || !s.outcome.Undecided? then s
      else s.(prep := StatusPut, nodes := WriteAll(SetStatus(Pending), Below(t.size), s.nodes))
    case PutLast =>
      if !s.prep.StatusPut? || !s.outcome.Undecided? then s
      else s.(prep := LastPut, nodes := WriteAll(SetLast(-1), Below(t.size), s.nodes))
    case AddTxn =>
      if s.prep.LastPut? && s.outcome.Undecided? then s.(prep := Added, record := true) else s
    case PrepareFails =>
      if !s.prep.Added? && s.outcome.Undecided? then s.(outcome := ReturnedErr) else s
    case WaitSpawn =>
      if s.wait.NotSpawned? then s.(wait := Spawned(ListedNodes(t, s))) else s
    case WaitCount =>
      if s.wait.Spawned? then s.(wait := Counting(s.wait.watched, |ListedNodes(t, s)|, {}, 0)) else s
    case WaitReport(m) =>
      if s.wait.Counting? && m in s.wait.watched && m !in s.wait.reported
         && m < |s.nodes| && Succeeded in s.nodes[m].seen
      then s.(wait := s.wait.(reported := s.wait.reported + {m}, count := s.wait.count + 1))
      else s
    case WaitSignal =>
      if s.wait.Counting? && s.wait.count == s.wait.need then s.(wait := Signalled) else s
    case DoSucceeds =>
      if s.wait.Signalled? && s.prep.Added? && s.outcome.Undecided? then s.(outcome := ReturnedNil) else s
    case DoFails(ok) =>
      if !s.prep.Added? || !s.outcome.Undecided? then s
      else s.(outcome := ReturnedErr,
              nodes := if ok then WriteAll(SetStatus(Failed), Below(t.size), s.nodes) else s.nodes)
    case DoneDeletesKeys =>
      if s.outcome.ReturnedNil? then s.(nodes := WriteAll(Drop, Below(t.size), s.nodes)) else s
    case DoneDeletesTxn => if s.outcome.ReturnedNil? then s.(record := false) else s
    case MarkFailed(marked) =>
      if !s.prep.Added? then s else s.(nodes := WriteAll(SetStatus(Failed), marked, s.nodes))
    case CleanStart => if s.record && s.cleaner.Resting? then s.(cleaner := Scanning(0, 0, false)) else s
    case CleanRead =>
      if s.cleaner.Scanning? && s.cleaner.next < |s.nodes| && s.cleaner.next < t.size
      then s.(cleaner := CleanReadStep(t, s, s.cleaner.next, s.cleaner.count, s.cleaner.sawFailed))
      else s
    case CleanDecide =>
      if s.cleaner.Scanning? && s.cleaner.next == t.size
      then s.(cleaner := if s.cleaner.count == t.size then Deleting else Resting) else s
    case CleanDeletesKeys =>
      if s.cleaner.Deleting? then s.(nodes := WriteAll(Drop, Below(t.size), s.nodes)) else s
    case CleanDeletesTxn =>
      if s.cleaner.Deleting? then s.(record := false, cleaner := Resting) else s
    case At(n, e) =>
      if n < |s.nodes| then s.(nodes := s.nodes[n := LocalStep(t, s, n, s.nodes[n], e)]) else s
  }

  /** What one action does to one peer: nothing, a local event, or a key write; with what the
      state must have looked like. */
  lemma StepOnNode(t: Txn, s: State, a: Action, n: nat)
    requires n < |s.nodes|
    ensures |Step(t, s, a).nodes| == |s.nodes|
    ensures var x, y := s.nodes[n], Step(t, s, a).nodes[n];
            || y == x
            || (a.At? && a.node == n && y == LocalStep(t, s, n, x, a.event))
            || (s.prep.NodesSet? && a.PutStatus? && y == WriteKeys(SetStatus(Pending), x))
            || (s.prep.StatusPut? && a.PutLast? && y == WriteKeys(SetLast(-1), x))
            || (s.prep.Added? && a == DoFails(true) && y == WriteKeys(SetStatus(Failed), x))
            || (s.prep.Added? && a.MarkFailed? && n in a.marked && y == WriteKeys(SetStatus(Failed), x))
            || (a.DoneDeletesKeys? && s.outcome.ReturnedNil? && y == WriteKeys(Drop, x))
            || (a.CleanDeletesKeys? && s.cleaner.Deleting? && y == WriteKeys(Drop, x))
  {
  }

  lemma StepAt(t: Txn, s: State, n: nat, e: Local)
    requires n < |s.nodes|
    ensures Step(t, s, At(n, e)) == s.(nodes := s.nodes[n := LocalStep(t, s, n, s.nodes[n], e)])
  {
  }

  function FreshNode(): Node {
    Node(None, None, Idle, [], {}, {}, {}, [], [], 0)
  }

  function Start(t: Txn): State {
    State(false, seq(t.size, _ => FreshNode()), Fresh, NotSpawned, Undecided, Resting)
  }

  /** The state after a list of actions. */
  function Run(t: Txn, acts: seq<Action>): State {
    if acts == [] then Start(t)
    else Step(t, Run(t, acts[..|acts| - 1]), acts[|acts| - 1])
  }

  /** One more action of a given run. */
  lemma RunOne(t: Txn, acts: seq<Action>, k: nat, s: State, s': State)
    requires k < |acts| && Run(t, acts[..k]) == s && Step(t, s, acts[k]) == s'
    ensures Run(t, acts[..k + 1]) == s'
  {
    hide Step;
    assert acts[..k + 1][..k] == acts[..k];
  }

  /** The initiator's part of every run that gets started. */
  function Prepare(): seq<Action> {
    [SetNodes, PutStatus, PutLast, AddTxn]
  }

  function PreparedNode(): Node {
    FreshNode().(status := Some(Pending), seen := {Pending}, last := Some(-1), recorded := {-1})
  }

  /** The four steps of `prepare` from any state in which it has not begun. */
  lemma PrepareFrom(t: Txn, s: State, s1: State, s2: State, s3: State, s4: State)
    requires s.prep.Fresh? && s.outcome.Undecided? && |s.nodes| == t.size
    requires forall n: nat :: n < t.size ==> s.nodes[n] == FreshNode()
    requires s1 == Step(t, s, SetNodes) && s2 == Step(t, s1, PutStatus)
    requires s3 == Step(t, s2, PutLast) && s4 == Step(t, s3, AddTxn)
    ensures s4.record && s4.prep == Added && s4.wait == s.wait && s4.outcome == s.outcome && s4.cleaner == s.cleaner
    ensures |s4.nodes| == t.size && forall n: nat :: n < t.size ==> s4.nodes[n] == PreparedNode()
  {
  }

  lemma PrepareRun(t: Txn)
    ensures var s := Run(t, Prepare());
            && s == State(true, s.nodes, Added, NotSpawned, Undecided, Resting) && |s.nodes| == t.size
            && forall n: nat :: n < t.size ==> s.nodes[n] == PreparedNode()
  {
    hide Step;
    var a := Prepare();
    var s0 := Start(t);
    var s1 := Step(t, s0, SetNodes);
    var s2 := Step(t, s1, PutStatus);
    var s3 := Step(t, s2, PutLast);
    var s4 := Step(t, s3, AddTxn);
    PrepareFrom(t, s0, s1, s2, s3, s4);
    RunOne(t, a, 0, s0, s1);
    RunOne(t, a, 1, s1, s2);
    RunOne(t, a, 2, s2, s3);
    RunOne(t, a, 3, s3, s4);
    assert a[..4] == a;
  }
}
