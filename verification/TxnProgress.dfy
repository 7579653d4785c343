/**
 The engine gets somewhere: synchronized steps open when, and only when, all peers have recorded the step
 before; whole transactions run to success without a timed out wait; what fails is recorded as failed;
 and what has ended is removed.
 */
module TxnProgress {
  import opened Wrappers
  import opened TxnEngine
  import opened TxnRuns
  import TxnBarrier
  import TxnOutcome
  import TxnRollback
  import TxnDeletion

  // ---------------------------------------------------------------- the barrier's own events

  /** The events by which a waiting peer hears from its watchers and goes on. */
  predicate OwnWait(e: Local) {
    e.SyncReport? || e.SyncPass?
  }

  ghost predicate AllWait(es: seq<Local>) {
    forall k :: 0 <= k < |es| ==> OwnWait(es[k])
  }

  /** The state after some events of peer n. */
  function After(t: Txn, s: State, n: nat, es: seq<Local>): State {
    if es == [] then s else Step(t, After(t, s, n, es[..|es| - 1]), At(n, es[|es| - 1]))
  }

  lemma AfterNext(t: Txn, s: State, n: nat, es: seq<Local>, e: Local)
    ensures After(t, s, n, es + [e]) == Step(t, After(t, s, n, es), At(n, e))
  {
    hide Step;
    assert (es + [e])[..|es + [e]| - 1] == es;
  }

  /** Peer n waits at step i; nothing else has changed since s. */
  ghost predicate WaitsSince(t: Txn, s: State, s': State, n: nat, i: nat, ph: Phase) {
    && n < |s.nodes| == t.size && s.nodes[n].proc.Working? && s.nodes[n].proc.step == i
    && s' == s.(nodes := s.nodes[n := s.nodes[n].(proc := s.nodes[n].proc.(phase := ph))])
  }

  /** What its events can have brought it to: reports only of peers that recorded the step before, and
      through the count only when all have. */
  ghost predicate Heard(t: Txn, s: State, i: nat, ph: Phase)
    requires |s.nodes| == t.size
  {
    match ph
    case Waiting(reported, count) =>
      count == |reported| && reported <= Below(t.size) && forall m :: m in reported ==> i - 1 in s.nodes[m].recorded
    case Ready(counted) => counted && TxnBarrier.AllRecorded(t, s, i - 1)
    case _ => false
  }

  lemma WaitStep(t: Txn, s: State, s': State, n: nat, i: nat, ph: Phase, e: Local) returns (next: Phase)
    requires WaitsSince(t, s, s', n, i, ph) && Heard(t, s, i, ph) && OwnWait(e)
    ensures WaitsSince(t, s, Step(t, s', At(n, e)), n, i, next) && Heard(t, s, i, next)
  {
    hide LocalStep, Step, Heard;
    StepAt(t, s', n, e);
    var x := s'.nodes[n];
    assert e.SyncReport? && e.peer < t.size ==> s'.nodes[e.peer].recorded == s.nodes[e.peer].recorded;
    WaitLocal(t, s', n, x, e);
    next := LocalStep(t, s', n, x, e).proc.phase;
    if next != ph {
      if e.SyncReport? {
        HeardReport(t, s, i, ph, e.peer);
      } else {
        HeardAll(t, s, i, ph);
      }
    }
  }

  lemma HeardReport(t: Txn, s: State, i: nat, ph: Phase, m: nat)
    requires |s.nodes| == t.size && Heard(t, s, i, ph) && ph.Waiting? && m < t.size && m !in ph.reported
    requires i - 1 in s.nodes[m].recorded
    ensures Heard(t, s, i, Waiting(ph.reported + {m}, ph.count + 1))
  {
  }

  lemma HeardAll(t: Txn, s: State, i: nat, ph: Phase)
    requires |s.nodes| == t.size && Heard(t, s, i, ph) && ph.Waiting? && ph.count == t.size
    ensures Heard(t, s, i, Ready(true))
  {
    TxnBarrier.Pigeonhole(ph.reported, t.size);
  }

  /** One such event. */
  lemma WaitLocal(t: Txn, s: State, n: nat, x: Node, e: Local)
    requires OwnWait(e) && x.proc.Working?
    ensures var y, ph := LocalStep(t, s, n, x, e), x.proc.phase;
            && y == x.(proc := x.proc.(phase := y.proc.phase))
            && (|| y.proc.phase == ph
                || (ph.Waiting? && e.SyncReport? && e.peer < t.size && e.peer < |s.nodes| && e.peer !in ph.reported
                    && x.proc.step - 1 in s.nodes[e.peer].recorded
                    && y.proc.phase == Waiting(ph.reported + {e.peer}, ph.count + 1))
                || (ph.Waiting? && e.SyncPass? && ph.count == t.size && y.proc.phase == Ready(true)))
  {
  }

  lemma {:induction false} WaitRun(t: Txn, s: State, n: nat, i: nat, es: seq<Local>) returns (ph: Phase)
    requires WaitsSince(t, s, s, n, i, Waiting({}, 0)) && AllWait(es)
    ensures WaitsSince(t, s, After(t, s, n, es), n, i, ph) && Heard(t, s, i, ph)
  {
    hide WaitsSince, Heard, Step;
    if es == [] {
      ph := Waiting({}, 0);
      NothingHeard(t, s, n, i);
    } else {
      ph := WaitRun(t, s, n, i, es[..|es| - 1]);
      ph := WaitStep(t, s, After(t, s, n, es[..|es| - 1]), n, i, ph, es[|es| - 1]);
    }
  }

  lemma NothingHeard(t: Txn, s: State, n: nat, i: nat)
    requires WaitsSince(t, s, s, n, i, Waiting({}, 0))
    ensures |s.nodes| == t.size && Heard(t, s, i, Waiting({}, 0))
  {
  }

  /** Reports of the peers below k. */
  function Reports(k: nat): seq<Local> {
    if k == 0 then [] else Reports(k - 1) + [SyncReport(k - 1)]
  }

  lemma {:induction false} ReportAll(t: Txn, s: State, n: nat, i: nat, k: nat)
    requires WaitsSince(t, s, s, n, i, Waiting({}, 0)) && TxnBarrier.AllRecorded(t, s, i - 1) && k <= t.size
    ensures WaitsSince(t, s, After(t, s, n, Reports(k)), n, i, Waiting(Below(k), k)) && AllWait(Reports(k))
  {
    hide Step, WaitsSince, TxnBarrier.AllRecorded;
    if k > 0 {
      ReportAll(t, s, n, i, k - 1);
      AfterNext(t, s, n, Reports(k - 1), SyncReport(k - 1));
      ReportOne(t, s, After(t, s, n, Reports(k - 1)), n, i, k - 1);
    } else {
      assert Below(0) == {} && Reports(0) == [];
    }
  }

  lemma ReportOne(t: Txn, s: State, s': State, n: nat, i: nat, m: nat)
    requires WaitsSince(t, s, s', n, i, Waiting(Below(m), m)) && TxnBarrier.AllRecorded(t, s, i - 1) && m < t.size
    ensures WaitsSince(t, s, Step(t, s', At(n, SyncReport(m))), n, i, Waiting(Below(m + 1), m + 1))
  {
    hide LocalStep, Step, Below;
    StepAt(t, s', n, SyncReport(m));
    assert s'.nodes[m].recorded == s.nodes[m].recorded;
    ReportLocal(t, s', n, s'.nodes[n], m);
  }

  lemma ReportLocal(t: Txn, s: State, n: nat, x: Node, m: nat)
    requires x.proc.Working? && x.proc.phase == Waiting(Below(m), m) && m < t.size && m < |s.nodes|
    requires x.proc.step - 1 in s.nodes[m].recorded
    ensures LocalStep(t, s, n, x, SyncReport(m)) == x.(proc := x.proc.(phase := Waiting(Below(m + 1), m + 1)))
  {
  }

  lemma PassLocal(t: Txn, s: State, n: nat, x: Node)
    requires x.proc.Working? && x.proc.phase.Waiting? && x.proc.phase.count == t.size
    ensures LocalStep(t, s, n, x, SyncPass) == x.(proc := x.proc.(phase := Ready(true)))
  {
  }

  /** All reports, and on. */
  lemma ReportAndPass(t: Txn, s: State, n: nat, i: nat)
    requires WaitsSince(t, s, s, n, i, Waiting({}, 0)) && TxnBarrier.AllRecorded(t, s, i - 1)
    ensures WaitsSince(t, s, After(t, s, n, Reports(t.size) + [SyncPass]), n, i, Ready(true))
    ensures AllWait(Reports(t.size) + [SyncPass])
  {
    ReportAll(t, s, n, i, t.size);
    hide LocalStep, Step, Reports;
    var s' := After(t, s, n, Reports(t.size));
    AfterNext(t, s, n, Reports(t.size), SyncPass);
    StepAt(t, s', n, SyncPass);
    PassLocal(t, s', n, s'.nodes[n]);
  }

  ghost predicate Opens(t: Txn, s: State, n: nat, es: seq<Local>)
    requires n < |s.nodes|
  {
    AllWait(es) && n < |After(t, s, n, es).nodes| && After(t, s, n, es).nodes[n].proc.Working?
    && After(t, s, n, es).nodes[n].proc.phase == Ready(true)
  }

  /** In any state, a peer that begins to wait can come through the success count by what it hears from
      its watchers exactly when every peer has recorded the step before. */
  lemma BarrierOpensExactly(t: Txn, s: State, n: nat, i: nat)
    requires WaitsSince(t, s, s, n, i, Waiting({}, 0))
    ensures (exists es: seq<Local> :: Opens(t, s, n, es)) <==> TxnBarrier.AllRecorded(t, s, i - 1)
  {
    if es: seq<Local> :| Opens(t, s, n, es) {
      var ph := WaitRun(t, s, n, i, es);
    }
    if TxnBarrier.AllRecorded(t, s, i - 1) {
      ReportAndPass(t, s, n, i);
      assert Opens(t, s, n, Reports(t.size) + [SyncPass]);
    }
  }

  // ---------------------------------------------------------------- all peers in step

  /** The peer is at the head of the loop for step i, with all steps before it run and recorded. */
  ghost predicate AtHead(t: Txn, m: nat, x: Node, i: nat) {
    && i <= |t.steps| && x.proc == LoopHead(t, i, i > 0) && x.last.Some? && x.last.value == i - 1
    && x.status == Some(if i == 0 then Pending else Running) && x.rolls == [] && x.boots == 0
    && x.log == Done(t, m, i) && forall j :: -1 <= j < i ==> j in x.recorded
  }

  ghost predicate HaveRecorded(xs: seq<Node>, j: int) {
    forall m :: 0 <= m < |xs| ==> j in xs[m].recorded
  }

  /** A waiting peer hears from the first k peers. */
  lemma {:induction false} Hear(t: Txn, acts: seq<Action>, n: nat, x: Node, o: seq<Node>, i: nat, k: nat)
    returns (more: seq<Action>)
    requires Lone(t, acts, n, x, o, {}) && NoTimeouts(acts) && x.proc.Working? && x.proc.step == i
    requires x.proc.phase == Waiting({}, 0) && k <= t.size
    requires n < |o| && HaveRecorded(o[n := x], i - 1)
    ensures Lone(t, more, n, x.(proc := x.proc.(phase := Waiting(Below(k), k))), o, {}) && NoTimeouts(more)
  {
    hide Lone, Below;
    if k == 0 {
      more := acts;
      NoneBelow();
      assert x.(proc := x.proc.(phase := Waiting({}, 0))) == x;
    } else {
      var y := x.(proc := x.proc.(phase := Waiting(Below(k - 1), k - 1)));
      more := Hear(t, acts, n, x, o, i, k - 1);
      LoneHas(t, acts, n, x, o);
      assert o[n := y][k - 1].recorded == o[n := x][k - 1].recorded;
      more := HearOne(t, more, n, y, o, k - 1);
    }
  }

  lemma NoneBelow()
    ensures Below(0) == {}
  {
  }

  lemma LoneHas(t: Txn, acts: seq<Action>, n: nat, x: Node, o: seq<Node>)
    requires Lone(t, acts, n, x, o, {})
    ensures n < t.size == |o|
  {
  }

  lemma HearOne(t: Txn, acts: seq<Action>, n: nat, x: Node, o: seq<Node>, m: nat) returns (more: seq<Action>)
    requires Lone(t, acts, n, x, o, {}) && x.proc.Working? && x.proc.phase == Waiting(Below(m), m) && m < t.size
    requires n < |o| && x.proc.step - 1 in o[n := x][m].recorded
    ensures Lone(t, more, n, x.(proc := x.proc.(phase := Waiting(Below(m + 1), m + 1))), o, {})
    ensures more == acts + [At(n, SyncReport(m))]
  {
    hide LocalStep, Step, CalmRun, Below, Run;
    var s := Run(t, acts);
    more := acts + [At(n, SyncReport(m))];
    RunNext(t, acts, At(n, SyncReport(m)), {});
    StepAt(t, s, n, SyncReport(m));
    ReportLocal(t, s, n, x, m);
    var y := x.(proc := x.proc.(phase := Waiting(Below(m + 1), m + 1)));
    assert o[n := x][n := y] == o[n := y];
  }

  /** A peer that has all it waits for gets ready, through the success count when it waits. */
  lemma GetReady(t: Txn, acts: seq<Action>, n: nat, x: Node, o: seq<Node>, i: nat) returns (more: seq<Action>)
    requires Lone(t, acts, n, x, o, {}) && NoTimeouts(acts) && i < |t.steps| && x.proc == LoopHead(t, i, i > 0) && n < |o|
    requires HaveRecorded(o[n := x], i - 1)
    ensures Lone(t, more, n, x.(proc := Working(i, Ready(t.steps[i].sync), true, i > 0)), o, {}) && NoTimeouts(more)
  {
    hide Lone, Solo, Below;
    LoneHas(t, acts, n, x, o);
    if t.steps[i].sync {
      more := Hear(t, acts, n, x, o, i, t.size);
      var y := x.(proc := x.proc.(phase := Waiting(Below(t.size), t.size)));
      SoloPass(t, n, y);
      more := Go(t, more, n, y, o, {}, SyncPass);
    } else {
      more := acts;
    }
  }

  lemma SoloPass(t: Txn, n: nat, x: Node)
    requires x.proc.Working? && x.proc.phase.Waiting? && x.proc.phase.count == t.size
    ensures Solo(t, n, x, SyncPass) == x.(proc := x.proc.(phase := Ready(true)))
  {
  }

  /** One step of one peer. */
  lemma OneStep(t: Txn, acts: seq<Action>, n: nat, x: Node, o: seq<Node>, i: nat) returns (more: seq<Action>, y: Node)
    requires Lone(t, acts, n, x, o, {}) && NoTimeouts(acts) && i < |t.steps| && AtHead(t, n, x, i) && n < |o|
    requires HaveRecorded(o[n := x], i - 1)
    ensures Lone(t, more, n, y, o, {}) && NoTimeouts(more) && AtHead(t, n, y, i + 1)
  {
    hide Lone, Solo;
    more := GetReady(t, acts, n, x, o, i);
    y := x.(proc := Working(i, Ready(t.steps[i].sync), true, i > 0));
    more := RunAndRecord(t, more, n, y, o, {});
    y := AfterRecord(t, n, y);
    SoloAdvance(t, n, y, true);
    more := Go(t, more, n, y, o, {}, Advance(true));
    y := Solo(t, n, y, Advance(true));
  }

  /** The first k peers have been dispatched. */
  lemma {:induction false} DispatchRound(t: Txn, n: nat, k: nat) returns (acts: seq<Action>, xs: seq<Node>)
    requires n < t.size && k <= t.size
    ensures |xs| == t.size && Lone(t, acts, n, xs[n], xs, {}) && NoTimeouts(acts)
    ensures forall m: nat :: m < t.size ==> if m < k then AtHead(t, m, xs[m], 0) else xs[m] == PreparedNode()
  {
    hide Lone, Solo;
    if k == 0 {
      acts := Begin(t, n, {});
      xs := AllPrepared(t);
    } else {
      var m := k - 1;
      acts, xs := DispatchRound(t, n, m);
      TxnOutcome.SwitchTo(t, acts, n, xs, m);
      SoloDispatch(t, m, xs[m]);
      acts := Go(t, acts, m, xs[m], xs, {}, Dispatch);
      var x := Solo(t, m, xs[m], Dispatch);
      Switch(t, acts, m, x, xs, {}, n);
      xs := xs[m := x];
    }
  }

  /** All peers have reached the head for step i, and the first k that for step i + 1. */
  lemma {:induction false} StepRound(t: Txn, n: nat, i: nat, k: nat) returns (acts: seq<Action>, xs: seq<Node>)
    requires n < t.size && k <= t.size && (i < |t.steps| || (i == |t.steps| && k == 0))
    ensures |xs| == t.size && Lone(t, acts, n, xs[n], xs, {}) && NoTimeouts(acts)
    ensures forall m: nat :: m < t.size ==> AtHead(t, m, xs[m], if m < k then i + 1 else i)
    decreases i, k
  {
    hide Lone;
    if k == 0 {
      if i == 0 {
        acts, xs := DispatchRound(t, n, t.size);
      } else {
        acts, xs := StepRound(t, n, i - 1, t.size);
      }
    } else {
      var m := k - 1;
      var x;
      acts, xs := StepRound(t, n, i, m);
      TxnOutcome.SwitchTo(t, acts, n, xs, m);
      assert xs[m := xs[m]] == xs;
      acts, x := OneStep(t, acts, m, xs[m], xs, i);
      Switch(t, acts, m, x, xs, {}, n);
      xs := xs[m := x];
    }
  }

  /** For every transaction, peer and synchronized step there is a calm run, without a timed out wait of
      anybody, in which the peer comes through the success count of that step. */
  lemma BarrierOpens(t: Txn, n: nat, i: nat) returns (acts: seq<Action>)
    requires n < t.size && i < |t.steps| && t.steps[i].sync
    ensures CalmRun(t, acts, {}) && NoTimeouts(acts) && |Run(t, acts).nodes| == t.size
    ensures Run(t, acts).nodes[n].proc == Working(i, Ready(true), true, i > 0)
  {
    hide Lone, Run, CalmRun;
    var xs;
    acts, xs := StepRound(t, n, i, 0);
    assert xs[n := xs[n]] == xs;
    acts := GetReady(t, acts, n, xs[n], xs, i);
    TxnDeletion.LoneSize(t, acts, n, xs[n].(proc := Working(i, Ready(true), true, i > 0)), xs, {});
    LoneRun(t, acts, n, xs[n].(proc := Working(i, Ready(true), true, i > 0)), xs);
  }

  lemma LoneRun(t: Txn, acts: seq<Action>, n: nat, x: Node, o: seq<Node>)
    requires Lone(t, acts, n, x, o, {})
    ensures CalmRun(t, acts, {}) && n < |o| == t.size && Run(t, acts).nodes == o[n := x]
  {
  }

  // ---------------------------------------------------------------- success

  /** The peer has run all its steps, one after the other, and reported success. */
  ghost predicate AllRun(t: Txn, m: nat, x: Node) {
    x.status == Some(Succeeded) && Succeeded in x.seen && x.log == Done(t, m, |t.steps|) && x.boots == 0
  }

  /** All peers have finished their steps, and the first k have said so. */
  lemma {:induction false} FinishRound(t: Txn, n: nat, k: nat) returns (acts: seq<Action>, xs: seq<Node>)
    requires n < t.size && k <= t.size
    ensures |xs| == t.size && Lone(t, acts, n, xs[n], xs, {}) && NoTimeouts(acts)
    ensures forall m: nat :: m < t.size ==> if m < k then AllRun(t, m, xs[m]) else AtHead(t, m, xs[m], |t.steps|)
  {
    hide Lone, Solo;
    if k == 0 {
      acts, xs := StepRound(t, n, |t.steps|, 0);
    } else {
      var m := k - 1;
      acts, xs := FinishRound(t, n, m);
      TxnOutcome.SwitchTo(t, acts, n, xs, m);
      SoloFinish(t, m, xs[m]);
      acts := Go(t, acts, m, xs[m], xs, {}, Finish(true));
      var x := Solo(t, m, xs[m], Finish(true));
      Switch(t, acts, m, x, xs, {}, n);
      xs := xs[m := x];
    }
  }

  /** Every transaction whose peer list is given in advance can succeed, in a calm run without a timed out
      wait: every peer runs all its steps once, in order, and `Do` returns nil. */
  lemma SuccessIsReachable(t: Txn, n: nat) returns (acts: seq<Action>)
    requires t.preset && n < t.size
    ensures CalmRun(t, acts, {}) && NoTimeouts(acts)
    ensures var s := Run(t, acts);
            && s == State(true, s.nodes, Added, Signalled, ReturnedNil, Resting) && |s.nodes| == t.size
            && forall m: nat :: m < t.size ==> AllRun(t, m, s.nodes[m])
  {
    hide Lone, Run, CalmRun;
    var xs;
    acts, xs := FinishRound(t, n, t.size);
    assert xs[n := xs[n]] == xs;
    acts := TxnOutcome.ReturnNil(t, acts, n, xs[n], xs);
  }

  // ---------------------------------------------------------------- restarts

  /** The peer has come back to the head of the loop for step i, after as many crashes as steps. */
  ghost predicate Back(t: Txn, n: nat, x: Node, i: nat) {
    && i <= |t.steps| && x.proc == LoopHead(t, i, false) && x.last.Some? && x.last.value == i - 1
    && x.status == Some(if i == 0 then Pending else Running) && x.rolls == [] && x.boots == i && x.log == Done(t, n, i)
  }

  lemma {:induction false} ClimbCrashing(t: Txn, n: nat, i: nat) returns (acts: seq<Action>, x: Node)
    requires n < t.size && i <= |t.steps|
    ensures Lone(t, acts, n, x, AllPrepared(t), {}) && Back(t, n, x, i)
  {
    hide Lone, Solo;
    var o := AllPrepared(t);
    if i == 0 {
      x := PreparedNode();
      acts := Begin(t, n, {});
      SoloDispatch(t, n, x);
      acts := Go(t, acts, n, x, o, {}, Dispatch);
      x := Solo(t, n, x, Dispatch);
    } else {
      acts, x := ClimbCrashing(t, n, i - 1);
      acts := Unwait(t, acts, n, x, o, {}, i - 1, false);
      x := x.(proc := Working(i - 1, Ready(false), true, false));
      acts := RunAndRecord(t, acts, n, x, o, {});
      x := AfterRecord(t, n, x);
      SoloAdvance(t, n, x, true);
      acts := Go(t, acts, n, x, o, {}, Advance(true));
      x := Solo(t, n, x, Advance(true));
      acts, x := CrashAndResume(t, acts, n, x, o);
    }
  }

  lemma CrashAndResume(t: Txn, acts: seq<Action>, n: nat, x: Node, o: seq<Node>) returns (more: seq<Action>, y: Node)
    requires Lone(t, acts, n, x, o, {}) && !InFlight(x.proc) && x.rolls == []
    requires x.status == Some(Running) && x.last.Some? && x.last.value >= -1
    ensures y == x.(proc := LoopHead(t, x.last.value + 1, false), boots := x.boots + 1) && Lone(t, more, n, y, o, {})
  {
    hide Lone, Solo;
    SoloCrash(t, n, x);
    more := Go(t, acts, n, x, o, {}, Crash);
    y := Solo(t, n, x, Crash);
    SoloResume(t, n, y);
    more := Go(t, more, n, y, o, {}, Dispatch);
    y := Solo(t, n, y, Dispatch);
    SoloReadLast(t, n, y);
    more := Go(t, more, n, y, o, {}, ReadLast);
    y := Solo(t, n, y, ReadLast);
  }

  /** A peer can crash between any two of its steps, and after the last, and still run all of them, each
      once and in order, and report success. */
  lemma CrashesAreSurvived(t: Txn, n: nat) returns (acts: seq<Action>)
    requires n < t.size
    ensures CalmRun(t, acts, {}) && |Run(t, acts).nodes| == t.size
    ensures var x := Run(t, acts).nodes[n];
            && x.boots == |t.steps| && x.log == Done(t, n, |t.steps|) && x.status == Some(Succeeded) && Succeeded in x.seen
  {
    hide Lone, Run, CalmRun, Solo;
    var x, o;
    o := AllPrepared(t);
    acts, x := ClimbCrashing(t, n, |t.steps|);
    SoloFinish(t, n, x);
    acts := Go(t, acts, n, x, o, {}, Finish(true));
    LoneRun(t, acts, n, Solo(t, n, x, Finish(true)), o);
  }

  // ---------------------------------------------------------------- failure

  /** A step that fails, or whose record is lost, is undone by its own executor, and the peer's status
      then says so: for every peer and step of its own. */
  lemma FailureIsStored(t: Txn, n: nat, i: nat, fails: bool) returns (acts: seq<Action>)
    requires n < t.size && i < |t.steps| && ShouldRun(t, n, i)
    ensures CalmRun(t, acts, {}) && |Run(t, acts).nodes| == t.size
    ensures var x := Run(t, acts).nodes[n];
            && x.status == Some(Failed) && Failed in x.seen && x.proc.Finished? && x.last.Some? && x.last.value == i - 1
            && x.log == Done(t, n, i) + [if fails then Broke(i) else Did(i), Undid(i)]
  {
    hide Lone, Run, CalmRun, Solo;
    var x, o := PreparedNode(), AllPrepared(t);
    acts, x := Climb(t, n, i, {});
    if fails {
      SoloFailedBody(t, n, x);
      acts := Go(t, acts, n, x, o, {}, RunBody(false));
      x := Solo(t, n, x, RunBody(false));
    } else {
      SoloBody(t, n, x);
      acts := Go(t, acts, n, x, o, {}, RunBody(true));
      x := Solo(t, n, x, RunBody(true));
      SoloLostRecord(t, n, x);
      acts := Go(t, acts, n, x, o, {}, Record(false));
      x := Solo(t, n, x, Record(false));
    }
    SoloFail(t, n, x);
    acts := Go(t, acts, n, x, o, {}, UndoOwn(true));
    x := Solo(t, n, x, UndoOwn(true));
    acts := Go(t, acts, n, x, o, {}, Fail(true));
    x := Solo(t, n, x, Fail(true));
    LoneRun(t, acts, n, x, o);
    assert Done(t, n, i) + [if fails then Broke(i) else Did(i)] + [Undid(i)]
           == Done(t, n, i) + [if fails then Broke(i) else Did(i), Undid(i)];
  }

  lemma SoloFailedBody(t: Txn, n: nat, x: Node)
    requires x.proc.Working? && x.proc.phase.Ready? && x.proc.step < |t.steps| && ShouldRun(t, n, x.proc.step)
    ensures Solo(t, n, x, RunBody(false)) ==
            x.(proc := x.proc.(phase := Broken), runs := x.runs + [x.proc.step], log := x.log + [Broke(x.proc.step)])
  {
  }

  lemma SoloLostRecord(t: Txn, n: nat, x: Node)
    requires x.proc.Working? && x.proc.phase.Ran?
    ensures Solo(t, n, x, Record(false)) == x.(proc := x.proc.(phase := Broken))
  {
  }

  lemma SoloFail(t: Txn, n: nat, x: Node)
    requires x.proc.Working? && x.proc.phase.Broken? && x.proc.attached && x.proc.step < |t.steps| && ShouldRun(t, n, x.proc.step)
    ensures var y := x.(proc := x.proc.(phase := Erred), log := x.log + [Undid(x.proc.step)]);
            Solo(t, n, x, UndoOwn(true)) == y && Solo(t, n, y, Fail(true)) == PutNodeStatus(y, Failed, true).(proc := Finished)
  {
  }

  // ---------------------------------------------------------------- an executor that has stopped

  ghost predicate Stopped(x: Node, i: nat) {
    x.proc.Working? && x.proc.step == i && !x.proc.attached
  }

  predicate NotBegun(ph: Phase) {
    ph.Waiting? || ph.Ready?
  }

  lemma LocalStopped(t: Txn, s: State, n: nat, x: Node, e: Local, i: nat)
    requires Stopped(x, i) && !e.Crash?
    ensures var y := LocalStep(t, s, n, x, e);
            && Stopped(y, i)
            && (|| (y.runs == x.runs && (NotBegun(y.proc.phase) ==> NotBegun(x.proc.phase)))
                || (y.runs == x.runs + [i] && NotBegun(x.proc.phase) && !NotBegun(y.proc.phase)))
  {
  }

  lemma NoticeStops(t: Txn, s: State, n: nat, x: Node)
    requires x.proc.Working? && Failed in x.seen
    ensures Stopped(LocalStep(t, s, n, x, NoticeFailure), x.proc.step)
  {
  }

  /** Once its executor has noticed the failure, a peer begins no further step until it restarts: it stays
      at step i and runs at most the body it was about to run. */
  lemma {:induction false} NoticedStops(t: Txn, acts: seq<Action>, n: nat, k: nat, i: nat)
    requires n < t.size && k <= |acts| && forall j :: k <= j < |acts| ==> acts[j] != At(n, Crash)
    requires |Run(t, acts[..k]).nodes| > n && Stopped(Run(t, acts[..k]).nodes[n], i)
    ensures |Run(t, acts).nodes| > n && Stopped(Run(t, acts).nodes[n], i)
    ensures var x, y := Run(t, acts[..k]).nodes[n], Run(t, acts).nodes[n];
            || (y.runs == x.runs && (NotBegun(y.proc.phase) ==> NotBegun(x.proc.phase)))
            || (y.runs == x.runs + [i] && NotBegun(x.proc.phase) && !NotBegun(y.proc.phase))
    decreases |acts|
  {
    hide Step, LocalStep;
    if k == |acts| {
      assert acts[..k] == acts;
    } else {
      var before, a := acts[..|acts| - 1], acts[|acts| - 1];
      assert before[..k] == acts[..k];
      NoticedStops(t, before, n, k, i);
      var s := Run(t, before);
      StepOnNode(t, s, a, n);
      if a.At? && a.node == n {
        LocalStopped(t, s, n, s.nodes[n], a.event, i);
      }
    }
  }

  // ---------------------------------------------------------------- removal

  ghost predicate Removed(s: State, s': State) {
    && !s'.record && |s'.nodes| == |s.nodes|
    && forall m :: 0 <= m < |s.nodes| ==>
         s'.nodes[m].status.None? && s'.nodes[m].last.None? && s'.nodes[m].log == s.nodes[m].log && s'.nodes[m].proc == s.nodes[m].proc
  }

  /** `Done` removes the keys of all peers and the record of a transaction that succeeded. */
  lemma DoneRemoves(t: Txn, s: State)
    requires s.outcome.ReturnedNil? && |s.nodes| == t.size
    ensures Removed(s, Step(t, Step(t, s, DoneDeletesKeys), DoneDeletesTxn))
  {
    DoneSteps(t, s);
    hide Step;
  }

  lemma DoneSteps(t: Txn, s: State)
    requires s.outcome.ReturnedNil?
    ensures Step(t, Step(t, s, DoneDeletesKeys), DoneDeletesTxn)
            == s.(record := false, nodes := WriteAll(Drop, Below(t.size), s.nodes))
  {
    hide LocalStep, WriteAll, Below;
  }

  /** The cleaner does so with one that it found rolled back, and rests. */
  lemma CleanerRemoves(t: Txn, s: State)
    requires s.cleaner.Deleting? && |s.nodes| == t.size
    ensures var s' := Step(t, Step(t, s, CleanDeletesKeys), CleanDeletesTxn); Removed(s, s') && s'.cleaner.Resting?
  {
    CleanSteps(t, s);
    hide Step;
  }

  lemma CleanSteps(t: Txn, s: State)
    requires s.cleaner.Deleting?
    ensures Step(t, Step(t, s, CleanDeletesKeys), CleanDeletesTxn)
            == s.(record := false, cleaner := Resting, nodes := WriteAll(Drop, Below(t.size), s.nodes))
  {
    hide LocalStep, WriteAll, Below;
  }

  /** And nothing starts on a removed transaction. */
  lemma RemovedStaysIdle(t: Txn, s: State, n: nat, e: Local)
    requires !s.record && n < |s.nodes| && s.nodes[n].proc.Idle?
    ensures |Step(t, s, At(n, e)).nodes| == |s.nodes| && Step(t, s, At(n, e)).nodes[n].proc.Idle?
  {
  }
}
