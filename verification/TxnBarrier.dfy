/**
 What every run of the transaction engine keeps, whatever the interleaving: a recorded last step k
 means steps 0..k were completed on that peer. From it follow the barrier of synchronized steps and
 the meaning of a nil result of `Do`.
 */
module TxnBarrier {
  import opened Wrappers
  import opened TxnEngine
  import TxnRuns

  ghost predicate CompletedUpTo(x: Node, k: int) {
    forall j: nat :: j < k ==> j in x.completed
  }

  ghost predicate ProcInv(t: Txn, x: Node) {
    match x.proc
    case Working(i, ph, _, _) =>
      i < |t.steps| && CompletedUpTo(x, i) && (ph.Ran? || ph.Recorded? ==> i in x.completed)
    case Finishing => CompletedUpTo(x, |t.steps|)
    case _ => true
  }

  /** The history invariant of one peer. */
  ghost predicate NodeInv(t: Txn, x: Node) {
    && (x.status.Some? ==> x.status.value in x.seen)
    && (x.last.Some? ==> x.last.value in x.recorded)
    && (forall k :: k in x.recorded ==> -1 <= k < |t.steps| && CompletedUpTo(x, k + 1))
    && (Succeeded in x.seen ==> CompletedUpTo(x, |t.steps|))
    && ProcInv(t, x)
  }

  ghost predicate AllRecorded(t: Txn, s: State, k: int) {
    forall m: nat :: m < t.size && m < |s.nodes| ==> k in s.nodes[m].recorded
  }

  /** One success per watcher, and only from peers that recorded the previous step. */
  ghost predicate SyncInv(t: Txn, s: State, x: Node) {
    x.proc.Working? ==>
      var i := x.proc.step;
      match x.proc.phase
      case Waiting(reported, count) =>
        count == |reported| && reported <= Below(t.size)
        && forall m :: m in reported && m < |s.nodes| ==> i - 1 in s.nodes[m].recorded
      case Ready(counted) => counted ==> AllRecorded(t, s, i - 1)
      case _ => true
  }

  ghost predicate WaitInv(t: Txn, s: State) {
    match s.wait
    case Spawned(w) => w <= Below(t.size) && (t.preset ==> w == Below(t.size))
    case Counting(w, need, reported, count) =>
      && count == |reported| && reported <= w <= Below(t.size)
      && (t.preset ==> w == Below(t.size) && need == t.size)
      && forall m :: m in reported && m < |s.nodes| ==> Succeeded in s.nodes[m].seen
    case Signalled => t.preset ==> forall m: nat :: m < |s.nodes| ==> Succeeded in s.nodes[m].seen
    case _ => true
  }

  ghost predicate Inv(t: Txn, s: State) {
    && |s.nodes| == t.size
    && (forall n: nat :: n < |s.nodes| ==> NodeInv(t, s.nodes[n]))
    && (forall n: nat :: n < |s.nodes| ==> SyncInv(t, s, s.nodes[n]))
    && WaitInv(t, s)
    && (s.outcome.ReturnedNil? ==> s.wait.Signalled?)
  }

  /** Histories only grow. */
  ghost predicate Grows(x: Node, y: Node) {
    x.seen <= y.seen && x.recorded <= y.recorded && x.completed <= y.completed
  }

  /** n successes out of n watchers come from all of them. */
  lemma Pigeonhole(got: set<nat>, n: nat)
    requires got <= Below(n) && |got| == n
    ensures got == Below(n)
  {
    assert |Below(n) - got| == 0;
  }

  /** The history part of the invariant survives any change that keeps the executor's claims and
      adds only justified history. */
  lemma HistoryGrows(t: Txn, x: Node, y: Node)
    requires NodeInv(t, x) && Grows(x, y) && ProcInv(t, y)
    requires y.status.Some? ==> y.status.value in y.seen
    requires y.last.Some? ==> y.last.value in y.recorded
    requires forall k :: k in y.recorded - x.recorded ==> -1 <= k < |t.steps| && CompletedUpTo(y, k + 1)
    requires Succeeded in y.seen - x.seen ==> CompletedUpTo(y, |t.steps|)
    ensures NodeInv(t, y)
  {
    forall k | k in y.recorded
      ensures -1 <= k < |t.steps| && CompletedUpTo(y, k + 1)
    {
      if k in x.recorded {
        assert CompletedUpTo(x, k + 1);
      } else {
        assert k in y.recorded - x.recorded;
      }
    }
  }

  lemma LocalProc(t: Txn, s: State, n: nat, x: Node, e: Local)
    requires NodeInv(t, x)
    ensures var y := LocalStep(t, s, n, x, e); Grows(x, y) && ProcInv(t, y)
  {
    if e.ReadLast? {
      if x.proc.Resuming? && x.last.Some? {
        assert CompletedUpTo(x, x.last.value + 1);
      }
    } else if e.Dispatch? || e.RunBody? || e.Advance? {
      LocalProcMoves(t, s, n, x, e);
    }
  }

  lemma LocalProcMoves(t: Txn, s: State, n: nat, x: Node, e: Local)
    requires NodeInv(t, x) && (e.Dispatch? || e.RunBody? || e.Advance?)
    ensures var y := LocalStep(t, s, n, x, e); Grows(x, y) && ProcInv(t, y)
  {
  }

  lemma LocalNodeInv(t: Txn, s: State, n: nat, x: Node, e: Local)
    requires NodeInv(t, x)
    ensures var y := LocalStep(t, s, n, x, e); NodeInv(t, y) && Grows(x, y)
  {
    LocalProc(t, s, n, x, e);
    var y := LocalStep(t, s, n, x, e);
    KeysMatch(t, s, n, x, e);
    hide LocalStep, ProcInv;
    HistoryGrows(t, x, y);
  }

  /** What a peer writes to its own keys is in its history, and justified. */
  lemma KeysMatch(t: Txn, s: State, n: nat, x: Node, e: Local)
    requires NodeInv(t, x)
    ensures var y := LocalStep(t, s, n, x, e);
            && (y.status.Some? ==> y.status.value in y.seen)
            && (y.last.Some? ==> y.last.value in y.recorded)
            && (forall k :: k in y.recorded - x.recorded ==> -1 <= k < |t.steps| && CompletedUpTo(y, k + 1))
            && (Succeeded in y.seen - x.seen ==> CompletedUpTo(y, |t.steps|))
  {
  }

  lemma ReportKeepsSync(t: Txn, s: State, n: nat, x: Node, m: nat)
    requires |s.nodes| == t.size && SyncInv(t, s, x)
    ensures SyncInv(t, s, LocalStep(t, s, n, x, SyncReport(m)))
  {
    var y := LocalStep(t, s, n, x, SyncReport(m));
    if y != x {
      var p, q := x.proc.phase, y.proc.phase;
      hide LocalStep;
      assert q.reported == p.reported + {m} && q.count == p.count + 1 && y.proc.step == x.proc.step;
      assert |q.reported| == |p.reported| + 1;
    }
  }

  lemma PassKeepsSync(t: Txn, s: State, n: nat, x: Node)
    requires |s.nodes| == t.size && SyncInv(t, s, x)
    ensures SyncInv(t, s, LocalStep(t, s, n, x, SyncPass))
  {
    var y := LocalStep(t, s, n, x, SyncPass);
    if y != x {
      Pigeonhole(x.proc.phase.reported, t.size);
      assert y.proc.phase == Ready(true) && y.proc.step == x.proc.step;
    }
  }

  /** Every other event leaves the waiting part of an executor as it is, or resets it. */
  lemma OthersLeaveSync(t: Txn, s: State, n: nat, x: Node, e: Local)
    requires !e.SyncReport? && !e.SyncPass?
    ensures var y := LocalStep(t, s, n, x, e);
            || !y.proc.Working?
            || y.proc.phase == Waiting({}, 0)
            || (!y.proc.phase.Waiting? && y.proc.phase != Ready(true))
            || (x.proc.Working? && y.proc.step == x.proc.step && y.proc.phase == x.proc.phase)
  {
  }

  lemma LocalSyncInv(t: Txn, s: State, n: nat, x: Node, e: Local)
    requires |s.nodes| == t.size && SyncInv(t, s, x)
    ensures SyncInv(t, s, LocalStep(t, s, n, x, e))
  {
    hide LocalStep;
    if e.SyncPass? {
      PassKeepsSync(t, s, n, x);
    } else if e.SyncReport? {
      ReportKeepsSync(t, s, n, x, e.peer);
    } else {
      OthersLeaveSync(t, s, n, x, e);
    }
  }

  lemma SyncInvGrows(t: Txn, s: State, s': State, x: Node)
    requires |s.nodes| == |s'.nodes| == t.size && SyncInv(t, s, x)
    requires forall m: nat :: m < |s.nodes| ==> Grows(s.nodes[m], s'.nodes[m])
    ensures SyncInv(t, s', x)
  {
  }

  lemma RemoteKeys(t: Txn, x: Node, w: KeyWrite)
    requires NodeInv(t, x) && w != SetStatus(Succeeded) && (w.SetLast? ==> w.last == -1)
    ensures NodeInv(t, WriteKeys(w, x)) && Grows(x, WriteKeys(w, x)) && WriteKeys(w, x).proc == x.proc
  {
  }

  lemma NodesKeep(t: Txn, s: State, a: Action, n: nat)
    requires |s.nodes| == t.size && n < |s.nodes|
    requires NodeInv(t, s.nodes[n]) && SyncInv(t, s, s.nodes[n])
    ensures var s' := Step(t, s, a);
            && |s'.nodes| == t.size
            && NodeInv(t, s'.nodes[n]) && Grows(s.nodes[n], s'.nodes[n]) && SyncInv(t, s, s'.nodes[n])
  {
    hide Step, LocalStep;
    var x := s.nodes[n];
    StepOnNode(t, s, a, n);
    var y := Step(t, s, a).nodes[n];
    if a.At? && a.node == n {
      LocalNodeInv(t, s, n, x, a.event);
      LocalSyncInv(t, s, n, x, a.event);
    } else if y != x {
      var w :| w in {SetStatus(Pending), SetStatus(Failed), SetLast(-1), Drop} && y == WriteKeys(w, x);
      RemoteKeys(t, x, w);
      assert y.proc == x.proc;
    }
  }

  lemma WaitKeeps(t: Txn, s: State, a: Action)
    requires WaitInv(t, s) && |s.nodes| == |Step(t, s, a).nodes| == t.size
    requires forall n: nat :: n < |s.nodes| ==> s.nodes[n].seen <= Step(t, s, a).nodes[n].seen
    ensures WaitInv(t, Step(t, s, a))
  {
    WaitAfter(t, s, a);
    hide Step, LocalStep;
    var s' := Step(t, s, a);
    if s'.wait == s.wait {
    } else if a.WaitSignal? {
      if t.preset {
        Pigeonhole(s.wait.reported, t.size);
      }
    } else if a.WaitReport? {
      assert s'.wait.reported == s.wait.reported + {a.peer};
    }
  }

  /** What one action does to the initiator's waiting goroutine. */
  lemma WaitAfter(t: Txn, s: State, a: Action)
    ensures var v, w := s.wait, Step(t, s, a).wait;
            || w == v
            || (a.WaitSpawn? && w == Spawned(ListedNodes(t, s)))
            || (a.WaitCount? && v.Spawned? && w == Counting(v.watched, |ListedNodes(t, s)|, {}, 0))
            || (a.WaitReport? && v.Counting? && a.peer in v.watched && a.peer !in v.reported
                && a.peer < |s.nodes| && Succeeded in s.nodes[a.peer].seen
                && w == v.(reported := v.reported + {a.peer}, count := v.count + 1))
            || (a.WaitSignal? && v.Counting? && v.count == v.need && w == Signalled)
  {
    hide LocalStep;
  }

  lemma OutcomeKeeps(t: Txn, s: State, a: Action)
    requires s.outcome.ReturnedNil? ==> s.wait.Signalled?
    ensures var s' := Step(t, s, a); |s'.nodes| == |s.nodes| && (s'.outcome.ReturnedNil? ==> s'.wait.Signalled?)
  {
  }

  lemma StepKeeps(t: Txn, s: State, a: Action)
    requires Inv(t, s)
    ensures Inv(t, Step(t, s, a))
  {
    hide Step, LocalStep, NodeInv, SyncInv, WaitInv;
    var s' := Step(t, s, a);
    OutcomeKeeps(t, s, a);
    forall n: nat | n < |s.nodes|
      ensures |s'.nodes| == t.size && NodeInv(t, s'.nodes[n])
      ensures Grows(s.nodes[n], s'.nodes[n]) && SyncInv(t, s, s'.nodes[n])
    {
      NodesKeep(t, s, a, n);
    }
    forall n: nat | n < |s'.nodes|
      ensures SyncInv(t, s', s'.nodes[n])
    {
      SyncInvGrows(t, s, s', s'.nodes[n]);
    }
    WaitKeeps(t, s, a);
  }

  lemma {:induction false} RunKeeps(t: Txn, acts: seq<Action>)
    ensures Inv(t, Run(t, acts))
  {
    if acts != [] {
      RunKeeps(t, acts[..|acts| - 1]);
      StepKeeps(t, Run(t, acts[..|acts| - 1]), acts[|acts| - 1]);
    }
  }

  /** The barrier: in every run, a synchronized step whose body is about to start through the
      success count has been preceded, on every peer, by recording of the previous step and so by
      completion of all earlier steps. */
  lemma SyncBarrier(t: Txn, acts: seq<Action>, n: nat, m: nat)
    requires n < t.size && m < t.size
    ensures var s := Run(t, acts);
            && |s.nodes| == t.size
            && (s.nodes[n].proc.Working? && s.nodes[n].proc.phase == Ready(true) ==>
                  && s.nodes[n].proc.step - 1 in s.nodes[m].recorded
                  && forall j: nat :: j < s.nodes[n].proc.step ==> j in s.nodes[m].completed)
  {
    RunKeeps(t, acts);
    var s := Run(t, acts);
    var p := s.nodes[n].proc;
    if p.Working? && p.phase == Ready(true) {
      assert SyncInv(t, s, s.nodes[n]);
      assert NodeInv(t, s.nodes[m]);
      assert CompletedUpTo(s.nodes[m], p.step);
    }
  }

  /** A synchronized step that is ready was counted. */
  ghost predicate ReadyIsCounted(t: Txn, x: Node) {
    x.proc.Working? && x.proc.phase.Ready? ==>
      x.proc.step < |t.steps| && (t.steps[x.proc.step].sync ==> x.proc.phase.counted)
  }

  lemma LocalReadyIsCounted(t: Txn, s: State, n: nat, x: Node, e: Local)
    requires ReadyIsCounted(t, x) && e != SyncTimeout && ProcInv(t, x)
    ensures ReadyIsCounted(t, LocalStep(t, s, n, x, e))
  {
  }

  /** Without a timed out wait, a synchronized step is always entered through the success count. */
  lemma {:induction false} SyncStepsAreCounted(t: Txn, acts: seq<Action>, n: nat)
    requires n < t.size && forall k :: 0 <= k < |acts| ==> acts[k] != At(n, SyncTimeout)
    ensures var s := Run(t, acts);
            && |s.nodes| == t.size
            && ReadyIsCounted(t, s.nodes[n])
  {
    hide Step, LocalStep;
    RunKeeps(t, acts);
    if acts != [] {
      var before := acts[..|acts| - 1];
      SyncStepsAreCounted(t, before, n);
      RunKeeps(t, before);
      var s, a := Run(t, before), acts[|acts| - 1];
      StepOnNode(t, s, a, n);
      if a.At? && a.node == n {
        LocalReadyIsCounted(t, s, n, s.nodes[n], a.event);
      }
    }
  }

  ghost predicate AllDone(t: Txn, s: State) {
    forall n: nat, i: nat :: n < |s.nodes| && i < |t.steps| ==> i in s.nodes[n].completed
  }

  /** `Do` can be trusted for this transaction: nil means that every peer completed every step. */
  ghost predicate DoIsSound(t: Txn) {
    forall acts: seq<Action> :: Run(t, acts).outcome.ReturnedNil? ==> AllDone(t, Run(t, acts))
  }

  lemma DoNilMeansAllDone(t: Txn, acts: seq<Action>)
    requires t.preset && Run(t, acts).outcome.ReturnedNil?
    ensures AllDone(t, Run(t, acts))
  {
    RunKeeps(t, acts);
    var s := Run(t, acts);
    forall n: nat, i: nat | n < |s.nodes| && i < |t.steps|
      ensures i in s.nodes[n].completed
    {
      assert NodeInv(t, s.nodes[n]) && CompletedUpTo(s.nodes[n], |t.steps|);
    }
  }

  /** The run in which the waiting goroutine looks at the peer list before `prepare` has filled it. */
  function HastyWait(): seq<Action> {
    [WaitSpawn, WaitCount, WaitSignal, SetNodes, PutStatus, PutLast, AddTxn, DoSucceeds]
  }

  lemma HastyFrom(t: Txn, s: State, s1: State, s2: State, s3: State)
    requires !t.preset && s.prep.Fresh? && s.wait.NotSpawned?
    requires s1 == Step(t, s, WaitSpawn) && s2 == Step(t, s1, WaitCount) && s3 == Step(t, s2, WaitSignal)
    ensures s3 == s.(wait := Signalled)
  {
  }

  lemma HastyWaitReturnsNil(t: Txn)
    requires !t.preset && t.size > 0 && t.steps != []
    ensures Run(t, HastyWait()).outcome.ReturnedNil? && !AllDone(t, Run(t, HastyWait()))
  {
    hide Step;
    var a := HastyWait();
    var s0 := Start(t);
    var s1 := Step(t, s0, WaitSpawn);
    var s2 := Step(t, s1, WaitCount);
    var s3 := Step(t, s2, WaitSignal);
    var s4 := Step(t, s3, SetNodes);
    var s5 := Step(t, s4, PutStatus);
    var s6 := Step(t, s5, PutLast);
    var s7 := Step(t, s6, AddTxn);
    var s8 := Step(t, s7, DoSucceeds);
    assert s8.outcome.ReturnedNil? && !AllDone(t, s8) by {
      hide Step;
      HastyFrom(t, s0, s1, s2, s3);
      PrepareFrom(t, s3, s4, s5, s6, s7);
      DoSucceedsFrom(t, s7);
      assert 0 < |s8.nodes| && 0 < |t.steps| && 0 !in s8.nodes[0].completed;
    }
    RunOne(t, a, 0, s0, s1);
    RunOne(t, a, 1, s1, s2);
    RunOne(t, a, 2, s2, s3);
    RunOne(t, a, 3, s3, s4);
    RunOne(t, a, 4, s4, s5);
    RunOne(t, a, 5, s5, s6);
    RunOne(t, a, 6, s6, s7);
    RunOne(t, a, 7, s7, s8);
    assert a[..8] == a;
  }

  lemma DoSucceedsFrom(t: Txn, s: State)
    requires s.wait.Signalled? && s.prep.Added? && s.outcome.Undecided?
    ensures Step(t, s, DoSucceeds) == s.(outcome := ReturnedNil)
  {
  }

  /** Exactly when a nil result of `Do` means completion everywhere: the caller has filled the peer
      list, or there is nothing to do. */
  lemma DoSoundExactlyWhenPreset(t: Txn)
    ensures DoIsSound(t) <==> t.preset || t.size == 0 || t.steps == []
  {
    if t.preset || t.size == 0 || t.steps == [] {
      forall acts: seq<Action> | Run(t, acts).outcome.ReturnedNil?
        ensures AllDone(t, Run(t, acts))
      {
        RunKeeps(t, acts);
        if t.preset {
          DoNilMeansAllDone(t, acts);
        }
      }
    } else {
      HastyWaitReturnsNil(t);
    }
  }

  // ---------------------------------------------------------------- when the barrier holds

  /** A timed out wait opens the barrier before any synchronized step but the first: peer n is about to
      run it while peer m has neither recorded nor completed the step before. */
  lemma TimeoutOpensBarrier(t: Txn, n: nat, m: nat, i: nat) returns (acts: seq<Action>)
    requires n < t.size && m < t.size && n != m && 1 <= i < |t.steps|
    ensures var s := Run(t, acts);
            && |s.nodes| == t.size && s.nodes[n].proc == Working(i, Ready(false), true, true)
            && i - 1 !in s.nodes[m].recorded && i - 1 !in s.nodes[m].completed
  {
    var x;
    acts, x := TxnRuns.Climb(t, n, i, {});
    hide Run;
  }

  /** A peer that is about to run a synchronized step finds the step before recorded by peer m, and all
      earlier steps completed. */
  ghost predicate BarrierAt(t: Txn, s: State, n: nat, m: nat)
    requires n < |s.nodes| && m < |s.nodes|
  {
    var p := s.nodes[n].proc;
    p.Working? && p.phase.Ready? && p.step < |t.steps| && t.steps[p.step].sync ==>
      p.step - 1 in s.nodes[m].recorded && CompletedUpTo(s.nodes[m], p.step)
  }

  ghost predicate BarrierAfter(t: Txn, acts: seq<Action>, n: nat, m: nat) {
    n < t.size && m < t.size ==> |Run(t, acts).nodes| == t.size && BarrierAt(t, Run(t, acts), n, m)
  }

  ghost predicate BarrierHolds(t: Txn) {
    forall acts: seq<Action>, n: nat, m: nat :: BarrierAfter(t, acts, n, m)
  }

  /** What a peer's executor relies on in its own keys. */
  ghost predicate OwnInv(x: Node) {
    x.proc.Working? ==> x.proc.step - 1 in x.recorded && (x.proc.phase.Recorded? ==> x.proc.step in x.recorded)
  }

  /** No executor starts before every peer's first last step is stored. */
  ghost predicate FirstInv(t: Txn, s: State) {
    && |s.nodes| == t.size
    && (s.record ==> s.prep.Added?)
    && (s.prep.LastPut? || s.prep.Added? ==> AllRecorded(t, s, -1))
    && (forall n: nat :: n < |s.nodes| ==> OwnInv(s.nodes[n]) && (s.nodes[n].proc.Idle? || s.prep.Added?))
  }

  lemma LocalOwn(t: Txn, s: State, n: nat, x: Node, e: Local)
    requires OwnInv(x) && NodeInv(t, x) && (s.record ==> -1 in x.recorded)
    ensures var y := LocalStep(t, s, n, x, e); OwnInv(y) && (y.proc.Idle? || !x.proc.Idle? || s.record)
  {
  }

  lemma PrepKeeps(t: Txn, s: State, a: Action)
    requires FirstInv(t, s)
    ensures var s' := Step(t, s, a);
            && |s'.nodes| == t.size && (s'.record ==> s'.prep.Added?) && (s.prep.Added? ==> s'.prep.Added?)
            && (s'.prep.LastPut? && !s.prep.LastPut? ==> s'.nodes == WriteAll(SetLast(-1), Below(t.size), s.nodes))
            && (s'.prep.Added? ==> s.prep.Added? || s.prep.LastPut?)
  {
    hide LocalStep, WriteAll, OwnInv, AllRecorded;
  }

  lemma FirstNode(t: Txn, s: State, a: Action, n: nat)
    requires Inv(t, s) && FirstInv(t, s) && n < |s.nodes|
    ensures var s' := Step(t, s, a);
            && |s'.nodes| == |s.nodes| && OwnInv(s'.nodes[n]) && (s'.nodes[n].proc.Idle? || s.prep.Added?)
            && s.nodes[n].recorded <= s'.nodes[n].recorded
  {
    hide Step, LocalStep;
    StepOnNode(t, s, a, n);
    var x := s.nodes[n];
    assert NodeInv(t, x) && OwnInv(x);
    if a.At? && a.node == n {
      LocalOwn(t, s, n, x, a.event);
      LocalNodeInv(t, s, n, x, a.event);
    }
  }

  lemma FirstKeeps(t: Txn, s: State, a: Action)
    requires Inv(t, s) && FirstInv(t, s)
    ensures FirstInv(t, Step(t, s, a))
  {
    hide Step, LocalStep, Inv, OwnInv;
    var s' := Step(t, s, a);
    PrepKeeps(t, s, a);
    forall n: nat | n < |s'.nodes|
      ensures |s'.nodes| == |s.nodes| && OwnInv(s'.nodes[n]) && (s'.nodes[n].proc.Idle? || s'.prep.Added?)
      ensures s'.prep.LastPut? || s'.prep.Added? ==> -1 in s'.nodes[n].recorded
    {
      FirstNode(t, s, a, n);
    }
  }

  lemma {:induction false} RunFirst(t: Txn, acts: seq<Action>)
    ensures FirstInv(t, Run(t, acts))
  {
    hide Step, LocalStep;
    if acts != [] {
      var before := acts[..|acts| - 1];
      RunFirst(t, before);
      RunKeeps(t, before);
      FirstKeeps(t, Run(t, before), acts[|acts| - 1]);
    }
  }

  /** The barrier holds in all runs exactly when there is nobody to wait for, or no synchronized step
      after the first. */
  lemma BarrierExactly(t: Txn)
    ensures BarrierHolds(t) <==> t.size <= 1 || !(exists i :: 1 <= i < |t.steps| && t.steps[i].sync)
  {
    if i :| 1 <= i < |t.steps| && t.steps[i].sync && t.size > 1 {
      var acts := TimeoutOpensBarrier(t, 0, 1, i);
      assert !BarrierAfter(t, acts, 0, 1);
    } else {
      forall acts: seq<Action>, n: nat, m: nat
        ensures BarrierAfter(t, acts, n, m)
      {
        hide BarrierAt, Run;
        if n < t.size && m < t.size {
          BarrierFrom(t, acts, n, m);
        }
      }
      hide BarrierAfter;
    }
  }

  lemma BarrierFrom(t: Txn, acts: seq<Action>, n: nat, m: nat)
    requires n < t.size && m < t.size
    requires t.size <= 1 || !(exists i :: 1 <= i < |t.steps| && t.steps[i].sync)
    ensures |Run(t, acts).nodes| == t.size && BarrierAt(t, Run(t, acts), n, m)
  {
    hide Run;
    RunKeeps(t, acts);
    RunFirst(t, acts);
    var s := Run(t, acts);
    assert NodeInv(t, s.nodes[m]) && OwnInv(s.nodes[n]);
    var p := s.nodes[n].proc;
    if p.Working? && p.step - 1 in s.nodes[m].recorded {
      assert CompletedUpTo(s.nodes[m], p.step - 1 + 1);
    }
  }
}
