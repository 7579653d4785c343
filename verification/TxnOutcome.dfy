/**
 What a nil result of `Do` says about the work itself: in calm runs in which nobody else marks the
 transaction failed, every peer has done all its steps and none is undone. An expiry mark breaks this.
 */
module TxnOutcome {
  import opened Wrappers
  import opened TxnEngine
  import opened TxnRuns
  import opened TxnRollback
  import TxnBarrier
  import TxnDeletion

  /** The runs of all steps of the peer are in place, in order, none undone. */
  ghost predicate AllKept(t: Txn, n: nat, x: Node) {
    Holds(Net(x.log), Stack(t, n, |t.steps| - 1))
  }

  // ---------------------------------------------------------------- runs without marks

  predicate AtEnd(p: Proc) {
    p.Idle? || p.Finished?
  }

  /** A peer nobody else marks: it fails or succeeds by itself, once, and stays so. */
  ghost predicate Unmarked(t: Txn, n: nat, x: Node) {
    && (Failed in x.seen ==> Succeeded !in x.seen && !Live(x) && AtEnd(x.proc))
    && (Succeeded in x.seen ==> !Live(x) && AtEnd(x.proc) && AllKept(t, n, x))
    && (Failed !in x.seen ==> x.rolls == [])
    && (x.proc.Finishing? ==> AllKept(t, n, x))
  }

  lemma LocalUnmarked(t: Txn, s: State, n: nat, x: Node, e: Local)
    requires CalmNode(t, n, x) && Unmarked(t, n, x) && CalmLocal(x, e)
    ensures Unmarked(t, n, LocalStep(t, s, n, x, e))
  {
    hide Net, Holds, Stack;
  }

  lemma FreshUnmarked(t: Txn, s: State, n: nat, x: Node, e: Local)
    requires Unready(x) && !s.record && Unmarked(t, n, x)
    ensures Unmarked(t, n, LocalStep(t, s, n, x, e))
  {
    hide Net, Holds, Stack;
  }

  lemma KeysUnmarked(t: Txn, n: nat, x: Node, w: KeyWrite)
    requires Unmarked(t, n, x)
    requires w == Drop || (Unready(x) && w in {SetStatus(Pending), SetLast(-1)})
    ensures Unmarked(t, n, WriteKeys(w, x))
  {
    hide Net, Holds, Stack;
  }

  /** Nobody but the peers themselves and `Do` marks the transaction failed. */
  predicate NoMarks(acts: seq<Action>) {
    forall k :: 0 <= k < |acts| ==> !acts[k].MarkFailed?
  }

  lemma ErrStays(t: Txn, s: State, a: Action)
    ensures s.outcome.ReturnedErr? ==> Step(t, s, a).outcome.ReturnedErr?
    ensures a == DoFails(true) && Step(t, s, a).nodes != s.nodes ==> Step(t, s, a).outcome.ReturnedErr?
  {
    hide LocalStep;
  }

  lemma StepUnmarked(t: Txn, s: State, a: Action, n: nat)
    requires CalmInv(t, s) && Calm(s, a) && !a.MarkFailed? && n < |s.nodes| && Unmarked(t, n, s.nodes[n])
    ensures |Step(t, s, a).nodes| == |s.nodes|
    ensures Step(t, s, a).outcome.ReturnedErr? || Unmarked(t, n, Step(t, s, a).nodes[n])
  {
    hide Step, LocalStep, Unmarked, CalmNode;
    ErrStays(t, s, a);
    StepOnNode(t, s, a, n);
    assert PeerInv(t, s, n);
    var x, y := s.nodes[n], Step(t, s, a).nodes[n];
    if a.At? && a.node == n {
      if Primed(s) {
        LocalUnmarked(t, s, n, x, a.event);
      } else {
        FreshUnmarked(t, s, n, x, a.event);
      }
    } else if y != x && !Step(t, s, a).outcome.ReturnedErr? {
      var w :| w in {SetStatus(Pending), SetLast(-1), Drop} && y == WriteKeys(w, x) && (w != Drop ==> !Primed(s));
      KeysUnmarked(t, n, x, w);
    }
  }

  lemma {:induction false} RunUnmarked(t: Txn, acts: seq<Action>, n: nat)
    requires CalmRun(t, acts, {}) && NoMarks(acts) && n < t.size
    ensures |Run(t, acts).nodes| == t.size
    ensures Run(t, acts).outcome.ReturnedErr? || Unmarked(t, n, Run(t, acts).nodes[n])
  {
    hide Step, LocalStep, Calm, CalmInv;
    RunCalm(t, acts);
    SizeKept(t, acts);
    if acts == [] {
      StartUnmarked(t, n);
    } else {
      hide Unmarked;
      var before, a := acts[..|acts| - 1], acts[|acts| - 1];
      RunUnmarked(t, before, n);
      RunCalm(t, before);
      ErrStays(t, Run(t, before), a);
      if !Run(t, before).outcome.ReturnedErr? {
        StepUnmarked(t, Run(t, before), a, n);
      }
    }
  }

  lemma StartUnmarked(t: Txn, n: nat)
    ensures Unmarked(t, n, FreshNode())
  {
  }

  /** In every calm run without a mark, a nil result means that every peer has done all its steps and
      none of them is undone. */
  lemma NilMeansKept(t: Txn, acts: seq<Action>, n: nat)
    requires t.preset && CalmRun(t, acts, {}) && NoMarks(acts) && n < t.size && Run(t, acts).outcome.ReturnedNil?
    ensures |Run(t, acts).nodes| == t.size && AllKept(t, n, Run(t, acts).nodes[n])
  {
    hide Run, CalmRun;
    RunUnmarked(t, acts, n);
    TxnBarrier.RunKeeps(t, acts);
  }

  // ---------------------------------------------------------------- a mark after success

  /** The peer has run everything by itself and reported success. */
  ghost predicate Through(t: Txn, n: nat, x: Node) {
    && x.proc.Finished? && x.rolls == [] && Succeeded in x.seen
    && x.last.Some? && x.last.value == |t.steps| - 1 && x.log == Done(t, n, |t.steps|)
  }

  lemma Complete(t: Txn, before: seq<Action>, n: nat, o: seq<Node>) returns (acts: seq<Action>, x: Node)
    requires Lone(t, before, n, PreparedNode(), o, {})
    ensures Lone(t, acts, n, x, o, {}) && Through(t, n, x)
  {
    hide Lone, Solo;
    if t.steps == [] {
      x := PreparedNode();
      SoloDispatch(t, n, x);
      acts := Go(t, before, n, x, o, {}, Dispatch);
      x := x.(proc := LoopHead(t, 0, false));
    } else {
      acts, x := ClimbFrom(t, before, n, o, |t.steps| - 1, {});
      acts := RunAndRecord(t, acts, n, x, o, {});
      x := AfterRecord(t, n, x);
      SoloAdvance(t, n, x, true);
      acts := Go(t, acts, n, x, o, {}, Advance(true));
      x := Solo(t, n, x, Advance(true));
    }
    SoloFinish(t, n, x);
    acts := Go(t, acts, n, x, o, {}, Finish(true));
    x := PutNodeStatus(x, Succeeded, true).(proc := Finished);
  }

  /** The first k peers are through, the others have not begun. */
  ghost predicate ThroughUpTo(t: Txn, xs: seq<Node>, k: nat) {
    |xs| == t.size && forall m: nat :: m < t.size ==> if m < k then Through(t, m, xs[m]) else xs[m] == PreparedNode()
  }

  /** All peers, one after the other. */
  lemma {:induction false} AllThrough(t: Txn, n: nat, k: nat) returns (acts: seq<Action>, xs: seq<Node>)
    requires n < t.size && k <= t.size
    ensures ThroughUpTo(t, xs, k) && Lone(t, acts, n, xs[n], xs, {})
  {
    hide Lone;
    if k == 0 {
      acts := Begin(t, n, {});
      xs := AllPrepared(t);
    } else {
      var m, x := k - 1, PreparedNode();
      acts, xs := AllThrough(t, n, k - 1);
      SwitchTo(t, acts, n, xs, m);
      acts, x := Complete(t, acts, m, xs);
      Switch(t, acts, m, x, xs, {}, n);
      xs := xs[m := x];
    }
  }

  lemma SwitchTo(t: Txn, acts: seq<Action>, n: nat, xs: seq<Node>, m: nat)
    requires n < t.size == |xs| && m < t.size && Lone(t, acts, n, xs[n], xs, {})
    ensures Lone(t, acts, m, xs[m], xs, {})
  {
    hide Lone;
    assert xs[n := xs[n]] == xs;
    Switch(t, acts, n, xs[n], xs, {}, m);
  }

  // ---------------------------------------------------------------- Do sees the successes

  ghost predicate AllSucceeded(xs: seq<Node>) {
    forall m :: 0 <= m < |xs| ==> Succeeded in xs[m].seen
  }

  lemma CountStep(t: Txn, s: State, k: nat)
    requires |s.nodes| == t.size && AllSucceeded(s.nodes) && k <= t.size
    requires s.wait == Counting(Below(t.size), t.size, Below(k), k)
    ensures k == t.size ==> Step(t, s, WaitSignal) == s.(wait := Signalled)
    ensures k < t.size ==> Step(t, s, WaitReport(k)) == s.(wait := Counting(Below(t.size), t.size, Below(k + 1), k + 1))
  {
    hide Step, Below;
    NextBelow(k);
    SignalStep(t, s);
    if k < t.size {
      ReportStep(t, s, k);
    }
  }

  lemma NextBelow(k: nat)
    ensures Below(k + 1) == Below(k) + {k}
  {
  }

  lemma SignalStep(t: Txn, s: State)
    requires s.wait.Counting?
    ensures s.wait.count == s.wait.need ==> Step(t, s, WaitSignal) == s.(wait := Signalled)
  {
    hide LocalStep, WriteAll, Below;
  }

  lemma ReportStep(t: Txn, s: State, m: nat)
    requires s.wait.Counting? && m in s.wait.watched && m !in s.wait.reported && m < |s.nodes| && Succeeded in s.nodes[m].seen
    ensures Step(t, s, WaitReport(m)) == s.(wait := s.wait.(reported := s.wait.reported + {m}, count := s.wait.count + 1))
  {
    hide LocalStep, WriteAll, Below;
  }

  lemma {:induction false} Count(t: Txn, acts: seq<Action>, k: nat) returns (more: seq<Action>)
    requires CalmRun(t, acts, {}) && k <= t.size
    requires var s := Run(t, acts);
             && |s.nodes| == t.size && AllSucceeded(s.nodes)
             && s.wait == Counting(Below(t.size), t.size, Below(k), k)
    ensures CalmRun(t, more, {}) && Run(t, more) == Run(t, acts).(wait := Signalled)
    ensures NoTimeouts(acts) ==> NoTimeouts(more)
    decreases t.size - k
  {
    hide Run, CalmRun, Step, Below;
    CountStep(t, Run(t, acts), k);
    if k == t.size {
      more := acts + [WaitSignal];
      RunNext(t, acts, WaitSignal, {});
    } else {
      RunNext(t, acts, WaitReport(k), {});
      more := Count(t, acts + [WaitReport(k)], k + 1);
    }
  }

  lemma SpawnSteps(t: Txn, s: State)
    requires t.preset && s.wait.NotSpawned?
    ensures Step(t, Step(t, s, WaitSpawn), WaitCount) == s.(wait := Counting(Below(t.size), t.size, {}, 0))
  {
    hide LocalStep, Below;
  }

  lemma NilStep(t: Txn, s: State)
    requires s.wait.Signalled? && s.prep.Added? && s.outcome.Undecided?
    ensures Step(t, s, DoSucceeds) == s.(outcome := ReturnedNil)
  {
    hide LocalStep;
  }

  lemma ReturnNil(t: Txn, acts: seq<Action>, n: nat, x: Node, o: seq<Node>) returns (more: seq<Action>)
    requires t.preset && Lone(t, acts, n, x, o, {}) && AllSucceeded(o[n := x])
    ensures CalmRun(t, more, {}) && (NoTimeouts(acts) ==> NoTimeouts(more))
    ensures Run(t, more) == State(true, o[n := x], Added, Signalled, ReturnedNil, Resting)
  {
    hide Run, CalmRun, Step;
    var s := Run(t, acts);
    SpawnSteps(t, s);
    RunNext(t, acts, WaitSpawn, {});
    more := acts + [WaitSpawn];
    RunNext(t, more, WaitCount, {});
    assert Below(0) == {};
    more := Count(t, more + [WaitCount], 0);
    NilStep(t, Run(t, more));
    RunNext(t, more, DoSucceeds, {});
    more := more + [DoSucceeds];
  }

  /** An expiry mark after all peers have succeeded: they are rolled back, and `Do`, which sees the
      successes all the same, returns nil. */
  lemma ExpiryUndoesNil(t: Txn, n: nat) returns (acts: seq<Action>)
    requires t.preset && n < t.size
    ensures CalmRun(t, acts, {}) && Run(t, acts).outcome.ReturnedNil?
    ensures |Run(t, acts).nodes| == t.size && Net(Run(t, acts).nodes[n].log) == []
  {
    hide Lone, Net, Holds, Stack, Undone, Run, CalmRun;
    var xs, x;
    acts, xs := AllThrough(t, n, t.size);
    acts := MarkAll(t, acts, n, xs[n], xs, {});
    var o := MarkedAll(xs);
    TxnDeletion.DoneHolds(t, n, |t.steps|);
    TxnDeletion.UndoneCancels(t, n, Done(t, n, |t.steps|), |t.steps| - 1);
    acts, x := RollBack(t, acts, n, Marked(xs[n]), o, {});
    acts := ReturnNil(t, acts, n, x, o);
  }

  // ---------------------------------------------------------------- exactly when

  ghost predicate KeptAfter(t: Txn, acts: seq<Action>, n: nat) {
    CalmRun(t, acts, {}) && n < t.size && Run(t, acts).outcome.ReturnedNil? ==>
      |Run(t, acts).nodes| == t.size && AllKept(t, n, Run(t, acts).nodes[n])
  }

  ghost predicate NilIsKept(t: Txn) {
    forall acts: seq<Action>, n: nat :: KeptAfter(t, acts, n)
  }

  lemma {:induction false} NothingInStack(t: Txn, n: nat, k: int)
    requires k < |t.steps|
    ensures Stack(t, n, k) == [] <==> forall i :: 0 <= i <= k ==> !ShouldRun(t, n, i)
    decreases k + 1
  {
    if k >= 0 {
      NothingInStack(t, n, k - 1);
    }
  }

  /** With marks at any time, a nil result in calm runs means that the work is kept exactly when there
      is none. */
  lemma NilIsKeptExactly(t: Txn)
    requires t.preset
    ensures NilIsKept(t) <==> forall n: nat :: n < t.size ==> TxnDeletion.NothingToRun(t, n)
  {
    if n: nat :| n < t.size && !TxnDeletion.NothingToRun(t, n) {
      var acts := ExpiryUndoesNil(t, n);
      NothingInStack(t, n, |t.steps| - 1);
      assert !KeptAfter(t, acts, n);
    } else {
      forall acts: seq<Action>, n: nat
        ensures KeptAfter(t, acts, n)
      {
        hide Run, CalmRun;
        if n < t.size {
          TxnDeletion.NothingLogged(t, acts, n);
          NothingInStack(t, n, |t.steps| - 1);
        }
      }
    }
  }
}
