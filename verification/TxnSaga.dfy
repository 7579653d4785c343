/**
 The first transaction framework: steps run one after the other, each on all its peers at once, and
 a failed step makes every step done so far be undone in reverse.
 */
module TxnSaga {

  type Peer = string

  datatype StepDef = StepDef(nodes: seq<Peer>, skip: bool, hasUndo: bool)

  /** The step functions, as changes of a peer's local state; `act` also tells whether it succeeded,
      and its new state is whatever a failed run leaves behind. */
  datatype Funcs<!L> = Funcs(act: (nat, Peer, L) -> (L, bool), undo: (nat, Peer, L) -> L)

  /** One round of a step function on all peers of the step. */
  datatype Call = Forth(step: nat) | Back(step: nat)

  datatype Outcome = Done | NodeDown | CommitFailed | StepFailed(step: nat)

  // ---------------------------------------------------------------- what a round does

  function ActTimes<L>(f: Funcs<L>, k: nat, p: Peer, c: nat, l: L): L {
    if c == 0 then l else f.act(k, p, ActTimes(f, k, p, c - 1, l)).0
  }

  function UndoTimes<L>(f: Funcs<L>, k: nat, p: Peer, c: nat, l: L): L {
    if c == 0 then l else f.undo(k, p, UndoTimes(f, k, p, c - 1, l))
  }

  predicate ActFails<L>(f: Funcs<L>, k: nat, p: Peer, c: nat, l: L) {
    exists j :: 0 <= j < c && !f.act(k, p, ActTimes(f, k, p, j, l)).1
  }

  /** The cluster after a round, whatever the order in which the peers ran it. */
  function AfterCall<L>(f: Funcs<L>, steps: seq<StepDef>, call: Call, c: map<Peer, L>): map<Peer, L>
  {
    var nodes := if call.step < |steps| then multiset(steps[call.step].nodes) else multiset{};
    map p | p in c ::
      if call.Forth? then ActTimes(f, call.step, p, nodes[p], c[p])
      else UndoTimes(f, call.step, p, nodes[p], c[p])
  }

  /** Whether a round of a step fails: some peer is not there or reports an error. */
  ghost predicate StepFails<L>(f: Funcs<L>, steps: seq<StepDef>, k: nat, c: map<Peer, L>)
    requires k < |steps|
  {
    exists p :: p in steps[k].nodes &&
      (p in c ==> ActFails(f, k, p, multiset(steps[k].nodes)[p], c[p]))
  }

  function AfterCalls<L>(f: Funcs<L>, steps: seq<StepDef>, calls: seq<Call>, c: map<Peer, L>): map<Peer, L>
  {
    if calls == [] then c
    else AfterCall(f, steps, calls[|calls| - 1], AfterCalls(f, steps, calls[..|calls| - 1], c))
  }

  /** The rounds that run steps 0..k-1 forward. */
  function DoCalls(steps: seq<StepDef>, k: nat): seq<Call>
    requires k <= |steps|
  {
    if k == 0 then [] else DoCalls(steps, k - 1) + if steps[k - 1].skip then [] else [Forth(k - 1)]
  }

  /** The rounds that undo steps k-1..0, last first. */
  function UndoCalls(steps: seq<StepDef>, k: nat): seq<Call>
    requires k <= |steps|
  {
    if k == 0 then []
    else (if steps[k - 1].skip || !steps[k - 1].hasUndo then [] else [Back(k - 1)]) + UndoCalls(steps, k - 1)
  }

  /** The rounds to undo are the rounds done, in reverse, without the steps that have no undo. */
  function Mirror(steps: seq<StepDef>, calls: seq<Call>): seq<Call>
  {
    if calls == [] then []
    else
      var k := calls[|calls| - 1].step;
      (if k < |steps| && steps[k].hasUndo then [Back(k)] else []) + Mirror(steps, calls[..|calls| - 1])
  }

  lemma {:induction false} UndoneIsDoneMirrored(steps: seq<StepDef>, k: nat)
    requires k <= |steps|
    ensures UndoCalls(steps, k) == Mirror(steps, DoCalls(steps, k))
  {
    hide *;
    if k == 0 {
      MirrorNone(steps);
    } else {
      UndoneIsDoneMirrored(steps, k - 1);
      CallsOf(steps, k - 1);
      if !steps[k - 1].skip {
        MirrorLast(steps, DoCalls(steps, k - 1), k - 1);
      }
    }
  }

  lemma MirrorNone(steps: seq<StepDef>)
    ensures UndoCalls(steps, 0) == Mirror(steps, DoCalls(steps, 0))
  {
  }

  /** The rounds of one more step. */
  lemma CallsOf(steps: seq<StepDef>, i: nat)
    requires i < |steps|
    ensures DoCalls(steps, i + 1) == if steps[i].skip then DoCalls(steps, i) else DoCalls(steps, i) + [Forth(i)]
    ensures UndoCalls(steps, i + 1) ==
            if steps[i].skip then UndoCalls(steps, i)
            else (if steps[i].hasUndo then [Back(i)] else []) + UndoCalls(steps, i)
  {
  }

  lemma MirrorLast(steps: seq<StepDef>, calls: seq<Call>, k: nat)
    requires k < |steps|
    ensures Mirror(steps, calls + [Forth(k)]) == (if steps[k].hasUndo then [Back(k)] else []) + Mirror(steps, calls)
  {
  }

  // ---------------------------------------------------------------- undo restores

  /** Each undo inverts its step, even a step that failed; a step without undo changes nothing. */
  ghost predicate Inverts<L(!new)>(f: Funcs<L>, steps: seq<StepDef>) {
    forall k: nat, p: Peer, l: L :: k < |steps| && !steps[k].skip ==>
      if steps[k].hasUndo then f.undo(k, p, f.act(k, p, l).0) == l else f.act(k, p, l).0 == l
  }

  lemma {:induction false} UndoInside<L>(f: Funcs<L>, k: nat, p: Peer, c: nat, l: L)
    ensures UndoTimes(f, k, p, c + 1, l) == UndoTimes(f, k, p, c, f.undo(k, p, l))
  {
    if c > 0 {
      UndoInside(f, k, p, c - 1, l);
    }
  }

  lemma {:induction false} TimesCancel<L(!new)>(f: Funcs<L>, steps: seq<StepDef>, k: nat, p: Peer, c: nat, l: L)
    requires Inverts(f, steps) && k < |steps| && !steps[k].skip
    ensures steps[k].hasUndo ==> UndoTimes(f, k, p, c, ActTimes(f, k, p, c, l)) == l
    ensures !steps[k].hasUndo ==> ActTimes(f, k, p, c, l) == l
  {
    if c > 0 {
      TimesCancel(f, steps, k, p, c - 1, l);
      if steps[k].hasUndo {
        UndoInside(f, k, p, c - 1, ActTimes(f, k, p, c, l));
      }
    }
  }

  lemma {:induction false} CallsSplit<L>(f: Funcs<L>, steps: seq<StepDef>, a: seq<Call>, b: seq<Call>, c: map<Peer, L>)
    ensures AfterCalls(f, steps, a + b, c) == AfterCalls(f, steps, b, AfterCalls(f, steps, a, c))
    decreases |b|
  {
    hide AfterCall;
    if b == [] {
      assert a + b == a;
    } else {
      var b' := b[..|b| - 1];
      CallsSplit(f, steps, a, b', c);
      assert (a + b)[..|a + b| - 1] == a + b';
    }
  }

  lemma OneCall<L>(f: Funcs<L>, steps: seq<StepDef>, call: Call, c: map<Peer, L>)
    ensures AfterCalls(f, steps, [call], c) == AfterCall(f, steps, call, c)
  {
  }

  /** Undoing a round undoes it on every peer, however often the peer is listed. */
  lemma RoundCancels<L(!new)>(f: Funcs<L>, steps: seq<StepDef>, i: nat, c: map<Peer, L>)
    requires Inverts(f, steps) && i < |steps| && !steps[i].skip
    ensures steps[i].hasUndo ==> AfterCall(f, steps, Back(i), AfterCall(f, steps, Forth(i), c)) == c
    ensures !steps[i].hasUndo ==> AfterCall(f, steps, Forth(i), c) == c
  {
    forall p | p in c
      ensures var n := multiset(steps[i].nodes)[p];
              if steps[i].hasUndo then UndoTimes(f, i, p, n, ActTimes(f, i, p, n, c[p])) == c[p]
              else ActTimes(f, i, p, n, c[p]) == c[p]
    {
      TimesCancel(f, steps, i, p, multiset(steps[i].nodes)[p], c[p]);
    }
  }

  /** The saga law: undoing steps k-1..0 after doing steps 0..k-1 restores the cluster, for every
      step list and whatever the steps did, complete or not. */
  lemma {:induction false} SagaRestores<L(!new)>(f: Funcs<L>, steps: seq<StepDef>, k: nat, c: map<Peer, L>)
    requires Inverts(f, steps) && k <= |steps|
    ensures AfterCalls(f, steps, UndoCalls(steps, k), AfterCalls(f, steps, DoCalls(steps, k), c)) == c
  {
    hide *;
    NoCalls(f, steps, c);
    if k > 0 {
      var i := k - 1;
      var before, after := AfterCalls(f, steps, DoCalls(steps, i), c), AfterCalls(f, steps, DoCalls(steps, k), c);
      SagaRestores(f, steps, i, c);
      UndoNext(f, steps, i, after);
      DoNext(f, steps, i, c);
      if !steps[i].skip {
        RoundCancels(f, steps, i, before);
      }
    }
  }

  lemma NoCalls<L>(f: Funcs<L>, steps: seq<StepDef>, c: map<Peer, L>)
    ensures DoCalls(steps, 0) == [] && UndoCalls(steps, 0) == [] && AfterCalls(f, steps, [], c) == c
  {
  }

  /** One more step done. */
  lemma DoNext<L>(f: Funcs<L>, steps: seq<StepDef>, i: nat, c: map<Peer, L>)
    requires i < |steps|
    ensures var before, after := AfterCalls(f, steps, DoCalls(steps, i), c), AfterCalls(f, steps, DoCalls(steps, i + 1), c);
            if steps[i].skip then after == before && DoCalls(steps, i + 1) == DoCalls(steps, i)
            else after == AfterCall(f, steps, Forth(i), before) && DoCalls(steps, i + 1) == DoCalls(steps, i) + [Forth(i)]
  {
    hide AfterCall;
    if !steps[i].skip {
      OneCall(f, steps, Forth(i), AfterCalls(f, steps, DoCalls(steps, i), c));
      CallsSplit(f, steps, DoCalls(steps, i), [Forth(i)], c);
    } else {
      assert DoCalls(steps, i) + [] == DoCalls(steps, i);
    }
  }

  /** One more step to undo, first. */
  lemma UndoNext<L>(f: Funcs<L>, steps: seq<StepDef>, i: nat, c: map<Peer, L>)
    requires i < |steps|
    ensures var first := !steps[i].skip && steps[i].hasUndo;
            && UndoCalls(steps, i + 1) == (if first then [Back(i)] else []) + UndoCalls(steps, i)
            && AfterCalls(f, steps, UndoCalls(steps, i + 1), c)
               == AfterCalls(f, steps, UndoCalls(steps, i), if first then AfterCall(f, steps, Back(i), c) else c)
  {
    hide AfterCall;
    if !steps[i].skip && steps[i].hasUndo {
      OneCall(f, steps, Back(i), c);
      CallsSplit(f, steps, [Back(i)], UndoCalls(steps, i), c);
    } else {
      assert [] + UndoCalls(steps, i) == UndoCalls(steps, i);
    }
  }

  // ---------------------------------------------------------------- the running transaction

  /** The peers whose liveness is checked: the preset list, or else those of all steps. */
  function CheckedPeers(nodes: seq<Peer>, steps: seq<StepDef>): seq<Peer> {
    if nodes != [] then nodes else StepPeers(steps)
  }

  function StepPeers(steps: seq<StepDef>): seq<Peer> {
    if steps == [] then [] else StepPeers(steps[..|steps| - 1]) + steps[|steps| - 1].nodes
  }

  lemma {:induction false} StepPeersAre(steps: seq<StepDef>, p: Peer)
    ensures p in StepPeers(steps) <==> exists s :: s in steps && p in s.nodes
  {
    if steps != [] {
      StepPeersAre(steps[..|steps| - 1], p);
      assert steps == steps[..|steps| - 1] + [steps[|steps| - 1]];
    }
  }

  /** Some of the answers so far is an error. */
  ghost predicate ErrorIn<L>(f: Funcs<L>, k: nat, answered: seq<Peer>, c: map<Peer, L>) {
    exists p :: p in answered && (p in c ==> ActFails(f, k, p, multiset(answered)[p], c[p]))
  }

  ghost predicate ActedOn<L>(f: Funcs<L>, k: nat, answered: multiset<Peer>, c: map<Peer, L>, d: map<Peer, L>) {
    d.Keys == c.Keys && forall p :: p in c ==> d[p] == ActTimes(f, k, p, answered[p], c[p])
  }

  lemma NextAnswer<L>(f: Funcs<L>, k: nat, answered: seq<Peer>, q: Peer, c: map<Peer, L>)
    ensures ErrorIn(f, k, answered + [q], c) <==>
            ErrorIn(f, k, answered, c) || q !in c
            || !f.act(k, q, ActTimes(f, k, q, multiset(answered)[q], c[q])).1
  {
  }

  lemma NextActed<L>(f: Funcs<L>, k: nat, answered: seq<Peer>, q: Peer, c: map<Peer, L>, d: map<Peer, L>)
    requires ActedOn(f, k, multiset(answered), c, d)
    ensures q in c ==> q in d && d[q] == ActTimes(f, k, q, multiset(answered)[q], c[q])
    ensures q in c ==> ActedOn(f, k, multiset(answered + [q]), c, d[q := f.act(k, q, d[q]).0])
    ensures q !in c ==> ActedOn(f, k, multiset(answered + [q]), c, d)
  {
    var m, m' := multiset(answered), multiset(answered + [q]);
    assert m' == m + multiset{q};
    assert m'[q] == m[q] + 1 && forall p :: p != q ==> m'[p] == m[p];
  }

  ghost predicate UndoneOn<L>(f: Funcs<L>, k: nat, answered: multiset<Peer>, c: map<Peer, L>, d: map<Peer, L>) {
    d.Keys == c.Keys && forall p :: p in c ==> d[p] == UndoTimes(f, k, p, answered[p], c[p])
  }

  lemma NextUndone<L>(f: Funcs<L>, k: nat, answered: seq<Peer>, q: Peer, c: map<Peer, L>, d: map<Peer, L>)
    requires UndoneOn(f, k, multiset(answered), c, d)
    ensures q in d ==> UndoneOn(f, k, multiset(answered + [q]), c, d[q := f.undo(k, q, d[q])])
    ensures q !in d ==> UndoneOn(f, k, multiset(answered + [q]), c, d)
  {
  }

  lemma AllUndone<L>(f: Funcs<L>, steps: seq<StepDef>, k: nat, order: seq<Peer>, c: map<Peer, L>, d: map<Peer, L>)
    requires k < |steps| && multiset(order) == multiset(steps[k].nodes)
    requires UndoneOn(f, k, multiset(order), c, d)
    ensures d == AfterCall(f, steps, Back(k), c)
  {
  }

  /** When all have answered, in whatever order. */
  lemma AllAnswered<L>(f: Funcs<L>, steps: seq<StepDef>, k: nat, order: seq<Peer>, c: map<Peer, L>, d: map<Peer, L>)
    requires k < |steps| && multiset(order) == multiset(steps[k].nodes)
    requires ActedOn(f, k, multiset(order), c, d)
    ensures d == AfterCall(f, steps, Forth(k), c)
    ensures ErrorIn(f, k, order, c) <==> StepFails(f, steps, k, c)
  {
    assert forall p :: p in order <==> p in multiset(order);
    assert forall p :: p in steps[k].nodes <==> p in multiset(steps[k].nodes);
  }

  /** The order in which the peers happen to answer. */
  method AnswerOrder(nodes: seq<Peer>) returns (order: seq<Peer>)
    ensures multiset(order) == multiset(nodes)
  {
    order := nodes;
  }

  /** Step k fails on the cluster that the steps before it leave. */
  ghost predicate FailsAt<L>(f: Funcs<L>, steps: seq<StepDef>, k: nat, c: map<Peer, L>) {
    k < |steps| && !steps[k].skip && StepFails(f, steps, k, AfterCalls(f, steps, DoCalls(steps, k), c))
  }

  ghost predicate NoneFailsBefore<L>(f: Funcs<L>, steps: seq<StepDef>, k: nat, c: map<Peer, L>) {
    forall i: nat :: i < k ==> !FailsAt(f, steps, i, c)
  }

  lemma NoneFailsYet<L>(f: Funcs<L>, steps: seq<StepDef>, c: map<Peer, L>)
    ensures NoneFailsBefore(f, steps, 0, c)
  {
  }

  lemma NoneFailsNext<L>(f: Funcs<L>, steps: seq<StepDef>, i: nat, c: map<Peer, L>)
    requires i < |steps| && NoneFailsBefore(f, steps, i, c)
    ensures NoneFailsBefore(f, steps, i + 1, c) <==>
            steps[i].skip || !StepFails(f, steps, i, AfterCalls(f, steps, DoCalls(steps, i), c))
  {
    hide StepFails;
    assert FailsAt(f, steps, i, c) <==> !steps[i].skip && StepFails(f, steps, i, AfterCalls(f, steps, DoCalls(steps, i), c));
    if NoneFailsBefore(f, steps, i + 1, c) {
      assert !FailsAt(f, steps, i, c);
    }
  }

  /** All rounds of a transaction that fails at step k. */
  function FailureCalls(steps: seq<StepDef>, k: nat, disableRollback: bool): seq<Call>
    requires k < |steps|
  {
    DoCalls(steps, k + 1) + if disableRollback then [] else UndoCalls(steps, k + 1)
  }

  lemma Append(a: seq<Call>, b: seq<Call>, c: seq<Call>)
    ensures a + b + c == a + (b + c)
  {
  }

  lemma FailedAt<L>(f: Funcs<L>, steps: seq<StepDef>, i: nat, disableRollback: bool, c: map<Peer, L>, made: seq<Call>)
    requires i < |steps| && !steps[i].skip && StepFails(f, steps, i, AfterCalls(f, steps, DoCalls(steps, i), c))
    ensures FailsAt(f, steps, i, c)
    ensures made + DoCalls(steps, i + 1) + (if disableRollback then [] else UndoCalls(steps, i + 1))
            == made + FailureCalls(steps, i, disableRollback)
  {
  }

  method AreAlive(peers: seq<Peer>, alive: set<Peer>) returns (up: bool)
    ensures up <==> forall p :: p in peers ==> p in alive
  {
    for i := 0 to |peers|
      invariant forall p :: p in peers[..i] ==> p in alive
    {
      if peers[i] !in alive {
        return false;
      }
      assert peers[..i + 1] == peers[..i] + [peers[i]];
    }
    assert peers[..|peers|] == peers;
    up := true;
  }

  class Cluster<L(!new)> {
    var local: map<Peer, L>
    var calls: seq<Call>

    constructor (initial: map<Peer, L>)
      ensures local == initial && calls == []
    {
      local, calls := initial, [];
    }

    /** Run a step's function on all its peers and count the errors. */
    method RunStep(f: Funcs<L>, steps: seq<StepDef>, k: nat) returns (errCount: nat)
      requires k < |steps|
      modifies this
      ensures local == AfterCall(f, steps, Forth(k), old(local)) && calls == old(calls) + [Forth(k)]
      ensures errCount != 0 <==> StepFails(f, steps, k, old(local))
    {
      errCount := 0;
      calls := calls + [Forth(k)];
      var order := AnswerOrder(steps[k].nodes);
      ghost var c := local;
      assert ActedOn(f, k, multiset(order[..0]), c, local) && !ErrorIn(f, k, order[..0], c);
      hide ActedOn, ErrorIn, AfterCall, StepFails;
      for i := 0 to |order|
        invariant calls == old(calls) + [Forth(k)]
        invariant ActedOn(f, k, multiset(order[..i]), c, local)
        invariant errCount != 0 <==> ErrorIn(f, k, order[..i], c)
        invariant local.Keys == c.Keys
      {
        var q := order[i];
        assert order[..i + 1] == order[..i] + [q];
        NextAnswer(f, k, order[..i], q, c);
        NextActed(f, k, order[..i], q, c, local);
        if q !in local {
          errCount := errCount + 1;
        } else {
          var (l, ok) := f.act(k, q, local[q]);
          local := local[q := l];
          if !ok {
            errCount := errCount + 1;
          }
        }
      }
      assert order[..|order|] == order;
      AllAnswered(f, steps, k, order, c, local);
    }

    /** Run a step's undo function on all its peers; errors are ignored. */
    method UndoStep(f: Funcs<L>, steps: seq<StepDef>, k: nat)
      requires k < |steps|
      modifies this
      ensures steps[k].hasUndo ==>
                local == AfterCall(f, steps, Back(k), old(local)) && calls == old(calls) + [Back(k)]
      ensures !steps[k].hasUndo ==> local == old(local) && calls == old(calls)
    {
      if !steps[k].hasUndo {
        return;
      }
      calls := calls + [Back(k)];
      var order := AnswerOrder(steps[k].nodes);
      ghost var c := local;
      assert UndoneOn(f, k, multiset(order[..0]), c, local);
      hide UndoneOn, AfterCall;
      for i := 0 to |order|
        invariant calls == old(calls) + [Back(k)] && UndoneOn(f, k, multiset(order[..i]), c, local)
      {
        var q := order[i];
        assert order[..i + 1] == order[..i] + [q];
        NextUndone(f, k, order[..i], q, c, local);
        if q in local {
          local := local[q := f.undo(k, q, local[q])];
        }
      }
      assert order[..|order|] == order;
      AllUndone(f, steps, k, order, c, local);
    }

    /** Undo from step n down to step 0. */
    method Undo(f: Funcs<L>, steps: seq<StepDef>, n: nat)
      requires n < |steps|
      modifies this
      ensures local == AfterCalls(f, steps, UndoCalls(steps, n + 1), old(local))
      ensures calls == old(calls) + UndoCalls(steps, n + 1)
    {
      var i := n + 1;
      assert calls + UndoCalls(steps, i) == old(calls) + UndoCalls(steps, n + 1);
      while i > 0
        invariant 0 <= i <= n + 1
        invariant calls + UndoCalls(steps, i) == old(calls) + UndoCalls(steps, n + 1)
        invariant AfterCalls(f, steps, UndoCalls(steps, i), local)
                  == AfterCalls(f, steps, UndoCalls(steps, n + 1), old(local))
      {
        i := i - 1;
        UndoNext(f, steps, i, local);
        hide *;
        if !steps[i].skip {
          if steps[i].hasUndo {
            Append(calls, [Back(i)], UndoCalls(steps, i));
          } else {
            assert [] + UndoCalls(steps, i) == UndoCalls(steps, i);
          }
          UndoStep(f, steps, i);
        } else {
          assert [] + UndoCalls(steps, i) == UndoCalls(steps, i);
        }
      }
      NoCalls(f, steps, local);
      assert calls + [] == calls;
    }

    /** Step i failed: roll back, unless that is disabled. */
    method Abort(f: Funcs<L>, steps: seq<StepDef>, i: nat, disableRollback: bool, ghost c: map<Peer, L>)
      requires i < |steps| && local == AfterCalls(f, steps, DoCalls(steps, i + 1), c)
      modifies this
      ensures calls == old(calls) + if disableRollback then [] else UndoCalls(steps, i + 1)
      ensures !disableRollback && Inverts(f, steps) ==> local == c
    {
      if !disableRollback {
        Undo(f, steps, i);
        if Inverts(f, steps) {
          SagaRestores(f, steps, i + 1, c);
        }
      }
    }

    /** Run the steps in order, up to the first that fails. */
    method RunSteps(f: Funcs<L>, steps: seq<StepDef>, disableRollback: bool) returns (r: Outcome)
      modifies this
      ensures r.Done? || r.StepFailed?
      ensures r.Done? ==>
                NoneFailsBefore(f, steps, |steps|, old(local))
                && local == AfterCalls(f, steps, DoCalls(steps, |steps|), old(local))
                && calls == old(calls) + DoCalls(steps, |steps|)
      ensures r.StepFailed? ==>
                FailsAt(f, steps, r.step, old(local)) && NoneFailsBefore(f, steps, r.step, old(local))
                && calls == old(calls) + FailureCalls(steps, r.step, disableRollback)
      ensures r.StepFailed? && !disableRollback && Inverts(f, steps) ==> local == old(local)
    {
      hide *;
      NoCalls(f, steps, local);
      NoneFailsYet(f, steps, local);
      assert calls == old(calls) + [];
      for i := 0 to |steps|
        invariant local == AfterCalls(f, steps, DoCalls(steps, i), old(local))
        invariant calls == old(calls) + DoCalls(steps, i) && NoneFailsBefore(f, steps, i, old(local))
      {
        NoneFailsNext(f, steps, i, old(local));
        DoNext(f, steps, i, old(local));
        if !steps[i].skip {
          var errCount := RunStep(f, steps, i);
          Append(old(calls), DoCalls(steps, i), [Forth(i)]);
          if errCount != 0 {
            FailedAt(f, steps, i, disableRollback, old(local), old(calls));
            Abort(f, steps, i, disableRollback, old(local));
            return StepFailed(i);
          }
        }
      }
      r := Done;
    }

    /** Run a transaction. `alive` are the peers found online, `commitOk` tells whether the context
        could be stored first. */
    method Do(f: Funcs<L>, steps: seq<StepDef>, nodes: seq<Peer>, disableRollback: bool,
              alive: set<Peer>, commitOk: bool)
      returns (r: Outcome)
      modifies this
      ensures r.NodeDown? <==>
              exists p :: p !in alive && if nodes != [] then p in nodes else exists s :: s in steps && p in s.nodes
      ensures r.CommitFailed? <==> !r.NodeDown? && !commitOk
      ensures r.NodeDown? || r.CommitFailed? ==> local == old(local) && calls == old(calls)
      ensures r.Done? ==>
                NoneFailsBefore(f, steps, |steps|, old(local))
                && local == AfterCalls(f, steps, DoCalls(steps, |steps|), old(local))
                && calls == old(calls) + DoCalls(steps, |steps|)
      ensures r.StepFailed? ==>
                FailsAt(f, steps, r.step, old(local)) && NoneFailsBefore(f, steps, r.step, old(local))
                && calls == old(calls) + FailureCalls(steps, r.step, disableRollback)
      ensures r.StepFailed? && !disableRollback && Inverts(f, steps) ==> local == old(local)
    {
      forall p {
        StepPeersAre(steps, p);
      }
      var up := AreAlive(CheckedPeers(nodes, steps), alive);
      if !up {
        return NodeDown;
      }
      if !commitOk {
        return CommitFailed;
      }
      r := RunSteps(f, steps, disableRollback);
    }
  }
}
