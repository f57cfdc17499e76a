/** The registry cannot deadlock, and it ends: provided callbacks return, every registration and every close returns,
    however they are scheduled. */
module RegistryProgress {
  import opened Wrappers
  import B = BridgeProtocol
  import BridgeProgress
  import opened RegistryProtocol
  import opened RegistrySafety

  /** Neither a new call of the registry nor a new callback. */
  predicate Begun(a: Action) { !a.Call? && (a.InBridge? ==> !a.step.Spawn?) }

  // ------------------------------------------------------------------------------------------ no deadlock

  lemma FreshId(ids: set<Id>) returns (id: Id)
    ensures forall j :: j in ids ==> j < id
  {
    id := 0;
    if ids != {} {
      var j :| j in ids;
      var rest := FreshId(ids - {j});
      id := if rest <= j then j + 1 else rest;
      assert forall k :: k in ids ==> k == j || k in ids - {j};
    }
  }

  /** The leader, or a callback it waits for, can always move. */
  lemma LeaderMoves(r: Registry) returns (a: Action)
    requires Inv(r) && r.leader.Some? && !r.done
    ensures Allowed(r, a) && Begun(a)
  {
    var t := r.leader.value;
    var caller := r.callers[t];
    assert CallerOk(r, t);
    if caller.current == None {
      if caller.todo == {} { return Next(t); }
      var id :| id in caller.todo;
      assert BridgeOk(r, id);
      return Pick(t, id);
    }
    var id := caller.current.value;
    assert BridgeOk(r, id);
    if LeftCurrent(r, t, caller) { return Next(t); }
    var step := BridgeProgress.Progress(r.bridges[id], t);
    assert StrangersOk(r, id, step.thread);
    return InBridge(id, step);
  }

  lemma CallerMoves(r: Registry, t: Thread) returns (a: Action)
    requires Inv(r) && t in r.callers && !r.callers[t].Registered? && !r.callers[t].CloseDone?
    ensures Allowed(r, a) && Begun(a)
  {
    assert CallerOk(r, t);
    if r.leader.Some? && !r.done {
      a := LeaderMoves(r);
    } else if r.mutex.Some? {
      var m := r.mutex.value;
      assert CallerOk(r, m);
      if r.callers[m].Recording? && !r.closed {
        var id := FreshId(r.bridges.Keys);
        a := Pick(m, id);
      } else {
        a := Next(m);
      }
    } else {
      a := Next(t);
    }
  }

  /** No deadlock: while some registration, close or callback has not returned, one of them can take a step. */
  lemma Progress(r: Registry, id: Id, u: Thread) returns (a: Action)
    requires Inv(r) && id in r.bridges && u in r.bridges[id].threads && !B.Final(r.bridges[id].threads[u])
    ensures Allowed(r, a) && Begun(a)
  {
    if r.leader.Some? && !r.done {
      a := LeaderMoves(r);
    } else {
      assert BridgeOk(r, id);
      var step := BridgeProgress.Progress(r.bridges[id], u);
      assert StrangersOk(r, id, step.thread);
      a := InBridge(id, step);
    }
  }

  // ------------------------------------------------------------------------------------------ sums over the registry

  ghost function Sum(weights: map<nat, nat>): nat
    decreases |weights|
  {
    if weights == map[] then 0
    else
      var k :| k in weights;
      weights[k] + Sum(weights - {k})
  }

  lemma {:induction false} SumSplits(weights: map<nat, nat>, k: nat)
    requires k in weights
    ensures Sum(weights) == weights[k] + Sum(weights - {k})
    decreases |weights|
  {
    var j :| j in weights && Sum(weights) == weights[j] + Sum(weights - {j});
    if j != k {
      SumSplits(weights - {j}, k);
      SumSplits(weights - {k}, j);
      assert weights - {j} - {k} == weights - {k} - {j};
    }
  }

  /** Giving one key another weight changes the sum by the difference. */
  lemma SumUpdate(weights: map<nat, nat>, weights': map<nat, nat>, k: nat)
    requires k in weights && k in weights' && weights' == weights[k := weights'[k]]
    ensures Sum(weights') == Sum(weights) - weights[k] + weights'[k]
  {
    SumSplits(weights, k);
    SumSplits(weights', k);
    assert weights' - {k} == weights - {k};
  }

  // ------------------------------------------------------------------------------------------ termination

  function Stage(caller: Caller): nat {
    match caller
    case Registering => 2
    case Recording => 1
    case Registered(_) => 0
    case CloseCalled => 4
    case CloseDeciding => 3
    case AwaitingDone => 1
    case Detaching(_, _) => 2
    case Finishing(_, _) => 1
    case CloseDone => 0
  }

  function StageWeights(callers: map<Thread, Caller>): map<nat, nat> {
    map t | t in callers :: Stage(callers[t])
  }

  /** How far the leader is from the end of its loop. */
  function LoopRank(r: Registry): nat {
    if r.leader.Some? && r.leader.value in r.callers && Leading(r.callers[r.leader.value]) then
      var caller := r.callers[r.leader.value];
      2 * |caller.todo| + if caller.current == None then 1 else 0
    else 0
  }

  function CloserWeights(bridges: map<Id, B.Bridge>): map<nat, nat> {
    map id | id in bridges :: |BridgeProgress.PendingClosers(bridges[id].threads)|
  }

  ghost function WorkWeights(bridges: map<Id, B.Bridge>): map<nat, nat> {
    map id | id in bridges :: BridgeProgress.Total(bridges[id].threads, bridges[id].detached)
  }

  ghost predicate Lower(r: Registry, r': Registry) {
    var stages, stages' := Sum(StageWeights(r.callers)), Sum(StageWeights(r'.callers));
    var closers, closers' := Sum(CloserWeights(r.bridges)), Sum(CloserWeights(r'.bridges));
    || stages' < stages
    || (stages' == stages && LoopRank(r') < LoopRank(r))
    || (stages' == stages && LoopRank(r') == LoopRank(r) && closers' < closers)
    || (stages' == stages && LoopRank(r') == LoopRank(r) && closers' == closers
        && Sum(WorkWeights(r'.bridges)) < Sum(WorkWeights(r.bridges)))
  }

  /** A step of a caller takes it to an earlier stage, or the leader closer to the end of its loop. */
  predicate Advances(r: Registry, t: Thread, r': Registry)
    requires t in r.callers
  {
    && t in r'.callers && r'.callers == r.callers[t := r'.callers[t]]
    && var stage, stage' := Stage(r.callers[t]), Stage(r'.callers[t]);
       stage' < stage || (stage' == stage && LoopRank(r') < LoopRank(r))
  }

  lemma AdvanceLowers(r: Registry, t: Thread, r': Registry)
    requires t in r.callers && Advances(r, t, r')
    ensures Lower(r, r')
  {
    SumUpdate(StageWeights(r.callers), StageWeights(r'.callers), t);
  }

  lemma NextAdvances(r: Registry, t: Thread)
    requires t in r.callers && NextEnabled(r, t, r.callers[t]) && CallerOk(r, t)
    ensures Advances(r, t, NextStep(r, t))
  {
    if Leading(r.callers[t]) && r.callers[t].current.Some? { LoopAdvances(r, t); }
  }

  /** The end of one round of a loop of the leader. */
  lemma LoopAdvances(r: Registry, t: Thread)
    requires t in r.callers && NextEnabled(r, t, r.callers[t]) && CallerOk(r, t)
    requires Leading(r.callers[t]) && r.callers[t].current.Some?
    ensures Advances(r, t, NextStep(r, t))
  {
    var caller := r.callers[t];
    assert |caller.todo - {caller.current.value}| == |caller.todo| - 1;
  }

  lemma PickAdvances(r: Registry, t: Thread, id: Id)
    requires t in r.callers && PickEnabled(r, t, r.callers[t], id) && CallerOk(r, t)
    ensures Advances(r, t, PickStep(r, t, id))
  {
  }

  /** What lowers the measure of one state lowers that of the registry. */
  lemma BridgeLowers(r: Registry, id: Id, b': B.Bridge)
    requires id in r.bridges
    requires BridgeProgress.Lower(r.bridges[id].threads, r.bridges[id].detached, b'.threads, b'.detached)
    ensures Lower(r, r.Put(id, b'))
  {
    ClosersUpdate(r.bridges, id, b');
    WorkUpdate(r.bridges, id, b');
  }

  lemma ClosersUpdate(bridges: map<Id, B.Bridge>, id: Id, b': B.Bridge)
    requires id in bridges
    ensures Sum(CloserWeights(bridges[id := b'])) ==
            Sum(CloserWeights(bridges)) - |BridgeProgress.PendingClosers(bridges[id].threads)|
            + |BridgeProgress.PendingClosers(b'.threads)|
  {
    SumUpdate(CloserWeights(bridges), CloserWeights(bridges[id := b']), id);
  }

  lemma WorkUpdate(bridges: map<Id, B.Bridge>, id: Id, b': B.Bridge)
    requires id in bridges
    ensures Sum(WorkWeights(bridges[id := b'])) ==
            Sum(WorkWeights(bridges)) - BridgeProgress.Total(bridges[id].threads, bridges[id].detached)
            + BridgeProgress.Total(b'.threads, b'.detached)
  {
    SumUpdate(WorkWeights(bridges), WorkWeights(bridges[id := b']), id);
  }

  lemma InsideLowers(r: Registry, id: Id, step: B.Action)
    requires Inv(r) && EnabledInside(r, id, step) && !step.Spawn?
    ensures Lower(r, r.Put(id, B.Apply(r.bridges[id], step)))
  {
    assert BridgeOk(r, id);
    BridgeProgress.StepDecreases(r.bridges[id], step);
    BridgeLowers(r, id, B.Apply(r.bridges[id], step));
  }

  /** Every step of what has begun lowers a well-founded measure. */
  lemma StepDecreases(r: Registry, a: Action)
    requires Inv(r) && Allowed(r, a) && Begun(a)
    ensures Lower(r, Perform(r, a))
  {
    match a
    case Next(t) =>
      NextAdvances(r, t);
      AdvanceLowers(r, t, NextStep(r, t));
    case Pick(t, id) =>
      PickAdvances(r, t, id);
      AdvanceLowers(r, t, PickStep(r, t, id));
    case InBridge(id, step) => InsideLowers(r, id, step);
  }

  /** Move `n` of an endless schedule is a step of what has begun. */
  ghost predicate Moves(states: nat -> Registry, actions: nat -> Action, n: nat) {
    Step(states(n), actions(n), states(n + 1)) && Begun(actions(n))
  }

  /** Nothing that has begun can take a step. */
  ghost predicate Stuck(r: Registry) { forall a :: Allowed(r, a) ==> !Begun(a) }

  /** Every registration, close and callback that has begun has returned. */
  ghost predicate AllReturned(r: Registry) {
    && (forall t :: t in r.callers ==> r.callers[t].Registered? || r.callers[t].CloseDone?)
    && forall id, u :: id in r.bridges && u in r.bridges[id].threads ==> B.Final(r.bridges[id].threads[u])
  }

  /** Being stuck is having finished. */
  lemma StuckHasReturned(r: Registry)
    requires Inv(r) && Stuck(r)
    ensures AllReturned(r)
  {
    forall t | t in r.callers ensures r.callers[t].Registered? || r.callers[t].CloseDone? {
      if !r.callers[t].Registered? && !r.callers[t].CloseDone? { var a := CallerMoves(r, t); }
    }
    forall id, u | id in r.bridges && u in r.bridges[id].threads ensures B.Final(r.bridges[id].threads[u]) {
      if !B.Final(r.bridges[id].threads[u]) { var a := Progress(r, id, u); }
    }
  }

  /** However what has begun is scheduled, as long as something moves whenever something can, every registration, every
      close and every callback returns, if callbacks do. */
  lemma {:induction false} EveryCallReturns(states: nat -> Registry, actions: nat -> Action, n: nat)
    requires Inv(states(n))
    requires forall m :: n <= m ==> Moves(states, actions, m) || Stuck(states(m))
    ensures exists m :: n <= m && AllReturned(states(m))
    decreases Sum(StageWeights(states(n).callers)), LoopRank(states(n)), Sum(CloserWeights(states(n).bridges)),
              Sum(WorkWeights(states(n).bridges))
  {
    if Stuck(states(n)) {
      StuckHasReturned(states(n));
    } else {
      assert Moves(states, actions, n);
      StepInv(states(n), actions(n));
      StepDecreases(states(n), actions(n));
      EveryCallReturns(states, actions, n + 1);
    }
  }
}
