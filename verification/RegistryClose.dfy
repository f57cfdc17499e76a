/** The callback registry over any number of scenario bridge states, with concurrent registrations and closes.

    A closer holds the registry mutex while it detaches the states one by one, taking the mutex of each, and
    then finishes them one by one without it. Inside a state it is a closer thread of the bridge protocol under
    the same name; callback threads run in the states at any time.
  */
module RegistryProtocol {
  import opened Wrappers
  import opened BridgeProtocol

  /** An opaque scenario identifier. */
  type Id = nat

  datatype Caller =
    | Registering                                      // about to lock the registry mutex
    | Recording                                        // holds it
    | Registered(id: Option<Id>)                       // None stands for the empty identifier
    | CloseCalled                                      // about to lock the registry mutex
    | CloseDeciding                                    // holds it
    | AwaitingDone                                     // a later closer, waiting for the first
    | Detaching(todo: set<Id>, current: Option<Id>)    // holds the mutex; first loop
    | Finishing(todo: set<Id>, current: Option<Id>)    // second loop
    | CloseDone

  datatype Registry = Registry(
    mutex: Option<Thread>,
    closed: bool,
    done: bool,                      // the closeDone channel is closed
    bridges: map<Id, Bridge>,
    callers: map<Thread, Caller>,
    leader: Option<Thread>)          // the closer that found the registry open
  {
    function At(t: Thread, caller: Caller): Registry { this.(callers := callers[t := caller]) }

    function Put(id: Id, b: Bridge): Registry { this.(bridges := bridges[id := b]) }
  }

  const Empty := Registry(None, false, false, map[], map[], None)

  datatype Action =
    | Call(thread: Thread, caller: Caller)
    | Next(thread: Thread)                             // the one next statement
    | Pick(thread: Thread, id: Id)                     // draws an identifier, or the next state of a loop
    | InBridge(id: Id, step: BridgeProtocol.Action)    // a step inside one state

  predicate HoldsMutex(caller: Caller) { caller.Recording? || caller.CloseDeciding? || caller.Detaching? }

  predicate Leading(caller: Caller) { caller.Detaching? || caller.Finishing? }

  /** The steps of a state that the registry lets happen: those of callbacks, and those of a closer that has
      reached the state in its loop. */
  ghost predicate EnabledInside(r: Registry, id: Id, step: BridgeProtocol.Action) {
    && id in r.bridges && Shape(r.bridges[id]) && Enabled(r.bridges[id], step)
    && if step.Spawn? then step.pc.Arriving? && step.thread !in r.callers
       else if Worker(r.bridges[id].threads[step.thread]) then true
       else
         && step.thread in r.callers && Leading(r.callers[step.thread])
         && r.callers[step.thread].current == Some(id)
         && (r.callers[step.thread].Detaching? ==> Detaches(r.bridges[id].threads[step.thread]))
  }

  /** The closer has left the state it is working on: detached it, or finished it. */
  predicate LeftCurrent(r: Registry, t: Thread, caller: Caller)
    requires Leading(caller) && caller.current.Some?
  {
    && caller.current.value in r.bridges
    && t in r.bridges[caller.current.value].threads
    && var pc := r.bridges[caller.current.value].threads[t];
       if caller.Detaching? then !Detaches(pc) else Final(pc)
  }

  predicate NextEnabled(r: Registry, t: Thread, caller: Caller) {
    match caller
    case Registering => r.mutex == None
    case Recording => r.closed
    case Registered(_) => false
    case CloseCalled => r.mutex == None
    case CloseDeciding => true
    case AwaitingDone => r.done
    case Detaching(todo, current) => if current == None then todo == {} else LeftCurrent(r, t, caller)
    case Finishing(todo, current) => if current == None then todo == {} else LeftCurrent(r, t, caller)
    case CloseDone => false
  }

  ghost predicate PickEnabled(r: Registry, t: Thread, caller: Caller, id: Id) {
    match caller
    case Recording => !r.closed && id !in r.bridges
    case Detaching(todo, current) =>
      current == None && id in todo && id in r.bridges && t !in r.bridges[id].threads
    case Finishing(todo, current) => current == None && id in todo
    case _ => false
  }

  ghost predicate Allowed(r: Registry, a: Action) {
    match a
    case Call(t, caller) =>
      && t !in r.callers && (caller.Registering? || caller.CloseCalled?)
      && forall id :: id in r.bridges ==> t !in r.bridges[id].threads
    case Next(t) => t in r.callers && NextEnabled(r, t, r.callers[t])
    case Pick(t, id) => t in r.callers && PickEnabled(r, t, r.callers[t], id)
    case InBridge(id, step) => EnabledInside(r, id, step)
  }

  ghost function Perform(r: Registry, a: Action): Registry
    requires Allowed(r, a)
  {
    match a
    case Call(t, caller) => r.At(t, caller)
    case Next(t) => NextStep(r, t)
    case Pick(t, id) => PickStep(r, t, id)
    case InBridge(id, step) => r.Put(id, Apply(r.bridges[id], step))
  }

  function NextStep(r: Registry, t: Thread): Registry
    requires t in r.callers && NextEnabled(r, t, r.callers[t])
  {
    match r.callers[t]
    case Registering => r.At(t, Recording).(mutex := Some(t))
    case Recording => r.At(t, Registered(None)).(mutex := None)
    case CloseCalled => r.At(t, CloseDeciding).(mutex := Some(t))
    case CloseDeciding =>
      if r.closed then r.At(t, AwaitingDone).(mutex := None)
      else r.At(t, Detaching(r.bridges.Keys, None)).(closed := true, leader := Some(t))
    case AwaitingDone => r.At(t, CloseDone)
    case Detaching(todo, current) =>
      if current == None then r.At(t, Finishing(r.bridges.Keys, None)).(mutex := None)
      else r.At(t, Detaching(todo - {current.value}, None))
    case Finishing(todo, current) =>
      if current == None then r.At(t, CloseDone).(done := true)
      else r.At(t, Finishing(todo - {current.value}, None))
  }

  ghost function PickStep(r: Registry, t: Thread, id: Id): Registry
    requires t in r.callers && PickEnabled(r, t, r.callers[t], id)
  {
    match r.callers[t]
    case Recording => r.At(t, Registered(Some(id))).Put(id, Start).(mutex := None)
    case Detaching(todo, _) => r.At(t, Detaching(todo, Some(id))).Put(id, r.bridges[id].Begin(t, CloseArriving))
    case Finishing(todo, _) => r.At(t, Finishing(todo, Some(id)))
  }

  ghost predicate Step(r: Registry, a: Action, r': Registry) {
    Allowed(r, a) && r' == Perform(r, a)
  }

  ghost predicate IsRun(states: seq<Registry>, actions: seq<Action>) {
    && |states| == |actions| + 1
    && states[0] == Empty
    && forall i :: 0 <= i < |actions| ==> Step(states[i], actions[i], states[i + 1])
  }
}

/** What every run of the registry keeps. */
module RegistrySafety {
  import opened Wrappers
  import B = BridgeProtocol
  import BridgeInvariant
  import BridgeSafety
  import BridgeProgress
  import opened RegistryProtocol

  type Thread = B.Thread

  predicate CallerOk(r: Registry, t: Thread)
    requires t in r.callers
  {
    var caller := r.callers[t];
    && (r.mutex == Some(t) <==> HoldsMutex(caller))
    && (Leading(caller) ==> r.leader == Some(t))
    && (caller.CloseDone? ==> r.done)
    && (caller.AwaitingDone? ==> r.closed)
    && (Leading(caller) ==> caller.todo <= r.bridges.Keys)
    && (Leading(caller) && caller.current.Some? ==> caller.current.value in caller.todo)
  }

  predicate Global(r: Registry) {
    && (r.mutex.Some? ==> r.mutex.value in r.callers)
    && (r.closed <==> r.leader.Some?)
    && (r.leader.Some? ==>
          && r.leader.value in r.callers
          && (Leading(r.callers[r.leader.value]) || r.callers[r.leader.value].CloseDone?))
    && (r.done <==> r.leader.Some? && r.callers[r.leader.value].CloseDone?)
  }

  /** How far the leader has come with state `id`. */
  predicate Handled(r: Registry, id: Id)
    requires Global(r) && r.leader.Some? && id in r.bridges
  {
    var t, threads := r.leader.value, r.bridges[id].threads;
    match r.callers[t]
    case Detaching(todo, current) =>
      if current == Some(id) then t in threads && (B.Detaches(threads[t]) || B.ClosedFirst(threads[t]))
      else if id in todo then t !in threads
      else t in threads && B.ClosedFirst(threads[t])
    case Finishing(todo, _) =>
      && t in threads
      && if id in todo then B.ClosedFirst(threads[t]) else threads[t] == B.CloseReturned(true)
    case _ => t in threads && threads[t] == B.CloseReturned(true)
  }

  /** Only the leader closes states; callback threads are strangers to the registry. */
  predicate StrangersOk(r: Registry, id: Id, u: Thread)
    requires id in r.bridges && u in r.bridges[id].threads
  {
    if B.Worker(r.bridges[id].threads[u]) then u !in r.callers else r.leader == Some(u)
  }

  ghost predicate BridgeOk(r: Registry, id: Id)
    requires Global(r) && id in r.bridges
  {
    && BridgeInvariant.Inv(r.bridges[id])
    && (r.leader.Some? ==> Handled(r, id))
    && (forall u :: u in r.bridges[id].threads ==> StrangersOk(r, id, u))
  }

  ghost predicate Inv(r: Registry) {
    && Global(r)
    && (forall t :: t in r.callers ==> CallerOk(r, t))
    && (forall id :: id in r.bridges ==> BridgeOk(r, id))
  }

  /** One step in a state touches the counter of its own thread only. */
  lemma StepTouchesOne(b: B.Bridge, a: B.Action)
    requires B.Shape(b) && B.Enabled(b, a)
    ensures Touches(b, a.thread, B.Apply(b, a))
  {
    if !a.Spawn? {
      var pc := b.threads[a.thread];
      if a.Advance? && BridgeProgress.Entrant(pc) { EntrantTouchesOne(b, a); }
      else if a.Finish? || (a.Advance? && B.Departs(pc)) { LeaverTouchesOne(b, a); }
      else { CloserTouchesOne(b, a); }
    }
  }

  /** Only the counter of `t` differs, and a thread stays a callback thread or a closer. */
  predicate Touches(b: B.Bridge, t: Thread, b': B.Bridge) {
    && t in b'.threads && b'.threads == b.threads[t := b'.threads[t]]
    && (t in b.threads ==> (B.Worker(b'.threads[t]) <==> B.Worker(b.threads[t])))
  }

  lemma EntrantTouchesOne(b: B.Bridge, a: B.Action)
    requires B.Shape(b) && B.Enabled(b, a) && a.Advance? && BridgeProgress.Entrant(b.threads[a.thread])
    ensures Touches(b, a.thread, B.Apply(b, a))
  {
  }

  lemma LeaverTouchesOne(b: B.Bridge, a: B.Action)
    requires B.Shape(b) && B.Enabled(b, a) && (a.Finish? || (a.Advance? && B.Departs(b.threads[a.thread])))
    ensures Touches(b, a.thread, B.Apply(b, a))
  {
  }

  lemma CloserTouchesOne(b: B.Bridge, a: B.Action)
    requires B.Shape(b) && B.Enabled(b, a) && !a.Spawn? && !B.Worker(b.threads[a.thread])
    ensures Touches(b, a.thread, B.Apply(b, a))
  {
  }

  /** A closer whose rivals have not closed the state becomes its first closer, and stays it. */
  lemma CloserAdvances(b: B.Bridge, a: B.Action)
    requires BridgeInvariant.Inv(b) && B.Enabled(b, a) && !a.Spawn?
    requires !B.Worker(b.threads[a.thread])
    requires b.closer.Some? ==> b.closer.value == a.thread
    ensures var pc' := B.Apply(b, a).threads[a.thread];
            if B.ClosedFirst(b.threads[a.thread]) then B.ClosedFirst(pc') else B.Detaches(pc') || B.ClosedFirst(pc')
  {
    BridgeSafety.Pick(b, a.thread);
  }

  lemma NextGlobal(r: Registry, t: Thread)
    requires Global(r) && t in r.callers && NextEnabled(r, t, r.callers[t]) && CallerOk(r, t)
    ensures Global(NextStep(r, t)) && CallerOk(NextStep(r, t), t)
  {
  }

  lemma NextCaller(r: Registry, t: Thread, u: Thread)
    requires Global(r) && t in r.callers && NextEnabled(r, t, r.callers[t]) && CallerOk(r, t)
    requires u in r.callers && u != t && CallerOk(r, u)
    ensures CallerOk(NextStep(r, t), u)
  {
  }

  lemma NextHandled(r: Registry, t: Thread, id: Id)
    requires Global(r) && t in r.callers && NextEnabled(r, t, r.callers[t]) && CallerOk(r, t)
    requires id in r.bridges && (r.leader.Some? ==> Handled(r, id))
    requires t in r.bridges[id].threads ==> StrangersOk(r, id, t)
    ensures var r' := NextStep(r, t);
            Global(r') && (r'.leader.Some? ==> Handled(r', id))
  {
    NextGlobal(r, t);
  }

  lemma NextStranger(r: Registry, t: Thread, id: Id, u: Thread)
    requires t in r.callers && NextEnabled(r, t, r.callers[t])
    requires id in r.bridges && u in r.bridges[id].threads && StrangersOk(r, id, u)
    requires Global(r) && CallerOk(r, t)
    ensures StrangersOk(NextStep(r, t), id, u)
  {
  }

  lemma NextBridge(r: Registry, t: Thread, id: Id)
    requires Global(r) && t in r.callers && NextEnabled(r, t, r.callers[t]) && CallerOk(r, t)
    requires id in r.bridges && BridgeOk(r, id)
    ensures Global(NextStep(r, t)) && BridgeOk(NextStep(r, t), id)
  {
    NextHandled(r, t, id);
    forall u | u in r.bridges[id].threads ensures StrangersOk(NextStep(r, t), id, u) { NextStranger(r, t, id, u); }
  }

  lemma NextInv(r: Registry, t: Thread)
    requires Inv(r) && Allowed(r, Next(t))
    ensures Inv(NextStep(r, t))
  {
    var r' := NextStep(r, t);
    NextGlobal(r, t);
    forall u | u in r.callers ensures CallerOk(r', u) { if u != t { NextCaller(r, t, u); } }
    forall id | id in r.bridges ensures BridgeOk(r', id) { NextBridge(r, t, id); }
  }

  lemma PickGlobal(r: Registry, t: Thread, id: Id)
    requires Global(r) && t in r.callers && PickEnabled(r, t, r.callers[t], id) && CallerOk(r, t)
    ensures Global(PickStep(r, t, id)) && CallerOk(PickStep(r, t, id), t)
  {
  }

  lemma PickCaller(r: Registry, t: Thread, id: Id, u: Thread)
    requires Global(r) && t in r.callers && PickEnabled(r, t, r.callers[t], id) && CallerOk(r, t)
    requires u in r.callers && u != t && CallerOk(r, u)
    ensures CallerOk(PickStep(r, t, id), u)
  {
  }

  /** A freshly registered state is open and empty, and no leader exists yet. */
  lemma PickNewBridge(r: Registry, t: Thread, id: Id)
    requires Global(r) && t in r.callers && r.callers[t].Recording?
    requires PickEnabled(r, t, r.callers[t], id) && CallerOk(r, t)
    ensures Global(PickStep(r, t, id)) && BridgeOk(PickStep(r, t, id), id)
  {
    PickGlobal(r, t, id);
    BridgeInvariant.StartInv();
  }

  lemma PickSameBridge(r: Registry, t: Thread, id: Id, j: Id)
    requires Global(r) && t in r.callers && PickEnabled(r, t, r.callers[t], id) && CallerOk(r, t)
    requires j in r.bridges && BridgeOk(r, j) && (r.callers[t].Detaching? ==> j != id)
    requires j != id || !r.callers[t].Recording?
    ensures Global(PickStep(r, t, id)) && BridgeOk(PickStep(r, t, id), j)
  {
    PickGlobal(r, t, id);
    var r' := PickStep(r, t, id);
    assert r'.bridges[j] == r.bridges[j];
    forall u | u in r'.bridges[j].threads ensures StrangersOk(r', j, u) { assert StrangersOk(r, j, u); }
  }

  /** The leader enters the next state of its first loop. */
  lemma PickDetached(r: Registry, t: Thread, id: Id)
    requires Global(r) && t in r.callers && r.callers[t].Detaching?
    requires PickEnabled(r, t, r.callers[t], id) && CallerOk(r, t)
    requires BridgeOk(r, id)
    ensures Global(PickStep(r, t, id)) && BridgeOk(PickStep(r, t, id), id)
  {
    PickGlobal(r, t, id);
    var r' := PickStep(r, t, id);
    BridgeSafety.StepInv(r.bridges[id], B.Spawn(t, B.CloseArriving));
    forall u | u in r'.bridges[id].threads ensures StrangersOk(r', id, u) { assert u != t ==> StrangersOk(r, id, u); }
  }

  lemma PickInv(r: Registry, t: Thread, id: Id)
    requires Inv(r) && Allowed(r, Pick(t, id))
    ensures Inv(PickStep(r, t, id))
  {
    var r' := PickStep(r, t, id);
    PickGlobal(r, t, id);
    forall u | u in r.callers ensures CallerOk(r', u) { if u != t { PickCaller(r, t, id, u); } }
    forall j | j in r'.bridges ensures BridgeOk(r', j) {
      if j == id && r.callers[t].Recording? { PickNewBridge(r, t, id); }
      else if j == id && r.callers[t].Detaching? { PickDetached(r, t, id); }
      else { PickSameBridge(r, t, id, j); }
    }
  }

  lemma InsideStranger(r: Registry, id: Id, step: B.Action, u: Thread)
    requires Global(r) && EnabledInside(r, id, step)
    requires forall v :: v in r.bridges[id].threads ==> StrangersOk(r, id, v)
    requires var b' := B.Apply(r.bridges[id], step); u in b'.threads
    ensures StrangersOk(Perform(r, InBridge(id, step)), id, u)
  {
    var b := r.bridges[id];
    StepTouchesOne(b, step);
    if u != step.thread {
      assert StrangersOk(r, id, u);
    } else if !step.Spawn? {
      assert StrangersOk(r, id, u);
    }
  }

  lemma InsideHandled(r: Registry, id: Id, step: B.Action)
    requires Global(r) && EnabledInside(r, id, step) && BridgeOk(r, id) && r.leader.Some?
    ensures var r' := Perform(r, InBridge(id, step));
            Global(r') && Handled(r', id)
  {
    var b, t := r.bridges[id], r.leader.value;
    StepTouchesOne(b, step);
    if step.thread == t {
      assert !step.Spawn?;
      assert StrangersOk(r, id, t);
      if b.closer.Some? { assert StrangersOk(r, id, b.closer.value); }
      CloserAdvances(b, step);
    }
  }

  lemma InsideInv(r: Registry, id: Id, step: B.Action)
    requires Inv(r) && EnabledInside(r, id, step)
    ensures Inv(Perform(r, InBridge(id, step)))
  {
    var r' := Perform(r, InBridge(id, step));
    assert BridgeOk(r, id);
    assert r'.bridges.Keys == r.bridges.Keys;
    forall u | u in r.callers ensures CallerOk(r', u) { assert CallerOk(r, u); }
    forall j | j in r'.bridges ensures BridgeOk(r', j) {
      assert BridgeOk(r, j);
      if j == id {
        BridgeSafety.StepInv(r.bridges[id], step);
        if r.leader.Some? { InsideHandled(r, id, step); }
        forall u | u in r'.bridges[id].threads ensures StrangersOk(r', id, u) { InsideStranger(r, id, step, u); }
      } else {
        forall u | u in r.bridges[j].threads ensures StrangersOk(r', j, u) { assert StrangersOk(r, j, u); }
      }
    }
  }

  lemma CallInv(r: Registry, t: Thread, caller: Caller)
    requires Inv(r) && Allowed(r, Call(t, caller))
    ensures Inv(r.At(t, caller))
  {
    var r' := r.At(t, caller);
    forall u | u in r'.callers ensures CallerOk(r', u) { assert u != t ==> CallerOk(r, u); }
    forall id | id in r.bridges ensures BridgeOk(r', id) {
      assert BridgeOk(r, id);
      forall u | u in r.bridges[id].threads ensures StrangersOk(r', id, u) { assert StrangersOk(r, id, u); }
    }
  }

  lemma StepInv(r: Registry, a: Action)
    requires Inv(r) && Allowed(r, a)
    ensures Inv(Perform(r, a))
  {
    match a
    case Call(t, caller) => CallInv(r, t, caller);
    case Next(t) => NextInv(r, t);
    case Pick(t, id) => PickInv(r, t, id);
    case InBridge(id, step) => InsideInv(r, id, step);
  }

  lemma {:induction false} RunInv(states: seq<Registry>, actions: seq<Action>, i: nat)
    requires IsRun(states, actions) && i < |states|
    ensures Inv(states[i])
  {
    if i > 0 {
      RunInv(states, actions, i - 1);
      assert Step(states[i - 1], actions[i - 1], states[i]);
      StepInv(states[i - 1], actions[i - 1]);
    }
  }

  // ------------------------------------------------------------------------------------------ main results

  /** No registration slips in after the registry is marked closed. */
  lemma StepKeepsStates(r: Registry, a: Action)
    requires Inv(r) && Allowed(r, a) && r.closed
    ensures Perform(r, a).closed && Perform(r, a).bridges.Keys == r.bridges.Keys
    ensures r.done ==> Perform(r, a).done
  {
    if a.Next? { NextKeepsStates(r, a.thread); }
  }

  lemma NextKeepsStates(r: Registry, t: Thread)
    requires t in r.callers && NextEnabled(r, t, r.callers[t]) && r.closed
    ensures NextStep(r, t).closed && NextStep(r, t).bridges == r.bridges
    ensures r.done ==> NextStep(r, t).done
  {
  }

  /** When any close returns, no matter which of several concurrent ones, every scenario state ever registered is
      closed, quiescent and cleared, and it stays so in every continuation of the run. */
  lemma CloseReturnsQuiescent(states: seq<Registry>, actions: seq<Action>, i: nat, j: nat, t: Thread)
    requires IsRun(states, actions) && i <= j < |states|
    requires t in states[i].callers && states[i].callers[t].CloseDone?
    ensures states[j].bridges.Keys == states[i].bridges.Keys
    ensures forall id :: id in states[j].bridges ==> BridgeSafety.Quiescent(states[j].bridges[id])
    decreases j - i
  {
    RunInv(states, actions, i);
    assert CallerOk(states[i], t);
    DoneStays(states, actions, i, j);
    RunInv(states, actions, j);
    var r := states[j];
    forall id | id in r.bridges ensures BridgeSafety.Quiescent(r.bridges[id]) {
      assert BridgeOk(r, id) && Handled(r, id);
      BridgeSafety.ClosedIsQuiescent(r.bridges[id], r.leader.value);
    }
  }

  lemma {:induction false} DoneStays(states: seq<Registry>, actions: seq<Action>, i: nat, j: nat)
    requires IsRun(states, actions) && i <= j < |states| && states[i].done
    ensures states[j].done && states[j].bridges.Keys == states[i].bridges.Keys
    decreases j - i
  {
    RunInv(states, actions, i);
    if i < j {
      assert Step(states[i], actions[i], states[i + 1]);
      StepKeepsStates(states[i], actions[i]);
      DoneStays(states, actions, i + 1, j);
    }
  }

  /** A step of a closed registry gives no registration an identifier. */
  lemma StepRefuses(r: Registry, a: Action, t: Thread)
    requires Allowed(r, a) && r.closed && !HasIdentifier(r, t)
    ensures !HasIdentifier(Perform(r, a), t)
  {
    if a.Next? { NextRefuses(r, a.thread, t); }
  }

  lemma NextRefuses(r: Registry, u: Thread, t: Thread)
    requires u in r.callers && NextEnabled(r, u, r.callers[u]) && r.closed && !HasIdentifier(r, t)
    ensures !HasIdentifier(NextStep(r, u), t)
  {
  }

  predicate HasIdentifier(r: Registry, t: Thread) {
    t in r.callers && r.callers[t].Registered? && r.callers[t].id.Some?
  }

  /** A registration that has no identifier when the registry is closed, even one that has begun, never gets one: in
      every continuation of the run it can only end with the empty identifier. */
  lemma {:induction false} LateRegistrationIsRefused(states: seq<Registry>, actions: seq<Action>, i: nat, j: nat,
                                                     t: Thread)
    requires IsRun(states, actions) && i <= j < |states| && states[i].closed && !HasIdentifier(states[i], t)
    ensures states[j].closed && !HasIdentifier(states[j], t)
    decreases j - i
  {
    if i < j {
      RunInv(states, actions, i);
      assert Step(states[i], actions[i], states[i + 1]);
      StepKeepsStates(states[i], actions[i]);
      StepRefuses(states[i], actions[i], t);
      LateRegistrationIsRefused(states, actions, i + 1, j, t);
    }
  }
}
