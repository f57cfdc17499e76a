/** Every run keeps the invariant, and what follows from it. */
module BridgeSafety {
  import opened Wrappers
  import opened BridgeTables
  import opened BridgeProtocol
  import opened BridgeInvariant

  /** The part of the invariant that is not about the log as a whole. */
  ghost predicate Core(b: Bridge) {
    && Shape(b) && Global(b) && CountOk(b)
    && (forall t :: t in b.threads ==> ThreadOk(b, t))
    && (forall i :: 0 <= i < |b.owner| ==> HolderOk(b, i) && PlaceOk(b, i) && DataOk(b, i))
    && (forall k :: KeyOk(b, k))
  }

  /** The facts of the invariant about one thread. */
  lemma Pick(b: Bridge, t: Thread)
    requires Inv(b) && t in b.threads
    ensures ThreadOk(b, t) && CountedIn(b, t)
    ensures forall i :: 0 <= i < |b.owner| ==> Apart(b, t, i)
  {
    InFlightUpdate(b.threads, t, b.threads[t]);
  }

  /** Two callbacks never run on one key: their threads would hold the same instance. */
  lemma OneCallback(b: Bridge, t: Thread, u: Thread)
    requires Inv(b) && t in b.threads && u in b.threads && t != u
    requires HasAdmission(b.threads[t]) && b.threads[u].Running?
    ensures b.threads[t].key != b.threads[u].key
  {
    Pick(b, t);
    Pick(b, u);
  }

  /** A key that is neither active nor completed never had an instance. */
  lemma NeverOwned(b: Bridge, t: Thread)
    requires Inv(b) && t in b.threads && b.threads[t].Entering?
    requires !b.tables.closed && b.threads[t].key !in b.tables.completed && b.threads[t].key !in b.tables.active
    ensures b.threads[t].key !in b.owner
  {
    forall i | 0 <= i < |b.owner| ensures b.owner[i] != b.threads[t].key { assert PlaceOk(b, i); }
  }

  lemma ArriveCore(b: Bridge, b': Bridge, t: Thread)
    requires Inv(b) && t in b.threads && Arrives(b.threads[t]) && !Blocked(b, b.threads[t])
    requires b' == Arrive(b, t)
    ensures Core(b')
  {
    Pick(b, t);
    ArriveShape(b, b', t);
    ArriveGlobal(b, b', t);
    ArriveActor(b, b', t);
    forall u | u in b.threads && u != t ensures ThreadOk(b', u) {
      ArriveOther(b, b', t, u);
    }
    forall k ensures KeyOk(b', k) { ArriveKey(b, b', t, k); }
    forall i | 0 <= i < |b.owner| ensures HolderOk(b', i) && PlaceOk(b', i) && DataOk(b', i) {
      ArriveHolder(b, b', t, i);
      ArrivePlace(b, b', t, i);
      ArriveData(b, b', t, i);
    }
  }

  lemma EnterCore(b: Bridge, b': Bridge, t: Thread)
    requires Inv(b) && t in b.threads && b.threads[t].Entering?
    requires b' == EnterStep(b, t)
    ensures Core(b')
  {
    Pick(b, t);
    EnterShape(b, b', t);
    EnterGlobal(b, b', t);
    EnterActor(b, b', t);
    forall u | u in b.threads && u != t ensures ThreadOk(b', u) {
      EnterOther(b, b', t, u);
    }
    forall k ensures KeyOk(b', k) { EnterKey(b, b', t, k); }
    forall i | 0 <= i < |b.owner| ensures HolderOk(b', i) && PlaceOk(b', i) && DataOk(b', i) {
      EnterHolder(b, b', t, i);
      EnterPlace(b, b', t, i);
      EnterData(b, b', t, i);
    }
    if |b'.owner| > |b.owner| { NeverOwned(b, t); NewInstance(b, b', t); }
  }

  lemma DecideCore(b: Bridge, b': Bridge, t: Thread)
    requires Inv(b) && t in b.threads && Decides(b.threads[t]) && !Blocked(b, b.threads[t])
    requires b' == Decide(b, t)
    ensures Core(b')
  {
    Pick(b, t);
    DecideShape(b, b', t);
    DecideGlobal(b, b', t);
    DecideActor(b, b', t);
    forall u | u in b.threads && u != t ensures ThreadOk(b', u) {
      if b.threads[u].Running? && |b'.log| > |b.log| {
        LastEvent(b.log, b'.log, b.threads[u].key);
        if HasAdmission(b.threads[t]) { OneCallback(b, t, u); }
      }
      DecideOther(b, b', t, u);
    }
    forall k ensures KeyOk(b', k) { DecideKey(b, b', t, k); }
    forall i | 0 <= i < |b.owner| ensures HolderOk(b', i) && PlaceOk(b', i) && DataOk(b', i) {
      DecideHolder(b, b', t, i);
      DecidePlace(b, b', t, i);
      DecideData(b, b', t, i);
    }
  }

  lemma FinishCore(b: Bridge, b': Bridge, t: Thread, left: Data, ok: bool)
    requires Inv(b) && t in b.threads && b.threads[t].Running?
    requires b' == FinishCallback(b, t, left, ok)
    ensures Core(b')
  {
    Pick(b, t);
    FinishShape(b, b', t, left, ok);
    FinishGlobal(b, b', t, left, ok);
    FinishActor(b, b', t, left, ok);
    forall u | u in b.threads && u != t ensures ThreadOk(b', u) {
      if b.threads[u].Running? && |b'.log| > |b.log| {
        LastEvent(b.log, b'.log, b.threads[u].key);
        if HasAdmission(b.threads[t]) { OneCallback(b, t, u); }
      }
      FinishOther(b, b', t, left, ok, u);
    }
    forall k ensures KeyOk(b', k) { FinishKey(b, b', t, left, ok, k); }
    forall i | 0 <= i < |b.owner| ensures HolderOk(b', i) && PlaceOk(b', i) && DataOk(b', i) {
      FinishHolder(b, b', t, left, ok, i);
      FinishPlace(b, b', t, left, ok, i);
      FinishData(b, b', t, left, ok, i);
    }
  }

  lemma DepartCore(b: Bridge, b': Bridge, t: Thread)
    requires Inv(b) && t in b.threads && Departs(b.threads[t]) && !Blocked(b, b.threads[t])
    requires b' == Depart(b, t)
    ensures Core(b')
  {
    Pick(b, t);
    DepartShape(b, b', t);
    DepartGlobal(b, b', t);
    DepartActor(b, b', t);
    forall u | u in b.threads && u != t ensures ThreadOk(b', u) {
      if b.threads[u].Running? && |b'.log| > |b.log| { LastEvent(b.log, b'.log, b.threads[u].key); }
      DepartOther(b, b', t, u);
    }
    forall k ensures KeyOk(b', k) { DepartKey(b, b', t, k); }
    forall i | 0 <= i < |b.owner| ensures HolderOk(b', i) && PlaceOk(b', i) && DataOk(b', i) {
      DepartHolder(b, b', t, i);
      DepartPlace(b, b', t, i);
      DepartData(b, b', t, i);
    }
  }

  lemma DetachCore(b: Bridge, b': Bridge, t: Thread)
    requires Inv(b) && t in b.threads && Detaches(b.threads[t]) && !Blocked(b, b.threads[t])
    requires b' == DetachStep(b, t)
    ensures Core(b')
  {
    Pick(b, t);
    DetachShape(b, b', t);
    DetachGlobal(b, b', t);
    DetachActor(b, b', t);
    forall u | u in b.threads && u != t ensures ThreadOk(b', u) {
      if b.threads[u].Running? && |b'.log| > |b.log| { LastEvent(b.log, b'.log, b.threads[u].key); }
      DetachOther(b, b', t, u);
    }
    forall k ensures KeyOk(b', k) { DetachKey(b, b', t, k); }
    forall i | 0 <= i < |b.owner| ensures HolderOk(b', i) && PlaceOk(b', i) && DataOk(b', i) {
      DetachHolder(b, b', t, i);
      DetachPlace(b, b', t, i);
      DetachData(b, b', t, i);
    }
  }

  lemma WipeCore(b: Bridge, b': Bridge, t: Thread, next: Instance)
    requires Inv(b) && t in b.threads && Wipes(b.threads[t]) && MayWipe(b, t, next)
    requires b' == WipeStep(b, t, next)
    ensures Core(b')
  {
    Pick(b, t);
    WipeShape(b, b', t, next);
    WipeGlobal(b, b', t, next);
    WipeActor(b, b', t, next);
    forall u | u in b.threads && u != t ensures ThreadOk(b', u) {
      WipeOther(b, b', t, next, u);
    }
    forall k ensures KeyOk(b', k) { WipeKey(b, b', t, next, k); }
    forall i | 0 <= i < |b.owner| ensures HolderOk(b', i) && PlaceOk(b', i) && DataOk(b', i) {
      WipeHolder(b, b', t, next, i);
      WipePlace(b, b', t, next, i);
      WipeData(b, b', t, next, i);
    }
  }

  lemma SpawnCore(b: Bridge, b': Bridge, t: Thread, pc: Pc)
    requires Inv(b) && t !in b.threads && (pc.Arriving? || pc.CloseArriving?) && b' == b.Begin(t, pc)
    ensures Core(b')
  {
    SpawnGlobal(b, b', t, pc);
    forall u | u in b'.threads ensures ThreadOk(b', u) { SpawnThread(b, b', t, pc, u); }
    forall k ensures KeyOk(b', k) { assert KeyOk(b, k); }
    forall i | 0 <= i < |b.owner| ensures HolderOk(b', i) && PlaceOk(b', i) && DataOk(b', i) {
      SpawnInstance(b, b', t, pc, i);
    }
  }

  lemma SpawnGlobal(b: Bridge, b': Bridge, t: Thread, pc: Pc)
    requires Shape(b) && Global(b) && CountOk(b)
    requires t !in b.threads && (pc.Arriving? || pc.CloseArriving?) && b' == b.Begin(t, pc)
    ensures Shape(b') && Global(b') && CountOk(b')
  {
    InFlightUpdate(b.threads, t, pc);
  }

  lemma SpawnThread(b: Bridge, b': Bridge, t: Thread, pc: Pc, u: Thread)
    requires Inv(b) && t !in b.threads && (pc.Arriving? || pc.CloseArriving?) && b' == b.Begin(t, pc)
    requires u in b'.threads
    ensures Shape(b') && ThreadOk(b', u)
  {
    assert u != t ==> ThreadOk(b, u);
  }

  lemma SpawnInstance(b: Bridge, b': Bridge, t: Thread, pc: Pc, i: Instance)
    requires Shape(b) && Global(b) && Shape(b') && Global(b')
    requires t !in b.threads && (pc.Arriving? || pc.CloseArriving?) && b' == b.Begin(t, pc)
    requires i < |b.owner| && HolderOk(b, i) && PlaceOk(b, i) && DataOk(b, i)
    ensures HolderOk(b', i) && PlaceOk(b', i) && DataOk(b', i)
  {
  }

  lemma StepCore(b: Bridge, a: Action)
    requires Inv(b) && Enabled(b, a)
    ensures Core(Apply(b, a))
  {
    var b' := Apply(b, a);
    match a
    case Spawn(t, pc) => SpawnCore(b, b', t, pc);
    case Finish(t, left, ok) => FinishCore(b, b', t, left, ok);
    case Wipe(t, i) => WipeCore(b, b', t, i);
    case Advance(t) =>
      var pc := b.threads[t];
      if Arrives(pc) { ArriveCore(b, b', t); }
      else if pc.Entering? { EnterCore(b, b', t); }
      else if Decides(pc) { DecideCore(b, b', t); }
      else if Departs(pc) { DepartCore(b, b', t); }
      else if Detaches(pc) { DetachCore(b, b', t); }
      else { WipeCore(b, b', t, 0); }
  }

  /** The log and the instances only grow. */
  ghost predicate Extends(b: Bridge, b': Bridge) {
    b.log <= b'.log && b.owner <= b'.owner
  }

  /** What one step adds to the log, and when. */
  lemma StepLog(b: Bridge, a: Action)
    requires Shape(b) && Enabled(b, a)
    ensures var b' := Apply(b, a);
            && Extends(b, b')
            && |b'.log| <= |b.log| + 1
            && (|b'.log| > |b.log| ==>
                  && a.thread in b.threads
                  && var e, pc := b'.log[|b.log|], b.threads[a.thread];
                     match e {
                       case Admission(t, k, kind) =>
                         && t == a.thread && pc.Deciding? && k == pc.key && kind == pc.kind
                         && StillCurrent(b.tables, k, pc.instance)
                       case Began(t, k, seen) =>
                         t == a.thread && pc.Admitted? && k == pc.key && seen == b.data[pc.instance]
                       case Ended(t, k, _, _) => t == a.thread && pc.Running? && k == pc.key
                       case Cleaned(t, k) =>
                         t == a.thread && pc.Completing? && k == pc.key && b'.tables == Complete(b.tables, k)
                       case CloseBegan(_) => b'.tables.closed
                     })
  {
  }

  lemma StepDisjoint(b: Bridge, a: Action)
    requires Inv(b) && Enabled(b, a)
    ensures Apply(b, a).tables.active.Keys !! Apply(b, a).tables.completed
  {
    var b' := Apply(b, a);
    StepCore(b, a);
    forall k | k in b'.tables.active ensures k !in b'.tables.completed { assert KeyOk(b', k); }
  }

  /** Tables move one way: while the state is open a key is only added, or moved from active to completed; once
      closed it stays closed, and the in-flight count never rises again. */
  predicate Moved(tables: Tables<Instance>, tables': Tables<Instance>) {
    && (tables.closed ==> tables'.closed && tables'.inFlight <= tables.inFlight)
    && (!tables'.closed ==>
          && tables.completed <= tables'.completed
          && tables.active.Keys <= tables'.active.Keys + tables'.completed
          && forall k :: k in tables.active && k in tables'.active ==> tables'.active[k] == tables.active[k])
  }

  lemma EntrantMoves(b: Bridge, t: Thread)
    requires Shape(b) && Enabled(b, Advance(t))
    requires var pc := b.threads[t]; Arrives(pc) || pc.Entering? || Decides(pc)
    ensures Moved(b.tables, Apply(b, Advance(t)).tables)
  {
  }

  lemma LeaverMoves(b: Bridge, a: Action)
    requires Shape(b) && Enabled(b, a) && (a.Finish? || (a.Advance? && Departs(b.threads[a.thread])))
    ensures Moved(b.tables, Apply(b, a).tables)
  {
  }

  lemma CloserMoves(b: Bridge, a: Action)
    requires Shape(b) && Enabled(b, a) && !a.Spawn? && !Worker(b.threads[a.thread])
    ensures Moved(b.tables, Apply(b, a).tables)
  {
  }

  lemma StepTables(b: Bridge, a: Action)
    requires Inv(b) && Enabled(b, a)
    ensures Moved(b.tables, Apply(b, a).tables)
    ensures !Apply(b, a).tables.closed ==> Apply(b, a).tables.active.Keys !! Apply(b, a).tables.completed
  {
    StepDisjoint(b, a);
    if !a.Spawn? {
      var pc := b.threads[a.thread];
      if a.Advance? && (Arrives(pc) || pc.Entering? || Decides(pc)) { EntrantMoves(b, a.thread); }
      else if a.Finish? || (a.Advance? && Departs(pc)) { LeaverMoves(b, a); }
      else { CloserMoves(b, a); }
    }
  }

  /** A callback that begins has no rival, and is handed what the last one left. */
  lemma BeginsInOrder(b: Bridge, t: Thread)
    requires Inv(b) && t in b.threads && b.threads[t].Admitted?
    ensures RunningOn(b.log, b.threads[t].key) == None
    ensures b.data[b.threads[t].instance] == LastLeft(b.log, b.threads[t].key)
  {
    Pick(b, t);
    var key, i := b.threads[t].key, b.threads[t].instance;
    assert KeyOk(b, key);
    if RunningOn(b.log, key).Some? {
      OneCallback(b, t, RunningOn(b.log, key).value);
    }
    assert DataOk(b, i) && Callable(b, i);
  }

  lemma StepHistory(b: Bridge, a: Action)
    requires Inv(b) && Enabled(b, a)
    ensures HistoryOk(Apply(b, a))
  {
    var b' := Apply(b, a);
    StepLog(b, a);
    StepTables(b, a);
    if |b'.log| > |b.log| {
      var e := b'.log[|b.log|];
      if e.Began? { BeginsInOrder(b, a.thread); }
      DisciplineGrows(b.log, e);
      assert b'.log == b.log + [e];
    } else {
      assert b'.log == b.log;
    }
  }

  lemma StepOwners(b: Bridge, a: Action)
    requires Inv(b) && Enabled(b, a)
    ensures OneInstancePerKey(Apply(b, a))
  {
    var b' := Apply(b, a);
    if |b'.owner| > |b.owner| {
      NeverOwned(b, a.thread);
      assert b'.owner == b.owner + [b.threads[a.thread].key];
    }
  }

  /** Instances are detached all at once, and none is forgotten. */
  predicate DetachesAll(b: Bridge, b': Bridge) {
    |b.owner| <= |b'.owner| && (b'.detached == b.detached || b'.detached == b.tables.active.Values)
  }

  lemma DetachesActive(b: Bridge, a: Action)
    requires Shape(b) && Enabled(b, a)
    ensures DetachesAll(b, Apply(b, a))
  {
    if !a.Spawn? {
      var pc := b.threads[a.thread];
      if a.Advance? && Detaches(pc) { DetacherDetaches(b, a.thread); } else { OthersDetachNothing(b, a); }
    }
  }

  lemma DetacherDetaches(b: Bridge, t: Thread)
    requires Shape(b) && Enabled(b, Advance(t)) && Detaches(b.threads[t])
    ensures DetachesAll(b, Apply(b, Advance(t)))
  {
  }

  lemma OthersDetachNothing(b: Bridge, a: Action)
    requires Shape(b) && Enabled(b, a) && !a.Spawn? && !(a.Advance? && Detaches(b.threads[a.thread]))
    ensures DetachesAll(b, Apply(b, a))
  {
  }

  lemma StepDetached(b: Bridge, a: Action)
    requires Inv(b) && Enabled(b, a)
    ensures forall i :: i in Apply(b, a).detached ==> i < |Apply(b, a).owner|
  {
    DetachesActive(b, a);
    forall i | i in b.tables.active.Values ensures i < |b.owner| {
      var k :| k in b.tables.active && b.tables.active[k] == i;
      assert KeyOk(b, k);
    }
  }

  lemma StepInv(b: Bridge, a: Action)
    requires Inv(b) && Enabled(b, a)
    ensures Inv(Apply(b, a))
  {
    StepCore(b, a);
    StepHistory(b, a);
    StepOwners(b, a);
    StepDetached(b, a);
  }

  lemma {:induction false} RunInv(states: seq<Bridge>, actions: seq<Action>, i: nat)
    requires IsRun(states, actions) && i < |states|
    ensures Inv(states[i])
  {
    if i == 0 {
      StartInv();
    } else {
      RunInv(states, actions, i - 1);
      assert Step(states[i - 1], actions[i - 1], states[i]);
      StepInv(states[i - 1], actions[i - 1]);
    }
  }

  lemma {:induction false} RunExtends(states: seq<Bridge>, actions: seq<Action>, i: nat, j: nat)
    requires IsRun(states, actions) && i <= j < |states|
    ensures Extends(states[i], states[j])
    decreases j - i
  {
    if i < j {
      assert Step(states[i], actions[i], states[i + 1]);
      StepLog(states[i], actions[i]);
      RunExtends(states, actions, i + 1, j);
    }
  }

  // ------------------------------------------------------------------------------------------ main results

  ghost predicate OneCallbackPerKey(b: Bridge) {
    forall t, u :: t in b.threads && u in b.threads && b.threads[t].Running? && b.threads[u].Running? && t != u ==>
      b.threads[t].key != b.threads[u].key
  }

  /** In every run at most one callback is running on a key, no key ever gets a second instance, and each
      callback sees exactly what the previous one on its key left, starting from empty data. */
  lemma CallbacksAreSerial(states: seq<Bridge>, actions: seq<Action>, i: nat)
    requires IsRun(states, actions) && i < |states|
    ensures OneCallbackPerKey(states[i]) && OneInstancePerKey(states[i]) && Disciplined(states[i].log)
  {
    RunInv(states, actions, i);
    var b := states[i];
    forall t, u | t in b.threads && u in b.threads && b.threads[t].Running? && b.threads[u].Running? && t != u
      ensures b.threads[t].key != b.threads[u].key
    {
      OneCallback(b, t, u);
    }
  }

  /** In every run, once a clean of a key has succeeded no admission on that key follows, and once a close has
      begun no admission at all: not by threads that were queued before, not when the close overtakes the
      clean. */
  lemma NoLateAdmissions(states: seq<Bridge>, actions: seq<Action>, i: nat)
    requires IsRun(states, actions) && i < |states|
    ensures NoAdmissionAfterClean(states[i].log) && NoAdmissionAfterClose(states[i].log)
  {
    RunInv(states, actions, i);
  }

  /** The wait group counts exactly the threads between admission and release. It never goes negative, which
      would panic, and from a close on it only falls. */
  lemma CountIsExact(states: seq<Bridge>, actions: seq<Action>, i: nat, j: nat)
    requires IsRun(states, actions) && i <= j < |states|
    ensures states[j].tables.inFlight == |InFlight(states[j].threads)| >= 0
    ensures states[i].tables.closed ==>
              states[j].tables.closed && states[j].tables.inFlight <= states[i].tables.inFlight
    decreases j - i
  {
    RunInv(states, actions, i);
    RunInv(states, actions, j);
    if i < j {
      assert Step(states[i], actions[i], states[i + 1]);
      StepTables(states[i], actions[i]);
      CountIsExact(states, actions, i + 1, j);
    }
  }

  /** No thread is between admission and release, and all data is gone. */
  ghost predicate Quiescent(b: Bridge) {
    && b.tables.closed && b.tables.inFlight == 0
    && (forall t :: t in b.threads ==> !IsInFlight(b.threads[t]))
    && |b.data| == |b.owner| && (forall i :: 0 <= i < |b.data| ==> b.data[i] == map[])
  }

  lemma ClosedIsQuiescent(b: Bridge, t: Thread)
    requires Inv(b) && t in b.threads && b.threads[t] == CloseReturned(true)
    ensures Quiescent(b)
  {
    Pick(b, t);
    forall u | u in b.threads ensures !IsInFlight(b.threads[u]) { InFlightUpdate(b.threads, u, b.threads[u]); }
    forall i | 0 <= i < |b.data| ensures b.data[i] == map[] { assert PlaceOk(b, i); }
  }

  /** From the moment the first close returns, in every continuation of the run, no callback is running, none
      ever will, and every instance ever created has empty data. */
  lemma CloseIsFinal(states: seq<Bridge>, actions: seq<Action>, i: nat, j: nat, t: Thread)
    requires IsRun(states, actions) && i <= j < |states|
    requires t in states[i].threads && states[i].threads[t] == CloseReturned(true)
    ensures Quiescent(states[j])
    ensures t in states[j].threads && states[j].threads[t] == CloseReturned(true)
    decreases j - i
  {
    RunInv(states, actions, i);
    if i == j {
      ClosedIsQuiescent(states[i], t);
    } else {
      assert Step(states[i], actions[i], states[i + 1]);
      CloseIsFinal(states, actions, i + 1, j, t);
    }
  }
}
