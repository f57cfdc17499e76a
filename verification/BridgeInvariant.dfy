/** The inductive invariant of the bridge protocol, told thread by thread, instance by instance and key by key,
    so that each part of a step touches ground facts only. */
module BridgeInvariant {
  import opened Wrappers
  import opened BridgeTables
  import opened BridgeProtocol

  /** What the first closer has still to clear. */
  function Todo(b: Bridge): set<Instance>
    requires b.closer.Some? ==> b.closer.value in b.threads
  {
    if b.closer == None then b.detached
    else
      match b.threads[b.closer.value]
      case Wiping(todo) => todo
      case WipingLocked(todo, _) => todo
      case CloseReturned(_) => {}
      case _ => b.detached
  }

  /** Past the wait for the in-flight count. */
  predicate PastWait(pc: Pc) { ClosedFirst(pc) && !pc.Waiting? }

  predicate Global(b: Bridge) {
    && (b.mutex.Some? ==> b.mutex.value in b.threads)
    && (b.tables.closed <==> b.closer.Some?)
    && (b.closer.Some? ==> b.closer.value in b.threads && ClosedFirst(b.threads[b.closer.value]))
    && (b.tables.closed ==> b.tables.active == map[] && b.tables.completed == {})
    && (b.closer.Some? && PastWait(b.threads[b.closer.value]) ==> b.tables.inFlight == 0)
  }

  predicate CountOk(b: Bridge) {
    b.tables.inFlight == |InFlight(b.threads)|
  }

  /** A thread holds just the locks its counter says; with an admission it works on the current instance of its
      key, or on a detached one; only the first closer is past `beginClose`. */
  predicate ThreadOk(b: Bridge, t: Thread)
    requires Shape(b) && t in b.threads
  {
    var pc := b.threads[t];
    && (b.mutex == Some(t) <==> HoldsMutex(pc))
    && (HoldsInstance(pc) ==> b.holder[pc.instance] == Some(t))
    && (Worker(pc) && HasInstance(pc) ==> b.owner[pc.instance] == pc.key)
    && (HasAdmission(pc) ==>
          if b.tables.closed then pc.instance in b.detached
          else pc.key in b.tables.active && b.tables.active[pc.key] == pc.instance)
    && (pc.Sealing? || pc.Completing? ==> b.data[pc.instance] == map[])
    && (pc.Running? ==> RunningOn(b.log, pc.key) == Some(t))
    && (ClosedFirst(pc) ==> b.closer == Some(t))
    && (pc.WipingLocked? ==> pc.instance in pc.todo)
    && (pc.Wiping? || pc.WipingLocked? ==> pc.todo <= b.detached)
  }

  /** The next callback on instance `i` may still begin, or is running now. */
  predicate Callable(b: Bridge, i: Instance)
    requires Shape(b) && i < |b.owner|
  {
    if b.holder[i].Some? && b.holder[i].value in b.threads && HasAdmission(b.threads[b.holder[i].value])
    then b.threads[b.holder[i].value].Admitted? || b.threads[b.holder[i].value].Running?
    else StillCurrent(b.tables, b.owner[i], i)
  }

  /** A locked instance is held by the thread whose counter says so. */
  predicate HolderOk(b: Bridge, i: Instance)
    requires Shape(b) && i < |b.owner|
  {
    b.holder[i].Some? ==>
      && b.holder[i].value in b.threads
      && HoldsInstance(b.threads[b.holder[i].value])
      && b.threads[b.holder[i].value].instance == i
  }

  /** An instance is active, or retired with its data cleared; after a close, still to be cleared or cleared. */
  predicate PlaceOk(b: Bridge, i: Instance)
    requires Shape(b) && Global(b) && i < |b.owner|
  {
    if b.tables.closed then i in Todo(b) || b.data[i] == map[]
    else if b.owner[i] in b.tables.completed then b.data[i] == map[]
    else b.owner[i] in b.tables.active && b.tables.active[b.owner[i]] == i
  }

  /** The next callback will see what the last one left. */
  predicate DataOk(b: Bridge, i: Instance)
    requires Shape(b) && i < |b.owner|
  {
    Callable(b, i) ==> b.data[i] == LastLeft(b.log, b.owner[i])
  }

  predicate KeyOk(b: Bridge, k: Key) {
    && (k in b.tables.active ==>
          && k !in b.tables.completed
          && b.tables.active[k] < |b.owner| && b.owner[b.tables.active[k]] == k)
    && (RunningOn(b.log, k).Some? ==>
          && RunningOn(b.log, k).value in b.threads
          && b.threads[RunningOn(b.log, k).value].Running?
          && b.threads[RunningOn(b.log, k).value].key == k)
    && (k !in b.owner ==> LastLeft(b.log, k) == map[])
  }

  /** No key ever gets a second instance. */
  ghost predicate OneInstancePerKey(b: Bridge) {
    forall i, j :: 0 <= i < j < |b.owner| ==> b.owner[i] != b.owner[j]
  }

  ghost predicate HistoryOk(b: Bridge) {
    && Disciplined(b.log)
    && NoAdmissionAfterClean(b.log)
    && NoAdmissionAfterClose(b.log)
    && (forall j :: 0 <= j < |b.log| && b.log[j].Cleaned? ==> b.tables.closed || b.log[j].key in b.tables.completed)
    && (forall j :: 0 <= j < |b.log| && b.log[j].CloseBegan? ==> b.tables.closed)
  }

  ghost predicate Inv(b: Bridge) {
    && Shape(b) && Global(b) && CountOk(b) && OneInstancePerKey(b) && HistoryOk(b)
    && (forall t :: t in b.threads ==> ThreadOk(b, t))
    && (forall i :: 0 <= i < |b.owner| ==> HolderOk(b, i) && PlaceOk(b, i) && DataOk(b, i))
    && (forall k :: KeyOk(b, k))
    && (forall i :: i in b.detached ==> i < |b.owner|)
  }

  lemma StartInv()
    ensures Inv(Start)
  {
    assert InFlight(Start.threads) == {};
  }

  lemma InFlightUpdate(threads: map<Thread, Pc>, t: Thread, pc: Pc)
    ensures |InFlight(threads[t := pc])| ==
            |InFlight(threads)|
            + (if IsInFlight(pc) then 1 else 0)
            - (if t in threads && IsInFlight(threads[t]) then 1 else 0)
    ensures t in threads && IsInFlight(threads[t]) ==> |InFlight(threads)| > 0
  {
    var before, after := InFlight(threads), InFlight(threads[t := pc]);
    assert after == if IsInFlight(pc) then before + {t} else before - {t};
    assert t in before <==> t in threads && IsInFlight(threads[t]);
  }

  // ------------------------------------------------------------------------------------- one step, part by part

  predicate CountedIn(b: Bridge, t: Thread)
    requires t in b.threads
  {
    IsInFlight(b.threads[t]) ==> b.tables.inFlight > 0
  }

  /** Instance `i` is the one thread `t` works on, or belongs to another key. */
  predicate Apart(b: Bridge, t: Thread, i: Instance)
    requires Shape(b) && t in b.threads && i < |b.owner|
  {
    HasInstance(b.threads[t]) && i != b.threads[t].instance ==> b.owner[i] != b.owner[b.threads[t].instance]
  }

  /** A step of `t` does not disturb what the log says of a callback of `u`. */
  predicate KeepsRunning(b: Bridge, b': Bridge, t: Thread, u: Thread)
    requires u in b.threads
  {
    u != t && b.threads[u].Running? ==> RunningOn(b'.log, b.threads[u].key) == Some(u)
  }

  lemma LastEvent(log: seq<Event>, log': seq<Event>, key: Key)
    requires |log'| == |log| + 1 && log'[..|log|] == log
    ensures var e := log'[|log|];
            && LastLeft(log', key) == (if e.Ended? && e.key == key then e.left else LastLeft(log, key))
            && RunningOn(log', key) == (if e.Began? && e.key == key then Some(e.thread)
                                        else if e.Ended? && e.key == key then None
                                        else RunningOn(log, key))
  {
    assert log' == log + [log'[|log|]];
    LogGrows(log, log'[|log|], key);
  }

  /** The wait is over, and the next instance, if there is one, is free. */
  predicate MayWipe(b: Bridge, t: Thread, next: Instance)
    requires Shape(b) && t in b.threads
  {
    var pc := b.threads[t];
    && (pc.Waiting? ==> b.tables.inFlight == 0)
    && (pc.Wiping? && pc.todo != {} ==> next in pc.todo && next < |b.owner| && b.holder[next] == None)
  }

  /** Thread `t` takes the first lock it waits for. */
  predicate Arrived(b: Bridge, b': Bridge, t: Thread) {
    && Shape(b) && t in b.threads && ThreadOk(b, t) && Arrives(b.threads[t]) && !Blocked(b, b.threads[t])
    && b' == Arrive(b, t)
  }

  lemma ArriveShape(b: Bridge, b': Bridge, t: Thread)
    requires Arrived(b, b', t)
    ensures Shape(b')
  {
  }

  lemma ArriveGlobal(b: Bridge, b': Bridge, t: Thread)
    requires Arrived(b, b', t)
    requires Global(b) && CountOk(b) && CountedIn(b, t)
    ensures Global(b') && CountOk(b')
  {
    InFlightUpdate(b.threads, t, b'.threads[t]);
    assert b'.threads == b.threads[t := b'.threads[t]];
  }

  lemma ArriveKey(b: Bridge, b': Bridge, t: Thread, k: Key)
    requires Arrived(b, b', t)
    requires KeyOk(b, k)
    ensures KeyOk(b', k)
  {
  }

  lemma ArriveActor(b: Bridge, b': Bridge, t: Thread)
    requires Arrived(b, b', t)
    requires Shape(b') && Global(b) && KeepsRunning(b, b', t, t)
    ensures ThreadOk(b', t)
  {
  }

  lemma ArriveOther(b: Bridge, b': Bridge, t: Thread, u: Thread)
    requires Arrived(b, b', t)
    requires Shape(b') && Global(b) && u in b.threads && u != t && ThreadOk(b, u) && KeepsRunning(b, b', t, u)
    ensures ThreadOk(b', u)
  {
  }

  lemma ArriveHolder(b: Bridge, b': Bridge, t: Thread, i: Instance)
    requires Arrived(b, b', t)
    requires Shape(b') && i < |b.owner| && HolderOk(b, i)
    ensures HolderOk(b', i)
  {
  }

  lemma ArrivePlace(b: Bridge, b': Bridge, t: Thread, i: Instance)
    requires Arrived(b, b', t)
    requires Shape(b') && Global(b) && Global(b') && CountedIn(b, t) && i < |b.owner|
    requires HolderOk(b, i) && PlaceOk(b, i) && Apart(b, t, i)
    ensures PlaceOk(b', i)
  {
  }

  lemma ArriveData(b: Bridge, b': Bridge, t: Thread, i: Instance)
    requires Arrived(b, b', t)
    requires Shape(b') && i < |b.owner| && HolderOk(b, i) && DataOk(b, i) && Apart(b, t, i)
    ensures DataOk(b', i)
  {
  }

  /** Thread `t` makes the first critical section of an admission. */
  predicate Entered(b: Bridge, b': Bridge, t: Thread) {
    && Shape(b) && t in b.threads && ThreadOk(b, t) && b.threads[t].Entering?
    && b' == EnterStep(b, t)
  }

  lemma EnterShape(b: Bridge, b': Bridge, t: Thread)
    requires Entered(b, b', t)
    requires KeyOk(b, b.threads[t].key)
    ensures Shape(b')
  {
  }

  lemma EnterGlobal(b: Bridge, b': Bridge, t: Thread)
    requires Entered(b, b', t)
    requires Global(b) && CountOk(b) && CountedIn(b, t)
    ensures Global(b') && CountOk(b')
  {
    InFlightUpdate(b.threads, t, b'.threads[t]);
    assert b'.threads == b.threads[t := b'.threads[t]];
  }

  lemma EnterKey(b: Bridge, b': Bridge, t: Thread, k: Key)
    requires Entered(b, b', t)
    requires KeyOk(b, k)
    ensures KeyOk(b', k)
  {
  }

  lemma EnterActor(b: Bridge, b': Bridge, t: Thread)
    requires Entered(b, b', t)
    requires KeyOk(b, b.threads[t].key)
    requires Shape(b') && Global(b) && KeepsRunning(b, b', t, t)
    ensures ThreadOk(b', t)
  {
  }

  lemma RefuseOther(b: Bridge, b': Bridge, t: Thread, u: Thread)
    requires Entered(b, b', t)
    requires KeyOk(b, b.threads[t].key)
    requires Shape(b') && Global(b) && u in b.threads && u != t && ThreadOk(b, u) && KeepsRunning(b, b', t, u)
    requires b.tables.closed || b.threads[t].key in b.tables.completed
    ensures ThreadOk(b', u)
  {
  }

  lemma AdmitOther(b: Bridge, b': Bridge, t: Thread, u: Thread)
    requires Entered(b, b', t)
    requires KeyOk(b, b.threads[t].key)
    requires Shape(b') && Global(b) && u in b.threads && u != t && ThreadOk(b, u) && KeepsRunning(b, b', t, u)
    requires !(b.tables.closed || b.threads[t].key in b.tables.completed)
    ensures ThreadOk(b', u)
  {
  }

  lemma EnterOther(b: Bridge, b': Bridge, t: Thread, u: Thread)
    requires Entered(b, b', t)
    requires KeyOk(b, b.threads[t].key)
    requires Shape(b') && Global(b) && u in b.threads && u != t && ThreadOk(b, u) && KeepsRunning(b, b', t, u)
    ensures ThreadOk(b', u)
  {
    if b.tables.closed || b.threads[t].key in b.tables.completed {
      RefuseOther(b, b', t, u);
    } else {
      AdmitOther(b, b', t, u);
    }
  }

  lemma EnterHolder(b: Bridge, b': Bridge, t: Thread, i: Instance)
    requires Entered(b, b', t)
    requires KeyOk(b, b.threads[t].key)
    requires Shape(b') && i < |b.owner| && HolderOk(b, i)
    ensures HolderOk(b', i)
  {
  }

  lemma EnterPlace(b: Bridge, b': Bridge, t: Thread, i: Instance)
    requires Entered(b, b', t)
    requires KeyOk(b, b.threads[t].key)
    requires Shape(b') && Global(b) && Global(b') && CountedIn(b, t) && i < |b.owner|
    requires HolderOk(b, i) && PlaceOk(b, i) && Apart(b, t, i)
    ensures PlaceOk(b', i)
  {
  }

  lemma EnterData(b: Bridge, b': Bridge, t: Thread, i: Instance)
    requires Entered(b, b', t)
    requires Shape(b') && i < |b.owner| && HolderOk(b, i) && DataOk(b, i) && Apart(b, t, i)
    ensures DataOk(b', i)
  {
  }

  /** Thread `t` rechecks its admission, or begins its callback. */
  predicate Decided(b: Bridge, b': Bridge, t: Thread) {
    && Shape(b) && t in b.threads && ThreadOk(b, t) && Decides(b.threads[t]) && !Blocked(b, b.threads[t])
    && b' == Decide(b, t)
  }

  lemma DecideShape(b: Bridge, b': Bridge, t: Thread)
    requires Decided(b, b', t)
    ensures Shape(b')
  {
  }

  lemma DecideGlobal(b: Bridge, b': Bridge, t: Thread)
    requires Decided(b, b', t)
    requires Global(b) && CountOk(b) && CountedIn(b, t)
    ensures Global(b') && CountOk(b')
  {
    InFlightUpdate(b.threads, t, b'.threads[t]);
    assert b'.threads == b.threads[t := b'.threads[t]];
  }

  lemma DecideKey(b: Bridge, b': Bridge, t: Thread, k: Key)
    requires Decided(b, b', t)
    requires KeyOk(b, k)
    ensures KeyOk(b', k)
  {
    if |b'.log| > |b.log| { LastEvent(b.log, b'.log, k); }
  }

  lemma DecideActor(b: Bridge, b': Bridge, t: Thread)
    requires Decided(b, b', t)
    requires Shape(b') && Global(b) && KeepsRunning(b, b', t, t)
    ensures ThreadOk(b', t)
  {
  }

  lemma RecheckOther(b: Bridge, b': Bridge, t: Thread, u: Thread)
    requires Decided(b, b', t)
    requires Shape(b') && Global(b) && u in b.threads && u != t && ThreadOk(b, u) && KeepsRunning(b, b', t, u)
    requires b.threads[t].Deciding?
    ensures ThreadOk(b', u)
  {
  }

  lemma BeginOther(b: Bridge, b': Bridge, t: Thread, u: Thread)
    requires Decided(b, b', t)
    requires Shape(b') && Global(b) && u in b.threads && u != t && ThreadOk(b, u) && KeepsRunning(b, b', t, u)
    requires !b.threads[t].Deciding?
    ensures ThreadOk(b', u)
  {
  }

  lemma DecideOther(b: Bridge, b': Bridge, t: Thread, u: Thread)
    requires Decided(b, b', t)
    requires Shape(b') && Global(b) && u in b.threads && u != t && ThreadOk(b, u) && KeepsRunning(b, b', t, u)
    ensures ThreadOk(b', u)
  {
    if b.threads[t].Deciding? { RecheckOther(b, b', t, u); } else { BeginOther(b, b', t, u); }
  }

  lemma DecideHolder(b: Bridge, b': Bridge, t: Thread, i: Instance)
    requires Decided(b, b', t)
    requires Shape(b') && i < |b.owner| && HolderOk(b, i)
    ensures HolderOk(b', i)
  {
  }

  lemma DecidePlace(b: Bridge, b': Bridge, t: Thread, i: Instance)
    requires Decided(b, b', t)
    requires Shape(b') && Global(b) && Global(b') && CountedIn(b, t) && i < |b.owner|
    requires HolderOk(b, i) && PlaceOk(b, i) && Apart(b, t, i)
    ensures PlaceOk(b', i)
  {
  }

  lemma RecheckData(b: Bridge, b': Bridge, t: Thread, i: Instance)
    requires Decided(b, b', t)
    requires Shape(b') && i < |b.owner| && HolderOk(b, i) && DataOk(b, i) && Apart(b, t, i)
    requires b.threads[t].Deciding?
    ensures DataOk(b', i)
  {
    if |b'.log| > |b.log| { LastEvent(b.log, b'.log, b.owner[i]); }
  }

  lemma BeginData(b: Bridge, b': Bridge, t: Thread, i: Instance)
    requires Decided(b, b', t)
    requires Shape(b') && i < |b.owner| && HolderOk(b, i) && DataOk(b, i) && Apart(b, t, i)
    requires !b.threads[t].Deciding?
    ensures DataOk(b', i)
  {
    if |b'.log| > |b.log| { LastEvent(b.log, b'.log, b.owner[i]); }
  }

  lemma DecideData(b: Bridge, b': Bridge, t: Thread, i: Instance)
    requires Decided(b, b', t)
    requires Shape(b') && i < |b.owner| && HolderOk(b, i) && DataOk(b, i) && Apart(b, t, i)
    ensures DataOk(b', i)
  {
    if b.threads[t].Deciding? { RecheckData(b, b', t, i); } else { BeginData(b, b', t, i); }
  }

  /** Thread `t` ends its callback. */
  predicate Finished(b: Bridge, b': Bridge, t: Thread, left: Data, ok: bool) {
    && Shape(b) && t in b.threads && ThreadOk(b, t) && b.threads[t].Running?
    && b' == FinishCallback(b, t, left, ok)
  }

  lemma FinishShape(b: Bridge, b': Bridge, t: Thread, left: Data, ok: bool)
    requires Finished(b, b', t, left, ok)
    requires KeyOk(b, b.threads[t].key)
    ensures Shape(b')
  {
  }

  lemma FinishGlobal(b: Bridge, b': Bridge, t: Thread, left: Data, ok: bool)
    requires Finished(b, b', t, left, ok)
    requires Global(b) && CountOk(b) && CountedIn(b, t)
    ensures Global(b') && CountOk(b')
  {
    InFlightUpdate(b.threads, t, b'.threads[t]);
    assert b'.threads == b.threads[t := b'.threads[t]];
  }

  lemma FinishKey(b: Bridge, b': Bridge, t: Thread, left: Data, ok: bool, k: Key)
    requires Finished(b, b', t, left, ok)
    requires KeyOk(b, k)
    ensures KeyOk(b', k)
  {
    if |b'.log| > |b.log| { LastEvent(b.log, b'.log, k); }
  }

  lemma FinishActor(b: Bridge, b': Bridge, t: Thread, left: Data, ok: bool)
    requires Finished(b, b', t, left, ok)
    requires KeyOk(b, b.threads[t].key)
    requires Shape(b') && Global(b) && KeepsRunning(b, b', t, t)
    ensures ThreadOk(b', t)
  {
  }

  lemma FinishOther(b: Bridge, b': Bridge, t: Thread, left: Data, ok: bool, u: Thread)
    requires Finished(b, b', t, left, ok)
    requires KeyOk(b, b.threads[t].key)
    requires Shape(b') && Global(b) && u in b.threads && u != t && ThreadOk(b, u) && KeepsRunning(b, b', t, u)
    ensures ThreadOk(b', u)
  {
  }

  lemma FinishHolder(b: Bridge, b': Bridge, t: Thread, left: Data, ok: bool, i: Instance)
    requires Finished(b, b', t, left, ok)
    requires KeyOk(b, b.threads[t].key)
    requires Shape(b') && i < |b.owner| && HolderOk(b, i)
    ensures HolderOk(b', i)
  {
  }

  lemma FinishPlace(b: Bridge, b': Bridge, t: Thread, left: Data, ok: bool, i: Instance)
    requires Finished(b, b', t, left, ok)
    requires KeyOk(b, b.threads[t].key)
    requires Shape(b') && Global(b) && Global(b') && CountedIn(b, t) && i < |b.owner|
    requires HolderOk(b, i) && PlaceOk(b, i) && Apart(b, t, i)
    ensures PlaceOk(b', i)
  {
  }

  lemma FinishData(b: Bridge, b': Bridge, t: Thread, left: Data, ok: bool, i: Instance)
    requires Finished(b, b', t, left, ok)
    requires Shape(b') && i < |b.owner| && HolderOk(b, i) && DataOk(b, i) && Apart(b, t, i)
    ensures DataOk(b', i)
  {
    if |b'.log| > |b.log| { LastEvent(b.log, b'.log, b.owner[i]); }
  }

  /** Thread `t` leaves after its callback. */
  predicate Departed(b: Bridge, b': Bridge, t: Thread) {
    && Shape(b) && t in b.threads && ThreadOk(b, t) && Departs(b.threads[t]) && !Blocked(b, b.threads[t])
    && b' == Depart(b, t)
  }

  lemma DepartShape(b: Bridge, b': Bridge, t: Thread)
    requires Departed(b, b', t)
    ensures Shape(b')
  {
  }

  lemma DepartGlobal(b: Bridge, b': Bridge, t: Thread)
    requires Departed(b, b', t)
    requires Global(b) && CountOk(b) && CountedIn(b, t)
    ensures Global(b') && CountOk(b')
  {
    InFlightUpdate(b.threads, t, b'.threads[t]);
    assert b'.threads == b.threads[t := b'.threads[t]];
  }

  lemma DepartKey(b: Bridge, b': Bridge, t: Thread, k: Key)
    requires Departed(b, b', t)
    requires KeyOk(b, k)
    ensures KeyOk(b', k)
  {
    if |b'.log| > |b.log| { LastEvent(b.log, b'.log, k); }
  }

  lemma DepartActor(b: Bridge, b': Bridge, t: Thread)
    requires Departed(b, b', t)
    requires Shape(b') && Global(b) && KeepsRunning(b, b', t, t)
    ensures ThreadOk(b', t)
  {
  }

  lemma RetireOther(b: Bridge, b': Bridge, t: Thread, u: Thread)
    requires Departed(b, b', t)
    requires Shape(b') && Global(b) && u in b.threads && u != t && ThreadOk(b, u) && KeepsRunning(b, b', t, u)
    requires b.threads[t].Sealing? || b.threads[t].Completing?
    ensures ThreadOk(b', u)
  {
  }

  lemma LeaveOther(b: Bridge, b': Bridge, t: Thread, u: Thread)
    requires Departed(b, b', t)
    requires Shape(b') && Global(b) && u in b.threads && u != t && ThreadOk(b, u) && KeepsRunning(b, b', t, u)
    requires b.threads[t].Leaving? || b.threads[t].Departing?
    ensures ThreadOk(b', u)
  {
  }

  lemma DepartOther(b: Bridge, b': Bridge, t: Thread, u: Thread)
    requires Departed(b, b', t)
    requires Shape(b') && Global(b) && u in b.threads && u != t && ThreadOk(b, u) && KeepsRunning(b, b', t, u)
    ensures ThreadOk(b', u)
  {
    if b.threads[t].Sealing? || b.threads[t].Completing? { RetireOther(b, b', t, u); } else { LeaveOther(b, b', t, u); }
  }

  lemma DepartHolder(b: Bridge, b': Bridge, t: Thread, i: Instance)
    requires Departed(b, b', t)
    requires Shape(b') && i < |b.owner| && HolderOk(b, i)
    ensures HolderOk(b', i)
  {
  }

  lemma RetirePlace(b: Bridge, b': Bridge, t: Thread, i: Instance)
    requires Departed(b, b', t)
    requires Shape(b') && Global(b) && Global(b') && CountedIn(b, t) && i < |b.owner|
    requires HolderOk(b, i) && PlaceOk(b, i) && Apart(b, t, i)
    requires b.threads[t].Sealing? || b.threads[t].Completing?
    ensures PlaceOk(b', i)
  {
  }

  lemma LeavePlace(b: Bridge, b': Bridge, t: Thread, i: Instance)
    requires Departed(b, b', t)
    requires Shape(b') && Global(b) && Global(b') && CountedIn(b, t) && i < |b.owner|
    requires HolderOk(b, i) && PlaceOk(b, i) && Apart(b, t, i)
    requires b.threads[t].Leaving? || b.threads[t].Departing?
    ensures PlaceOk(b', i)
  {
  }

  lemma DepartPlace(b: Bridge, b': Bridge, t: Thread, i: Instance)
    requires Departed(b, b', t)
    requires Shape(b') && Global(b) && Global(b') && CountedIn(b, t) && i < |b.owner|
    requires HolderOk(b, i) && PlaceOk(b, i) && Apart(b, t, i)
    ensures PlaceOk(b', i)
  {
    if b.threads[t].Sealing? || b.threads[t].Completing? { RetirePlace(b, b', t, i); } else { LeavePlace(b, b', t, i); }
  }

  lemma DepartData(b: Bridge, b': Bridge, t: Thread, i: Instance)
    requires Departed(b, b', t)
    requires Shape(b') && i < |b.owner| && HolderOk(b, i) && DataOk(b, i) && Apart(b, t, i)
    ensures DataOk(b', i)
  {
    if |b'.log| > |b.log| { LastEvent(b.log, b'.log, b.owner[i]); }
  }

  /** Thread `t` makes a step of `beginClose`. */
  predicate Detached(b: Bridge, b': Bridge, t: Thread) {
    && Shape(b) && t in b.threads && ThreadOk(b, t) && Detaches(b.threads[t]) && !Blocked(b, b.threads[t])
    && b' == DetachStep(b, t)
  }

  lemma DetachShape(b: Bridge, b': Bridge, t: Thread)
    requires Detached(b, b', t)
    ensures Shape(b')
  {
  }

  lemma DetachGlobal(b: Bridge, b': Bridge, t: Thread)
    requires Detached(b, b', t)
    requires Global(b) && CountOk(b) && CountedIn(b, t)
    ensures Global(b') && CountOk(b')
  {
    InFlightUpdate(b.threads, t, b'.threads[t]);
    assert b'.threads == b.threads[t := b'.threads[t]];
  }

  lemma DetachKey(b: Bridge, b': Bridge, t: Thread, k: Key)
    requires Detached(b, b', t)
    requires KeyOk(b, k) && Global(b)
    ensures KeyOk(b', k)
  {
    if |b'.log| > |b.log| { LastEvent(b.log, b'.log, k); }
  }

  lemma DetachActor(b: Bridge, b': Bridge, t: Thread)
    requires Detached(b, b', t)
    requires Shape(b') && Global(b) && KeepsRunning(b, b', t, t)
    ensures ThreadOk(b', t)
  {
  }

  lemma DetachOther(b: Bridge, b': Bridge, t: Thread, u: Thread)
    requires Detached(b, b', t)
    requires Shape(b') && Global(b) && u in b.threads && u != t && ThreadOk(b, u) && KeepsRunning(b, b', t, u)
    ensures ThreadOk(b', u)
  {
  }

  lemma DetachHolder(b: Bridge, b': Bridge, t: Thread, i: Instance)
    requires Detached(b, b', t)
    requires Shape(b') && i < |b.owner| && HolderOk(b, i)
    ensures HolderOk(b', i)
  {
  }

  lemma DetachPlace(b: Bridge, b': Bridge, t: Thread, i: Instance)
    requires Detached(b, b', t)
    requires Shape(b') && Global(b) && Global(b') && CountedIn(b, t) && i < |b.owner|
    requires HolderOk(b, i) && PlaceOk(b, i) && Apart(b, t, i)
    ensures PlaceOk(b', i)
  {
  }

  lemma DetachData(b: Bridge, b': Bridge, t: Thread, i: Instance)
    requires Detached(b, b', t)
    requires Shape(b') && i < |b.owner| && HolderOk(b, i) && DataOk(b, i) && Apart(b, t, i)
    ensures DataOk(b', i)
  {
    if |b'.log| > |b.log| { LastEvent(b.log, b'.log, b.owner[i]); }
  }

  /** Thread `t` makes a step of `finishClose`. */
  predicate Wiped(b: Bridge, b': Bridge, t: Thread, next: Instance) {
    && Shape(b) && t in b.threads && ThreadOk(b, t) && Wipes(b.threads[t]) && MayWipe(b, t, next)
    && b' == WipeStep(b, t, next)
  }

  lemma WipeShape(b: Bridge, b': Bridge, t: Thread, next: Instance)
    requires Wiped(b, b', t, next)
    ensures Shape(b')
  {
  }

  lemma WipeGlobal(b: Bridge, b': Bridge, t: Thread, next: Instance)
    requires Wiped(b, b', t, next)
    requires Global(b) && CountOk(b) && CountedIn(b, t)
    ensures Global(b') && CountOk(b')
  {
    InFlightUpdate(b.threads, t, b'.threads[t]);
    assert b'.threads == b.threads[t := b'.threads[t]];
  }

  lemma WipeKey(b: Bridge, b': Bridge, t: Thread, next: Instance, k: Key)
    requires Wiped(b, b', t, next)
    requires KeyOk(b, k)
    ensures KeyOk(b', k)
  {
  }

  lemma WipeActor(b: Bridge, b': Bridge, t: Thread, next: Instance)
    requires Wiped(b, b', t, next)
    requires Shape(b') && Global(b) && KeepsRunning(b, b', t, t)
    ensures ThreadOk(b', t)
  {
  }

  lemma WipeOther(b: Bridge, b': Bridge, t: Thread, next: Instance, u: Thread)
    requires Wiped(b, b', t, next)
    requires Shape(b') && Global(b) && u in b.threads && u != t && ThreadOk(b, u) && KeepsRunning(b, b', t, u)
    ensures ThreadOk(b', u)
  {
  }

  lemma WipeHolder(b: Bridge, b': Bridge, t: Thread, next: Instance, i: Instance)
    requires Wiped(b, b', t, next)
    requires Shape(b') && i < |b.owner| && HolderOk(b, i)
    ensures HolderOk(b', i)
  {
  }

  lemma WipePlace(b: Bridge, b': Bridge, t: Thread, next: Instance, i: Instance)
    requires Wiped(b, b', t, next)
    requires Shape(b') && Global(b) && Global(b') && CountedIn(b, t) && i < |b.owner|
    requires HolderOk(b, i) && PlaceOk(b, i) && Apart(b, t, i)
    ensures PlaceOk(b', i)
  {
  }

  lemma WipeData(b: Bridge, b': Bridge, t: Thread, next: Instance, i: Instance)
    requires Wiped(b, b', t, next)
    requires Shape(b') && Global(b) && i < |b.owner| && HolderOk(b, i) && DataOk(b, i) && Apart(b, t, i)
    ensures DataOk(b', i)
  {
  }

  /** The instance an admission has just created. */
  lemma NewInstance(b: Bridge, b': Bridge, t: Thread)
    requires Shape(b) && Global(b) && t in b.threads && b.threads[t].Entering? && KeyOk(b, b.threads[t].key)
    requires b' == EnterStep(b, t) && |b'.owner| > |b.owner| && b.threads[t].key !in b.owner
    ensures |b'.owner| == |b.owner| + 1 && b'.owner[|b.owner|] == b.threads[t].key
    ensures Shape(b') && Global(b')
    ensures HolderOk(b', |b.owner|) && PlaceOk(b', |b.owner|) && DataOk(b', |b.owner|)
  {
  }
}
