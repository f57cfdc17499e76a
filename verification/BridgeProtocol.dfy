/** The admission, clean and close protocol of a scenario bridge state, as a transition system.

    Any number of threads run `withInstance`, `cleanInstance` or `beginClose` followed by `finishClose` on one
    state, on any keys, in any interleaving. A program counter names the next statement of a thread. Taking the
    state mutex is a step of its own; what a thread does under it is one step that ends with the unlock,
    because only holders of the mutex touch the tables. The log records what happened, for statements about
    whole runs.
  */
module BridgeProtocol {
  import opened Wrappers
  import opened BridgeTables

  type Thread = nat

  /** Instances are numbered in the order of their creation. */
  type Instance = nat

  datatype Kind = Invoke | Clean

  datatype Pc =
    | Arriving(key: Key, kind: Kind)                        // about to lock the state mutex
    | Entering(key: Key, kind: Kind)                        // holds it; first critical section
    | Queued(key: Key, kind: Kind, instance: Instance)      // counted in flight; about to lock the instance
    | Rechecking(key: Key, kind: Kind, instance: Instance)  // holds the instance; about to lock the state mutex
    | Deciding(key: Key, kind: Kind, instance: Instance)    // holds both
    | Admitted(key: Key, kind: Kind, instance: Instance)    // holds the instance; callback not begun
    | Running(key: Key, kind: Kind, instance: Instance)     // inside the callback
    | Sealing(key: Key, instance: Instance)                 // clean succeeded, data cleared; about to lock the state
    | Completing(key: Key, instance: Instance)              // holds both
    | Leaving(key: Key, reply: Reply, instance: Instance)   // about to unlock the instance
    | Departing(reply: Reply)                               // about to leave the wait group
    | Returned(reply: Reply)
    | CloseArriving                                         // about to lock the state mutex
    | Closing                                               // holds it
    | Waiting                                               // has the detached instances; waits for the wait group
    | Wiping(todo: set<Instance>)                           // between two instances of the final loop
    | WipingLocked(todo: set<Instance>, instance: Instance) // holds the instance it is about to clear
    | CloseReturned(first: bool)

  datatype Event =
    | Admission(thread: Thread, key: Key, kind: Kind)
    | Began(thread: Thread, key: Key, seen: Data)
    | Ended(thread: Thread, key: Key, left: Data, ok: bool)
    | Cleaned(thread: Thread, key: Key)
    | CloseBegan(thread: Thread)

  datatype Bridge = Bridge(
    tables: Tables<Instance>,
    mutex: Option<Thread>,
    owner: seq<Key>,                // the key each instance was created for
    data: seq<Data>,
    holder: seq<Option<Thread>>,    // the instance mutexes
    threads: map<Thread, Pc>,
    closer: Option<Thread>,         // who closed the state first
    detached: set<Instance>,        // what that close detached
    calls: map<Thread, Pc>,         // what each thread was called for
    log: seq<Event>)
  {
    function At(t: Thread, pc: Pc): Bridge { this.(threads := threads[t := pc]) }

    function Begin(t: Thread, pc: Pc): Bridge { At(t, pc).(calls := calls[t := pc]) }

    function Lock(t: Thread, pc: Pc): Bridge { At(t, pc).(mutex := Some(t)) }

    function Unlock(t: Thread, pc: Pc): Bridge { At(t, pc).(mutex := None) }
  }

  const Start := Bridge(Tables(false, map[], {}, 0), None, [], [], [], map[], None, {}, map[], [])

  datatype Action =
    | Spawn(thread: Thread, pc: Pc)                   // a new call
    | Advance(thread: Thread)                         // the one next statement of a thread
    | Finish(thread: Thread, left: Data, ok: bool)    // the callback returns or panics, leaving this data
    | Wipe(thread: Thread, instance: Instance)        // the final loop picks its next instance

  predicate Worker(pc: Pc) { !pc.CloseArriving? && !pc.Closing? && !ClosedFirst(pc) && !pc.CloseReturned? }

  /** Past `beginClose`, with the detached instances in hand. */
  predicate ClosedFirst(pc: Pc) {
    pc.Waiting? || pc.Wiping? || pc.WipingLocked? || pc == CloseReturned(true)
  }

  predicate HoldsMutex(pc: Pc) { pc.Entering? || pc.Deciding? || pc.Completing? || pc.Closing? }

  predicate HoldsInstance(pc: Pc) {
    || pc.Rechecking? || pc.Deciding? || pc.Admitted? || pc.Running?
    || pc.Sealing? || pc.Completing? || pc.Leaving? || pc.WipingLocked?
  }

  predicate HasInstance(pc: Pc) { pc.Queued? || HoldsInstance(pc) }

  predicate IsInFlight(pc: Pc) { Worker(pc) && (HasInstance(pc) || pc.Departing?) }

  /** Between admission and the end of its use of the instance data. */
  predicate HasAdmission(pc: Pc) { pc.Admitted? || pc.Running? || pc.Sealing? || pc.Completing? }

  predicate Final(pc: Pc) { pc.Returned? || pc.CloseReturned? }

  function InFlight(threads: map<Thread, Pc>): set<Thread> {
    set t | t in threads && IsInFlight(threads[t])
  }

  // ---------------------------------------------------------------------------------------------- steps

  predicate Shape(b: Bridge) {
    && |b.data| == |b.owner| && |b.holder| == |b.owner|
    && (forall t :: t in b.threads && HasInstance(b.threads[t]) ==> b.threads[t].instance < |b.owner|)
  }

  predicate Enabled(b: Bridge, a: Action)
    requires Shape(b)
  {
    if a.Spawn? then
      a.thread !in b.threads && (a.pc.Arriving? || a.pc.CloseArriving?)
    else
      && a.thread in b.threads
      && var pc := b.threads[a.thread];
         match a {
           case Finish(_, _, _) => pc.Running?
           case Wipe(_, i) => pc.Wiping? && i in pc.todo && i < |b.owner| && b.holder[i] == None
           case Advance(_) => !pc.Running? && !Final(pc) && !Blocked(b, pc)
         }
  }

  predicate Blocked(b: Bridge, pc: Pc)
    requires Shape(b) && (HasInstance(pc) ==> pc.instance < |b.owner|)
  {
    match pc
    case Arriving(_, _) => b.mutex.Some?
    case Queued(_, _, i) => b.holder[i].Some?
    case Rechecking(_, _, _) => b.mutex.Some?
    case Sealing(_, _) => b.mutex.Some?
    case CloseArriving => b.mutex.Some?
    case Waiting => b.tables.inFlight != 0
    case Wiping(todo) => todo != {}
    case _ => false
  }

  function Apply(b: Bridge, a: Action): Bridge
    requires Shape(b) && Enabled(b, a)
  {
    match a
    case Spawn(t, pc) => b.Begin(t, pc)
    case Finish(t, left, ok) => FinishCallback(b, t, left, ok)
    case Wipe(t, i) => WipeStep(b, t, i)
    case Advance(t) =>
      var pc := b.threads[t];
      if Arrives(pc) then Arrive(b, t)
      else if pc.Entering? then EnterStep(b, t)
      else if Decides(pc) then Decide(b, t)
      else if Departs(pc) then Depart(b, t)
      else if Detaches(pc) then DetachStep(b, t)
      else WipeStep(b, t, 0)
  }

  predicate Arrives(pc: Pc) { pc.Arriving? || pc.Queued? }

  predicate Decides(pc: Pc) { pc.Rechecking? || pc.Deciding? || pc.Admitted? }

  predicate Departs(pc: Pc) { pc.Sealing? || pc.Completing? || pc.Leaving? || pc.Departing? }

  predicate Detaches(pc: Pc) { pc.CloseArriving? || pc.Closing? }

  predicate Wipes(pc: Pc) { pc.Waiting? || pc.Wiping? || pc.WipingLocked? }

  function Arrive(b: Bridge, t: Thread): Bridge
    requires Shape(b) && t in b.threads && Arrives(b.threads[t])
  {
    match b.threads[t]
    case Arriving(key, kind) => b.Lock(t, Entering(key, kind))
    case Queued(key, kind, i) => b.At(t, Rechecking(key, kind, i)).(holder := b.holder[i := Some(t)])
  }

  function Decide(b: Bridge, t: Thread): Bridge
    requires Shape(b) && t in b.threads && Decides(b.threads[t])
  {
    match b.threads[t]
    case Rechecking(key, kind, i) => b.Lock(t, Deciding(key, kind, i))
    case Deciding(key, kind, i) =>
      if StillCurrent(b.tables, key, i)
      then b.Unlock(t, Admitted(key, kind, i)).(log := b.log + [Admission(t, key, kind)])
      else b.Unlock(t, Leaving(key, Gone, i))
    case Admitted(key, kind, i) => b.At(t, Running(key, kind, i)).(log := b.log + [Began(t, key, b.data[i])])
  }

  function Depart(b: Bridge, t: Thread): Bridge
    requires Shape(b) && t in b.threads && Departs(b.threads[t])
  {
    match b.threads[t]
    case Sealing(key, i) => b.Lock(t, Completing(key, i))
    case Completing(key, i) =>
      b.Unlock(t, Leaving(key, Succeeded, i)).(tables := Complete(b.tables, key), log := b.log + [Cleaned(t, key)])
    case Leaving(_, reply, i) => b.At(t, Departing(reply)).(holder := b.holder[i := None])
    case Departing(reply) => b.At(t, Returned(reply)).(tables := b.tables.(inFlight := b.tables.inFlight - 1))
  }

  /** The first critical section of an admission: refused, or counted in with the instance of the key, created if it
      is new. */
  function EnterStep(b: Bridge, t: Thread): Bridge
    requires t in b.threads && b.threads[t].Entering?
  {
    var Entering(key, kind) := b.threads[t];
    var (tables, found) := Enter(b.tables, key, |b.owner|);
    match found
    case None => b.Unlock(t, Returned(Gone))
    case Some(i) =>
      var entered := b.Unlock(t, Queued(key, kind, i)).(tables := tables);
      if key in b.tables.active then entered
      else entered.(owner := b.owner + [key], data := b.data + [map[]], holder := b.holder + [None])
  }

  /** The data a callback leaves is cleared at once when it was a successful clean: its thread holds the lock. */
  function FinishCallback(b: Bridge, t: Thread, left: Data, ok: bool): Bridge
    requires Shape(b) && t in b.threads && b.threads[t].Running?
  {
    var Running(key, kind, i) := b.threads[t];
    var ended := b.(log := b.log + [Ended(t, key, left, ok)]);
    if ok && kind == Clean
    then ended.At(t, Sealing(key, i)).(data := b.data[i := map[]])
    else ended.At(t, Leaving(key, if ok then Succeeded else Failed, i)).(data := b.data[i := left])
  }

  function DetachStep(b: Bridge, t: Thread): Bridge
    requires t in b.threads && Detaches(b.threads[t])
  {
    if b.threads[t].CloseArriving? then b.Lock(t, Closing)
    else
      var (tables, detached) := Detach(b.tables);
      match detached
      case None => b.Unlock(t, CloseReturned(false))
      case Some(instances) =>
        b.Unlock(t, Waiting).(tables := tables, closer := Some(t), detached := instances.Values,
                              log := b.log + [CloseBegan(t)])
  }

  /** The steps of `finishClose`; `next` is the instance the loop takes next, if it takes one. */
  function WipeStep(b: Bridge, t: Thread, next: Instance): Bridge
    requires Shape(b) && t in b.threads && Wipes(b.threads[t])
    requires b.threads[t].Wiping? && b.threads[t].todo != {} ==> next < |b.owner|
  {
    match b.threads[t]
    case Waiting => b.At(t, Wiping(b.detached))
    case Wiping(todo) =>
      if todo == {} then b.At(t, CloseReturned(true))
      else b.At(t, WipingLocked(todo, next)).(holder := b.holder[next := Some(t)])
    case WipingLocked(todo, i) =>
      b.At(t, Wiping(todo - {i})).(data := b.data[i := map[]], holder := b.holder[i := None])
  }

  ghost predicate Step(b: Bridge, a: Action, b': Bridge) {
    Shape(b) && Enabled(b, a) && b' == Apply(b, a)
  }

  /** A run from a new state: `states[i+1]` follows `states[i]` by `actions[i]`. */
  ghost predicate IsRun(states: seq<Bridge>, actions: seq<Action>) {
    && |states| == |actions| + 1
    && states[0] == Start
    && forall i :: 0 <= i < |actions| ==> Step(states[i], actions[i], states[i + 1])
  }

  // ---------------------------------------------------------------------------------------------- log

  /** What the last callback on `key` left; empty before the first one. */
  function LastLeft(log: seq<Event>, key: Key): Data {
    if log == [] then map[]
    else
      var e := log[|log| - 1];
      if e.Ended? && e.key == key then e.left else LastLeft(log[..|log| - 1], key)
  }

  /** The thread whose callback on `key` has begun and not ended. */
  function RunningOn(log: seq<Event>, key: Key): Option<Thread> {
    if log == [] then None
    else
      var e := log[|log| - 1];
      if e.Began? && e.key == key then Some(e.thread)
      else if e.Ended? && e.key == key then None
      else RunningOn(log[..|log| - 1], key)
  }

  /** Callbacks on one key never overlap, and each sees the data the previous one left. */
  ghost predicate Disciplined(log: seq<Event>) {
    forall i {:trigger log[i]} :: 0 <= i < |log| && log[i].Began? ==>
      && RunningOn(log[..i], log[i].key) == None
      && log[i].seen == LastLeft(log[..i], log[i].key)
  }

  ghost predicate NoAdmissionAfterClean(log: seq<Event>) {
    forall i, j :: 0 <= i < j < |log| && log[i].Cleaned? && log[j].Admission? ==> log[i].key != log[j].key
  }

  ghost predicate NoAdmissionAfterClose(log: seq<Event>) {
    forall i, j :: 0 <= i < j < |log| && log[i].CloseBegan? ==> !log[j].Admission?
  }

  lemma LogGrows(log: seq<Event>, e: Event, key: Key)
    ensures LastLeft(log + [e], key) == if e.Ended? && e.key == key then e.left else LastLeft(log, key)
    ensures RunningOn(log + [e], key) ==
            if e.Began? && e.key == key then Some(e.thread)
            else if e.Ended? && e.key == key then None
            else RunningOn(log, key)
  {
    assert (log + [e])[..|log|] == log;
  }

  lemma DisciplineGrows(log: seq<Event>, e: Event)
    requires Disciplined(log)
    requires e.Began? ==> RunningOn(log, e.key) == None && e.seen == LastLeft(log, e.key)
    ensures Disciplined(log + [e])
  {
    var log' := log + [e];
    forall i {:trigger log'[i]} | 0 <= i < |log'| && log'[i].Began?
      ensures RunningOn(log'[..i], log'[i].key) == None && log'[i].seen == LastLeft(log'[..i], log'[i].key)
    {
      assert log'[..i] == log[..i];
      if i < |log| { assert log'[i] == log[i]; } else { assert log[..i] == log; }
    }
  }
}
