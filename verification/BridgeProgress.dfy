/** The bridge protocol cannot deadlock, and it ends: provided callbacks return, every finite set of calls runs
    to completion, however it is scheduled. */
module BridgeProgress {
  import opened Wrappers
  import opened BridgeTables
  import opened BridgeProtocol
  import opened BridgeInvariant
  import opened BridgeSafety

  /** The holder of the state mutex never waits for anything, in particular not for an instance. */
  lemma MutexHolderMoves(b: Bridge)
    requires Inv(b) && b.mutex.Some?
    ensures b.mutex.value in b.threads && Enabled(b, Advance(b.mutex.value))
  {
    Pick(b, b.mutex.value);
  }

  /** The holder of an instance waits for nothing but the state mutex. */
  lemma InstanceHolderMoves(b: Bridge, t: Thread) returns (a: Action)
    requires Inv(b) && b.mutex == None && t in b.threads && HoldsInstance(b.threads[t])
    ensures Enabled(b, a) && a.thread == t && !a.Spawn?
  {
    Pick(b, t);
    a := if b.threads[t].Running? then Finish(t, map[], true) else Advance(t);
  }

  lemma WorkerMoves(b: Bridge, t: Thread) returns (a: Action)
    requires Inv(b) && b.mutex == None && t in b.threads && Worker(b.threads[t]) && !Final(b.threads[t])
    ensures Enabled(b, a) && !a.Spawn?
  {
    Pick(b, t);
    var pc := b.threads[t];
    if HoldsInstance(pc) {
      a := InstanceHolderMoves(b, t);
    } else if pc.Queued? && b.holder[pc.instance].Some? {
      assert HolderOk(b, pc.instance);
      a := InstanceHolderMoves(b, b.holder[pc.instance].value);
    } else {
      a := Advance(t);
    }
  }

  /** While the final loop runs, the instances it has still to clear are free: nobody is in flight. */
  lemma WiperMoves(b: Bridge, t: Thread) returns (a: Action)
    requires Inv(b) && t in b.threads && b.threads[t].Wiping?
    ensures Enabled(b, a) && !a.Spawn?
  {
    Pick(b, t);
    var todo := b.threads[t].todo;
    if todo == {} {
      return Advance(t);
    }
    var i :| i in todo;
    assert i in b.detached;
    assert HolderOk(b, i);
    if b.holder[i].Some? {
      Pick(b, b.holder[i].value);
      assert false;
    }
    return Wipe(t, i);
  }

  /** No deadlock: as long as some call has not returned, some call can take a step. */
  lemma Progress(b: Bridge, t: Thread) returns (a: Action)
    requires Inv(b) && t in b.threads && !Final(b.threads[t])
    ensures Enabled(b, a) && !a.Spawn?
  {
    Pick(b, t);
    var pc := b.threads[t];
    if b.mutex.Some? {
      MutexHolderMoves(b);
      a := Advance(b.mutex.value);
    } else if Worker(pc) {
      a := WorkerMoves(b, t);
    } else if pc.Waiting? && b.tables.inFlight != 0 {
      assert InFlight(b.threads) != {};
      var u :| u in InFlight(b.threads);
      a := WorkerMoves(b, u);
    } else if pc.Wiping? {
      a := WiperMoves(b, t);
    } else {
      a := Advance(t);
    }
  }

  // ---------------------------------------------------------------------------------------------- termination

  function Rank(pc: Pc, detached: set<Instance>): nat {
    match pc
    case Arriving(_, _) => 11
    case Entering(_, _) => 10
    case Queued(_, _, _) => 9
    case Rechecking(_, _, _) => 8
    case Deciding(_, _, _) => 7
    case Admitted(_, _, _) => 6
    case Running(_, _, _) => 5
    case Sealing(_, _) => 4
    case Completing(_, _) => 3
    case Leaving(_, _, _) => 2
    case Departing(_) => 1
    case Returned(_) => 0
    case CloseArriving => 2
    case Closing => 1
    case Waiting => 2 * |detached| + 2
    case Wiping(todo) => 2 * |todo| + 1
    case WipingLocked(todo, _) => 2 * |todo|
    case CloseReturned(_) => 0
  }

  ghost function Total(threads: map<Thread, Pc>, detached: set<Instance>): nat
    decreases |threads|
  {
    if threads == map[] then 0
    else
      var t :| t in threads;
      Rank(threads[t], detached) + Total(threads - {t}, detached)
  }

  lemma {:induction false} TotalSplits(threads: map<Thread, Pc>, detached: set<Instance>, t: Thread)
    requires t in threads
    ensures Total(threads, detached) == Rank(threads[t], detached) + Total(threads - {t}, detached)
    decreases |threads|
  {
    var u :| u in threads && Total(threads, detached) == Rank(threads[u], detached) + Total(threads - {u}, detached);
    if u != t {
      TotalSplits(threads - {u}, detached, t);
      TotalSplits(threads - {t}, detached, u);
      assert threads - {u} - {t} == threads - {t} - {u};
    }
  }

  lemma TotalUpdate(threads: map<Thread, Pc>, detached: set<Instance>, t: Thread, pc: Pc)
    requires t in threads
    ensures Total(threads[t := pc], detached) ==
            Total(threads, detached) - Rank(threads[t], detached) + Rank(pc, detached)
  {
    TotalSplits(threads, detached, t);
    TotalSplits(threads[t := pc], detached, t);
    assert threads[t := pc] - {t} == threads - {t};
  }

  function PendingClosers(threads: map<Thread, Pc>): set<Thread> {
    set t | t in threads && Detaches(threads[t])
  }

  ghost predicate Lower(threads: map<Thread, Pc>, detached: set<Instance>,
                        threads': map<Thread, Pc>, detached': set<Instance>)
  {
    || |PendingClosers(threads')| < |PendingClosers(threads)|
    || (|PendingClosers(threads')| == |PendingClosers(threads)|
        && Total(threads', detached') < Total(threads, detached))
  }

  lemma CloserSettles(threads: map<Thread, Pc>, detached: set<Instance>, detached': set<Instance>, t: Thread, pc: Pc)
    requires t in threads && Detaches(threads[t]) && !Detaches(pc)
    ensures Lower(threads, detached, threads[t := pc], detached')
  {
    assert PendingClosers(threads[t := pc]) == PendingClosers(threads) - {t};
    assert t in PendingClosers(threads);
  }

  lemma RankLowers(threads: map<Thread, Pc>, detached: set<Instance>, t: Thread, pc: Pc)
    requires t in threads && Rank(pc, detached) < Rank(threads[t], detached) && (Detaches(pc) <==> Detaches(threads[t]))
    ensures Lower(threads, detached, threads[t := pc], detached)
  {
    assert PendingClosers(threads[t := pc]) == PendingClosers(threads);
    TotalUpdate(threads, detached, t, pc);
  }

  /** What a step does to the counter of its thread. */
  predicate Counts(b: Bridge, t: Thread, b': Bridge)
    requires t in b.threads
  {
    && t in b'.threads
    && var pc, pc' := b.threads[t], b'.threads[t];
       && b'.threads == b.threads[t := pc']
       && if pc.Closing? then !Detaches(pc')
          else b'.detached == b.detached
               && Rank(pc', b.detached) < Rank(pc, b.detached) && (Detaches(pc') <==> Detaches(pc))
  }

  predicate Entrant(pc: Pc) { Arrives(pc) || pc.Entering? || Decides(pc) }

  lemma EntrantCounts(b: Bridge, a: Action)
    requires Shape(b) && Enabled(b, a) && a.Advance? && Entrant(b.threads[a.thread])
    ensures Counts(b, a.thread, Apply(b, a))
  {
  }

  lemma LeaverCounts(b: Bridge, a: Action)
    requires Shape(b) && Enabled(b, a) && (a.Finish? || (a.Advance? && Departs(b.threads[a.thread])))
    ensures Counts(b, a.thread, Apply(b, a))
  {
  }

  lemma DetacherCounts(b: Bridge, a: Action)
    requires Shape(b) && Enabled(b, a) && a.Advance? && Detaches(b.threads[a.thread])
    ensures Counts(b, a.thread, Apply(b, a))
  {
  }

  lemma WiperCounts(b: Bridge, a: Action)
    requires Shape(b) && Enabled(b, a) && (a.Wipe? || (a.Advance? && Wipes(b.threads[a.thread])))
    requires ThreadOk(b, a.thread)
    ensures Counts(b, a.thread, Apply(b, a))
  {
  }

  /** Each step ends a pending close, or lowers the total without adding one. */
  lemma StepDecreases(b: Bridge, a: Action)
    requires Inv(b) && Enabled(b, a) && !a.Spawn?
    ensures Lower(b.threads, b.detached, Apply(b, a).threads, Apply(b, a).detached)
  {
    var b', t := Apply(b, a), a.thread;
    Pick(b, t);
    var pc := b.threads[t];
    if a.Advance? && Entrant(pc) { EntrantCounts(b, a); }
    else if a.Finish? || (a.Advance? && Departs(pc)) { LeaverCounts(b, a); }
    else if a.Advance? && Detaches(pc) { DetacherCounts(b, a); }
    else { WiperCounts(b, a); }
    if b.threads[t].Closing? {
      CloserSettles(b.threads, b.detached, b'.detached, t, b'.threads[t]);
    } else {
      RankLowers(b.threads, b.detached, t, b'.threads[t]);
    }
  }

  /** Move `n` of an endless schedule is a step of a call that has begun. */
  ghost predicate Moves(states: nat -> Bridge, actions: nat -> Action, n: nat) {
    Step(states(n), actions(n), states(n + 1)) && !actions(n).Spawn?
  }

  /** No schedule goes on for ever: from any reachable state the calls that have begun end. */
  lemma {:induction false} CallsEnd(states: nat -> Bridge, actions: nat -> Action, n: nat)
    requires Inv(states(n))
    ensures exists m :: n <= m && !Moves(states, actions, m)
    decreases |PendingClosers(states(n).threads)|, Total(states(n).threads, states(n).detached)
  {
    if Moves(states, actions, n) {
      StepInv(states(n), actions(n));
      StepDecreases(states(n), actions(n));
      CallsEnd(states, actions, n + 1);
    }
  }
}
