/** The mutex-protected tables of a scenario bridge state (`runtimeScenarioBridgeState`).

    Each critical section of `s.mu` is a function on the tables. The class `BridgeState` holds the tables as
    mutable fields and runs the critical sections in place; module BridgeProtocol interleaves the very same
    functions between any number of threads.
  */
module BridgeTables {
  import opened Wrappers

  datatype Key = Key(
    runIdentity: string,
    nodeIdentity: string,
    partitionNumber: int,
    scenarioName: string,
    scenarioInstanceId: string)

  /** Instance data: string keys, with `int` standing for an opaque value handle. */
  type Data = map<string, int>

  /** `active` maps keys to instances of type `I`: object references in the class, indices in the protocol.
      The two tables the source sets to nil on close are empty here. */
  datatype Tables<I> = Tables(closed: bool, active: map<Key, I>, completed: set<Key>, inFlight: int)

  /** The first critical section of an admission; `spare` is the instance to install for a new key. */
  function Enter<I>(tables: Tables<I>, key: Key, spare: I): (Tables<I>, Option<I>) {
    if tables.closed || key in tables.completed then
      (tables, None)
    else
      var instance := if key in tables.active then tables.active[key] else spare;
      (tables.(active := tables.active[key := instance], inFlight := tables.inFlight + 1), Some(instance))
  }

  /** The recheck of an admission, made while the instance lock is held. */
  predicate StillCurrent<I(==)>(tables: Tables<I>, key: Key, instance: I) {
    !tables.closed && key !in tables.completed && key in tables.active && tables.active[key] == instance
  }

  /** The critical section that ends a successful clean. */
  function Complete<I>(tables: Tables<I>, key: Key): Tables<I> {
    if tables.closed then tables
    else tables.(completed := tables.completed + {key}, active := tables.active - {key})
  }

  /** The first phase of a close: detaches the active instances, or nothing when already closed. */
  function Detach<I>(tables: Tables<I>): (Tables<I>, Option<map<Key, I>>) {
    if tables.closed then (tables, None)
    else (tables.(closed := true, active := map[], completed := {}), Some(tables.active))
  }

  datatype Reply = Gone | Failed | Succeeded

  class InstanceState {
    var data: Data

    constructor ()
      ensures data == map[]
    {
      data := map[];
    }
  }

  class BridgeState {
    var closed: bool
    var active: map<Key, InstanceState>
    var completed: set<Key>
    var inFlight: int

    function View(): Tables<InstanceState>
      reads this
    {
      Tables(closed, active, completed, inFlight)
    }

    /** Between calls the tables are disjoint, no two keys share an instance, and a closed state is detached. */
    ghost predicate Valid()
      reads this
    {
      && active.Keys !! completed
      && (forall k, l :: k in active && l in active && active[k] == active[l] ==> k == l)
      && (closed ==> active == map[] && completed == {})
      && 0 <= inFlight
    }

    constructor ()
      ensures Valid() && View() == Tables(false, map[], {}, 0)
    {
      closed, active, completed, inFlight := false, map[], {}, 0;
    }

    /** First critical section of `admitInstance`. */
    method EnterAdmission(key: Key) returns (instance: Option<InstanceState>)
      requires Valid()
      modifies this
      ensures Valid()
      ensures instance == None <==> old(closed) || key in old(completed)
      ensures instance == None ==> View() == old(View())
      ensures instance.Some? ==> View() == Enter(old(View()), key, instance.value).0
      ensures instance.Some? ==>
                if key in old(active) then instance.value == old(active)[key]
                else fresh(instance.value) && instance.value.data == map[]
    {
      if closed || key in completed {
        return None;
      }
      var found: InstanceState;
      if key in active {
        found := active[key];
      } else {
        found := new InstanceState();
        active := active[key := found];
      }
      inFlight := inFlight + 1;
      assert active == old(active)[key := found];
      return Some(found);
    }

    /** Last critical section of `cleanInstance`. */
    method CompleteClean(key: Key)
      requires Valid()
      modifies this
      ensures Valid() && View() == Complete(old(View()), key)
    {
      if !closed {
        completed := completed + {key};
        active := active - {key};
      }
    }

    /** `withInstance` run alone: a callback is a function from the data it sees to the data it leaves and
        whether it returned without an error. */
    method WithInstance(key: Key, invoke: Data -> (Data, bool)) returns (reply: Reply)
      requires Valid()
      modifies this, set k | k in active :: active[k]
      ensures Valid() && inFlight == old(inFlight) && closed == old(closed) && completed == old(completed)
      ensures reply == Gone <==> old(closed) || key in old(completed)
      ensures reply == Gone ==> active == old(active)
      ensures reply != Gone ==>
                && active.Keys == old(active).Keys + {key}
                && (forall k :: k in old(active) ==> active[k] == old(active)[k])
                && var seen := if key in old(active) then old(active[key].data) else map[];
                   active[key].data == invoke(seen).0 && (reply == Succeeded <==> invoke(seen).1)
      ensures forall k :: k in old(active) && k != key ==> old(active)[k].data == old(active[k].data)
    {
      var instance := EnterAdmission(key);
      if instance == None {
        return Gone;
      }
      assert StillCurrent(View(), key, instance.value);
      var result := invoke(instance.value.data);
      instance.value.data := result.0;
      inFlight := inFlight - 1;
      return if result.1 then Succeeded else Failed;
    }

    /** The end of a successful clean, while the instance is held: its data is cleared, the key retired, and the call
        counted out. */
    method Retire(key: Key, instance: InstanceState)
      requires Valid() && !closed && 1 <= inFlight && key in active && active[key] == instance
      modifies this, instance
      ensures Valid() && inFlight == old(inFlight) - 1 && closed == old(closed)
      ensures active == old(active) - {key} && completed == old(completed) + {key}
      ensures instance.data == map[]
    {
      instance.data := map[];
      CompleteClean(key);
      inFlight := inFlight - 1;
    }

    /** `cleanInstance` run alone: only a clean whose callback succeeded clears the data and retires the key. */
    method CleanInstance(key: Key, invoke: Data -> (Data, bool)) returns (reply: Reply)
      requires Valid()
      modifies this, set k | k in active :: active[k]
      ensures Valid() && inFlight == old(inFlight) && closed == old(closed)
      ensures reply == Gone <==> old(closed) || key in old(completed)
      ensures reply == Gone ==> View() == old(View())
      ensures reply != Gone ==>
                var seen := if key in old(active) then old(active[key].data) else map[];
                reply == Succeeded <==> invoke(seen).1
      ensures reply == Succeeded ==> active == old(active) - {key} && completed == old(completed) + {key}
      ensures reply == Succeeded && key in old(active) ==> old(active)[key].data == map[]
      ensures reply == Failed ==>
                && active.Keys == old(active).Keys + {key} && completed == old(completed)
                && (forall k :: k in old(active) ==> active[k] == old(active)[k])
                && var seen := if key in old(active) then old(active[key].data) else map[];
                   active[key].data == invoke(seen).0
      ensures forall k :: k in old(active) && k != key ==> old(active)[k].data == old(active[k].data)
    {
      var instance := EnterAdmission(key);
      if instance == None {
        return Gone;
      }
      assert StillCurrent(View(), key, instance.value);
      var result := invoke(instance.value.data);
      instance.value.data := result.0;
      if !result.1 {
        inFlight := inFlight - 1;
        return Failed;
      }
      Retire(key, instance.value);
      assert active == old(active) - {key};
      return Succeeded;
    }

    method BeginClose() returns (detached: Option<map<Key, InstanceState>>)
      requires Valid()
      modifies this
      ensures Valid() && (View(), detached) == Detach(old(View()))
    {
      if closed {
        return None;
      }
      closed := true;
      detached := Some(active);
      active, completed := map[], {};
    }

    /** Second phase of a close; the wait group makes it run only once nothing is in flight. */
    method FinishClose(detached: Option<map<Key, InstanceState>>)
      requires Valid() && inFlight == 0
      modifies if detached.Some? then set k | k in detached.value :: detached.value[k] else {}
      ensures Valid() && View() == old(View())
      ensures detached.Some? ==> forall k :: k in detached.value ==> detached.value[k].data == map[]
    {
      if detached == None {
        return;
      }
      var instances := detached.value;
      var remaining := instances.Keys;
      while remaining != {}
        invariant remaining <= instances.Keys
        invariant forall k :: k in instances && k !in remaining ==> instances[k].data == map[]
        decreases |remaining|
      {
        var k :| k in remaining;
        instances[k].data := map[];
        remaining := remaining - {k};
      }
    }
  }
}
