/** Identifiers: a registration in an open registry gets one, it names the state of that registration and of no other,
    and only a closed registry answers with the empty one. */
module RegistryIdentity {
  import opened Wrappers
  import B = BridgeProtocol
  import BridgeTables
  import opened RegistryProtocol

  type Thread = B.Thread

  /** The registration of `t` was answered with `id`. */
  predicate Holds(r: Registry, t: Thread, id: Id) { t in r.callers && r.callers[t] == Registered(Some(id)) }

  /** Identifiers and states correspond: every identifier given out names a state, no two registrations have the same,
      and every state belongs to a registration. */
  ghost predicate Identified(r: Registry) {
    && (forall t, id :: Holds(r, t, id) ==> id in r.bridges)
    && (forall t, u, id :: Holds(r, t, id) && Holds(r, u, id) ==> t == u)
    && (forall id :: id in r.bridges ==> exists t :: Holds(r, t, id))
    && (forall t :: t in r.callers && r.callers[t] == Registered(None) ==> r.closed)
  }

  lemma Kept(r: Registry, r': Registry)
    requires Identified(r) && r'.bridges.Keys == r.bridges.Keys && (r.closed ==> r'.closed)
    requires forall t, id :: Holds(r', t, id) <==> Holds(r, t, id)
    requires forall t :: t in r'.callers && r'.callers[t] == Registered(None) ==>
               r'.closed || (t in r.callers && r.callers[t] == Registered(None))
    ensures Identified(r')
  {
    forall id | id in r'.bridges ensures exists t :: Holds(r', t, id) {
      var t :| Holds(r, t, id);
      assert Holds(r', t, id);
    }
  }

  lemma NextKeeps(r: Registry, t: Thread)
    requires t in r.callers && NextEnabled(r, t, r.callers[t]) && !r.callers[t].Registered?
    ensures NextStep(r, t).bridges == r.bridges && (r.closed ==> NextStep(r, t).closed)
    ensures t in NextStep(r, t).callers && NextStep(r, t).callers == r.callers[t := NextStep(r, t).callers[t]]
    ensures NextStep(r, t).callers[t].Registered? ==>
              NextStep(r, t).callers[t] == Registered(None) && NextStep(r, t).closed
  {
  }

  /** The answer to a registration in an open registry: the identifier of a state that is new, open and empty, and that
      nobody has entered. */
  lemma RegistrationIsNew(r: Registry, t: Thread, id: Id)
    requires t in r.callers && r.callers[t].Recording? && PickEnabled(r, t, r.callers[t], id)
    ensures var r' := PickStep(r, t, id);
            && Holds(r', t, id) && id !in r.bridges && r'.bridges.Keys == r.bridges.Keys + {id}
            && r'.callers == r.callers[t := r'.callers[t]] && r'.closed == r.closed
            && r'.bridges[id].tables == BridgeTables.Tables(false, map[], {}, 0)
            && r'.bridges[id].threads == map[] && r'.bridges[id].owner == []
            && forall j :: j in r.bridges ==> r'.bridges[j] == r.bridges[j]
  {
  }

  lemma RecordingIdentifies(r: Registry, t: Thread, id: Id)
    requires Identified(r) && t in r.callers && r.callers[t].Recording? && PickEnabled(r, t, r.callers[t], id)
    ensures Identified(PickStep(r, t, id))
  {
    var r' := PickStep(r, t, id);
    RegistrationIsNew(r, t, id);
    assert forall u, j :: u != t ==> (Holds(r', u, j) <==> Holds(r, u, j));
    forall j | j in r'.bridges ensures exists u :: Holds(r', u, j) {
      if j == id {
        assert Holds(r', t, id);
      } else {
        var u :| Holds(r, u, j);
        assert Holds(r', u, j);
      }
    }
  }

  lemma StepIdentifies(r: Registry, a: Action)
    requires Identified(r) && Allowed(r, a)
    ensures Identified(Perform(r, a))
  {
    var r' := Perform(r, a);
    match a
    case Call(t, caller) => Kept(r, r');
    case Next(t) =>
      NextKeeps(r, t);
      Kept(r, r');
    case Pick(t, id) => if r.callers[t].Recording? { RecordingIdentifies(r, t, id); } else { Kept(r, r'); }
    case InBridge(id, step) =>
      assert r'.bridges.Keys == r.bridges.Keys;
      Kept(r, r');
  }

  /** In every run identifiers and registered states correspond one to one, and an empty identifier means that the
      registry has been closed. */
  lemma {:induction false} RegistrationsAreIdentified(states: seq<Registry>, actions: seq<Action>, i: nat)
    requires IsRun(states, actions) && i < |states|
    ensures forall t, id :: Holds(states[i], t, id) ==> id in states[i].bridges
    ensures forall t, u, id :: Holds(states[i], t, id) && Holds(states[i], u, id) ==> t == u
    ensures forall id :: id in states[i].bridges ==> exists t :: Holds(states[i], t, id)
    ensures forall t :: t in states[i].callers && states[i].callers[t] == Registered(None) ==> states[i].closed
  {
    if i > 0 {
      RegistrationsAreIdentified(states, actions, i - 1);
      assert Step(states[i - 1], actions[i - 1], states[i]);
      StepIdentifies(states[i - 1], actions[i - 1]);
    }
  }
}
