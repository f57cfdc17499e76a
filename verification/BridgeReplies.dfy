/** What a call returns, and that it is what happened to it: in every run the log tells of each call just what its
    reply says. */
module BridgeReplies {
  import opened Wrappers
  import opened BridgeTables
  import opened BridgeProtocol
  import opened BridgeInvariant
  import opened BridgeSafety

  predicate WasAdmitted(log: seq<Event>, t: Thread) { exists e :: e in log && e.Admission? && e.thread == t }

  /** The callback of the thread returned, without an error or with one. */
  predicate EndedWith(log: seq<Event>, t: Thread, ok: bool) {
    exists e :: e in log && e.Ended? && e.thread == t && e.ok == ok
  }

  predicate WasCleaned(log: seq<Event>, t: Thread) { exists e :: e in log && e.Cleaned? && e.thread == t }

  lemma LogTells(log: seq<Event>, e: Event, t: Thread, ok: bool)
    ensures WasAdmitted(log + [e], t) <==> WasAdmitted(log, t) || (e.Admission? && e.thread == t)
    ensures EndedWith(log + [e], t, ok) <==> EndedWith(log, t, ok) || (e.Ended? && e.thread == t && e.ok == ok)
    ensures WasCleaned(log + [e], t) <==> WasCleaned(log, t) || (e.Cleaned? && e.thread == t)
  {
    assert forall f :: f in log + [e] <==> f in log || f == e;
  }

  predicate Silent(log: seq<Event>, t: Thread) {
    !WasAdmitted(log, t) && !EndedWith(log, t, true) && !EndedWith(log, t, false) && !WasCleaned(log, t)
  }

  /** The reply is what happened: no admission, or a callback that ended one way or the other. A clean has retired its
      key exactly if it succeeded, and a refusal has its reason. */
  predicate ReplyOk(b: Bridge, call: Pc, t: Thread, reply: Reply)
    requires call.Arriving?
  {
    && (reply == Gone <==> !WasAdmitted(b.log, t))
    && (reply == Succeeded <==> EndedWith(b.log, t, true))
    && (reply == Failed <==> EndedWith(b.log, t, false))
    && (WasCleaned(b.log, t) <==> reply == Succeeded && call.kind == Clean)
    && (reply == Gone ==> b.tables.closed || call.key in b.tables.completed)
  }

  /** What the log tells of a thread fits its counter and what it was called for. */
  predicate StoryOk(b: Bridge, t: Thread) {
    && t in b.threads && t in b.calls
    && var log, call, pc := b.log, b.calls[t], b.threads[t];
       if !Worker(pc) then
         call == CloseArriving && Silent(log, t)
       else if pc.Admitted? || pc.Running? then
         && call == Arriving(pc.key, pc.kind) && WasAdmitted(log, t)
         && !EndedWith(log, t, true) && !EndedWith(log, t, false) && !WasCleaned(log, t)
       else if pc.Sealing? || pc.Completing? then
         && call == Arriving(pc.key, Clean) && WasAdmitted(log, t)
         && EndedWith(log, t, true) && !EndedWith(log, t, false) && !WasCleaned(log, t)
       else if pc.Leaving? then
         call.Arriving? && call.key == pc.key && ReplyOk(b, call, t, pc.reply)
       else if pc.Departing? || pc.Returned? then
         call.Arriving? && ReplyOk(b, call, t, pc.reply)
       else
         call == Arriving(pc.key, pc.kind) && Silent(log, t)
  }

  /** An event is of a thread that was called for it. */
  predicate EventOk(b: Bridge, e: Event) {
    && e.thread in b.calls
    && var call := b.calls[e.thread];
       match e
       case Admission(_, key, kind) => call == Arriving(key, kind)
       case Began(_, key, _) => call.Arriving? && call.key == key
       case Ended(_, key, _, _) => call.Arriving? && call.key == key
       case Cleaned(_, key) => call == Arriving(key, Clean)
       case CloseBegan(_) => call == CloseArriving
  }

  ghost predicate Stories(b: Bridge) {
    && b.calls.Keys == b.threads.Keys
    && (forall t :: t in b.threads ==> StoryOk(b, t))
    && (forall e :: e in b.log ==> EventOk(b, e))
  }

  // ------------------------------------------------------------------------------------------ one step

  /** What a step of `t` adds: at most one event, of `t` itself. */
  predicate Told(b: Bridge, b': Bridge, t: Thread) {
    && t in b'.threads && b'.calls == b.calls && b'.threads == b.threads[t := b'.threads[t]]
    && StoryOk(b', t)
    && (b'.log == b.log
        || (|b'.log| == |b.log| + 1 && b'.log == b.log + [b'.log[|b.log|]]
            && b'.log[|b.log|].thread == t && EventOk(b', b'.log[|b.log|])))
  }

  lemma Tells(b: Bridge, b': Bridge, t: Thread)
    ensures |b'.log| == |b.log| + 1 && b'.log == b.log + [b'.log[|b.log|]] ==>
              var e := b'.log[|b.log|];
              && (WasAdmitted(b'.log, t) <==> WasAdmitted(b.log, t) || (e.Admission? && e.thread == t))
              && (EndedWith(b'.log, t, true) <==> EndedWith(b.log, t, true) || (e.Ended? && e.thread == t && e.ok))
              && (EndedWith(b'.log, t, false) <==> EndedWith(b.log, t, false) || (e.Ended? && e.thread == t && !e.ok))
              && (WasCleaned(b'.log, t) <==> WasCleaned(b.log, t) || (e.Cleaned? && e.thread == t))
  {
    if |b'.log| == |b.log| + 1 && b'.log == b.log + [b'.log[|b.log|]] {
      LogTells(b.log, b'.log[|b.log|], t, true);
      LogTells(b.log, b'.log[|b.log|], t, false);
    }
  }

  lemma ArriveTold(b: Bridge, b': Bridge, t: Thread)
    requires Arrived(b, b', t) && StoryOk(b, t)
    ensures Told(b, b', t)
  {
  }

  lemma EnterTold(b: Bridge, b': Bridge, t: Thread)
    requires Entered(b, b', t) && StoryOk(b, t)
    ensures Told(b, b', t)
  {
  }

  /** A recheck fails only for a closed state or a retired key. */
  lemma RecheckFails(b: Bridge, t: Thread)
    requires Inv(b) && t in b.threads && b.threads[t].Deciding?
    requires !StillCurrent(b.tables, b.threads[t].key, b.threads[t].instance)
    ensures b.tables.closed || b.threads[t].key in b.tables.completed
  {
    Pick(b, t);
    assert PlaceOk(b, b.threads[t].instance);
  }

  lemma RecheckTold(b: Bridge, b': Bridge, t: Thread)
    requires Decided(b, b', t) && StoryOk(b, t) && b.threads[t].Deciding?
    requires !StillCurrent(b.tables, b.threads[t].key, b.threads[t].instance) ==>
               b.tables.closed || b.threads[t].key in b.tables.completed
    ensures Told(b, b', t)
  {
    Tells(b, b', t);
  }

  lemma BeginTold(b: Bridge, b': Bridge, t: Thread)
    requires Decided(b, b', t) && StoryOk(b, t) && !b.threads[t].Deciding?
    ensures Told(b, b', t)
  {
    Tells(b, b', t);
  }

  lemma DecideTold(b: Bridge, b': Bridge, t: Thread)
    requires Inv(b) && Decided(b, b', t) && StoryOk(b, t)
    ensures Told(b, b', t)
  {
    if b.threads[t].Deciding? {
      if !StillCurrent(b.tables, b.threads[t].key, b.threads[t].instance) { RecheckFails(b, t); }
      RecheckTold(b, b', t);
    } else {
      BeginTold(b, b', t);
    }
  }

  lemma FinishTold(b: Bridge, b': Bridge, t: Thread, left: Data, ok: bool)
    requires Finished(b, b', t, left, ok) && StoryOk(b, t)
    ensures Told(b, b', t)
  {
    Tells(b, b', t);
  }

  lemma RetireTold(b: Bridge, b': Bridge, t: Thread)
    requires Departed(b, b', t) && StoryOk(b, t) && (b.threads[t].Sealing? || b.threads[t].Completing?)
    ensures Told(b, b', t)
  {
    Tells(b, b', t);
  }

  lemma LeaveTold(b: Bridge, b': Bridge, t: Thread)
    requires Departed(b, b', t) && StoryOk(b, t) && (b.threads[t].Leaving? || b.threads[t].Departing?)
    ensures Told(b, b', t)
  {
  }

  lemma DepartTold(b: Bridge, b': Bridge, t: Thread)
    requires Departed(b, b', t) && StoryOk(b, t)
    ensures Told(b, b', t)
  {
    if b.threads[t].Sealing? || b.threads[t].Completing? { RetireTold(b, b', t); } else { LeaveTold(b, b', t); }
  }

  lemma DetachTold(b: Bridge, b': Bridge, t: Thread)
    requires Detached(b, b', t) && StoryOk(b, t)
    ensures Told(b, b', t)
  {
    Tells(b, b', t);
  }

  lemma WipeTold(b: Bridge, b': Bridge, t: Thread, next: Instance)
    requires Wiped(b, b', t, next) && StoryOk(b, t)
    ensures Told(b, b', t)
  {
  }

  lemma StepTold(b: Bridge, a: Action)
    requires Inv(b) && Enabled(b, a) && !a.Spawn? && StoryOk(b, a.thread)
    ensures Told(b, Apply(b, a), a.thread)
  {
    var b', t := Apply(b, a), a.thread;
    Pick(b, t);
    match a
    case Finish(_, left, ok) => FinishTold(b, b', t, left, ok);
    case Wipe(_, i) => WipeTold(b, b', t, i);
    case Advance(_) =>
      var pc := b.threads[t];
      if Arrives(pc) { ArriveTold(b, b', t); }
      else if pc.Entering? { EnterTold(b, b', t); }
      else if Decides(pc) { DecideTold(b, b', t); }
      else if Departs(pc) { DepartTold(b, b', t); }
      else if Detaches(pc) { DetachTold(b, b', t); }
      else { WipeTold(b, b', t, 0); }
  }

  /** The story of another thread goes on unchanged. */
  lemma OtherStory(b: Bridge, b': Bridge, t: Thread, u: Thread)
    requires Told(b, b', t) && u != t && StoryOk(b, u)
    requires b.tables.closed ==> b'.tables.closed
    requires !b'.tables.closed ==> b.tables.completed <= b'.tables.completed
    ensures StoryOk(b', u)
  {
    Tells(b, b', u);
  }

  lemma StepStories(b: Bridge, a: Action)
    requires Inv(b) && Stories(b) && Enabled(b, a)
    ensures Stories(Apply(b, a))
  {
    var b' := Apply(b, a);
    if a.Spawn? {
      SpawnStories(b, a);
    } else {
      var t := a.thread;
      StepTold(b, a);
      StepTables(b, a);
      forall u | u in b'.threads ensures StoryOk(b', u) { if u != t { OtherStory(b, b', t, u); } }
      forall e | e in b'.log ensures EventOk(b', e) { if e in b.log { assert EventOk(b, e); } }
    }
  }

  lemma SpawnStories(b: Bridge, a: Action)
    requires Shape(b) && Stories(b) && Enabled(b, a) && a.Spawn?
    ensures Stories(Apply(b, a))
  {
    var b' := Apply(b, a);
    assert Silent(b.log, a.thread) by { assert forall e :: e in b.log ==> EventOk(b, e); }
    forall u | u in b'.threads ensures StoryOk(b', u) { if u != a.thread { assert StoryOk(b, u); } }
    forall e | e in b'.log ensures EventOk(b', e) { assert EventOk(b, e); }
  }

  lemma {:induction false} RunStories(states: seq<Bridge>, actions: seq<Action>, i: nat)
    requires IsRun(states, actions) && i < |states|
    ensures Inv(states[i]) && Stories(states[i])
  {
    RunInv(states, actions, i);
    if i > 0 {
      RunStories(states, actions, i - 1);
      assert Step(states[i - 1], actions[i - 1], states[i]);
      StepStories(states[i - 1], actions[i - 1]);
    }
  }

  // ------------------------------------------------------------------------------------------ main results

  /** The reply of a thread that has one. */
  function ReplyOf(pc: Pc): Option<Reply> {
    if pc.Leaving? || pc.Departing? || pc.Returned? then Some(pc.reply) else None
  }

  /** In every run, a call that has its reply: it is `Gone` exactly if the call was never admitted, and then the state
      is closed or its key retired; otherwise it is `Succeeded` or `Failed` as its own callback ended. */
  lemma RepliesAreExact(states: seq<Bridge>, actions: seq<Action>, i: nat, t: Thread)
    requires IsRun(states, actions) && i < |states| && t in states[i].threads && ReplyOf(states[i].threads[t]).Some?
    ensures var b, reply := states[i], ReplyOf(states[i].threads[t]).value;
            && (reply == Gone <==> forall e :: e in b.log && e.Admission? ==> e.thread != t)
            && (reply == Succeeded <==> exists e :: e in b.log && e.Ended? && e.thread == t && e.ok)
            && (reply == Failed <==> exists e :: e in b.log && e.Ended? && e.thread == t && !e.ok)
            && t in b.calls && b.calls[t].Arriving?
            && (reply == Gone ==> b.tables.closed || b.calls[t].key in b.tables.completed)
  {
    RunStories(states, actions, i);
    assert StoryOk(states[i], t);
  }

  /** In every run, a clean that has its reply has retired its key exactly if its callback succeeded, and an invocation
      never retires one. */
  lemma CleansAreExact(states: seq<Bridge>, actions: seq<Action>, i: nat, t: Thread)
    requires IsRun(states, actions) && i < |states| && t in states[i].threads && ReplyOf(states[i].threads[t]).Some?
    ensures var b, reply := states[i], ReplyOf(states[i].threads[t]).value;
            && t in b.calls && b.calls[t].Arriving?
            && ((exists e :: e in b.log && e.Cleaned? && e.thread == t)
                <==> reply == Succeeded && b.calls[t].kind == Clean)
  {
    RunStories(states, actions, i);
    assert StoryOk(states[i], t);
  }

  /** In every run, what the log tells of a thread is of the key, and for a clean of the kind, that it was called
      for. */
  lemma EventsAreOfCalls(states: seq<Bridge>, actions: seq<Action>, i: nat, e: Event)
    requires IsRun(states, actions) && i < |states| && e in states[i].log
    ensures e.thread in states[i].calls
    ensures var call := states[i].calls[e.thread];
            if e.CloseBegan? then call == CloseArriving
            else call.Arriving? && call.key == e.key && (e.Admission? ==> call.kind == e.kind)
                 && (e.Cleaned? ==> call.kind == Clean)
  {
    RunStories(states, actions, i);
    assert EventOk(states[i], e);
  }
}
