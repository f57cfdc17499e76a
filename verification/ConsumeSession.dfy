/** The tracking consume session: a consumer queues messages, pollers take them in batches, and a wake channel of
    one slot tells pollers to look again. */
module ConsumeTables {
  import opened Wrappers

  /** An emitted event. */
  type Message = int

  datatype ConsumeError = Canceled | OtherError

  datatype Batch = Batch(messages: seq<Message>, completed: bool, error: Option<ConsumeError>)

  datatype Session = Session(
    messages: seq<Message>,
    completed: bool,
    error: Option<ConsumeError>,
    closed: bool,
    wake: bool)

  function Emit(s: Session, m: Message): Session { s.(messages := s.messages + [m]) }

  /** The consumer has returned; a cancellation that a close asked for is not reported. */
  function Complete(s: Session, error: Option<ConsumeError>): Session {
    s.(completed := true, error := if s.closed && error == Some(Canceled) then s.error else error)
  }

  function Take(s: Session): (Session, Batch) {
    (s.(messages := []), Batch(s.messages, s.completed, s.error))
  }

  /** A batch worth returning before the timer fires. */
  predicate Worthwhile(batch: Batch) { batch.messages != [] || batch.completed || batch.error.Some? }

  datatype WaitEnd = Woken | TimedOut | ContextDone

  /** What happens while a poll waits: what is emitted, whether the consumer returns, and what ends the wait. */
  datatype Wait = Wait(arrived: seq<Message>, returned: Option<Option<ConsumeError>>, end: WaitEnd)

  function Arrivals(waits: seq<Wait>): seq<Message> {
    if waits == [] then [] else Arrivals(waits[..|waits| - 1]) + waits[|waits| - 1].arrived
  }

  class ConsumeSession {
    var messages: seq<Message>
    var completed: bool
    var error: Option<ConsumeError>
    var closed: bool
    var wake: bool

    function View(): Session
      reads this
    {
      Session(messages, completed, error, closed, wake)
    }

    constructor ()
      ensures View() == Session([], false, None, false, false)
    {
      messages, completed, error, closed, wake := [], false, None, false, false;
    }

    method Append(m: Message)
      modifies this
      ensures View() == Emit(old(View()), m)
    {
      messages := messages + [m];
    }

    method Finish(result: Option<ConsumeError>)
      modifies this
      ensures View() == Complete(old(View()), result)
      ensures completed && error == if old(closed) && result == Some(Canceled) then old(error) else result
    {
      if !(closed && result == Some(Canceled)) {
        error := result;
      }
      completed := true;
    }

    method Snapshot() returns (batch: Batch)
      modifies this
      ensures (View(), batch) == Take(old(View()))
    {
      batch := Batch(messages, completed, error);
      messages := [];
    }

    /** A send that does not block: a full slot stays full. */
    method Notify()
      modifies this
      ensures View() == old(View()).(wake := true)
    {
      if !wake {
        wake := true;
      }
    }

    method Close()
      modifies this
      ensures View() == old(View()).(closed := true)
    {
      closed := true;
    }

    /** The consumer at work during a wait. */
    method Happen(wait: Wait)
      modifies this
      ensures messages == old(messages) + wait.arrived
      ensures completed <==> old(completed) || wait.returned.Some?
      ensures wait.returned == None ==> error == old(error)
      ensures wait.returned.Some? ==>
                error == if closed && wait.returned.value == Some(Canceled) then old(error) else wait.returned.value
      ensures closed == old(closed)
    {
      var i := 0;
      while i < |wait.arrived|
        invariant 0 <= i <= |wait.arrived|
        invariant messages == old(messages) + wait.arrived[..i]
        invariant completed == old(completed) && error == old(error) && closed == old(closed)
      {
        Append(wait.arrived[i]);
        Notify();
        assert wait.arrived[..i + 1] == wait.arrived[..i] + [wait.arrived[i]];
        i := i + 1;
      }
      assert wait.arrived[..i] == wait.arrived;
      if wait.returned.Some? {
        Finish(wait.returned.value);
        Notify();
      }
    }

    /** `poll`: `waits` is what its waits bring, one after the other; when they are used up the timer has fired. It
        returns everything that was queued or arrived, or leaves all of it queued when its context ends; it goes on
        only while nothing has come, and returns with nothing only when the timer fires. */
    method Poll(waits: seq<Wait>) returns (batch: Option<Batch>, used: nat)
      modifies this
      ensures used <= |waits|
      ensures batch.Some? ==> messages == [] && batch.value.messages == old(messages) + Arrivals(waits[..used])
      ensures batch.Some? ==> batch.value.completed == completed && batch.value.error == error
      ensures batch == Some(Batch([], false, None)) ==>
                used == |waits| || (0 < used && waits[used - 1].end == TimedOut)
      ensures batch == None ==> messages == old(messages) + Arrivals(waits[..used])
      ensures batch == None ==> 0 < used && waits[used - 1].end == ContextDone
      ensures forall i :: 0 <= i < used - 1 ==> waits[i] == Wait([], None, Woken)
      ensures 0 < used ==> old(messages) == [] && !old(completed) && old(error) == None
      ensures closed == old(closed)
      ensures used == 0 || waits[used - 1].returned == None ==> completed == old(completed) && error == old(error)
      ensures 0 < used && waits[used - 1].returned.Some? ==>
                var result := waits[used - 1].returned.value;
                completed && error == if closed && result == Some(Canceled) then None else result
    {
      used := 0;
      while true
        invariant used <= |waits|
        invariant messages == old(messages) + Arrivals(waits[..used])
        invariant forall i :: 0 <= i < used ==> waits[i].end == Woken
        invariant forall i :: 0 <= i < used - 1 ==> waits[i].arrived == [] && waits[i].returned == None
        invariant 0 < used ==> old(messages) == [] && Arrivals(waits[..used - 1]) == []
        invariant 0 < used ==> !old(completed) && old(error) == None
        invariant closed == old(closed)
        invariant used == 0 || waits[used - 1].returned == None ==> completed == old(completed) && error == old(error)
        invariant 0 < used && waits[used - 1].returned.Some? ==> completed
        invariant 0 < used && waits[used - 1].returned.Some? ==>
                    var result := waits[used - 1].returned.value;
                    error == if closed && result == Some(Canceled) then None else result
        decreases |waits| - used
      {
        var b := Snapshot();
        if Worthwhile(b) || used == |waits| { return Some(b), used; }
        ghost var before := waits[..used];
        Happen(waits[used]);
        used := used + 1;
        assert waits[..used][..used - 1] == before;
        assert [] + waits[used - 1].arrived == waits[used - 1].arrived;
        match waits[used - 1].end {
          case ContextDone => return None, used;
          case TimedOut =>
            b := Snapshot();
            return Some(b), used;
          case Woken => wake := false;
        }
      }
    }
  }
}

module ConsumeProtocol {
  import opened Wrappers
  import opened ConsumeTables

  type Thread = nat

  datatype Poller =
    | Looking                         // about to take a snapshot at the top of the loop
    | Selecting                       // blocked: context, wake channel or timer
    | LookingLast                     // the timer fired; about to take the last snapshot
    | Returned(batch: Option<Batch>)  // None when the context ended the poll

  datatype System = System(
    session: Session,
    started: bool,
    due: nat,                         // notifies between a queue update and their send
    pollers: map<Thread, Poller>,
    emitted: seq<Message>,            // everything ever emitted
    batches: seq<Batch>)              // everything ever returned, in snapshot order
  {
    function At(p: Thread, pc: Poller): System { this.(pollers := pollers[p := pc]) }
  }

  const Initial := System(Session([], false, None, false, false), false, 0, map[], [], [])

  datatype Action =
    | Poll(poller: Thread)
    | EmitOne(message: Message)
    | Finish(error: Option<ConsumeError>)
    | Notify
    | Look(poller: Thread)
    | WakeUp(poller: Thread)
    | Expire(poller: Thread)
    | Cancel(poller: Thread)
    | Close

  predicate Enabled(s: System, a: Action) {
    match a
    case Poll(p) => p !in s.pollers
    case EmitOne(_) => s.started
    case Finish(_) => s.started && !s.session.completed
    case Notify => s.due > 0
    case Look(p) => p in s.pollers && (s.pollers[p].Looking? || s.pollers[p].LookingLast?)
    case WakeUp(p) => p in s.pollers && s.pollers[p].Selecting? && s.session.wake
    case Expire(p) => p in s.pollers && s.pollers[p].Selecting?
    case Cancel(p) => p in s.pollers && s.pollers[p].Selecting?
    case Close => true
  }

  function Apply(s: System, a: Action): System
    requires Enabled(s, a)
  {
    match a
    case Poll(p) => s.At(p, Looking).(started := true)
    case EmitOne(m) => s.(session := Emit(s.session, m), due := s.due + 1, emitted := s.emitted + [m])
    case Finish(error) => s.(session := Complete(s.session, error), due := s.due + 1)
    case Notify => s.(session := s.session.(wake := true), due := s.due - 1)
    case Look(p) => LookStep(s, p)
    case WakeUp(p) => s.At(p, Looking).(session := s.session.(wake := false))
    case Expire(p) => s.At(p, LookingLast)
    case Cancel(p) => s.At(p, Returned(None))
    case Close => s.(session := s.session.(closed := true))
  }

  function LookStep(s: System, p: Thread): System
    requires p in s.pollers
  {
    var (session, batch) := Take(s.session);
    if Worthwhile(batch) || s.pollers[p].LookingLast?
    then s.At(p, Returned(Some(batch))).(session := session, batches := s.batches + [batch])
    else s.At(p, Selecting).(session := session)
  }

  ghost predicate Step(s: System, a: Action, s': System) { Enabled(s, a) && s' == Apply(s, a) }

  ghost predicate IsRun(states: seq<System>, actions: seq<Action>) {
    && |states| == |actions| + 1
    && states[0] == Initial
    && forall i :: 0 <= i < |actions| ==> Step(states[i], actions[i], states[i + 1])
  }

  /** All messages of the batches, in order. */
  function Delivered(batches: seq<Batch>): seq<Message> {
    if batches == [] then []
    else Delivered(batches[..|batches| - 1]) + batches[|batches| - 1].messages
  }

  lemma DeliveredGrows(batches: seq<Batch>, batch: Batch)
    ensures Delivered(batches + [batch]) == Delivered(batches) + batch.messages
  {
    assert (batches + [batch])[..|batches|] == batches;
  }

  // ------------------------------------------------------------------------------------------ nothing is lost

  ghost predicate Conserved(s: System) {
    && Delivered(s.batches) + s.session.messages == s.emitted
    && (s.session.error.Some? ==> s.session.completed)
  }

  lemma StepConserves(s: System, a: Action)
    requires Conserved(s) && Enabled(s, a)
    ensures Conserved(Apply(s, a))
  {
    if a.Look? {
      LookConserves(s, a.poller);
    } else if a.EmitOne? {
      assert Delivered(s.batches) + (s.session.messages + [a.message]) == s.emitted + [a.message];
    }
  }

  lemma LookConserves(s: System, p: Thread)
    requires Conserved(s) && p in s.pollers
    ensures Conserved(LookStep(s, p))
  {
    DeliveredGrows(s.batches, Take(s.session).1);
    assert Delivered(s.batches) + s.session.messages + [] == s.emitted;
  }

  /** In every run the returned batches in snapshot order, followed by what is still queued, are the emitted
      messages in the order of their emission: none lost, none twice, none out of order. */
  lemma {:induction false} Conservation(states: seq<System>, actions: seq<Action>, i: nat)
    requires IsRun(states, actions) && i < |states|
    ensures Conserved(states[i])
  {
    if i > 0 {
      Conservation(states, actions, i - 1);
      assert Step(states[i - 1], actions[i - 1], states[i]);
      StepConserves(states[i - 1], actions[i - 1]);
    }
  }

  /** The consumer does not emit after it has returned. */
  ghost predicate Orderly(actions: seq<Action>) {
    forall i, j :: 0 <= i < j < |actions| && actions[i].Finish? ==> !actions[j].EmitOne?
  }

  ghost predicate SaysCompleted(batches: seq<Batch>) {
    exists k :: 0 <= k < |batches| && batches[k].completed
  }

  /** After a batch has reported completion nothing is queued. */
  ghost predicate Drained(s: System) {
    SaysCompleted(s.batches) ==> s.session.completed && s.session.messages == []
  }

  lemma StepDrained(s: System, a: Action)
    requires Drained(s) && Enabled(s, a) && (a.EmitOne? ==> !s.session.completed)
    ensures Drained(Apply(s, a))
  {
    var s' := Apply(s, a);
    if SaysCompleted(s'.batches) && s'.batches != s.batches {
      var k :| 0 <= k < |s'.batches| && s'.batches[k].completed;
      if k < |s.batches| { assert s.batches[k].completed; }
    }
  }

  lemma {:induction false} FinishedBefore(states: seq<System>, actions: seq<Action>, i: nat)
    requires IsRun(states, actions) && i < |states|
    ensures states[i].session.completed ==> exists j :: 0 <= j < i && actions[j].Finish?
  {
    if i > 0 {
      FinishedBefore(states, actions, i - 1);
      assert Step(states[i - 1], actions[i - 1], states[i]);
      if states[i].session.completed && !states[i - 1].session.completed {
        assert actions[i - 1].Finish?;
      }
    }
  }

  /** A batch that reports completion is final: if the consumer emits nothing after returning, everything it ever
      emitted has been delivered, and stays so. */
  lemma {:induction false} CompletionIsLast(states: seq<System>, actions: seq<Action>, i: nat)
    requires IsRun(states, actions) && Orderly(actions) && i < |states|
    ensures Drained(states[i])
    ensures SaysCompleted(states[i].batches) ==> Delivered(states[i].batches) == states[i].emitted
  {
    Conservation(states, actions, i);
    if i > 0 {
      CompletionIsLast(states, actions, i - 1);
      assert Step(states[i - 1], actions[i - 1], states[i]);
      FinishedBefore(states, actions, i - 1);
      StepDrained(states[i - 1], actions[i - 1]);
    }
  }

  /** A message has been emitted since a batch was last returned. */
  ghost predicate EmittedSince(states: seq<System>, actions: seq<Action>, i: nat)
    requires |states| == |actions| + 1 && i < |states|
  {
    exists j :: 0 <= j < i && actions[j].EmitOne? && NoBatchBetween(states, j + 1, i)
  }

  ghost predicate NoBatchBetween(states: seq<System>, from: nat, to: nat)
    requires from <= to < |states|
  {
    forall m :: from <= m <= to ==> states[m].batches == states[from].batches
  }

  lemma QueueAfterStep(s: System, a: Action)
    requires Enabled(s, a)
    ensures var s' := Apply(s, a);
            if a.EmitOne? then s'.session.messages != [] && s'.batches == s.batches
            else if s'.batches != s.batches then s'.session.messages == []
            else s'.session.messages == s.session.messages
  {
    if a.Look? { assert |s.batches + [Take(s.session).1]| == |s.batches| + 1; }
  }

  /** In every run, whether the consumer has returned or not: a message is left in the queue exactly if one has been
      emitted since a batch was last returned. So what a consumer emits before the snapshot of the batch that reports
      completion has been delivered with it, and what it emits later, after it has returned, stays behind unless
      somebody polls again. */
  lemma {:induction false} LeftBehindIsExact(states: seq<System>, actions: seq<Action>, i: nat)
    requires IsRun(states, actions) && i < |states|
    ensures states[i].session.messages != [] <==> EmittedSince(states, actions, i)
  {
    if i > 0 {
      LeftBehindIsExact(states, actions, i - 1);
      assert Step(states[i - 1], actions[i - 1], states[i]);
      QueueAfterStep(states[i - 1], actions[i - 1]);
      if actions[i - 1].EmitOne? {
        assert NoBatchBetween(states, i, i);
      } else if states[i].batches == states[i - 1].batches {
        if EmittedSince(states, actions, i - 1) {
          var j :| 0 <= j < i - 1 && actions[j].EmitOne? && NoBatchBetween(states, j + 1, i - 1);
          assert NoBatchBetween(states, j + 1, i);
        }
        if EmittedSince(states, actions, i) {
          var j :| 0 <= j < i && actions[j].EmitOne? && NoBatchBetween(states, j + 1, i);
          assert NoBatchBetween(states, j + 1, i - 1);
        }
      }
    }
  }

  // ------------------------------------------------------------------------------------------ no wakeup is lost

  ghost predicate SomeoneLooks(s: System) {
    exists p :: p in s.pollers && (s.pollers[p].Looking? || s.pollers[p].LookingLast?)
  }

  /** A wake-up is in the channel or on its way to it. */
  predicate WakeComing(s: System) { s.session.wake || s.due > 0 }

  ghost predicate MessagesNoticed(s: System) {
    s.session.messages != [] ==> WakeComing(s) || SomeoneLooks(s)
  }

  lemma StepNotices(s: System, a: Action)
    requires MessagesNoticed(s) && Enabled(s, a)
    ensures MessagesNoticed(Apply(s, a))
  {
    var s' := Apply(s, a);
    if s'.session.messages != [] && !WakeComing(s') {
      if a.WakeUp? {
        assert s'.pollers[a.poller].Looking?;
      } else {
        var p :| p in s.pollers && (s.pollers[p].Looking? || s.pollers[p].LookingLast?);
        assert p in s'.pollers && s'.pollers[p] == s.pollers[p];
      }
    }
  }

  /** With any number of pollers: while messages are queued, a wake-up is there or due, or a poller is about to
      look. So if all pollers are blocked, one of them will be woken. */
  lemma {:induction false} NoLostMessage(states: seq<System>, actions: seq<Action>, i: nat)
    requires IsRun(states, actions) && i < |states|
    ensures MessagesNoticed(states[i])
  {
    if i > 0 {
      NoLostMessage(states, actions, i - 1);
      assert Step(states[i - 1], actions[i - 1], states[i]);
      StepNotices(states[i - 1], actions[i - 1]);
    }
  }

  function Unreturned(s: System): set<Thread> { set p | p in s.pollers && !s.pollers[p].Returned? }

  /** At no time are more than `k` polls under way. */
  ghost predicate PollsAtMost(states: seq<System>, k: nat) {
    forall i :: 0 <= i < |states| ==> |Unreturned(states[i])| <= k
  }

  /** A blocked poller has a wake-up in the channel or due while messages or the completion are pending. */
  ghost predicate PendingNoticed(s: System) {
    forall p :: p in s.pollers && s.pollers[p].Selecting? && (s.session.completed || s.session.messages != []) ==>
      WakeComing(s)
  }

  ghost predicate AlwaysNoticed(states: seq<System>) {
    forall i :: 0 <= i < |states| ==> PendingNoticed(states[i])
  }

  lemma OnlyOne(s: System, p: Thread, q: Thread)
    requires |Unreturned(s)| <= 1 && p in Unreturned(s) && q in Unreturned(s)
    ensures p == q
  {
    var others := Unreturned(s) - {p};
    assert |Unreturned(s)| == |others| + 1;
    assert q != p ==> q in others;
  }

  lemma StepNoticesPending(s: System, a: Action)
    requires PendingNoticed(s) && Enabled(s, a) && |Unreturned(s)| <= 1 && |Unreturned(Apply(s, a))| <= 1
    ensures PendingNoticed(Apply(s, a))
  {
    var s' := Apply(s, a);
    forall p | p in s'.pollers && s'.pollers[p].Selecting? && (s'.session.completed || s'.session.messages != [])
      ensures WakeComing(s')
    {
      assert p in Unreturned(s');
      if a.Poll? || a.WakeUp? {
        assert a.poller in Unreturned(s');
        OnlyOne(s', p, a.poller);
      } else if a.Look? && a.poller != p {
        assert p in Unreturned(s) && a.poller in Unreturned(s);
        OnlyOne(s, p, a.poller);
      }
    }
  }

  /** With one poll at a time a blocked poller never misses anything. */
  lemma {:induction false} NoLostCompletion(states: seq<System>, actions: seq<Action>, i: nat)
    requires IsRun(states, actions) && PollsAtMost(states, 1) && i < |states|
    ensures PendingNoticed(states[i])
  {
    if i > 0 {
      NoLostCompletion(states, actions, i - 1);
      assert Step(states[i - 1], actions[i - 1], states[i]);
      assert |Unreturned(states[i - 1])| <= 1 && |Unreturned(states[i])| <= 1;
      StepNoticesPending(states[i - 1], actions[i - 1]);
    }
  }

  // ------------------------------------------------------------------------------------------ two pollers

  function Last(states: seq<System>): System
    requires states != []
  {
    states[|states| - 1]
  }

  /** A run in which no more than two polls are under way, and which ends in `s`. */
  ghost predicate RunsTo(states: seq<System>, actions: seq<Action>, s: System) {
    IsRun(states, actions) && PollsAtMost(states, 2) && Last(states) == s
  }

  lemma RunOn(states: seq<System>, actions: seq<Action>, s: System, a: Action)
    requires RunsTo(states, actions, s) && Enabled(s, a) && |Unreturned(Apply(s, a))| <= 2
    ensures RunsTo(states + [Apply(s, a)], actions + [a], Apply(s, a))
  {
    var states', actions' := states + [Apply(s, a)], actions + [a];
    forall i | 0 <= i < |actions'| ensures Step(states'[i], actions'[i], states'[i + 1]) {
      if i < |actions| { assert Step(states[i], actions[i], states[i + 1]); }
    }
  }

  /** Two polls are under way, and both wait. Others may have returned before, the consumer may have, anything may be
      queued, and any token present or due. */
  ghost predicate BothBlocked(s: System, p: Thread, q: Thread) {
    && p != q && p in s.pollers && q in s.pollers && s.pollers[p].Selecting? && s.pollers[q].Selecting?
    && OnlyTheseTwo(s, p, q)
  }

  ghost predicate OnlyTheseTwo(s: System, p: Thread, q: Thread) {
    forall r :: r in s.pollers && r != p && r != q ==> s.pollers[r].Returned?
  }

  /** A poller waits, the completion is pending, and nothing will wake it before its timer. */
  ghost predicate MissedCompletion(s: System, q: Thread) {
    && q in s.pollers && s.pollers[q].Selecting? && s.session.completed
    && !WakeComing(s) && !SomeoneLooks(s)
  }

  lemma TwoUnreturned(s: System, p: Thread, q: Thread)
    requires OnlyTheseTwo(s, p, q)
    ensures |Unreturned(s)| <= 2
  {
    var others := Unreturned(s) - {p};
    assert others <= {q};
    assert others == {} || others == {q};
    assert Unreturned(s) == others || Unreturned(s) == others + {p};
  }

  lemma RunBothOn(states: seq<System>, actions: seq<Action>, s: System, a: Action, p: Thread, q: Thread)
    requires RunsTo(states, actions, s) && Enabled(s, a) && OnlyTheseTwo(Apply(s, a), p, q)
    ensures RunsTo(states + [Apply(s, a)], actions + [a], Apply(s, a))
  {
    TwoUnreturned(Apply(s, a), p, q);
    RunOn(states, actions, s, a);
  }

  /** The first poll starts the consumer. */
  lemma {:induction false} PolledIsStarted(states: seq<System>, actions: seq<Action>, i: nat)
    requires IsRun(states, actions) && i < |states| && states[i].pollers != map[]
    ensures states[i].started
  {
    if i > 0 {
      assert Step(states[i - 1], actions[i - 1], states[i]);
      if states[i - 1].pollers != map[] { PolledIsStarted(states, actions, i - 1); }
    }
  }

  /** Two pollers can both wait. */
  lemma BothCanBlock(p: Thread, q: Thread) returns (states: seq<System>, actions: seq<Action>)
    requires p != q
    ensures states != [] && RunsTo(states, actions, Last(states)) && BothBlocked(Last(states), p, q)
  {
    var s0 := Initial;
    states, actions := [s0], [];
    assert Unreturned(s0) == {};
    assert RunsTo(states, actions, s0);
    var s1 := Apply(s0, Poll(p));
    RunBothOn(states, actions, s0, Poll(p), p, q);
    states, actions := states + [s1], actions + [Poll(p)];
    var s2 := Apply(s1, Poll(q));
    RunBothOn(states, actions, s1, Poll(q), p, q);
    states, actions := states + [s2], actions + [Poll(q)];
    var s3 := Apply(s2, Look(p));
    RunBothOn(states, actions, s2, Look(p), p, q);
    states, actions := states + [s3], actions + [Look(p)];
    var s4 := Apply(s3, Look(q));
    RunBothOn(states, actions, s3, Look(q), p, q);
    states, actions := states + [s4], actions + [Look(q)];
  }

  /** Sends every notify that is due; the slot is full afterwards. */
  lemma {:induction false} SendAll(states: seq<System>, actions: seq<Action>, s: System, p: Thread, q: Thread)
    returns (states': seq<System>, actions': seq<Action>)
    requires RunsTo(states, actions, s) && OnlyTheseTwo(s, p, q) && s.due > 0
    ensures states <= states' && actions <= actions'
    ensures RunsTo(states', actions', s.(due := 0, session := s.session.(wake := true)))
    decreases s.due
  {
    var next := Apply(s, Notify);
    RunBothOn(states, actions, s, Notify, p, q);
    states', actions' := states + [next], actions + [Notify];
    if next.due > 0 { states', actions' := SendAll(states', actions', next, p, q); }
  }

  /** The consumer returns, if it has not, and every notify that is due is sent. */
  lemma ConsumerReturns(states: seq<System>, actions: seq<Action>, p: Thread, q: Thread)
    returns (states': seq<System>, actions': seq<Action>)
    requires states != [] && RunsTo(states, actions, Last(states)) && BothBlocked(Last(states), p, q)
    ensures states <= states' && actions <= actions' && states' != [] && RunsTo(states', actions', Last(states'))
    ensures Last(states').pollers == Last(states).pollers && Last(states').session.completed && Last(states').due == 0
  {
    var s := Last(states);
    states', actions' := states, actions;
    if !s.session.completed {
      PolledIsStarted(states, actions, |states| - 1);
      RunBothOn(states, actions, s, Finish(None), p, q);
      s := Apply(s, Finish(None));
      states', actions' := states + [s], actions + [Finish(None)];
    }
    if s.due > 0 { states', actions' := SendAll(states', actions', s, p, q); }
  }

  /** Wherever two polls both wait, and others have returned, whatever is queued and whatever token is present or due,
      the run can go on so that one of them misses the completion until its timer fires: the other takes the one token
      and returns. */
  lemma TwoPollersMissCompletion(states: seq<System>, actions: seq<Action>, p: Thread, q: Thread)
    returns (states': seq<System>, actions': seq<Action>)
    requires states != [] && RunsTo(states, actions, Last(states)) && BothBlocked(Last(states), p, q)
    ensures states <= states' && actions <= actions'
    ensures states' != [] && RunsTo(states', actions', Last(states')) && MissedCompletion(Last(states'), q)
  {
    states', actions' := ConsumerReturns(states, actions, p, q);
    var s := Last(states');
    if s.session.wake {
      var s1 := Apply(s, WakeUp(p));
      RunBothOn(states', actions', s, WakeUp(p), p, q);
      states', actions' := states' + [s1], actions' + [WakeUp(p)];
      var s2 := Apply(s1, Look(p));
      RunBothOn(states', actions', s1, Look(p), p, q);
      states', actions' := states' + [s2], actions' + [Look(p)];
    }
  }

  /** The exact condition on the callers: with at most `k` polls under way at any time, a blocked poller always has a
      wake-up present or due while something is pending, in every run, if and only if `k` is at most one. */
  lemma WakeupsNeedOnePoll(k: nat)
    ensures (forall states, actions :: IsRun(states, actions) && PollsAtMost(states, k) ==> AlwaysNoticed(states))
            <==> k <= 1
  {
    if k <= 1 {
      forall states, actions | IsRun(states, actions) && PollsAtMost(states, k) ensures AlwaysNoticed(states) {
        assert PollsAtMost(states, 1);
        forall i | 0 <= i < |states| ensures PendingNoticed(states[i]) { NoLostCompletion(states, actions, i); }
      }
    } else {
      var states, actions := BothCanBlock(0, 1);
      states, actions := TwoPollersMissCompletion(states, actions, 0, 1);
      assert PollsAtMost(states, k);
      assert !PendingNoticed(states[|states| - 1]);
    }
  }
}
