/** What polls report, read off the actions of a run: which batch tells of the completion, with which error. */
module ConsumeReports {
  import opened Wrappers
  import opened ConsumeTables
  import opened ConsumeProtocol

  /** A close is among the first `n` actions. */
  ghost predicate ClosedWithin(actions: seq<Action>, n: nat)
    requires n <= |actions|
  {
    exists j :: 0 <= j < n && actions[j].Close?
  }

  ghost predicate FinishedWithin(actions: seq<Action>, n: nat)
    requires n <= |actions|
  {
    exists j :: 0 <= j < n && actions[j].Finish?
  }

  /** The error to report after the first `n` actions: the one the consumer returned, but no cancellation after a
      close, and none before the consumer has returned. */
  ghost predicate ErrorWithin(actions: seq<Action>, n: nat, error: Option<ConsumeError>)
    requires n <= |actions|
  {
    && (!FinishedWithin(actions, n) ==> error == None)
    && forall j :: 0 <= j < n && actions[j].Finish? ==>
         error == if actions[j].error == Some(Canceled) && ClosedWithin(actions, j) then None else actions[j].error
  }

  /** The session knows whether the consumer has returned, whether it was closed, and what to report. */
  lemma {:induction false} SessionRemembers(states: seq<System>, actions: seq<Action>, i: nat)
    requires IsRun(states, actions) && i < |states|
    ensures states[i].session.completed <==> FinishedWithin(actions, i)
    ensures states[i].session.closed <==> ClosedWithin(actions, i)
    ensures ErrorWithin(actions, i, states[i].session.error)
  {
    if i > 0 {
      SessionRemembers(states, actions, i - 1);
      assert Step(states[i - 1], actions[i - 1], states[i]);
      if FinishedWithin(actions, i - 1) { assert !actions[i - 1].Finish?; }
      if actions[i - 1].Finish? { assert FinishedWithin(actions, i); }
      if actions[i - 1].Close? { assert ClosedWithin(actions, i); }
    }
  }

  /** A poller in its last look has seen its timer fire, and one without a batch the end of its context. */
  ghost predicate EndsHaveCauses(s: System, actions: seq<Action>, n: nat)
    requires n <= |actions|
  {
    forall p :: p in s.pollers ==>
      && (s.pollers[p].LookingLast? ==> exists j :: 0 <= j < n && actions[j] == Expire(p))
      && (s.pollers[p] == Returned(None) ==> exists j :: 0 <= j < n && actions[j] == Cancel(p))
  }

  lemma {:induction false} EndsAreCaused(states: seq<System>, actions: seq<Action>, i: nat)
    requires IsRun(states, actions) && i < |states|
    ensures EndsHaveCauses(states[i], actions, i)
  {
    if i > 0 {
      EndsAreCaused(states, actions, i - 1);
      var s, a, s' := states[i - 1], actions[i - 1], states[i];
      assert Step(s, a, s');
      forall p | p in s'.pollers
        ensures s'.pollers[p].LookingLast? ==> exists j :: 0 <= j < i && actions[j] == Expire(p)
        ensures s'.pollers[p] == Returned(None) ==> exists j :: 0 <= j < i && actions[j] == Cancel(p)
      {
        if p in s.pollers && s'.pollers[p] == s.pollers[p] {
          if s.pollers[p].LookingLast? {
            var j :| 0 <= j < i - 1 && actions[j] == Expire(p);
          } else if s.pollers[p] == Returned(None) {
            var j :| 0 <= j < i - 1 && actions[j] == Cancel(p);
          }
        }
      }
    }
  }

  /** Every batch was returned by one poll, to the poller that looked. It took all that was queued, and reports the
      completion and the error as they were when it looked. It reports nothing at all only if the poller's timer had
      fired. */
  lemma {:induction false} BatchesReport(states: seq<System>, actions: seq<Action>, i: nat, k: nat) returns (n: nat)
    requires IsRun(states, actions) && i < |states| && k < |states[i].batches|
    ensures n < i && actions[n].Look? && |states[n].batches| == k
    ensures var batch := states[i].batches[k];
            && batch.messages == states[n].session.messages && states[n + 1].session.messages == []
            && (batch.completed <==> FinishedWithin(actions, n)) && ErrorWithin(actions, n, batch.error)
            && actions[n].poller in states[n + 1].pollers
            && states[n + 1].pollers[actions[n].poller] == Returned(Some(batch))
            && (batch == Batch([], false, None) ==> exists j :: 0 <= j < n && actions[j] == Expire(actions[n].poller))
  {
    assert Step(states[i - 1], actions[i - 1], states[i]);
    if k < |states[i - 1].batches| {
      n := BatchesReport(states, actions, i - 1, k);
    } else {
      n := i - 1;
      SessionRemembers(states, actions, n);
      EndsAreCaused(states, actions, n);
    }
  }

  function Answered(s: System): set<Thread> {
    set p | p in s.pollers && s.pollers[p].Returned? && s.pollers[p].batch.Some?
  }

  /** As many polls have been answered as there are batches, each with one of them. */
  ghost predicate AnswersAreBatches(s: System) {
    && |Answered(s)| == |s.batches|
    && forall p :: p in Answered(s) ==> s.pollers[p].batch.value in s.batches
  }

  lemma LookAnswers(s: System, p: Thread)
    requires AnswersAreBatches(s) && p in s.pollers && !s.pollers[p].Returned?
    ensures AnswersAreBatches(LookStep(s, p))
  {
    var s' := LookStep(s, p);
    if s'.pollers[p].Returned? {
      assert Answered(s') == Answered(s) + {p};
    } else {
      assert Answered(s') == Answered(s);
    }
  }

  /** A poll that has returned has a batch of its own or, if its context ended, none. */
  lemma {:induction false} PollsAreAnswered(states: seq<System>, actions: seq<Action>, i: nat)
    requires IsRun(states, actions) && i < |states|
    ensures AnswersAreBatches(states[i]) && EndsHaveCauses(states[i], actions, i)
  {
    EndsAreCaused(states, actions, i);
    if i > 0 {
      PollsAreAnswered(states, actions, i - 1);
      var s, a := states[i - 1], actions[i - 1];
      assert Step(s, a, states[i]);
      if a.Look? {
        LookAnswers(s, a.poller);
      } else {
        assert Answered(states[i]) == Answered(s);
      }
    } else {
      assert Answered(states[0]) == {};
    }
  }
}
