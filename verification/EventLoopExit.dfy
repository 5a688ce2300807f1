/** Leaving the loop: a request to quit is seen, and nothing of the batch under way is dropped. */
module EventLoopExit {
  import opened Common
  import opened EventLoops

  /** A quit request that finds the loop polling shows in the counter once its caller has returned. */
  ghost predicate Leaving(s: State) {
    && (s.phase.Polling? && s.exit ==> s.quitting > 0 || s.counter > 0)
    && (s.phase.Exited? ==> s.exit && s.batch == [])
  }

  lemma {:induction false} LeavingStep(s: State, step: Step)
    requires Leaving(s) && Enabled(s, step)
    ensures Leaving(Apply(s, step))
  {
  }

  lemma {:induction false} LeavingRun(s: State, steps: seq<Step>, s': State)
    requires Leaving(s) && Runs(s, steps, s')
    ensures Leaving(s')
    decreases |steps|
  {
    if steps != [] {
      LeavingStep(s, steps[0]);
      LeavingRun(Apply(s, steps[0]), steps[1..], s');
    }
  }

  /** The loop never blocks once it has been asked to quit; and it has left only with its batch finished. */
  lemma {:induction false} NoLostQuit(s: State)
    requires Reachable(s)
    ensures s.phase.Polling? && s.exit && s.quitting == 0 ==> s.counter > 0
    ensures s.phase.Exited? ==> s.exit && s.executed + s.pending == s.queued
  {
    var steps :| Runs(Init(), steps, s);
    LeavingRun(Init(), steps, s);
    TasksRunInOrder(s);
  }

  function Polls(steps: seq<Step>): nat {
    if steps == [] then 0 else (if steps[0].Poll? then 1 else 0) + Polls(steps[1..])
  }

  /** After a quit request there is no further poll, except one if the loop was about to poll. */
  lemma {:induction false} NoPollAfterQuit(s: State, steps: seq<Step>, s': State)
    requires s.exit && Runs(s, steps, s')
    ensures s'.exit && Polls(steps) <= if s.phase.Polling? then 1 else 0
    decreases |steps|
  {
    if steps != [] {
      NoPollAfterQuit(Apply(s, steps[0]), steps[1..], s');
    }
  }

  /** The same from the request itself, whoever makes it. */
  lemma {:induction false} QuitEndsPolling(s: State, who: Holder, steps: seq<Step>, s': State)
    requires Enabled(s, Quit(who)) && Runs(Apply(s, Quit(who)), steps, s')
    ensures s'.exit && Polls(steps) <= if s.phase.Polling? then 1 else 0
  {
    NoPollAfterQuit(Apply(s, Quit(who)), steps, s');
  }

  // ---- The channels that poll reports ----

  function Dispatches(steps: seq<Step>): nat {
    if steps == [] then 0 else (if steps[0].Dispatch? then 1 else 0) + Dispatches(steps[1..])
  }

  predicate StillDispatching(steps: seq<Step>) {
    forall i :: 0 <= i < |steps| ==> !steps[i].EndDispatch?
  }

  lemma {:induction false} TurnsTaken(s: State, steps: seq<Step>, s': State)
    requires s.phase.Dispatching? && Runs(s, steps, s') && StillDispatching(steps)
    ensures Dispatches(steps) <= |s.phase.active| && s'.phase == Dispatching(s.phase.active[Dispatches(steps)..])
    decreases |steps|
  {
    if steps != [] {
      TurnsTaken(Apply(s, steps[0]), steps[1..], s');
    }
  }

  /** Every channel of a poll has its turn, in the order reported, before the loop goes on to its tasks. */
  lemma {:induction false} EveryChannelHasItsTurn(s: State, active: seq<Channel>, steps: seq<Step>, s': State)
    requires Enabled(s, Poll(active)) && Runs(Apply(s, Poll(active)), steps, s') && StillDispatching(steps)
    ensures Dispatches(steps) <= |active| && s'.phase == Dispatching(active[Dispatches(steps)..])
    ensures Enabled(s', EndDispatch) ==> Dispatches(steps) == |active|
  {
    TurnsTaken(Apply(s, Poll(active)), steps, s');
  }
}
