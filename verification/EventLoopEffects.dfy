/** What a dispatched channel and an executed task mean, field by field, and what the kind of a timer entails. */
module EventLoopEffects {
  import opened Common
  import opened EventLoops

  // ---- Channels ----

  /** Reading the wakeup counter clears it, so that the loop can block again. */
  lemma {:induction false} WakeupEffect(s: State, event: Event)
    requires Reachable(s) && Enabled(s, Dispatch(event))
    ensures Apply(s, Dispatch(event)).counter == if s.phase.active[0] == Wakeup then 0 else s.counter
  {
    DispatchedIsRegistered(s);
  }

  /** A client is accepted exactly while the set has room, as an open connection with a channel of its own. */
  lemma {:induction false} ListenEffect(s: State, event: Event)
    requires Reachable(s) && Enabled(s, Dispatch(event)) && s.phase.active[0] == Listen
    ensures s.nextConn !in s.conns && Conn(s.nextConn) !in s.registered
    ensures var t := Apply(s, Dispatch(event));
            && t.pending == s.pending && t.closes == s.closes
            && (event.Accepts? && |s.conns| < 256 ==>
                  && t.conns == s.conns[s.nextConn := Connected]
                  && t.registered == s.registered + {Conn(s.nextConn)} && t.nextConn == s.nextConn + 1)
            && (!event.Accepts? || |s.conns| == 256 ==>
                  t.conns == s.conns && t.registered == s.registered && t.nextConn == s.nextConn)
  {
    ReachableInv(s);
    DispatchedIsRegistered(s);
    assert !IsLive(s, Conn(s.nextConn));
  }

  /** A connection that closes is marked and its destruction queued; otherwise nothing changes for it. */
  lemma {:induction false} ConnectionEffect(s: State, c: nat, event: Event)
    requires Reachable(s) && Enabled(s, Dispatch(event)) && s.phase.active[0] == Conn(c)
    ensures c in s.conns && !s.conns[c].DisConnected? && c !in s.closes
    ensures var t := Apply(s, Dispatch(event));
            && t.registered == s.registered
            && (event.Closes? ==>
                  && t.conns == s.conns[c := DisConnected] && t.closes == s.closes + [c]
                  && t.pending == s.pending + [Task.Destroy(c)])
            && (!event.Closes? ==> t.conns == s.conns && t.closes == s.closes && t.pending == s.pending)
  {
    DispatchedIsRegistered(s);
  }

  /** A timer that is due fires, and queues its own removal if it was added as one-shot, and only then. */
  lemma {:induction false} TimerEffect(s: State, n: nat, oneshot: bool, event: Event)
    requires Reachable(s) && Enabled(s, Dispatch(event)) && s.phase.active[0] == TimerOf(n)
    requires AddTimer(n, oneshot) in s.executed
    ensures var t := Apply(s, Dispatch(event));
            && t.fired == s.fired + [n] && t.timers == s.timers && t.registered == s.registered && t.conns == s.conns
            && t.pending == s.pending + if oneshot then [RemoveTimer(n)] else []
  {
    DispatchedIsRegistered(s);
    OneshotFiresOnce(s, n);
    KindIsKept(s, n, oneshot);
  }

  /** Nothing else counts as the firing of a timer. */
  lemma {:induction false} OnlyTimersFire(s: State, step: Step)
    requires Reachable(s) && Enabled(s, step)
    ensures Apply(s, step).fired == s.fired ||
            (step.Dispatch? && s.phase.active[0].TimerOf?
             && Apply(s, step).fired == s.fired + [s.phase.active[0].timer])
  {
  }

  // ---- Tasks ----

  /** A half-close whose last write succeeds leaves an open connection half closed, and any other as it was. */
  lemma {:induction false} HalfCloseEffect(s: State, c: nat, sent: bool)
    requires Reachable(s) && Enabled(s, RunTask) && s.batch[0] == HalfClose(c, sent)
    ensures var t := Apply(s, RunTask);
            && t.registered == s.registered && t.timers == s.timers
            && (sent && c in s.conns && s.conns[c] == Connected ==> t.conns == s.conns[c := HalfClosed])
            && (!sent || c !in s.conns || s.conns[c] != Connected ==> t.conns == s.conns)
  {
  }

  /** The destroy task takes its connection, and nothing else, out of the set and out of the poller. */
  lemma {:induction false} DestroyEffect(s: State, c: nat)
    requires Reachable(s) && Enabled(s, RunTask) && s.batch[0] == Task.Destroy(c)
    ensures c in s.conns && Conn(c) in s.registered
    ensures var t := Apply(s, RunTask);
            t.conns == s.conns - {c} && t.registered == s.registered - {Conn(c)} && t.timers == s.timers
  {
    DestroyFindsConnection(s);
  }

  /** An added timer is in the map with the kind it was added with, and in the poller. */
  lemma {:induction false} AddEffect(s: State, n: nat, oneshot: bool)
    requires Reachable(s) && Enabled(s, RunTask) && s.batch[0] == AddTimer(n, oneshot)
    ensures n !in s.timers
    ensures var t := Apply(s, RunTask);
            t.timers == s.timers[n := oneshot] && t.registered == s.registered + {TimerOf(n)} && t.conns == s.conns
  {
    TimerTasksFindTheirTimer(s);
  }

  /** A removed timer is in neither any more, whether it was there or not. */
  lemma {:induction false} RemoveEffect(s: State, n: nat)
    requires Reachable(s) && Enabled(s, RunTask) && s.batch[0] == RemoveTimer(n)
    ensures var t := Apply(s, RunTask);
            t.timers == s.timers - {n} && t.registered == s.registered - {TimerOf(n)} && t.conns == s.conns
  {
    TimerRegistered(s, n);
    if n !in s.timers {
      assert s.timers - {n} == s.timers;
      assert s.registered - {TimerOf(n)} == s.registered;
    }
  }

  lemma {:induction false} TimerRegistered(s: State, n: nat)
    requires Reachable(s)
    ensures TimerOf(n) in s.registered <==> n in s.timers
  {
    ReachableInv(s);
    assert IsLive(s, TimerOf(n)) <==> n in s.timers;
  }

  // ---- The kind of a timer ----

  /** The timers in the map are of the kind they were added with. */
  ghost predicate Kinds(s: State) {
    forall i :: 0 <= i < |s.executed| && s.executed[i].AddTimer? && s.executed[i].timer in s.timers ==>
      s.timers[s.executed[i].timer] == s.executed[i].oneshot
  }

  lemma {:induction false} KindsRun(s: State)
    requires Inv(s) && Kinds(s) && Enabled(s, RunTask)
    ensures Kinds(Apply(s, RunTask))
  {
    var t := Apply(s, RunTask);
    NextTimerTask(s);
    forall i | 0 <= i < |t.executed| && t.executed[i].AddTimer? && t.executed[i].timer in t.timers
      ensures t.timers[t.executed[i].timer] == t.executed[i].oneshot
    {
      if i < |s.executed| {
        assert t.executed[i] == s.executed[i];
        assert Added(s.executed, s.executed[i].timer);
      }
    }
  }

  lemma {:induction false} KindsStep(s: State, step: Step)
    requires Inv(s) && Kinds(s) && Enabled(s, step)
    ensures Kinds(Apply(s, step))
  {
    if step.RunTask? {
      KindsRun(s);
    } else {
      assert Apply(s, step).executed == s.executed && Apply(s, step).timers == s.timers;
    }
  }

  /** A timer that was added as one-shot has fired at most once. */
  ghost predicate OnceEach(s: State) {
    forall i, j :: 0 <= i < j < |s.fired| && s.fired[i] == s.fired[j] ==> AddTimer(s.fired[i], true) !in s.executed
  }

  lemma {:induction false} OneMoreExecuted(s: State, task: Task)
    requires Enabled(s, RunTask)
    ensures task in Apply(s, RunTask).executed <==> task in s.executed || s.batch[0] == task
  {
  }

  lemma {:induction false} OnceEachRun(s: State)
    requires Inv(s) && OnceEach(s) && Enabled(s, RunTask)
    ensures OnceEach(Apply(s, RunTask))
  {
    var t := Apply(s, RunTask);
    NextTimerTask(s);
    forall i, j | 0 <= i < j < |t.fired| && t.fired[i] == t.fired[j]
      ensures AddTimer(t.fired[i], true) !in t.executed
    {
      assert Added(s.executed, s.fired[i]);
      OneMoreExecuted(s, AddTimer(s.fired[i], true));
    }
  }

  lemma {:induction false} OnceEachDispatch(s: State, event: Event)
    requires Inv(s) && Kinds(s) && OnceEach(s) && Enabled(s, Dispatch(event))
    ensures OnceEach(Apply(s, Dispatch(event)))
  {
    var t := Apply(s, Dispatch(event));
    var ch := s.phase.active[0];
    assert IsLive(s, ch);
    forall i, j | 0 <= i < j < |t.fired| && t.fired[i] == t.fired[j]
      ensures AddTimer(t.fired[i], true) !in t.executed
    {
      if j == |s.fired| {
        assert ch == TimerOf(t.fired[j]) && t.fired[j] == s.fired[i];
        assert !s.timers[t.fired[j]];
      }
    }
  }

  lemma {:induction false} OnceEachStep(s: State, step: Step)
    requires Inv(s) && Kinds(s) && OnceEach(s) && Enabled(s, step)
    ensures OnceEach(Apply(s, step))
  {
    match step
    case RunTask => OnceEachRun(s);
    case Dispatch(event) => OnceEachDispatch(s, event);
    case _ => assert Apply(s, step).executed == s.executed && Apply(s, step).fired == s.fired;
  }

  lemma {:induction false} KindsRuns(s: State, steps: seq<Step>, t: State)
    requires Inv(s) && Kinds(s) && OnceEach(s) && Runs(s, steps, t)
    ensures Inv(t) && Kinds(t) && OnceEach(t)
    decreases |steps|
  {
    if steps != [] {
      StepKeeps(s, steps[0]);
      KindsStep(s, steps[0]);
      OnceEachStep(s, steps[0]);
      KindsRuns(Apply(s, steps[0]), steps[1..], t);
    }
  }

  lemma {:induction false} ReachableKinds(s: State)
    requires Reachable(s)
    ensures Inv(s) && Kinds(s) && OnceEach(s)
  {
    var steps :| Runs(Init(), steps, s);
    InitInv();
    KindsRuns(Init(), steps, s);
  }

  /** A timer keeps the kind it was added with. */
  lemma {:induction false} KindIsKept(s: State, n: nat, oneshot: bool)
    requires Reachable(s) && AddTimer(n, oneshot) in s.executed && n in s.timers
    ensures s.timers[n] == oneshot
  {
    ReachableKinds(s);
  }

  /** What was added as one-shot fires at most once in any run. */
  lemma {:induction false} OneshotAtMostOnce(s: State, n: nat, i: nat, j: nat)
    requires Reachable(s) && AddTimer(n, true) in s.executed && i < j < |s.fired|
    ensures !(s.fired[i] == n && s.fired[j] == n)
  {
    ReachableKinds(s);
  }

  /** What was added as repeating is removed only on request: no handler queues its removal. */
  lemma {:induction false} RepeatingIsKept(s: State, n: nat, step: Step)
    requires Reachable(s) && AddTimer(n, false) in s.executed && Enabled(s, step) && !step.Push?
    ensures s.queued <= Apply(s, step).queued && RemoveTimer(n) !in Apply(s, step).queued[|s.queued|..]
  {
    if step.Dispatch? && s.phase.active[0] == TimerOf(n) {
      TimerEffect(s, n, false, step.event);
    } else if !step.RunTask? && !step.Swap? {
      QueueEffect(s, step);
    }
  }
}
