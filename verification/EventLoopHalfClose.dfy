/** A queued half-close and its connection: when the task still finds it. */
module EventLoopHalfClose {
  import opened Common
  import opened EventLoops

  /** A connection is in the set from its creation until its destroy task has run. */
  ghost predicate Present(s: State) {
    forall c: nat :: c < s.nextConn ==> (c in s.conns <==> Destroy(c) !in s.executed)
  }

  /** A destroy task is only queued for a connection that has been created. */
  ghost predicate DestroysCreated(s: State) {
    forall c: nat :: Destroy(c) in s.executed || Destroy(c) in s.batch || Destroy(c) in s.pending ==> c < s.nextConn
  }

  lemma {:induction false} PresentRun(s: State)
    requires Inv(s) && Present(s) && Enabled(s, RunTask)
    ensures Present(Apply(s, RunTask))
  {
    var t := Apply(s, RunTask);
    forall c: nat | c < t.nextConn
      ensures c in t.conns <==> Destroy(c) !in t.executed
    {
      assert Destroy(c) in t.executed <==> Destroy(c) in s.executed || s.batch[0] == Destroy(c);
    }
  }

  lemma {:induction false} DestroysQueued(s: State, step: Step, c: nat)
    requires Inv(s) && Enabled(s, step) && Destroy(c) in Queued(s, step)
    ensures c < s.nextConn
  {
    assert step.Dispatch? ==> IsLive(s, s.phase.active[0]);
  }

  lemma {:induction false} DestroysOther(s: State, step: Step)
    requires Inv(s) && DestroysCreated(s) && Enabled(s, step) && !step.RunTask? && !step.Swap?
    ensures DestroysCreated(Apply(s, step))
  {
    var t := Apply(s, step);
    QueueEffect(s, step);
    forall c: nat | Destroy(c) in t.executed || Destroy(c) in t.batch || Destroy(c) in t.pending
      ensures c < t.nextConn
    {
      if Destroy(c) in Queued(s, step) {
        DestroysQueued(s, step, c);
      }
      CreatedStaysStep(s, step);
    }
  }

  lemma {:induction false} CreatedStaysStep(s: State, step: Step)
    requires Enabled(s, step)
    ensures s.nextConn <= Apply(s, step).nextConn
  {
  }

  lemma {:induction false} DestroysStep(s: State, step: Step)
    requires Inv(s) && DestroysCreated(s) && Enabled(s, step)
    ensures DestroysCreated(Apply(s, step))
  {
    if step.RunTask? {
      var t := Apply(s, step);
      forall c: nat | Destroy(c) in t.executed || Destroy(c) in t.batch || Destroy(c) in t.pending
        ensures c < t.nextConn
      {
        assert Destroy(c) in t.executed ==> Destroy(c) in s.executed || s.batch[0] == Destroy(c);
      }
    } else if !step.Swap? {
      DestroysOther(s, step);
    }
  }

  lemma {:induction false} CreatedStays(s: State, steps: seq<Step>, t: State)
    requires Runs(s, steps, t)
    ensures s.nextConn <= t.nextConn
    decreases |steps|
  {
    if steps != [] {
      CreatedStaysStep(s, steps[0]);
      CreatedStays(Apply(s, steps[0]), steps[1..], t);
    }
  }

  lemma {:induction false} PresentStep(s: State, step: Step)
    requires Inv(s) && Present(s) && DestroysCreated(s) && Enabled(s, step)
    ensures Present(Apply(s, step))
  {
    if step.RunTask? {
      PresentRun(s);
    } else if step.Dispatch? {
      assert Destroy(s.nextConn) !in s.executed;
    }
  }

  lemma {:induction false} PresentRuns(s: State, steps: seq<Step>, t: State)
    requires Inv(s) && Present(s) && DestroysCreated(s) && Runs(s, steps, t)
    ensures Inv(t) && Present(t)
    decreases |steps|
  {
    if steps != [] {
      StepKeeps(s, steps[0]);
      PresentStep(s, steps[0]);
      DestroysStep(s, steps[0]);
      PresentRuns(Apply(s, steps[0]), steps[1..], t);
    }
  }

  lemma {:induction false} ReachablePresent(s: State)
    requires Reachable(s)
    ensures Inv(s) && Present(s)
  {
    var steps :| Runs(Init(), steps, s);
    InitInv();
    PresentRuns(Init(), steps, s);
  }

  lemma {:induction false} QueuedGrowsStep(s: State, step: Step)
    requires Enabled(s, step)
    ensures s.queued <= Apply(s, step).queued
  {
    if !step.RunTask? && !step.Swap? {
      QueueEffect(s, step);
    }
  }

  /** What has been queued stays queued, in order. */
  lemma {:induction false} QueuedGrows(s: State, steps: seq<Step>, t: State)
    requires Runs(s, steps, t)
    ensures s.queued <= t.queued
    decreases |steps|
  {
    if steps != [] {
      QueuedGrowsStep(s, steps[0]);
      QueuedGrows(Apply(s, steps[0]), steps[1..], t);
    }
  }

  /** A task that runs finds a created connection in the set exactly when its destruction was not queued before it. */
  lemma {:induction false} TaskFindsConnectionIff(s: State, c: nat)
    requires Reachable(s) && Enabled(s, RunTask) && c < s.nextConn
    ensures |s.executed| < |s.queued| && s.queued[|s.executed|] == s.batch[0]
    ensures c in s.conns <==> Destroy(c) !in s.queued[..|s.executed|]
  {
    ReachablePresent(s);
    ExecutedAreQueued(s);
  }

  /** The destruction of an open connection is not queued. */
  lemma {:induction false} OpenNotDestroyed(s: State, c: nat)
    requires Reachable(s) && c in s.conns && !s.conns[c].DisConnected?
    ensures Destroy(c) !in s.queued
  {
    ReachablePresent(s);
    assert Destroy(c) !in Work(s);
    assert Destroy(c) !in s.pending && Destroy(c) !in s.batch;
    assert Destroy(c) in s.executed + s.batch + s.pending ==>
             Destroy(c) in s.executed || Destroy(c) in s.batch || Destroy(c) in s.pending;
  }

  /**
   * A half-close queued while its connection is open finds the connection in the set when it runs, however many
   * events come in between.
   */
  lemma {:induction false} HalfCloseFindsConnection(s: State, c: nat, sent: bool, who: Holder, steps: seq<Step>,
                                                    t: State)
    requires Reachable(s) && c in s.conns && !s.conns[c].DisConnected?
    requires Enabled(s, Push(HalfClose(c, sent), who)) && Runs(Apply(s, Push(HalfClose(c, sent), who)), steps, t)
    requires Enabled(t, RunTask) && |t.executed| == |s.queued|
    ensures t.batch[0] == HalfClose(c, sent) && c in t.conns
  {
    ReachablePresent(s);
    OpenNotDestroyed(s, c);
    var u := Apply(s, Push(HalfClose(c, sent), who));
    StepKeeps(s, Push(HalfClose(c, sent), who));
    QueuedGrows(u, steps, t);
    ReachableStep(s, Push(HalfClose(c, sent), who));
    ReachableRun(u, steps, t);
    ReachablePresent(t);
    ExecutedAreQueued(t);
    assert t.executed == s.queued;
    CreatedStays(u, steps, t);
  }
}
