/** What one pass of the flush thread achieves, and how soon the thread leaves once it has been told to stop. */
module LogFlush {
  import opened Common
  import opened LogProtocol

  // ---- A pass puts into the files what it took ----

  /** The lines are in the files, or will be when the pass under way is over. */
  ghost predicate OnTheWay(s: State, lines: seq<Line>) {
    || lines <= Filed(s.files)
    || (s.phase.Flushing? && lines <= Filed(s.files) + Lines(s.flushing))
  }

  lemma {:induction false} AcceptedIsFiledOrHeld(s: State)
    requires Inv(s) && s.flushing == []
    ensures s.accepted == Filed(s.files) + Lines(s.pending + [s.current])
  {
    assert Queue(s) == s.pending + [s.current];
  }

  lemma {:induction false} TakenIsOnTheWay(s: State)
    requires Inv(s) && s.phase.Undecided?
    ensures OnTheWay(Apply(s, FlushThread), Filed(s.files) + Lines(s.pending))
    ensures s.phase.timeout || s.flushNow ==> OnTheWay(Apply(s, FlushThread), s.accepted)
  {
    AcceptedIsFiledOrHeld(s);
    LinesSnoc(s.pending, s.current);
    Regroup(Filed(s.files), Lines(s.pending), s.current.lines);
  }

  lemma {:induction false} FlushOneWay(s: State, next: nat)
    requires Inv(s) && s.phase == Flushing(next) && next < |s.flushing|
    ensures Filed(FlushOne(s, next).files) + Lines(FlushOne(s, next).flushing) == Filed(s.files) + Lines(s.flushing)
  {
    var t := FlushOne(s, next);
    LinesAfterFlush(s.flushing, next);
    FiledRoll(s.files);
    FiledAdd(s.files, s.flushing[next].lines);
    FiledAdd(s.files + [[]], s.flushing[next].lines);
    Regroup(Filed(s.files), s.flushing[next].lines, Lines(t.flushing));
  }

  lemma {:induction false} OnTheWayStep(s: State, step: Step, lines: seq<Line>)
    requires Reachable(s) && Inv(s) && Enabled(s, step) && OnTheWay(s, lines)
    ensures OnTheWay(Apply(s, step), lines)
  {
    FilesOnlyGrow(s, step);
    if step.FlushThread? && s.phase.Flushing? {
      if s.phase.next < |s.flushing| {
        FlushOneWay(s, s.phase.next);
      } else {
        LinesOfEmpty(s.flushing);
      }
    }
  }

  lemma {:induction false} RunsOn(s: State, first: seq<Step>, u: State, second: seq<Step>, t: State)
    requires Runs(s, first, u) && Runs(u, second, t)
    ensures Runs(s, first + second, t)
    decreases |first|
  {
    if first == [] {
      assert first + second == second;
    } else {
      RunsOn(Apply(s, first[0]), first[1..], u, second, t);
      assert (first + second)[1..] == first[1..] + second;
    }
  }

  lemma {:induction false} RunsOne(s: State, step: Step)
    requires Enabled(s, step)
    ensures Runs(s, [step], Apply(s, step))
  {
    assert Runs(Apply(s, step), [], Apply(s, step));
    assert [step][1..] == [];
  }

  lemma {:induction false} ReachableStep(s: State, step: Step)
    requires Reachable(s) && Enabled(s, step)
    ensures Reachable(Apply(s, step))
  {
    var steps :| Runs(Init(), steps, s);
    RunsOne(s, step);
    RunsOn(Init(), steps, s, [step], Apply(s, step));
  }

  lemma {:induction false} OnTheWayRun(s: State, steps: seq<Step>, s': State, lines: seq<Line>)
    requires Reachable(s) && OnTheWay(s, lines) && Runs(s, steps, s')
    ensures OnTheWay(s', lines)
    decreases |steps|
  {
    if steps != [] {
      ReachableInv(s);
      OnTheWayStep(s, steps[0], lines);
      ReachableStep(s, steps[0]);
      OnTheWayRun(Apply(s, steps[0]), steps[1..], s', lines);
    }
  }

  /**
   * A pass that begins in s leaves in the files all lines pending in s, and every line accepted so far if the wait
   * timed out or a flush was forced: in whatever state the thread is found once it has finished writing.
   */
  lemma {:induction false} PassIsComplete(s: State, steps: seq<Step>, s': State)
    requires Reachable(s) && s.phase.Undecided?
    requires Runs(Apply(s, FlushThread), steps, s') && !s'.phase.Flushing?
    ensures Filed(s.files) + Lines(s.pending) <= Filed(s'.files)
    ensures s.phase.timeout || s.flushNow ==> s.accepted <= Filed(s'.files)
  {
    ReachableInv(s);
    TakenIsOnTheWay(s);
    ReachableStep(s, FlushThread);
    OnTheWayRun(Apply(s, FlushThread), steps, s', Filed(s.files) + Lines(s.pending));
    if s.phase.timeout || s.flushNow {
      OnTheWayRun(Apply(s, FlushThread), steps, s', s.accepted);
    }
  }

  // ---- From the wait to the files ----

  /** The buffer that becomes current is another one, and empty. */
  lemma {:induction false} ReplacementIsOther(s: State)
    requires Placed(s) && EmptyWhereExpected(s)
    ensures Retire(s).current.id != s.current.id && Retire(s).current.lines == []
  {
    var t := Retire(s);
    RetirePlaced(s);
    assert Held(t, s.current.id) <= 1;
    CountOne(s.pending, s.current, s.current.id);
  }

  /** The first two steps: the end of the wait, with nothing changed, and the test of the stop flag. */
  lemma {:induction false} WaitEnds(s: State)
    requires s.phase.Waiting? && !s.stop
    ensures Apply(Apply(s, FlushThread), FlushThread) == s.(phase := Undecided(s.pending == [] && !s.flushNow))
  {
  }

  lemma {:induction false} TakeEffect(s: State, timeout: bool)
    requires Placed(s) && EmptyWhereExpected(s) && s.phase == Undecided(timeout) && s.flushing == []
    ensures var t := Apply(s, FlushThread);
            && t.phase == Flushing(0) && !t.flushNow && t.pending == [] && t.files == s.files
            && (timeout || s.flushNow ==>
                  t.flushing == s.pending + [s.current] && t.current.id != s.current.id && t.current.lines == [])
            && (!timeout && !s.flushNow ==>
                  t.flushing == s.pending && t.current == s.current && t.free == s.free && t.made == s.made)
  {
    ReplacementIsOther(s);
  }

  /**
   * What three steps of the flush thread take, from the wait on: the pending buffers, and the current one exactly if
   * none is pending, so that the wait has timed out, or a flush was forced.
   */
  lemma {:induction false} WaitTakes(s: State)
    requires Reachable(s) && s.phase.Waiting? && !s.stop
    ensures var t := Apply(Apply(Apply(s, FlushThread), FlushThread), FlushThread);
            && t.phase == Flushing(0) && !t.flushNow && t.pending == [] && t.files == s.files
            && (s.pending == [] || s.flushNow ==>
                  t.flushing == s.pending + [s.current] && t.current.id != s.current.id && t.current.lines == [])
            && (s.pending != [] && !s.flushNow ==>
                  t.flushing == s.pending && t.current == s.current && t.free == s.free && t.made == s.made)
  {
    WaitEnds(s);
    ReachableStep(s, FlushThread);
    ReachableStep(Apply(s, FlushThread), FlushThread);
    var u := s.(phase := Undecided(s.pending == [] && !s.flushNow));
    ReachableInv(u);
    TakeEffect(u, u.phase.timeout);
  }

  /** The lock is held for a pass that will take all the lines, or they are on their way. */
  ghost predicate WillTake(s: State, lines: seq<Line>) {
    || OnTheWay(s, lines)
    || ((s.phase.Woken? || s.phase.Undecided?) && (s.phase.timeout || s.flushNow) && lines <= s.accepted)
  }

  lemma {:induction false} AllFlushed(s: State)
    requires Inv(s) && s.phase.Woken? && s.stop
    ensures Filed(Apply(s, FlushThread).files) == s.accepted
  {
    AcceptedIsFiledOrHeld(s);
    LinesSnoc(s.pending, s.current);
    FiledAdd(s.files, Lines(s.pending) + s.current.lines);
  }

  lemma {:induction false} WillTakeStep(s: State, step: Step, lines: seq<Line>)
    requires Reachable(s) && Inv(s) && Enabled(s, step) && WillTake(s, lines)
    ensures WillTake(Apply(s, step), lines)
  {
    if OnTheWay(s, lines) {
      OnTheWayStep(s, step, lines);
    } else if step.FlushThread? && s.phase.Undecided? {
      TakenIsOnTheWay(s);
    } else if step.FlushThread? && s.stop {
      AllFlushed(s);
    }
  }

  lemma {:induction false} WillTakeRun(s: State, steps: seq<Step>, s': State, lines: seq<Line>)
    requires Reachable(s) && WillTake(s, lines) && Runs(s, steps, s')
    ensures WillTake(s', lines)
    decreases |steps|
  {
    if steps != [] {
      ReachableInv(s);
      WillTakeStep(s, steps[0], lines);
      ReachableStep(s, steps[0]);
      WillTakeRun(Apply(s, steps[0]), steps[1..], s', lines);
    }
  }

  /**
   * A wait that ends with nothing pending, or with a flush forced, has every line accepted before it in the files when
   * the thread is back at its guard: an idle server does not keep lines in memory.
   */
  lemma {:induction false} IdleLinesAreFiled(s: State, steps: seq<Step>, s': State)
    requires Reachable(s) && s.phase.Waiting? && !s.stop && (s.pending == [] || s.flushNow)
    requires steps != [] && steps[0].FlushThread? && Runs(s, steps, s') && s'.phase.LoopTest?
    ensures s.accepted <= Filed(s'.files)
  {
    ReachableStep(s, FlushThread);
    WillTakeRun(Apply(s, FlushThread), steps[1..], s', s.accepted);
  }

  // ---- Shutting down ----

  /** How many steps the flush thread can still take once it has been told to stop. */
  function StepsLeft(s: State): nat {
    match s.phase
    case LoopTest => 1
    case Waiting => 2
    case Woken(_) => 1
    case Undecided(_) => 11
    case Flushing(next) => if next < |s.flushing| then 2 + |s.flushing| - next else 2
    case LeftByGuard => 0
    case LeftByStop => 0
  }

  function FlushSteps(steps: seq<Step>): nat {
    if steps == [] then 0 else (if steps[0].FlushThread? then 1 else 0) + FlushSteps(steps[1..])
  }

  lemma {:induction false} StopCountsDown(s: State, step: Step)
    requires Inv(s) && s.stop && Enabled(s, step)
    ensures Apply(s, step).stop
    ensures StepsLeft(Apply(s, step)) + (if step.FlushThread? then 1 else 0) <= StepsLeft(s)
  {
  }

  /** After the stop request the flush thread takes at most eleven more steps, whatever the writers do. */
  lemma {:induction false} StopIsPrompt(s: State, steps: seq<Step>, s': State)
    requires Reachable(s) && s.stop && Runs(s, steps, s')
    ensures FlushSteps(steps) <= 11
  {
    ReachableInv(s);
    CountsDown(s, steps, s');
  }

  lemma {:induction false} CountsDown(s: State, steps: seq<Step>, s': State)
    requires Inv(s) && s.stop && Runs(s, steps, s')
    ensures FlushSteps(steps) <= StepsLeft(s)
    decreases |steps|
  {
    if steps != [] {
      StepKeeps(s, steps[0]);
      StopCountsDown(s, steps[0]);
      CountsDown(Apply(s, steps[0]), steps[1..], s');
    }
  }
}
