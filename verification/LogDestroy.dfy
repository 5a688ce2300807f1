/** What destroying the server leaves in the files, told from the state in which it is destroyed. */
module LogDestroy {
  import opened Common
  import opened LogProtocol
  import opened LogFlush

  predicate Left(s: State) {
    s.phase.LeftByGuard? || s.phase.LeftByStop?
  }

  /** The flush thread is between the test of its guard and the test of the stop flag. */
  predicate BeforeStopTest(s: State) {
    s.phase.Waiting? || s.phase.Woken?
  }

  /** Nothing can be lost by destroying the server now: what the flush thread will not take anyway holds no line. */
  predicate SafeToDestroy(s: State) {
    match s.phase
    case Waiting => true
    case Woken(_) => true
    case Undecided(timeout) => timeout || s.flushNow || s.current.lines == []
    case _ => Lines(s.pending + [s.current]) == []
  }

  /** Another thread forces a flush before the flush thread takes its next step. */
  predicate FlushForcedFirst(steps: seq<Step>) {
    steps != [] && (steps[0].ForceFlush? || (!steps[0].FlushThread? && FlushForcedFirst(steps[1..])))
  }

  // ---- Past the test of the stop flag: the pass under way is the last one ----

  /** The thread will leave by its guard, with exactly the given lines in the files. */
  ghost predicate LastPass(s: State, lines: seq<Line>) {
    s.stop &&
    match s.phase
    case LoopTest => Filed(s.files) == lines
    case LeftByGuard => Filed(s.files) == lines
    case Flushing(_) => Filed(s.files) + Lines(s.flushing) == lines
    case _ => false
  }

  lemma {:induction false} LastPassStep(s: State, step: Step, lines: seq<Line>)
    requires Inv(s) && Enabled(s, step) && LastPass(s, lines)
    ensures LastPass(Apply(s, step), lines)
  {
    if step.FlushThread? && s.phase.Flushing? {
      if s.phase.next < |s.flushing| {
        FlushOneWay(s, s.phase.next);
      } else {
        LinesOfEmpty(s.flushing);
      }
    }
  }

  lemma {:induction false} LastPassRun(s: State, steps: seq<Step>, s': State, lines: seq<Line>)
    requires Inv(s) && LastPass(s, lines) && Runs(s, steps, s')
    ensures LastPass(s', lines)
    decreases |steps|
  {
    if steps != [] {
      StepKeeps(s, steps[0]);
      LastPassStep(s, steps[0], lines);
      LastPassRun(Apply(s, steps[0]), steps[1..], s', lines);
    }
  }

  // ---- Before it: everything is filed ----

  ghost predicate WillFileAll(s: State, lines: seq<Line>) {
    s.stop && ((BeforeStopTest(s) && lines <= s.accepted) || (s.phase.LeftByStop? && lines <= Filed(s.files)))
  }

  lemma {:induction false} WillFileAllStep(s: State, step: Step, lines: seq<Line>)
    requires Inv(s) && Enabled(s, step) && WillFileAll(s, lines)
    ensures WillFileAll(Apply(s, step), lines)
  {
    if step.FlushThread? && s.phase.Woken? {
      FlushAllKeeps(s);
      FlushAllFiles(s);
    }
  }

  lemma {:induction false} FlushAllFiles(s: State)
    requires Inv(s) && s.flushing == []
    ensures Filed(FlushAll(s).files) == s.accepted
  {
    LinesSnoc(s.pending, s.current);
    AcceptedIsFiledOrHeld(s);
    FiledAdd(s.files, Lines(s.pending) + s.current.lines);
  }

  lemma {:induction false} WillFileAllRun(s: State, steps: seq<Step>, s': State, lines: seq<Line>)
    requires Inv(s) && WillFileAll(s, lines) && Runs(s, steps, s')
    ensures WillFileAll(s', lines)
    decreases |steps|
  {
    if steps != [] {
      StepKeeps(s, steps[0]);
      WillFileAllStep(s, steps[0], lines);
      WillFileAllRun(Apply(s, steps[0]), steps[1..], s', lines);
    }
  }

  // ---- In between: the thread holds the lock and is about to take the pending buffers ----

  /** What the files hold after the pass that begins now. */
  function Taken(s: State, forced: bool): seq<Line>
    requires s.phase.Undecided?
  {
    if s.phase.timeout || s.flushNow || forced then s.accepted else Filed(s.files) + Lines(s.pending)
  }

  lemma {:induction false} TakeBeginsLastPass(s: State)
    requires Inv(s) && s.stop && s.phase.Undecided?
    ensures LastPass(Apply(s, FlushThread), Taken(s, false))
  {
    AcceptedIsFiledOrHeld(s);
    LinesSnoc(s.pending, s.current);
    Regroup(Filed(s.files), Lines(s.pending), s.current.lines);
  }

  /** Until then no other thread changes what it will take, unless one forces a flush. */
  lemma {:induction false} UndecidedRun(s: State, steps: seq<Step>, s': State)
    requires Inv(s) && s.stop && s.phase.Undecided? && Runs(s, steps, s') && Left(s')
    ensures LastPass(s', Taken(s, FlushForcedFirst(steps)))
    decreases |steps|
  {
    var t := Apply(s, steps[0]);
    StepKeeps(s, steps[0]);
    if steps[0].FlushThread? {
      TakeBeginsLastPass(s);
      LastPassRun(t, steps[1..], s', Taken(s, false));
    } else {
      UndecidedRun(t, steps[1..], s');
    }
  }

  // ---- The outcome ----

  lemma {:induction false} FilesAreAllIff(filed: seq<Line>, held: seq<Line>)
    ensures filed + held <= filed <==> held == []
  {
    if filed + held <= filed {
      assert |filed + held| == |filed| + |held|;
    }
  }

  /** The thread leaves by its stop branch exactly when the server is destroyed between its two tests. */
  lemma {:induction false} LeavesByStopIff(s: State, steps: seq<Step>, s': State)
    requires Reachable(s) && !Left(s)
    requires Runs(Apply(s, ForceDestroy), steps, s') && Left(s')
    ensures s'.phase.LeftByStop? <==> BeforeStopTest(s)
  {
    ReachableInv(s);
    var t := Apply(s, ForceDestroy);
    StepKeeps(s, ForceDestroy);
    if BeforeStopTest(s) {
      WillFileAllRun(t, steps, s', []);
    } else if s.phase.Undecided? {
      UndecidedRun(t, steps, s');
    } else {
      LastPassRun(t, steps, s', Filed(s.files) + Lines(s.flushing));
    }
  }

  /**
   * When the server is destroyed in state s, every line accepted so far is in the files at the end exactly when s is
   * safe, or the thread is about to take buffers and a flush is forced before it does, in any run of the other threads.
   */
  lemma {:induction false} DestroyFilesAllIff(s: State, steps: seq<Step>, s': State)
    requires Reachable(s) && !Left(s)
    requires Runs(Apply(s, ForceDestroy), steps, s') && Left(s')
    ensures s.accepted <= Filed(s'.files) <==>
            SafeToDestroy(s) || (s.phase.Undecided? && FlushForcedFirst(steps))
  {
    ReachableInv(s);
    var t := Apply(s, ForceDestroy);
    StepKeeps(s, ForceDestroy);
    if BeforeStopTest(s) {
      LeavesByStopIff(s, steps, s');
      WillFileAllRun(t, steps, s', s.accepted);
    } else if s.phase.Undecided? {
      UndecidedRun(t, steps, s');
      AcceptedIsFiledOrHeld(s);
      LinesSnoc(s.pending, s.current);
      Regroup(Filed(s.files), Lines(s.pending), s.current.lines);
      FilesAreAllIff(Filed(s.files) + Lines(s.pending), s.current.lines);
    } else {
      LastPassRun(t, steps, s', Filed(s.files) + Lines(s.flushing));
      HeldBack(s);
      FilesAreAllIff(Filed(s.files) + Lines(s.flushing), Lines(s.pending + [s.current]));
    }
  }

  lemma {:induction false} HeldBack(s: State)
    requires Inv(s)
    ensures s.accepted == (Filed(s.files) + Lines(s.flushing)) + Lines(s.pending + [s.current])
  {
    assert Queue(s) == s.flushing + (s.pending + [s.current]);
    LinesAppend(s.flushing, s.pending + [s.current]);
    Regroup(Filed(s.files), Lines(s.flushing), Lines(s.pending + [s.current]));
  }

  // ---- Without a stop request ----

  lemma {:induction false} StaysRun(s: State, steps: seq<Step>, s': State)
    requires (Left(s) ==> s.stop) && Runs(s, steps, s')
    ensures Left(s') ==> s'.stop
    decreases |steps|
  {
    if steps != [] {
      StaysRun(Apply(s, steps[0]), steps[1..], s');
    }
  }

  /** The flush thread never leaves by itself. */
  lemma {:induction false} LeavesOnlyOnRequest(s: State)
    requires Reachable(s) && !s.stop
    ensures !Left(s) && Enabled(s, FlushThread)
  {
    var steps :| Runs(Init(), steps, s);
    StaysRun(Init(), steps, s);
  }
}
