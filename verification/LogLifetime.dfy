/** The log server's objects from construction to the end of the flush thread, under any interleaving. */
module LogLifetime {
  import opened Common
  import opened LogDestroy
  import opened LogFlush
  import opened LogProtocol
  import opened LogServers

  /** Takes the flush thread one step further, wherever it is. */
  method StepThread(server: LogServer)
    requires server.Valid() && !Left(server.abs)
    modifies server, server.stream, server.buffers, set b | b in server.buffers :: b.raw
    ensures server.Valid() && server.abs == Apply(old(server.abs), FlushThread)
    ensures server.stream == old(server.stream) || fresh(server.stream)
    ensures server.buffers == old(server.buffers)
            || (fresh(server.current) && fresh(server.current.raw)
                && server.buffers == old(server.buffers) + [server.current])
  {
    match server.phase
    case LoopTest => server.TestGuard();
    case Waiting => server.EndWait();
    case Woken(_) => server.TestStop();
    case Undecided(timeout) => server.TakePending(timeout);
    case Flushing(next) =>
      server.WithinList();
      if next < |server.flushing| {
        server.FlushNext(next);
      } else {
        server.ReturnBuffers();
      }
  }

  /** One step of any thread. */
  method Perform(server: LogServer, step: Step)
    requires server.Valid() && Enabled(server.abs, step)
    modifies server, server.stream, server.buffers, set b | b in server.buffers :: b.raw
    ensures server.Valid() && server.abs == Apply(old(server.abs), step)
    ensures server.stream == old(server.stream) || fresh(server.stream)
    ensures server.buffers == old(server.buffers)
            || (fresh(server.current) && fresh(server.current.raw)
                && server.buffers == old(server.buffers) + [server.current])
  {
    match step
    case Write(line) => server.Write(line);
    case ForceFlush => server.ForceFlush();
    case ForceDestroy => server.RequestStop();
    case FlushThread => StepThread(server);
  }

  /** Whether the step is possible, told from the server's own fields. */
  predicate Possible(server: LogServer, step: Step)
    reads server
  {
    match step
    case Write(line) => !server.phase.Woken? && !server.phase.Undecided? && 0 < |line| <= LOG_BUFFER_SIZE
    case ForceFlush => true
    case ForceDestroy => true
    case FlushThread => !server.phase.LeftByGuard? && !server.phase.LeftByStop?
  }

  /** The given steps without those that are not possible at their time. */
  function Feasible(s: State, steps: seq<Step>): seq<Step>
    decreases |steps|
  {
    if steps == [] then []
    else if Enabled(s, steps[0]) then [steps[0]] + Feasible(Apply(s, steps[0]), steps[1..])
    else Feasible(s, steps[1..])
  }

  lemma {:induction false} FeasibleNext(s: State, before: seq<Step>, steps: seq<Step>, i: nat)
    requires i < |steps|
    ensures Feasible(s, steps[i..]) ==
              if Enabled(s, steps[i]) then [steps[i]] + Feasible(Apply(s, steps[i]), steps[i + 1..])
              else Feasible(s, steps[i + 1..])
    ensures Enabled(s, steps[i]) ==>
              before + Feasible(s, steps[i..]) == before + [steps[i]] + Feasible(Apply(s, steps[i]), steps[i + 1..])
  {
    assert steps[i..][1..] == steps[i + 1..];
    if Enabled(s, steps[i]) {
      Regroup(before, [steps[i]], Feasible(Apply(s, steps[i]), steps[i + 1..]));
    }
  }

  /** The given steps have been gone through up to position i: those that were possible have been taken. */
  ghost predicate RanTo(s: State, steps: seq<Step>, i: nat, taken: seq<Step>, t: State)
    requires i <= |steps|
  {
    Runs(s, taken, t) && taken + Feasible(t, steps[i..]) == Feasible(s, steps)
  }

  lemma {:induction false} RanFurther(s: State, steps: seq<Step>, i: nat, taken: seq<Step>, t: State)
    requires i < |steps| && RanTo(s, steps, i, taken, t)
    ensures if Enabled(t, steps[i]) then RanTo(s, steps, i + 1, taken + [steps[i]], Apply(t, steps[i]))
            else RanTo(s, steps, i + 1, taken, t)
  {
    FeasibleNext(t, taken, steps, i);
    if Enabled(t, steps[i]) {
      RunsAnother(s, taken, t, steps[i]);
    }
  }

  lemma {:induction false} RanNone(s: State, steps: seq<Step>)
    ensures RanTo(s, steps, 0, [], s)
  {
    assert steps[0..] == steps;
  }

  lemma {:induction false} RanAll(s: State, steps: seq<Step>, taken: seq<Step>, t: State)
    requires RanTo(s, steps, |steps|, taken, t)
    ensures Runs(s, taken, t) && taken == Feasible(s, steps)
  {
    assert taken + [] == taken;
  }

  /** Takes one step, if it is possible. */
  method RunStep(server: LogServer, step: Step) returns (ghost done: bool)
    requires server.Valid()
    modifies server, server.stream, server.buffers, set b | b in server.buffers :: b.raw
    ensures server.Valid() && done == Enabled(old(server.abs), step)
    ensures server.abs == if done then Apply(old(server.abs), step) else old(server.abs)
    ensures server.stream == old(server.stream) || fresh(server.stream)
    ensures forall b :: b in server.buffers ==> b in old(server.buffers) || (fresh(b) && fresh(b.raw))
  {
    done := Enabled(server.abs, step);
    if Possible(server, step) {
      Perform(server, step);
    }
  }

  /**
   * Any interleaving of writers, callers and the flush thread, in which exactly what is not possible at its time does
   * not happen: the objects go through that run of the protocol.
   */
  method Run(server: LogServer, steps: seq<Step>) returns (ghost taken: seq<Step>)
    requires server.Valid()
    modifies server, server.stream, server.buffers, set b | b in server.buffers :: b.raw
    ensures server.Valid()
    ensures Runs(old(server.abs), taken, server.abs) && taken == Feasible(old(server.abs), steps)
    ensures server.stream == old(server.stream) || fresh(server.stream)
    ensures forall b :: b in server.buffers ==> b in old(server.buffers) || (fresh(b) && fresh(b.raw))
  {
    ghost var s := server.abs;
    taken := [];
    var i := 0;
    RanNone(s, steps);
    while i < |steps|
      invariant 0 <= i <= |steps|
      invariant var valid, ran := server.Valid(), RanTo(s, steps, i, taken, server.abs); valid && ran
      invariant server.stream == old(server.stream) || fresh(server.stream)
      invariant forall b :: b in server.buffers ==> b in old(server.buffers) || (fresh(b) && fresh(b.raw))
    {
      RanFurther(s, steps, i, taken, server.abs);
      ghost var done := RunStep(server, steps[i]);
      taken := if done then taken + [steps[i]] else taken;
      i := i + 1;
    }
    RanAll(s, steps, taken, server.abs);
  }

  predicate OnlyThread(steps: seq<Step>) {
    forall i :: 0 <= i < |steps| ==> steps[i].FlushThread?
  }

  lemma {:induction false} NotForced(steps: seq<Step>)
    requires OnlyThread(steps)
    ensures !FlushForcedFirst(steps)
  {
  }

  /** One step of the flush thread on its way out. */
  method StepOut(server: LogServer)
    requires server.Valid() && server.stop && !Left(server.abs)
    modifies server, server.stream, server.buffers, set b | b in server.buffers :: b.raw
    ensures server.Valid() && server.stop && server.abs == Apply(old(server.abs), FlushThread)
    ensures server.abs.accepted == old(server.abs).accepted && StepsLeft(server.abs) < StepsLeft(old(server.abs))
    ensures server.stream == old(server.stream) || fresh(server.stream)
    ensures forall b :: b in server.buffers ==> b in old(server.buffers) || (fresh(b) && fresh(b.raw))
  {
    ThreadAlone(server.abs);
    StepThread(server);
  }

  /** Waits for the flush thread, which has been told to stop and is alone. */
  method Join(server: LogServer) returns (ghost taken: seq<Step>)
    requires server.Valid() && server.stop
    modifies server, server.stream, server.buffers, set b | b in server.buffers :: b.raw
    ensures server.Valid() && Left(server.abs) && Runs(old(server.abs), taken, server.abs) && OnlyThread(taken)
    ensures server.abs.accepted == old(server.abs).accepted
  {
    taken := [];
    while !server.phase.LeftByGuard? && !server.phase.LeftByStop?
      invariant server.Valid() && server.stop && Runs(old(server.abs), taken, server.abs) && OnlyThread(taken)
      invariant server.abs.accepted == old(server.abs).accepted
      invariant server.stream == old(server.stream) || fresh(server.stream)
      invariant forall b :: b in server.buffers ==> b in old(server.buffers) || (fresh(b) && fresh(b.raw))
      decreases StepsLeft(server.abs)
    {
      RunsAnother(old(server.abs), taken, server.abs, FlushThread);
      StepOut(server);
      taken := taken + [FlushThread];
    }
  }

  lemma {:induction false} RunsAnother(s: State, steps: seq<Step>, t: State, step: Step)
    requires Runs(s, steps, t) && Enabled(t, step)
    ensures Runs(s, steps + [step], Apply(t, step))
  {
    RunsOne(t, step);
    RunsOn(s, steps, t, [step], Apply(t, step));
  }

  lemma {:induction false} ThreadAlone(s: State)
    requires Reachable(s) && s.stop && !Left(s)
    ensures var t := Apply(s, FlushThread); t.stop && t.accepted == s.accepted && StepsLeft(t) < StepsLeft(s)
  {
    ReachableInv(s);
    StopCountsDown(s, FlushThread);
  }

  /**
   * forceDestroy, with no writer in the way: it returns, and every accepted line is in the files exactly when the
   * server was safe to destroy.
   */
  method Destroy(server: LogServer)
    requires server.Valid() && !Left(server.abs)
    modifies server, server.stream, server.buffers, set b | b in server.buffers :: b.raw
    ensures server.Valid() && Left(server.abs) && server.abs.accepted == old(server.abs).accepted
    ensures server.FiledLines() == server.abs.accepted <==> SafeToDestroy(old(server.abs))
  {
    ghost var s := server.abs;
    server.RequestStop();
    ghost var taken := Join(server);
    NotForced(taken);
    DestroyFilesAllIff(s, taken, server.abs);
    FilesHoldPrefix(server.abs);
  }

  /** The stop request while other threads go on, until the flush thread has left. */
  method DestroyAmong(server: LogServer, during: seq<Step>) returns (ghost taken: seq<Step>)
    requires server.Valid()
    modifies server, server.stream, server.buffers, set b | b in server.buffers :: b.raw
    ensures server.Valid() && Left(server.abs) && Runs(Apply(old(server.abs), ForceDestroy), taken, server.abs)
  {
    server.RequestStop();
    ghost var s := server.abs;
    ghost var first := Run(server, during);
    StopStays(s, first, server.abs);
    ghost var middle := server.abs;
    ghost var last := Join(server);
    taken := first + last;
    RunsOn(s, first, middle, last, server.abs);
  }

  /**
   * A whole life: any history, then the stop request in state s, then any history of the other threads until the flush
   * thread has left. The lines accepted before the request are in the files exactly when s was safe, or a flush forced
   * in time made the thread take the last of them.
   */
  method Lifetime(before: seq<Step>, during: seq<Step>)
    returns (server: LogServer, ghost s: State, ghost taken: seq<Step>)
    ensures server.Valid() && Reachable(s) && Left(server.abs) && Runs(Apply(s, ForceDestroy), taken, server.abs)
    ensures !Left(s) ==> (s.accepted <= server.FiledLines() <==>
                          SafeToDestroy(s) || (s.phase.Undecided? && FlushForcedFirst(taken)))
  {
    server := new LogServer();
    taken := Run(server, before);
    s := server.abs;
    taken := DestroyAmong(server, during);
    server.FilesAre();
    if !Left(s) {
      DestroyFilesAllIff(s, taken, server.abs);
    }
  }

  lemma {:induction false} StopStays(s: State, steps: seq<Step>, t: State)
    requires s.stop && Runs(s, steps, t)
    ensures t.stop
    decreases |steps|
  {
    if steps != [] {
      StopStays(Apply(s, steps[0]), steps[1..], t);
    }
  }

  /** A line lost on real objects: written, and the server destroyed, before the flush thread first tests its guard. */
  method LostLine(line: Line) returns (server: LogServer)
    requires 0 < |line| <= LOG_BUFFER_SIZE
    ensures server.Valid() && server.abs.accepted == [line] && server.FiledLines() == []
  {
    server := new LogServer();
    server.Write(line);
    server.RequestStop();
    GuardCanLoseLines(line);
    server.TestGuard();
    server.FilesAre();
  }

  /** One round of the flush thread on a server that nobody uses: it ends with every accepted line in the files. */
  method IdleRound(server: LogServer)
    requires server.Valid() && server.phase == server.abs.phase == LoopTest && !server.stop && server.pending == []
    modifies server, server.stream, server.buffers
    ensures server.Valid() && server.abs.phase == LoopTest && server.abs.accepted == old(server.abs).accepted
    ensures server.FiledLines() == server.abs.accepted
  {
    var timeout := WaitIdly(server);
    server.FlushPass(timeout);
  }

  /** The wait of such a round: it times out, or a flush has been forced. */
  method WaitIdly(server: LogServer) returns (timeout: bool)
    requires server.Valid() && server.phase == server.abs.phase == LoopTest && !server.stop && server.pending == []
    modifies server`phase, server`contents, server`abs, server.stream, server.current
    ensures server.Valid() && server.abs.phase == Undecided(timeout) && (timeout || server.flushNow)
    ensures server.abs.accepted == old(server.abs).accepted
  {
    ghost var s := server.abs;
    IdleStates(s);
    server.TestGuard();
    server.EndWait();
    timeout := server.phase.timeout;
    server.TestStop();
  }

  lemma {:induction false} IdleStates(s: State)
    requires s.phase.LoopTest? && !s.stop
    ensures Apply(s, FlushThread) == s.(phase := Waiting)
    ensures Apply(Apply(s, FlushThread), FlushThread).phase.Woken?
    ensures Apply(Apply(Apply(s, FlushThread), FlushThread), FlushThread) ==
              s.(phase := Undecided(Apply(Apply(s, FlushThread), FlushThread).phase.timeout))
  {
  }

  /** A line filed without any further call: written to a new server, which is then left alone. */
  method IdleLine(line: Line) returns (server: LogServer)
    requires 0 < |line| <= LOG_BUFFER_SIZE
    ensures server.Valid() && server.abs.accepted == server.FiledLines() == [line]
  {
    server := new LogServer();
    server.Write(line);
    IdleRound(server);
  }
}
