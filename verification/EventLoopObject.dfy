/** The event loop with its poller and its wakeup counter: their methods take the protocol's steps. */
module EventLoopObjects {
  import opened Common
  import opened EventLoopEffects
  import opened EventLoops

  /** A handler that has queued a task of its own writes the counter before it leaves the lock. */
  ghost function Settle(s: State): State {
    if s.lock.LoopThread? then Apply(s, WriteCounter) else s
  }

  lemma {:induction false} ReachableSettle(s: State)
    requires Reachable(s)
    ensures Reachable(Settle(s))
  {
    if s.lock.LoopThread? {
      ReachableStep(s, WriteCounter);
    }
  }

  /** The wakeup counter; reading it when it is zero throws. */
  class EventFd {
    var counter: nat

    constructor ()
      ensures counter == 0
    {
      counter := 0;
    }

    method Wakeup()
      modifies this
      ensures counter == old(counter) + 1
    {
      counter := counter + 1;
    }

    method HandleRead()
      requires counter > 0
      modifies this
      ensures counter == 0
    {
      counter := 0;
    }
  }

  /** The registered channels; adding one twice, or removing one that is not there, breaks an assertion. */
  class Epoller {
    var channels: set<Channel>

    constructor ()
      ensures channels == {}
    {
      channels := {};
    }

    method AddChannel(ch: Channel)
      requires ch !in channels
      modifies this
      ensures channels == old(channels) + {ch}
    {
      channels := channels + {ch};
    }

    method RemoveChannel(ch: Channel)
      requires ch in channels
      modifies this
      ensures channels == old(channels) - {ch}
    {
      channels := channels - {ch};
    }
  }

  /**
   * The loop with its poller and wakeup counter. Every state of the object is a reachable state of the protocol, so
   * that the theorems about runs give the preconditions of the calls below: no assertion of the poller fails, no read
   * of the counter throws, and the destroyed connection is always disconnected.
   */
  class EventLoop {
    const wakeupFd: EventFd
    const poller: Epoller
    var pendingTasks: seq<Task>
    var isExit: bool
    var conns: map<nat, ConnState>
    var nextConn: nat
    var timers: map<nat, bool>
    var nextTimer: nat
    var batch: seq<Task>
    ghost var executed: seq<Task>
    ghost var queued: seq<Task>
    ghost var lock: Holder
    ghost var quitting: nat
    ghost var phase: Phase
    ghost var closes: seq<nat>
    ghost var fired: seq<nat>

    ghost function Abs(): State
      reads this, wakeupFd, poller
    {
      State(pendingTasks, batch, executed, queued, wakeupFd.counter, lock, phase, isExit, quitting, poller.channels,
            conns, nextConn, closes, timers, nextTimer, fired)
    }

    ghost predicate Valid()
      reads this, wakeupFd, poller
    {
      Reachable(Abs())
    }

    constructor ()
      ensures Valid() && Abs() == Init() && fresh(wakeupFd) && fresh(poller)
    {
      wakeupFd := new EventFd();
      poller := new Epoller();
      pendingTasks, isExit := [], false;
      conns, nextConn, timers, nextTimer := map[], 0, map[], 0;
      batch, executed, queued, lock, quitting, phase, closes, fired := [], [], [], Nobody, 0, Polling, [], [];
      new;
      poller.AddChannel(Wakeup);
      poller.AddChannel(Listen);
      assert poller.channels == {Wakeup, Listen};
      assert Runs(Init(), [], Init());
    }

    /** Under the lock: append one task, then write the counter. */
    method PushAndWake(task: Task, who: Holder)
      requires !who.Nobody?
      modifies this, wakeupFd
      ensures Abs() == Apply(Enqueue(old(Abs()), task, who), WriteCounter)
    {
      pendingTasks := pendingTasks + [task];
      queued := queued + [task];
      lock := who;
      if task.AddTimer? {
        nextTimer := nextTimer + 1;
      }
      wakeupFd.Wakeup();
      lock := Nobody;
    }

    /** The whole of queueInLoop: the task comes last, and the loop will not block before it has seen it. */
    method QueueInLoop(task: Task, who: Holder)
      requires Valid() && Enabled(Abs(), Push(task, who))
      modifies this, wakeupFd
      ensures Valid() && Abs() == Apply(Apply(old(Abs()), Push(task, who)), WriteCounter)
      ensures queued == old(queued) + [task] && task in pendingTasks && wakeupFd.counter > 0
    {
      ReachableStep(Abs(), Push(task, who));
      ReachableStep(Apply(Abs(), Push(task, who)), WriteCounter);
      PushAndWake(task, who);
      assert pendingTasks[|pendingTasks| - 1] == task;
    }

    /** Asks the loop to leave; a caller on another thread wakes it up as well. */
    method QuitLoop(inLoopThread: bool)
      requires Valid() && (inLoopThread ==> phase.Dispatching? || phase.Draining?)
      modifies this, wakeupFd
      ensures Valid() && isExit
      ensures Abs() == if inLoopThread then Apply(old(Abs()), Quit(LoopThread))
                       else Apply(Apply(old(Abs()), Quit(OtherThread)), QuitWakeup)
      ensures phase.Polling? ==> wakeupFd.counter > 0
    {
      var who := if inLoopThread then LoopThread else OtherThread;
      ReachableStep(Abs(), Quit(who));
      isExit := true;
      if !inLoopThread {
        ReachableStep(Apply(old(Abs()), Quit(who)), QuitWakeup);
        wakeupFd.Wakeup();
      }
    }

    /** Dispatches the first active channel: the check for removed channels never finds one. */
    method HandleChannel(ch: Channel, event: Event)
      requires Valid() && Enabled(Abs(), Dispatch(event)) && ch == phase.active[0]
      modifies this, wakeupFd, poller
      ensures Valid() && Abs() == Settle(Apply(old(Abs()), Dispatch(event)))
      ensures ch in old(poller.channels)
    {
      DispatchedIsRegistered(Abs());
      ReachableStep(Abs(), Dispatch(event));
      ReachableSettle(Apply(Abs(), Dispatch(event)));
      FactsForDispatch(Abs(), ch);
      phase := Dispatching(phase.active[1..]);
      if ch in poller.channels {
        HandleEvent(ch, event);
      }
    }

    /** The handler of a registered channel. */
    method HandleEvent(ch: Channel, event: Event)
      requires ch in poller.channels && Conn(nextConn) !in poller.channels
      requires ch.Wakeup? ==> wakeupFd.counter > 0
      requires Queues(Abs(), ch, event) ==> lock.Nobody?
      requires !lock.LoopThread?
      modifies this, wakeupFd, poller
      ensures Abs() == Settle(Handle(old(Abs()), ch, event))
    {
      match ch
      case Wakeup =>
        wakeupFd.HandleRead();
      case Listen =>
        CreateNewConnection(event);
      case Conn(c) =>
        if event.Closes? {
          HandleClose(c);
        }
      case TimerOf(t) =>
        FireTimer(t);
    }

    /**
     * The same, for what it means to the loop: a client is accepted while the set has room; a connection that closes
     * was open until now and will be destroyed before the next poll; a timer that fires and was added as one-shot has
     * not fired before, and will be removed; the wakeup counter is cleared.
     */
    method DispatchNext(ch: Channel, event: Event)
      requires Valid() && lock.Nobody? && phase.Dispatching? && phase.active != [] && ch == phase.active[0]
      modifies this, wakeupFd, poller
      ensures Valid() && lock.Nobody? && phase == Dispatching(old(phase).active[1..])
      ensures old(queued) <= queued && executed == old(executed) && timers == old(timers) && isExit == old(isExit)
      ensures ch.Wakeup? ==> wakeupFd.counter == 0
      ensures if Accepting(ch, event) && |old(conns)| < MAX_CONNECTION_NUMS then
                && old(nextConn) !in old(conns) && conns == old(conns)[old(nextConn) := Connected]
                && poller.channels == old(poller.channels) + {Conn(old(nextConn))}
              else
                && poller.channels == old(poller.channels)
                && conns == if ch.Conn? && event.Closes? then old(conns)[ch.conn := DisConnected] else old(conns)
      ensures ch.Conn? ==> ch.conn !in old(closes)
      ensures ch.Conn? && event.Closes? ==> pendingTasks == old(pendingTasks) + [Destroy(ch.conn)]
      ensures closes == if ch.Conn? && event.Closes? then old(closes) + [ch.conn] else old(closes)
      ensures fired == if ch.TimerOf? then old(fired) + [ch.timer] else old(fired)
      ensures ch.TimerOf? && AddTimer(ch.timer, true) in executed ==>
                ch.timer !in old(fired) && pendingTasks == old(pendingTasks) + [RemoveTimer(ch.timer)]
      ensures ch.TimerOf? && AddTimer(ch.timer, false) in executed ==> pendingTasks == old(pendingTasks)
      ensures !ch.TimerOf? && !(ch.Conn? && event.Closes?) ==> pendingTasks == old(pendingTasks)
    {
      ghost var s := Abs();
      DispatchedIsRegistered(s);
      FactsForDispatch(s, ch);
      DispatchMeans(s, ch, event);
      DispatchConnections(s, ch, event);
      DispatchQueues(s, ch, event);
      HandleChannel(ch, event);
    }

    /** A new connection, unless the connection set is full; its channel is new to the poller. */
    method CreateNewConnection(event: Event)
      requires Listen in poller.channels && Conn(nextConn) !in poller.channels
      modifies this`conns, this`nextConn, poller
      ensures Abs() == Handle(old(Abs()), Listen, event)
    {
      if event.Accepts? && |conns| != MAX_CONNECTION_NUMS {
        poller.AddChannel(Conn(nextConn));
        conns := conns[nextConn := Connected];
        nextConn := nextConn + 1;
      }
    }

    /** Marks the connection closed and queues its destruction. */
    method HandleClose(c: nat)
      requires Conn(c) in poller.channels
      modifies this, wakeupFd
      ensures Abs() == Apply(Handle(old(Abs()), Conn(c), Closes), WriteCounter)
    {
      conns := conns[c := DisConnected];
      closes := closes + [c];
      PushAndWake(Destroy(c), LoopThread);
    }

    /** Runs the timer's callback; a one-shot timer then queues its own removal. */
    method FireTimer(t: nat)
      requires TimerOf(t) in poller.channels && !lock.LoopThread?
      modifies this, wakeupFd
      ensures Abs() == Settle(Handle(old(Abs()), TimerOf(t), Nothing))
    {
      fired := fired + [t];
      if t in timers && timers[t] {
        PushAndWake(RemoveTimer(t), LoopThread);
      }
    }

    /** One task of the batch. */
    method Execute(task: Task)
      requires task.Destroy? ==> Conn(task.conn) in poller.channels && task.conn in conns
                                 && conns[task.conn].DisConnected?
      requires task.AddTimer? ==> TimerOf(task.timer) !in poller.channels
      requires task.RemoveTimer? && task.timer in timers ==> TimerOf(task.timer) in poller.channels
      modifies this`conns, this`timers, poller
      ensures Abs() == EventLoops.Execute(old(Abs()), task)
    {
      match task
      case Plain(_) =>
      case HalfClose(c, sent) =>
        if sent && c in conns && conns[c].Connected? {
          conns := conns[c := HalfClosed];
        }
      case Destroy(c) =>
        poller.RemoveChannel(Conn(c));
        conns := conns - {c};
      case AddTimer(t, oneshot) =>
        poller.AddChannel(TimerOf(t));
        timers := timers[t := oneshot];
      case RemoveTimer(t) =>
        if t in timers {
          poller.RemoveChannel(TimerOf(t));
          timers := timers - {t};
        }
    }

    method SwapPending()
      requires Valid() && Enabled(Abs(), Swap)
      modifies this`batch, this`pendingTasks, this`phase
      ensures Valid() && Abs() == Apply(old(Abs()), Swap)
      ensures batch == old(pendingTasks) && pendingTasks == [] && phase == Draining
    {
      ReachableStep(Abs(), Swap);
      batch := pendingTasks;
      pendingTasks := [];
      phase := Draining;
    }

    /** Runs the first task of the batch as the protocol does. */
    method RunFirst()
      requires Valid() && Enabled(Abs(), RunTask)
      modifies this`batch, this`executed, this`conns, this`timers, poller
      ensures Valid() && Abs() == Apply(old(Abs()), RunTask)
      ensures match old(batch[0])
              case Plain(_) => conns == old(conns) && timers == old(timers) && poller.channels == old(poller.channels)
              case HalfClose(c, sent) =>
                && timers == old(timers) && poller.channels == old(poller.channels)
                && (sent && c in old(conns) && old(conns)[c] == Connected ==> conns == old(conns)[c := HalfClosed])
                && (!sent || c !in old(conns) || old(conns)[c] != Connected ==> conns == old(conns))
              case Destroy(c) =>
                && c in old(conns) && conns == old(conns) - {c} && timers == old(timers)
                && poller.channels == old(poller.channels) - {Conn(c)}
              case AddTimer(n, oneshot) =>
                && n !in old(timers) && conns == old(conns) && timers == old(timers)[n := oneshot]
                && poller.channels == old(poller.channels) + {TimerOf(n)}
              case RemoveTimer(n) =>
                && conns == old(conns) && timers == old(timers) - {n}
                && poller.channels == old(poller.channels) - {TimerOf(n)}
    {
      TaskMeans(Abs());
      ReachableStep(Abs(), RunTask);
      var task := batch[0];
      FactsForTask(Abs());
      batch := batch[1..];
      executed := executed + [task];
      Execute(task);
    }

    method RunNext()
      requires Valid() && phase.Draining? && lock.Nobody? && batch != []
      modifies this`batch, this`executed, this`conns, this`timers, poller
      ensures Valid() && |batch| < |old(batch)| && executed + batch == old(executed) + old(batch)
    {
      RunOutcome(Abs());
      RunFirst();
    }

    /** Swaps the pending tasks out under the lock and runs them in order: all of them, and only them. */
    method DoPendingTasks()
      requires Valid() && phase.Swapping? && lock.Nobody?
      modifies this`batch, this`pendingTasks, this`phase, this`executed, this`conns, this`timers, poller
      ensures Valid() && phase.Draining? && batch == [] && pendingTasks == []
      ensures executed == old(executed) + old(pendingTasks)
      ensures old(pendingTasks) == [] ==> conns == old(conns) && timers == old(timers)
    {
      ghost var s := Abs();
      ReachableInv(s);
      SwapPending();
      while batch != []
        invariant Valid() && phase.Draining? && lock.Nobody? && pendingTasks == []
        invariant executed + batch == s.executed + s.pending
        invariant s.pending == [] ==> batch == [] && conns == s.conns && timers == s.timers
        decreases |batch|
      {
        RunNext();
      }
    }

    /** The poll returns. */
    method BeginDispatching(active: seq<Channel>)
      requires Valid() && lock.Nobody? && Enabled(Abs(), Poll(active))
      modifies this`phase
      ensures Valid() && phase == Dispatching(active)
    {
      ReachableStep(Abs(), Poll(active));
      phase := Dispatching(active);
    }

    /** The rest of the iteration, once every active channel has been dispatched. */
    method FinishIteration()
      requires Valid() && lock.Nobody? && phase == Dispatching([])
      modifies this`batch, this`pendingTasks, this`phase, this`executed, this`conns, this`timers, poller
      ensures Valid() && phase == if isExit then Exited else Polling
      ensures pendingTasks == batch == [] && executed == queued == old(executed) + old(pendingTasks)
      ensures forall c :: c in conns ==> !conns[c].DisConnected?
      ensures forall c :: Conn(c) in poller.channels <==> c in conns
      ensures forall c :: c in closes ==> c !in conns
      ensures old(pendingTasks) == [] ==> conns == old(conns) && timers == old(timers)
    {
      ReachableStep(Abs(), EndDispatch);
      phase := Swapping;
      DoPendingTasks();
      ReachableStep(Abs(), EndBatch);
      phase := if isExit then Exited else Polling;
      AfterIteration(Abs());
    }

    /**
     * One iteration of the loop without other threads: polls, dispatches every active channel, runs the pending tasks.
     * Afterwards every task that was queued has run, and no closed connection is left in the set or in the poller.
     */
    method Iterate(active: seq<Channel>, events: seq<Event>)
      requires Valid() && lock.Nobody? && Enabled(Abs(), Poll(active)) && |events| == |active|
      modifies this, wakeupFd, poller
      ensures Valid() && lock.Nobody?
      ensures pendingTasks == batch == [] && executed == queued && old(queued) <= queued
      ensures phase == if isExit then Exited else Polling
      ensures forall c :: c in conns ==> !conns[c].DisConnected?
      ensures forall c :: Conn(c) in poller.channels <==> c in conns
    {
      BeginDispatching(active);
      var i := 0;
      while i < |active|
        invariant 0 <= i <= |active|
        invariant Valid() && lock.Nobody? && phase == Dispatching(active[i..]) && old(queued) <= queued
      {
        DispatchNext(active[i], events[i]);
        i := i + 1;
      }
      FinishIteration();
    }
  }

  /** A client knocks. */
  predicate Accepting(ch: Channel, event: Event) {
    ch.Listen? && event.Accepts?
  }

  /** What poll may report: the listening channel always, a connection while it is in the set. */
  lemma {:induction false} MayPoll(s: State, ch: Channel)
    requires Reachable(s) && s.phase.Polling? && (ch.Listen? || (ch.Conn? && ch.conn in s.conns))
    ensures Enabled(s, Poll([ch]))
  {
    ReachableInv(s);
    assert IsLive(s, ch);
  }

  /** One iteration in which a client is accepted. */
  method AcceptClient(loop: EventLoop)
    requires loop.Valid() && loop.lock.Nobody? && loop.phase.Polling? && loop.pendingTasks == []
    requires |loop.conns| < MAX_CONNECTION_NUMS
    modifies loop, loop.wakeupFd, loop.poller
    ensures loop.Valid() && loop.lock.Nobody? && loop.phase == if loop.isExit then Exited else Polling
    ensures loop.isExit == old(loop.isExit) && loop.pendingTasks == [] && loop.closes == old(loop.closes)
    ensures loop.conns == old(loop.conns)[old(loop.nextConn) := Connected]
  {
    MayPoll(loop.Abs(), Listen);
    loop.BeginDispatching([Listen]);
    loop.DispatchNext(Listen, Accepts);
    loop.FinishIteration();
  }

  /** One iteration in which a connection closes: at its end the connection is gone from the set and from the poller. */
  method CloseClient(loop: EventLoop, c: nat)
    requires loop.Valid() && loop.lock.Nobody? && loop.phase.Polling? && loop.pendingTasks == [] && c in loop.conns
    modifies loop, loop.wakeupFd, loop.poller
    ensures loop.Valid() && loop.lock.Nobody? && loop.phase == if loop.isExit then Exited else Polling
    ensures loop.isExit == old(loop.isExit) && loop.pendingTasks == [] && loop.closes == old(loop.closes) + [c]
    ensures c !in loop.conns && Conn(c) !in loop.poller.channels && Destroy(c) in loop.executed
  {
    MayPoll(loop.Abs(), Conn(c));
    loop.BeginDispatching([Conn(c)]);
    loop.DispatchNext(Conn(c), Closes);
    loop.FinishIteration();
  }

  /** A connection from its acceptance to its destruction, in two iterations of a new loop. */
  method ServedConnection() returns (loop: EventLoop)
    ensures loop.Valid() && loop.phase.Polling? && loop.closes == [0]
    ensures 0 !in loop.conns && Conn(0) !in loop.poller.channels && Destroy(0) in loop.executed
  {
    loop := new EventLoop();
    AcceptClient(loop);
    CloseClient(loop, 0);
  }

  /** What a dispatch leaves to the loop, with the handler's own task counted. */
  lemma {:induction false} DispatchMeans(s: State, ch: Channel, event: Event)
    requires Reachable(s) && s.lock.Nobody? && s.phase.Dispatching? && s.phase.active != [] && ch == s.phase.active[0]
    ensures Enabled(s, Dispatch(event)) && ch in s.registered
    ensures var t := Settle(Apply(s, Dispatch(event)));
            && t.lock.Nobody? && t.phase == Dispatching(s.phase.active[1..]) && t.exit == s.exit
            && s.queued <= t.queued && t.executed == s.executed && t.timers == s.timers
            && (ch.Wakeup? ==> t.counter == 0)
            && t.closes == (if ch.Conn? && event.Closes? then s.closes + [ch.conn] else s.closes)
            && t.fired == (if ch.TimerOf? then s.fired + [ch.timer] else s.fired)
  {
    DispatchedIsRegistered(s);
  }

  /** What it means to the connections. */
  lemma {:induction false} DispatchConnections(s: State, ch: Channel, event: Event)
    requires Reachable(s) && s.lock.Nobody? && Enabled(s, Dispatch(event)) && ch == s.phase.active[0]
    ensures ch.Conn? ==> ch.conn !in s.closes
    ensures var t := Settle(Apply(s, Dispatch(event)));
            if Accepting(ch, event) && |s.conns| < MAX_CONNECTION_NUMS then
              && s.nextConn !in s.conns && t.conns == s.conns[s.nextConn := Connected]
              && t.registered == s.registered + {Conn(s.nextConn)}
            else
              && t.registered == s.registered
              && t.conns == if ch.Conn? && event.Closes? then s.conns[ch.conn := DisConnected] else s.conns
  {
    SettleKeeps(Apply(s, Dispatch(event)));
    match ch
    case Listen => ListenEffect(s, event); ConnectionLimit(s);
    case Conn(c) => ConnectionEffect(s, c, event);
    case _ => OthersEffect(s, event);
  }

  lemma {:induction false} SettleKeeps(s: State)
    ensures Settle(s).conns == s.conns && Settle(s).registered == s.registered
  {
  }

  lemma {:induction false} OthersEffect(s: State, event: Event)
    requires Enabled(s, Dispatch(event)) && !s.phase.active[0].Listen? && !s.phase.active[0].Conn?
    ensures Apply(s, Dispatch(event)).conns == s.conns && Apply(s, Dispatch(event)).registered == s.registered
  {
  }

  /** What it queues. */
  lemma {:induction false} DispatchQueues(s: State, ch: Channel, event: Event)
    requires Reachable(s) && s.lock.Nobody? && Enabled(s, Dispatch(event)) && ch == s.phase.active[0]
    ensures var t := Settle(Apply(s, Dispatch(event)));
            && (ch.Conn? && event.Closes? ==> t.pending == s.pending + [Destroy(ch.conn)])
            && (ch.TimerOf? && AddTimer(ch.timer, true) in s.executed ==>
                  ch.timer !in s.fired && t.pending == s.pending + [RemoveTimer(ch.timer)])
            && (ch.TimerOf? && AddTimer(ch.timer, false) in s.executed ==> t.pending == s.pending)
            && (!ch.TimerOf? && !(ch.Conn? && event.Closes?) ==> t.pending == s.pending)
  {
    match ch
    case Conn(c) => ConnectionEffect(s, c, event);
    case TimerOf(n) => TimerMeans(s, n, event);
    case _ =>
  }

  lemma {:induction false} TimerMeans(s: State, n: nat, event: Event)
    requires Reachable(s) && Enabled(s, Dispatch(event)) && s.phase.active[0] == TimerOf(n)
    ensures AddTimer(n, true) in s.executed ==>
              n !in s.fired && Apply(s, Dispatch(event)).pending == s.pending + [RemoveTimer(n)]
    ensures AddTimer(n, false) in s.executed ==> Apply(s, Dispatch(event)).pending == s.pending
  {
    OneshotFiresOnce(s, n);
    if AddTimer(n, true) in s.executed {
      TimerEffect(s, n, true, event);
      KindIsKept(s, n, true);
    }
    if AddTimer(n, false) in s.executed {
      TimerEffect(s, n, false, event);
    }
  }

  /** What a task means, whichever it is. */
  lemma {:induction false} TaskMeans(s: State)
    requires Reachable(s) && Enabled(s, RunTask)
    ensures var t := Apply(s, RunTask);
            match s.batch[0]
            case Plain(_) => t.conns == s.conns && t.timers == s.timers && t.registered == s.registered
            case HalfClose(c, sent) =>
              && t.timers == s.timers && t.registered == s.registered
              && (sent && c in s.conns && s.conns[c] == Connected ==> t.conns == s.conns[c := HalfClosed])
              && (!sent || c !in s.conns || s.conns[c] != Connected ==> t.conns == s.conns)
            case Destroy(c) =>
              && c in s.conns && t.conns == s.conns - {c} && t.timers == s.timers
              && t.registered == s.registered - {Conn(c)}
            case AddTimer(n, oneshot) =>
              && n !in s.timers && t.conns == s.conns && t.timers == s.timers[n := oneshot]
              && t.registered == s.registered + {TimerOf(n)}
            case RemoveTimer(n) =>
              && t.conns == s.conns && t.timers == s.timers - {n} && t.registered == s.registered - {TimerOf(n)}
  {
    match s.batch[0]
    case Plain(_) =>
    case HalfClose(c, sent) => HalfCloseEffect(s, c, sent);
    case Destroy(c) => DestroyEffect(s, c);
    case AddTimer(n, oneshot) => AddEffect(s, n, oneshot);
    case RemoveTimer(n) => RemoveEffect(s, n);
  }

  lemma {:induction false} RunOutcome(s: State)
    requires Enabled(s, RunTask)
    ensures var t := Apply(s, RunTask); |t.batch| < |s.batch| && t.executed + t.batch == s.executed + s.batch
  {
    Regroup(s.executed, [s.batch[0]], s.batch[1..]);
    assert s.batch == [s.batch[0]] + s.batch[1..];
  }

  /** What the theorems give for the channel whose turn it is. */
  lemma {:induction false} FactsForDispatch(s: State, ch: Channel)
    requires Reachable(s) && s.phase.Dispatching? && s.phase.active != [] && ch == s.phase.active[0]
    ensures ch.Wakeup? ==> s.counter > 0
    ensures Conn(s.nextConn) !in s.registered
    ensures ch.TimerOf? ==> ch.timer in s.timers && (s.timers[ch.timer] ==> ch.timer !in s.fired)
  {
    ReachableInv(s);
    assert !IsLive(s, Conn(s.nextConn));
    match ch
    case Wakeup => CounterReadSucceeds(s);
    case TimerOf(t) => OneshotFiresOnce(s, t);
    case _ =>
  }

  /** What they give for the task that is about to run. */
  lemma {:induction false} FactsForTask(s: State)
    requires Reachable(s) && Enabled(s, RunTask)
    ensures var task := s.batch[0];
            && (task.Destroy? ==> Conn(task.conn) in s.registered && task.conn in s.conns
                                  && s.conns[task.conn].DisConnected?)
            && (task.AddTimer? ==> TimerOf(task.timer) !in s.registered)
            && (task.RemoveTimer? && task.timer in s.timers ==> TimerOf(task.timer) in s.registered)
  {
    ReachableInv(s);
    var task := s.batch[0];
    match task
    case Destroy(_) => DestroyFindsConnection(s);
    case AddTimer(_, _) => TimerTasksFindTheirTimer(s);
    case RemoveTimer(t) => assert IsLive(s, TimerOf(t)) <==> t in s.timers;
    case _ =>
  }

  /** Between two iterations no connection is closed and not yet destroyed. */
  lemma {:induction false} AfterIteration(s: State)
    requires Reachable(s) && (s.phase.Polling? || s.phase.Exited?)
    ensures s.batch == [] && s.executed + s.pending == s.queued
    ensures forall c :: c in s.conns ==> !s.conns[c].DisConnected?
    ensures forall c :: Conn(c) in s.registered <==> c in s.conns
    ensures forall c :: c in s.closes ==> c !in s.conns
  {
    ReachableInv(s);
    forall c
      ensures Conn(c) in s.registered <==> c in s.conns
    {
      assert IsLive(s, Conn(c)) <==> c in s.conns;
    }
  }
}
