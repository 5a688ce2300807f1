/**
 * One event loop with the threads that queue tasks for it: tasks, wakeups, channels, timers and connections.
 * Pushing a task and writing the wakeup counter are two steps under one lock; the loop's own steps are those of
 * one iteration: poll, dispatch each active channel, swap the pending tasks out, run them.
 */
module EventLoops {
  import opened Common

  const MAX_CONNECTION_NUMS: nat := 256

  /** What callers and handlers queue. A half-close succeeds or not: `sent` tells whether its last write will. */
  datatype Task =
    | Plain(id: nat)
    | HalfClose(conn: nat, sent: bool)
    | Destroy(conn: nat)
    | AddTimer(timer: nat, oneshot: bool)
    | RemoveTimer(timer: nat)

  datatype Channel = Wakeup | Listen | Conn(conn: nat) | TimerOf(timer: nat)

  /** Who is between pushing a task and writing the counter, and so holds the lock. */
  datatype Holder = Nobody | LoopThread | OtherThread

  datatype Phase = Polling | Dispatching(active: seq<Channel>) | Swapping | Draining | Exited

  /** What the kernel reports for a listening socket or a connection, apart from plain data. */
  datatype Event = Nothing | Accepts | Closes

  datatype State = State(
    pending: seq<Task>,
    batch: seq<Task>,
    executed: seq<Task>,
    queued: seq<Task>,
    counter: nat,
    lock: Holder,
    phase: Phase,
    exit: bool,
    quitting: nat,
    registered: set<Channel>,
    conns: map<nat, ConnState>,
    nextConn: nat,
    closes: seq<nat>,
    timers: map<nat, bool>,
    nextTimer: nat,
    fired: seq<nat>)

  datatype Step =
    | Push(task: Task, who: Holder)
    | WriteCounter
    | Quit(who: Holder)
    | QuitWakeup
    | Poll(active: seq<Channel>)
    | Dispatch(event: Event)
    | EndDispatch
    | Swap
    | RunTask
    | EndBatch

  function Init(): State {
    State([], [], [], [], 0, Nobody, Polling, false, 0, {Wakeup, Listen}, map[], 0, [], map[], 0, [])
  }

  /** Tasks that callers may queue: a new timer gets a new number, and only numbers handed out can be removed. */
  predicate MayQueue(s: State, task: Task) {
    match task
    case Plain(_) => true
    case HalfClose(_, _) => true
    case Destroy(_) => false
    case AddTimer(t, _) => t == s.nextTimer
    case RemoveTimer(t) => t < s.nextTimer
  }

  predicate NoRepeats(active: seq<Channel>) {
    forall i, j :: 0 <= i < j < |active| ==> active[i] != active[j]
  }

  /** Whether handling the event queues a task, which needs the lock. */
  predicate Queues(s: State, ch: Channel, event: Event) {
    match ch
    case Conn(c) => event.Closes?
    case TimerOf(t) => t in s.timers && s.timers[t]
    case _ => false
  }

  predicate Enabled(s: State, step: Step) {
    match step
    case Push(task, who) =>
      && s.lock.Nobody? && MayQueue(s, task) && !who.Nobody?
      && (who.LoopThread? ==> s.phase.Dispatching? || s.phase.Draining?)
    case WriteCounter => !s.lock.Nobody?
    case Quit(who) => who.LoopThread? ==> s.phase.Dispatching? || s.phase.Draining?
    case QuitWakeup => s.quitting > 0
    case Poll(active) =>
      && s.phase.Polling?
      && NoRepeats(active)
      && (forall ch :: ch in active ==> ch in s.registered)
      && (Wakeup in active ==> s.counter > 0)
    case Dispatch(event) =>
      && s.phase.Dispatching? && s.phase.active != []
      && !s.lock.LoopThread?
      && (Queues(s, s.phase.active[0], event) ==> s.lock.Nobody?)
    case EndDispatch => s.phase.Dispatching? && s.phase.active == [] && !s.lock.LoopThread?
    case Swap => s.phase.Swapping? && s.lock.Nobody?
    case RunTask => s.phase.Draining? && s.batch != [] && !s.lock.LoopThread?
    case EndBatch => s.phase.Draining? && s.batch == [] && !s.lock.LoopThread?
  }

  /** Appends a task under the lock; the counter is written by a later step. */
  function Enqueue(s: State, task: Task, who: Holder): State {
    s.(pending := s.pending + [task], queued := s.queued + [task], lock := who,
       nextTimer := if task.AddTimer? then s.nextTimer + 1 else s.nextTimer)
  }

  function Handle(s: State, ch: Channel, event: Event): State {
    if ch !in s.registered then s
    else match ch
      case Wakeup => s.(counter := 0)
      case Listen =>
        if event.Accepts? && |s.conns| != MAX_CONNECTION_NUMS then
          s.(registered := s.registered + {Conn(s.nextConn)},
             conns := s.conns[s.nextConn := Connected],
             nextConn := s.nextConn + 1)
        else s
      case Conn(c) =>
        if event.Closes? then
          Enqueue(s, Destroy(c), LoopThread).(conns := s.conns[c := DisConnected], closes := s.closes + [c])
        else s
      case TimerOf(t) =>
        var r := s.(fired := s.fired + [t]);
        if t in s.timers && s.timers[t] then Enqueue(r, RemoveTimer(t), LoopThread) else r
  }

  function Execute(s: State, task: Task): State {
    match task
    case Plain(_) => s
    case HalfClose(c, sent) =>
      if sent && c in s.conns && s.conns[c].Connected? then s.(conns := s.conns[c := HalfClosed]) else s
    case Destroy(c) => s.(registered := s.registered - {Conn(c)}, conns := s.conns - {c})
    case AddTimer(t, oneshot) => s.(registered := s.registered + {TimerOf(t)}, timers := s.timers[t := oneshot])
    case RemoveTimer(t) =>
      if t in s.timers then s.(registered := s.registered - {TimerOf(t)}, timers := s.timers - {t}) else s
  }

  function Apply(s: State, step: Step): State
    requires Enabled(s, step)
  {
    match step
    case Push(task, who) => Enqueue(s, task, who)
    case WriteCounter => s.(counter := s.counter + 1, lock := Nobody)
    case Quit(who) => s.(exit := true, quitting := if who.LoopThread? then s.quitting else s.quitting + 1)
    case QuitWakeup => s.(counter := s.counter + 1, quitting := s.quitting - 1)
    case Poll(active) => s.(phase := Dispatching(active))
    case Dispatch(event) =>
      Handle(s.(phase := Dispatching(s.phase.active[1..])), s.phase.active[0], event)
    case EndDispatch => s.(phase := Swapping)
    case Swap => s.(batch := s.pending, pending := [], phase := Draining)
    case RunTask => Execute(s.(batch := s.batch[1..], executed := s.executed + [s.batch[0]]), s.batch[0])
    case EndBatch => s.(phase := if s.exit then Exited else Polling)
  }

  ghost predicate Runs(s: State, steps: seq<Step>, s': State)
    decreases |steps|
  {
    if steps == [] then s == s'
    else Enabled(s, steps[0]) && Runs(Apply(s, steps[0]), steps[1..], s')
  }

  ghost predicate Reachable(s: State) {
    exists steps :: Runs(Init(), steps, s)
  }

  lemma {:induction false} RunsOn(s: State, first: seq<Step>, u: State, second: seq<Step>, t: State)
    requires Runs(s, first, u) && Runs(u, second, t)
    ensures Runs(s, first + second, t)
    decreases |first|
  {
    if first == [] {
      assert first + second == second;
    } else {
      RunsOn(Apply(s, first[0]), first[1..], u, second, t);
      assert (first + second)[1..] == first[1..] + second;
    }
  }

  lemma {:induction false} ReachableRun(s: State, steps: seq<Step>, t: State)
    requires Reachable(s) && Runs(s, steps, t)
    ensures Reachable(t)
  {
    var before :| Runs(Init(), before, s);
    RunsOn(Init(), before, s, steps, t);
  }

  lemma {:induction false} ReachableStep(s: State, step: Step)
    requires Reachable(s) && Enabled(s, step)
    ensures Reachable(Apply(s, step))
  {
    assert Runs(Apply(s, step), [], Apply(s, step));
    assert [step][1..] == [];
    ReachableRun(s, [step], Apply(s, step));
  }

  // ---- Tasks: order and wakeups ----

  /** Every queued task is in exactly one of three places, in the order of queueing. */
  ghost predicate Fifo(s: State) {
    && s.executed + s.batch + s.pending == s.queued
    && (!s.phase.Draining? ==> s.batch == [])
  }

  /** How many pending tasks have been pushed by threads that have left the lock. */
  function Settled(s: State): nat {
    if s.lock.Nobody? || s.pending == [] then |s.pending| else |s.pending| - 1
  }

  /** Before the loop can block, a settled task shows in the counter. */
  ghost predicate Woken(s: State) {
    && (!s.lock.Nobody? ==> s.pending != [])
    && (s.phase.Polling? || s.phase.Draining? ==> Settled(s) > 0 ==> s.counter > 0)
    && (s.phase.Dispatching? && Wakeup in s.phase.active ==> s.counter > 0)
    && (s.lock.LoopThread? ==> s.phase.Dispatching? || s.phase.Draining?)
  }

  /** The task a step queues, if any. */
  function Queued(s: State, step: Step): seq<Task> {
    match step
    case Push(task, _) => [task]
    case Dispatch(event) =>
      if !s.phase.Dispatching? || s.phase.active == [] || s.phase.active[0] !in s.registered then []
      else (
        match s.phase.active[0]
        case Conn(c) => if event.Closes? then [Task.Destroy(c)] else []
        case TimerOf(t) => if t in s.timers && s.timers[t] then [RemoveTimer(t)] else []
        case _ => []
      )
    case _ => []
  }

  lemma {:induction false} QueueEffect(s: State, step: Step)
    requires Enabled(s, step) && !step.Swap? && !step.RunTask?
    ensures var t := Apply(s, step);
            && t.executed == s.executed && t.batch == s.batch
            && t.pending == s.pending + Queued(s, step) && t.queued == s.queued + Queued(s, step)
  {
  }

  lemma {:induction false} FifoRun(s: State)
    requires Fifo(s) && Enabled(s, RunTask)
    ensures Fifo(Apply(s, RunTask))
  {
    assert s.batch == [s.batch[0]] + s.batch[1..];
    Regroup(s.executed, [s.batch[0]], s.batch[1..]);
  }

  lemma {:induction false} FifoStep(s: State, step: Step)
    requires Fifo(s) && Enabled(s, step)
    ensures Fifo(Apply(s, step))
  {
    if step.RunTask? {
      FifoRun(s);
    } else if step.Swap? {
      Regroup(s.executed, s.batch, s.pending);
      assert s.batch == [];
    } else {
      QueueEffect(s, step);
      Regroup(s.executed + s.batch, s.pending, Queued(s, step));
    }
  }

  lemma {:induction false} WokenStep(s: State, step: Step)
    requires Woken(s) && Enabled(s, step) && Live(s)
    ensures Woken(Apply(s, step))
  {
  }

  // ---- Channels ----

  ghost predicate IsLive(s: State, ch: Channel) {
    match ch
    case Wakeup => true
    case Listen => true
    case Conn(c) => c in s.conns
    case TimerOf(t) => t in s.timers
  }

  /** Exactly the wakeup and listening channels, the connections of the set and the timers of the map are registered. */
  ghost predicate Exact(s: State) {
    forall ch :: ch in s.registered <==> IsLive(s, ch)
  }

  ghost predicate Channels(s: State) {
    && Exact(s)
    && (forall c :: c in s.conns ==> c < s.nextConn)
    && |s.conns| <= MAX_CONNECTION_NUMS
  }

  /** The channels still to be dispatched are distinct and registered, and their connections open. */
  ghost predicate Live(s: State) {
    s.phase.Dispatching? ==>
      && NoRepeats(s.phase.active)
      && (forall i :: 0 <= i < |s.phase.active| ==>
            && s.phase.active[i] in s.registered
            && (s.phase.active[i].Conn? ==>
                  s.phase.active[i].conn in s.conns && !s.conns[s.phase.active[i].conn].DisConnected?))
  }

  lemma {:induction false} OneMore(m: map<nat, ConnState>, c: nat, v: ConnState)
    ensures |m[c := v]| <= |m| + 1
    ensures c in m ==> |m[c := v]| == |m|
  {
    assert m[c := v].Keys == m.Keys + {c};
    if c in m {
      assert m.Keys + {c} == m.Keys;
    }
  }

  lemma {:induction false} OneLess(m: map<nat, ConnState>, c: nat)
    ensures |m - {c}| <= |m|
  {
    assert (m - {c}).Keys == m.Keys - {c};
    if c in m {
      assert m.Keys == (m.Keys - {c}) + {c};
    } else {
      assert m.Keys - {c} == m.Keys;
    }
  }

  lemma {:induction false} ChannelsHandle(s: State, ch: Channel, event: Event)
    requires Channels(s)
    ensures Channels(Handle(s, ch, event))
  {
    if ch.Listen? {
      OneMore(s.conns, s.nextConn, Connected);
    } else if ch.Conn? {
      OneMore(s.conns, ch.conn, DisConnected);
    }
  }

  lemma {:induction false} ExactTimers(s: State, task: Task)
    requires Exact(s) && (task.AddTimer? || task.RemoveTimer?)
    ensures Exact(Execute(s, task))
  {
    var t := Execute(s, task);
    forall ch
      ensures ch in t.registered <==> IsLive(t, ch)
    {
      assert ch in s.registered <==> IsLive(s, ch);
      match ch {
        case TimerOf(n) =>
        case _ => assert IsLive(s, ch) <==> IsLive(t, ch);
      }
    }
  }

  lemma {:induction false} ChannelsConns(s: State, task: Task)
    requires Channels(s) && (task.Destroy? || task.HalfClose?)
    ensures Channels(Execute(s, task))
  {
    OneMore(s.conns, task.conn, HalfClosed);
    OneLess(s.conns, task.conn);
    var t := Execute(s, task);
    forall ch
      ensures ch in t.registered <==> IsLive(t, ch)
    {
      assert ch in s.registered <==> IsLive(s, ch);
    }
  }

  lemma {:induction false} ChannelsExecute(s: State, task: Task)
    requires Channels(s)
    ensures Channels(Execute(s, task))
  {
    match task
    case Plain(_) =>
    case HalfClose(_, _) => ChannelsConns(s, task);
    case Destroy(_) => ChannelsConns(s, task);
    case AddTimer(_, _) => ExactTimers(s, task);
    case RemoveTimer(_) => ExactTimers(s, task);
  }

  lemma {:induction false} ChannelsStep(s: State, step: Step)
    requires Channels(s) && Enabled(s, step)
    ensures Channels(Apply(s, step))
  {
    match step
    case Dispatch(event) =>
      ChannelsHandle(s.(phase := Dispatching(s.phase.active[1..])), s.phase.active[0], event);
    case RunTask =>
      ChannelsExecute(s.(batch := s.batch[1..], executed := s.executed + [s.batch[0]]), s.batch[0]);
    case _ =>
  }

  // ---- Closing connections ----

  /** The tasks that will run before the next poll. */
  function Work(s: State): seq<Task> {
    if s.phase.Draining? then s.batch else s.pending
  }

  /** Each closed connection has its destroy task among them, once, and only closed ones have. */
  ghost predicate Closing(s: State) {
    && (forall c :: Destroy(c) in Work(s) <==> c in s.conns && s.conns[c].DisConnected?)
    && (forall i, j :: 0 <= i < j < |Work(s)| && Work(s)[i].Destroy? ==> Work(s)[i] != Work(s)[j])
    && (s.phase.Draining? ==> forall c :: Destroy(c) !in s.pending)
    && (s.phase.Polling? || s.phase.Exited? ==> forall c :: c in s.conns ==> !s.conns[c].DisConnected?)
  }

  lemma {:induction false} ClosingPush(s: State, task: Task, who: Holder)
    requires Closing(s) && !task.Destroy?
    ensures Closing(Enqueue(s, task, who))
  {
    var t := Enqueue(s, task, who);
    if !s.phase.Draining? {
      assert forall c :: Destroy(c) in t.pending <==> Destroy(c) in s.pending;
    }
  }

  lemma {:induction false} ClosingClose(r: State, c: nat)
    requires Closing(r) && r.phase.Dispatching? && Conn(c) in r.registered
    requires c in r.conns && !r.conns[c].DisConnected?
    ensures Closing(Handle(r, Conn(c), Closes))
  {
    assert Destroy(c) !in r.pending;
    assert Handle(r, Conn(c), Closes).pending == r.pending + [Destroy(c)];
  }

  lemma {:induction false} ClosingDispatch(s: State, event: Event)
    requires Closing(s) && Channels(s) && Live(s) && Enabled(s, Dispatch(event))
    ensures Closing(Apply(s, Dispatch(event)))
  {
    var r := s.(phase := Dispatching(s.phase.active[1..]));
    assert Closing(r);
    match s.phase.active[0]
    case Wakeup =>
    case Listen =>
    case Conn(c) =>
      if event.Closes? {
        ClosingClose(r, c);
      }
    case TimerOf(n) =>
      if n in s.timers && s.timers[n] {
        ClosingPush(r.(fired := s.fired + [n]), RemoveTimer(n), LoopThread);
      }
  }

  /** What running the first task does to the closed connections and their destroy tasks. */
  lemma {:induction false} RunDestroys(s: State, c: nat)
    requires Closing(s) && Enabled(s, RunTask)
    ensures var t := Apply(s, RunTask);
            Destroy(c) in t.batch <==> c in t.conns && t.conns[c].DisConnected?
  {
    var t := Apply(s, RunTask);
    assert s.batch == [s.batch[0]] + t.batch;
    assert Destroy(c) in s.batch <==> c in s.conns && s.conns[c].DisConnected?;
  }

  lemma {:induction false} ClosingRun(s: State)
    requires Closing(s) && Enabled(s, RunTask)
    ensures Closing(Apply(s, RunTask))
  {
    var t := Apply(s, RunTask);
    forall c
      ensures Destroy(c) in Work(t) <==> c in t.conns && t.conns[c].DisConnected?
    {
      RunDestroys(s, c);
    }
    forall i, j | 0 <= i < j < |t.batch| && t.batch[i].Destroy?
      ensures t.batch[i] != t.batch[j]
    {
      assert s.batch[i + 1] == t.batch[i] && s.batch[j + 1] == t.batch[j];
    }
  }

  lemma {:induction false} ClosingStep(s: State, step: Step)
    requires Closing(s) && Channels(s) && Live(s) && Enabled(s, step)
    ensures Closing(Apply(s, step))
  {
    match step
    case Push(task, who) => ClosingPush(s, task, who);
    case Dispatch(event) => ClosingDispatch(s, event);
    case RunTask => ClosingRun(s);
    case _ =>
  }

  lemma {:induction false} LivePoll(s: State, active: seq<Channel>)
    requires Closing(s) && Channels(s) && Enabled(s, Poll(active))
    ensures Live(Apply(s, Poll(active)))
  {
    forall i | 0 <= i < |active|
      ensures active[i] in s.registered
      ensures active[i].Conn? ==> active[i].conn in s.conns && !s.conns[active[i].conn].DisConnected?
    {
      assert active[i] in active;
      assert IsLive(s, active[i]);
    }
  }

  lemma {:induction false} LiveDispatch(s: State, event: Event)
    requires Live(s) && Channels(s) && Enabled(s, Dispatch(event))
    ensures Live(Apply(s, Dispatch(event)))
  {
    var t := Apply(s, Dispatch(event));
    forall i | 0 <= i < |t.phase.active|
      ensures t.phase.active[i] in t.registered
      ensures t.phase.active[i].Conn? ==>
                t.phase.active[i].conn in t.conns && !t.conns[t.phase.active[i].conn].DisConnected?
    {
      assert t.phase.active[i] == s.phase.active[i + 1] != s.phase.active[0];
    }
  }

  lemma {:induction false} LiveStep(s: State, step: Step)
    requires Closing(s) && Channels(s) && Live(s) && Enabled(s, step)
    ensures Live(Apply(s, step))
  {
    match step
    case Poll(active) => LivePoll(s, active);
    case Dispatch(event) => LiveDispatch(s, event);
    case _ =>
  }

  /** A connection is closed at most once, and is not closed before its close. */
  ghost predicate ClosedOnce(s: State) {
    && (forall i, j :: 0 <= i < j < |s.closes| ==> s.closes[i] != s.closes[j])
    && (forall i :: 0 <= i < |s.closes| ==>
          s.closes[i] < s.nextConn && (s.closes[i] in s.conns ==> s.conns[s.closes[i]].DisConnected?))
  }

  lemma {:induction false} ClosedOnceDispatch(s: State, event: Event)
    requires ClosedOnce(s) && Channels(s) && Live(s) && Enabled(s, Dispatch(event))
    ensures ClosedOnce(Apply(s, Dispatch(event)))
  {
    var ch := s.phase.active[0];
    if ch.Conn? {
      assert ch.conn !in s.closes;
    }
  }

  lemma {:induction false} ClosedOnceStep(s: State, step: Step)
    requires ClosedOnce(s) && Channels(s) && Live(s) && Enabled(s, step)
    ensures ClosedOnce(Apply(s, step))
  {
    if step.Dispatch? {
      ClosedOnceDispatch(s, step.event);
    }
  }

  // ---- Timers ----

  ghost predicate Added(tasks: seq<Task>, t: nat) {
    exists i :: 0 <= i < |tasks| && tasks[i].AddTimer? && tasks[i].timer == t
  }

  /** In the order of queueing, each timer number is added once, and removed only later. */
  ghost predicate Ordered(queued: seq<Task>, nextTimer: nat) {
    && (forall i, j :: 0 <= i < j < |queued| && queued[i].AddTimer? && queued[j].AddTimer? ==>
          queued[i].timer != queued[j].timer)
    && (forall i :: 0 <= i < |queued| && queued[i].AddTimer? ==> queued[i].timer < nextTimer)
    && (forall t: nat :: t < nextTimer ==> Added(queued, t))
    && (forall i :: 0 <= i < |queued| && queued[i].RemoveTimer? ==> Added(queued[..i], queued[i].timer))
  }

  ghost predicate TimerOrder(s: State) {
    Ordered(s.queued, s.nextTimer)
  }

  /** A timer is in the map exactly when its add task has run and no remove task has. */
  ghost predicate TimerMap(s: State) {
    forall t: nat :: t in s.timers <==> Added(s.executed, t) && RemoveTimer(t) !in s.executed
  }

  /** A one-shot timer that has fired has its remove task among the work before the next poll, or is gone. */
  ghost predicate FiredTimers(s: State) {
    && (forall i :: 0 <= i < |s.fired| ==> Added(s.executed, s.fired[i]))
    && (forall i :: 0 <= i < |s.fired| && s.fired[i] in s.timers && s.timers[s.fired[i]] ==>
          !s.phase.Polling? && !s.phase.Exited? && RemoveTimer(s.fired[i]) in Work(s)
          && (s.phase.Dispatching? ==> TimerOf(s.fired[i]) !in s.phase.active))
  }

  lemma {:induction false} AddedExtends(a: seq<Task>, b: seq<Task>, t: nat)
    requires Added(a, t)
    ensures Added(a + b, t)
  {
    var i :| 0 <= i < |a| && a[i].AddTimer? && a[i].timer == t;
    assert (a + b)[i] == a[i];
  }

  lemma {:induction false} AddedLast(a: seq<Task>, task: Task, t: nat)
    ensures Added(a + [task], t) <==> Added(a, t) || (task.AddTimer? && task.timer == t)
  {
    if Added(a, t) {
      AddedExtends(a, [task], t);
    }
    if task.AddTimer? && task.timer == t {
      assert (a + [task])[|a|] == task;
    }
    if Added(a + [task], t) {
      var i :| 0 <= i < |a + [task]| && (a + [task])[i].AddTimer? && (a + [task])[i].timer == t;
      if i < |a| {
        assert a[i] == (a + [task])[i];
      }
    }
  }

  lemma {:induction false} OrderAppend(queued: seq<Task>, nextTimer: nat, task: Task)
    requires Ordered(queued, nextTimer)
    requires task.AddTimer? ==> task.timer == nextTimer
    requires task.RemoveTimer? ==> Added(queued, task.timer)
    ensures Ordered(queued + [task], if task.AddTimer? then nextTimer + 1 else nextTimer)
  {
    var q := queued + [task];
    forall n: nat | n < (if task.AddTimer? then nextTimer + 1 else nextTimer)
      ensures Added(q, n)
    {
      AddedLast(queued, task, n);
    }
    forall i | 0 <= i < |q| && q[i].RemoveTimer?
      ensures Added(q[..i], q[i].timer)
    {
      if i < |queued| {
        assert q[..i] == queued[..i];
      } else {
        assert q[..i] == queued;
      }
    }
  }

  lemma {:induction false} ExecutedAreQueued(s: State)
    requires Fifo(s)
    ensures |s.executed| <= |s.queued| && s.queued[..|s.executed|] == s.executed
    ensures s.batch != [] ==> |s.executed| < |s.queued| && s.queued[|s.executed|] == s.batch[0]
  {
  }

  lemma {:induction false} OrderDispatch(s: State, event: Event)
    requires TimerOrder(s) && TimerMap(s) && Fifo(s) && Enabled(s, Dispatch(event))
    ensures TimerOrder(Apply(s, Dispatch(event)))
  {
    match s.phase.active[0]
    case Conn(c) => OrderAppend(s.queued, s.nextTimer, Destroy(c));
    case TimerOf(t) =>
      if t in s.timers {
        AddedIsQueued(s, t);
        OrderAppend(s.queued, s.nextTimer, RemoveTimer(t));
      }
    case _ =>
  }

  lemma {:induction false} AddedIsQueued(s: State, t: nat)
    requires TimerMap(s) && Fifo(s) && t in s.timers
    ensures Added(s.queued, t)
  {
    ExecutedAreQueued(s);
    assert s.queued == s.executed + s.queued[|s.executed|..];
    AddedExtends(s.executed, s.queued[|s.executed|..], t);
  }

  lemma {:induction false} OrderStep(s: State, step: Step)
    requires TimerOrder(s) && TimerMap(s) && Fifo(s) && Enabled(s, step)
    ensures TimerOrder(Apply(s, step))
  {
    match step
    case Push(task, _) => OrderAppend(s.queued, s.nextTimer, task);
    case Dispatch(event) => OrderDispatch(s, event);
    case _ => assert Apply(s, step).queued == s.queued && Apply(s, step).nextTimer == s.nextTimer;
  }

  /** Before the add task of a timer the queue holds no other add task and no remove task for it. */
  lemma {:induction false} NothingBeforeAdd(s: State, n: nat, i: nat)
    requires TimerOrder(s) && i < n < |s.queued| && s.queued[n].AddTimer?
    ensures !(s.queued[i].AddTimer? && s.queued[i].timer == s.queued[n].timer)
    ensures s.queued[i] != RemoveTimer(s.queued[n].timer)
  {
    if s.queued[i].RemoveTimer? {
      var j :| 0 <= j < i && s.queued[..i][j].AddTimer? && s.queued[..i][j].timer == s.queued[i].timer;
      assert s.queued[j].AddTimer? && s.queued[j].timer == s.queued[i].timer;
    }
  }

  /** The add task about to run is the first for its timer, and the remove task comes after the add task. */
  lemma {:induction false} NextTimerTask(s: State)
    requires TimerOrder(s) && Fifo(s) && s.batch != []
    ensures s.batch[0].AddTimer? ==>
              !Added(s.executed, s.batch[0].timer) && RemoveTimer(s.batch[0].timer) !in s.executed
    ensures s.batch[0].RemoveTimer? ==> Added(s.executed, s.batch[0].timer)
  {
    ExecutedAreQueued(s);
    var n := |s.executed|;
    if s.batch[0].AddTimer? {
      forall i | 0 <= i < n
        ensures !(s.executed[i].AddTimer? && s.executed[i].timer == s.batch[0].timer)
        ensures s.executed[i] != RemoveTimer(s.batch[0].timer)
      {
        NothingBeforeAdd(s, n, i);
        assert s.queued[i] == s.executed[i];
      }
    }
  }

  lemma {:induction false} TimerMapRun(s: State)
    requires TimerMap(s) && TimerOrder(s) && Fifo(s) && Enabled(s, RunTask)
    ensures TimerMap(Apply(s, RunTask))
  {
    var u := Apply(s, RunTask);
    NextTimerTask(s);
    forall t: nat
      ensures t in u.timers <==> Added(u.executed, t) && RemoveTimer(t) !in u.executed
    {
      assert t in s.timers <==> Added(s.executed, t) && RemoveTimer(t) !in s.executed;
      AddedLast(s.executed, s.batch[0], t);
      assert RemoveTimer(t) in u.executed <==> RemoveTimer(t) in s.executed || s.batch[0] == RemoveTimer(t);
    }
  }

  lemma {:induction false} TimerMapStep(s: State, step: Step)
    requires TimerMap(s) && TimerOrder(s) && Fifo(s) && Enabled(s, step)
    ensures TimerMap(Apply(s, step))
  {
    if step.RunTask? {
      TimerMapRun(s);
    }
  }

  lemma {:induction false} FiredRun(s: State)
    requires FiredTimers(s) && TimerOrder(s) && Fifo(s) && Enabled(s, RunTask)
    ensures FiredTimers(Apply(s, RunTask))
  {
    var u := Apply(s, RunTask);
    NextTimerTask(s);
    forall i | 0 <= i < |u.fired|
      ensures Added(u.executed, u.fired[i])
      ensures u.fired[i] in u.timers && u.timers[u.fired[i]] ==> RemoveTimer(u.fired[i]) in u.batch
    {
      AddedExtends(s.executed, [s.batch[0]], s.fired[i]);
      assert s.batch == [s.batch[0]] + u.batch;
    }
  }

  lemma {:induction false} FiredDispatch(s: State, event: Event)
    requires FiredTimers(s) && TimerMap(s) && Live(s) && Channels(s) && Enabled(s, Dispatch(event))
    ensures FiredTimers(Apply(s, Dispatch(event)))
  {
    var u := Apply(s, Dispatch(event));
    var ch := s.phase.active[0];
    assert IsLive(s, ch);
    forall i | 0 <= i < |u.fired|
      ensures Added(u.executed, u.fired[i])
      ensures u.fired[i] in u.timers && u.timers[u.fired[i]] ==>
                RemoveTimer(u.fired[i]) in u.pending && TimerOf(u.fired[i]) !in u.phase.active
    {
      if i < |s.fired| {
        assert u.fired[i] == s.fired[i];
      } else {
        assert ch == TimerOf(u.fired[i]);
      }
    }
  }

  lemma {:induction false} FiredStep(s: State, step: Step)
    requires FiredTimers(s) && TimerMap(s) && TimerOrder(s) && Fifo(s) && Live(s) && Channels(s) && Enabled(s, step)
    ensures FiredTimers(Apply(s, step))
  {
    match step
    case Dispatch(event) => FiredDispatch(s, event);
    case RunTask => FiredRun(s);
    case _ =>
  }

  // ---- Every reachable state ----

  ghost predicate Inv(s: State) {
    && Fifo(s) && Woken(s)
    && Channels(s) && Live(s) && Closing(s) && ClosedOnce(s)
    && TimerOrder(s) && TimerMap(s) && FiredTimers(s)
  }

  lemma {:induction false} InitInv()
    ensures Inv(Init())
  {
  }

  lemma {:induction false} StepKeeps(s: State, step: Step)
    requires Inv(s) && Enabled(s, step)
    ensures Inv(Apply(s, step))
  {
    FifoStep(s, step);
    WokenStep(s, step);
    ChannelsStep(s, step);
    LiveStep(s, step);
    ClosingStep(s, step);
    ClosedOnceStep(s, step);
    OrderStep(s, step);
    TimerMapStep(s, step);
    FiredStep(s, step);
  }

  lemma {:induction false} RunKeeps(s: State, steps: seq<Step>, s': State)
    requires Inv(s) && Runs(s, steps, s')
    ensures Inv(s')
    decreases |steps|
  {
    if steps != [] {
      StepKeeps(s, steps[0]);
      RunKeeps(Apply(s, steps[0]), steps[1..], s');
    }
  }

  lemma {:induction false} ReachableInv(s: State)
    requires Reachable(s)
    ensures Inv(s)
  {
    var steps :| Runs(Init(), steps, s);
    InitInv();
    RunKeeps(Init(), steps, s);
  }

  // ---- What every run guarantees ----

  /** Tasks run in the order in which they were queued, each at most once. */
  lemma {:induction false} TasksRunInOrder(s: State)
    requires Reachable(s)
    ensures s.executed + s.batch + s.pending == s.queued && s.executed <= s.queued
  {
    ReachableInv(s);
  }

  /** While a batch runs, whatever is queued meanwhile stays out of it. */
  lemma {:induction false} BatchIsFixed(s: State, step: Step)
    requires Reachable(s) && s.phase.Draining? && Enabled(s, step)
    ensures Apply(s, step).executed + Apply(s, step).batch == s.executed + s.batch
  {
    if step.RunTask? {
      assert s.batch == [s.batch[0]] + s.batch[1..];
    }
  }

  /** The loop never blocks on a task whose producer has finished: the counter is positive, so poll returns at once. */
  lemma {:induction false} NoLostWakeup(s: State)
    requires Reachable(s) && s.phase.Polling?
    ensures s.pending != [] && s.lock.Nobody? ==> s.counter > 0
    ensures |s.pending| > 1 ==> s.counter > 0
  {
    ReachableInv(s);
  }

  /** The counter is read only when it is positive, so the nonblocking read cannot fail. */
  lemma {:induction false} CounterReadSucceeds(s: State)
    requires Reachable(s) && s.phase.Dispatching? && Wakeup in s.phase.active
    ensures s.counter > 0
  {
    ReachableInv(s);
  }

  /** Every channel a poll returned is still registered when its turn comes, and its connection is still open. */
  lemma {:induction false} DispatchedIsRegistered(s: State)
    requires Reachable(s) && s.phase.Dispatching? && s.phase.active != []
    ensures s.phase.active[0] in s.registered
    ensures s.phase.active[0].Conn? ==>
              var c := s.phase.active[0].conn;
              c in s.conns && !s.conns[c].DisConnected? && c !in s.closes
  {
    ReachableInv(s);
  }

  /** A connection is closed at most once in any run, and is destroyed before the next poll. */
  lemma {:induction false} ClosedAtMostOnce(s: State, i: nat, j: nat)
    requires Reachable(s) && i < j < |s.closes|
    ensures s.closes[i] != s.closes[j]
    ensures s.phase.Polling? ==> s.closes[i] !in s.conns && Conn(s.closes[i]) !in s.registered
  {
    ReachableInv(s);
    assert IsLive(s, Conn(s.closes[i])) <==> s.closes[i] in s.conns;
  }

  /** The destroy task finds its connection in the set, disconnected, with its channel registered. */
  lemma {:induction false} DestroyFindsConnection(s: State)
    requires Reachable(s) && Enabled(s, RunTask) && s.batch[0].Destroy?
    ensures var c := s.batch[0].conn;
            c in s.conns && s.conns[c].DisConnected? && Conn(c) in s.registered
  {
    ReachableInv(s);
    var c := s.batch[0].conn;
    assert Destroy(c) in Work(s);
    assert IsLive(s, Conn(c));
  }

  /** A one-shot timer never fires a second time. */
  lemma {:induction false} OneshotFiresOnce(s: State, t: nat)
    requires Reachable(s) && s.phase.Dispatching? && s.phase.active != [] && s.phase.active[0] == TimerOf(t)
    ensures t in s.timers && (s.timers[t] ==> t !in s.fired)
  {
    ReachableInv(s);
    assert IsLive(s, s.phase.active[0]);
  }

  /** Adding finds the number unused; removing finds the timer unless it was removed before. */
  lemma {:induction false} TimerTasksFindTheirTimer(s: State)
    requires Reachable(s) && Enabled(s, RunTask)
    ensures s.batch[0].AddTimer? ==>
              s.batch[0].timer !in s.timers && TimerOf(s.batch[0].timer) !in s.registered
    ensures s.batch[0].RemoveTimer? ==> (s.batch[0].timer in s.timers <==> s.batch[0] !in s.executed)
  {
    ReachableInv(s);
    NextTimerTask(s);
    if s.batch[0].AddTimer? {
      assert !IsLive(s, TimerOf(s.batch[0].timer));
    }
  }

  /** The connection set never exceeds its limit. */
  lemma {:induction false} ConnectionLimit(s: State)
    requires Reachable(s)
    ensures |s.conns| <= 256
  {
    ReachableInv(s);
  }
}
