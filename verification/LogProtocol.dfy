/**
 * The asynchronous log server as a state machine: one step for each critical section or unlocked action of the
 * writers and of the flush thread.
 */
module LogProtocol {
  import opened Common

  type Line = seq<char>

  const LOG_BUFFER_SIZE: nat := 0x4_0000
  const LOG_MAX_FILE_SIZE: nat := 0x1000_0000
  const MAX_PENDING_BUFFERS: nat := 6

  /** A memory buffer: which one it is, and the lines written to it since it was last flushed. */
  datatype Buffer = Buffer(id: nat, lines: seq<Line>)

  function Size(lines: seq<Line>): nat {
    if lines == [] then 0 else Size(lines[..|lines| - 1]) + |lines[|lines| - 1]|
  }

  /** Where the flush thread is. In Woken and Undecided it holds the lock. */
  datatype Phase =
    | LoopTest
    | Waiting
    | Woken(timeout: bool)
    | Undecided(timeout: bool)
    | Flushing(next: nat)
    | LeftByGuard
    | LeftByStop

  datatype State = State(
    current: Buffer,
    pending: seq<Buffer>,
    free: seq<Buffer>,
    flushing: seq<Buffer>,
    files: seq<seq<Line>>,
    written: nat,
    stop: bool,
    flushNow: bool,
    phase: Phase,
    made: nat,
    accepted: seq<Line>)

  /** What can happen next; the flush thread's own steps are taken in the order of its phases. */
  datatype Step =
    | Write(line: Line)
    | ForceFlush
    | ForceDestroy
    | FlushThread

  function Init(): State {
    State(Buffer(0, []), [], [], [], [[]], 0, false, false, LoopTest, 1, [])
  }

  predicate Locked(s: State) {
    s.phase.Woken? || s.phase.Undecided?
  }

  /** A writer waits for the lock, and brings a nonempty line that fits an empty buffer. */
  predicate Enabled(s: State, step: Step) {
    match step
    case Write(line) => !Locked(s) && 0 < |line| <= LOG_BUFFER_SIZE
    case ForceFlush => true
    case ForceDestroy => true
    case FlushThread => !s.phase.LeftByGuard? && !s.phase.LeftByStop?
  }

  /** The empty buffer that becomes current: the last free one, or a new one when none is free. */
  function Replacement(s: State): (r: (Buffer, seq<Buffer>, nat)) {
    if s.free == [] then (Buffer(s.made, []), [], s.made + 1)
    else (s.free[|s.free| - 1], s.free[..|s.free| - 1], s.made)
  }

  /** Retires the current buffer to the pending list. */
  function Retire(s: State): State {
    var (fresh', free', made') := Replacement(s);
    s.(pending := s.pending + [s.current], current := fresh', free := free', made := made')
  }

  function Append(b: Buffer, line: Line): Buffer {
    b.(lines := b.lines + [line])
  }

  function WriteLine(s: State, line: Line): State {
    if LOG_BUFFER_SIZE - Size(s.current.lines) >= |line| then
      s.(current := Append(s.current, line), accepted := s.accepted + [line])
    else if |s.pending| <= MAX_PENDING_BUFFERS then
      var t := Retire(s);
      t.(current := Append(t.current, line), accepted := t.accepted + [line])
    else
      s
  }

  function Lines(bs: seq<Buffer>): seq<Line> {
    if bs == [] then [] else Lines(bs[..|bs| - 1]) + bs[|bs| - 1].lines
  }

  function Filed(files: seq<seq<Line>>): seq<Line> {
    if files == [] then [] else Filed(files[..|files| - 1]) + files[|files| - 1]
  }

  function AddToFile(files: seq<seq<Line>>, lines: seq<Line>): seq<seq<Line>> {
    if files == [] then [lines] else files[|files| - 1 := files[|files| - 1] + lines]
  }

  function Emptied(bs: seq<Buffer>): (r: seq<Buffer>)
    ensures |r| == |bs|
    ensures forall i :: 0 <= i < |bs| ==> r[i] == bs[i].(lines := [])
  {
    seq(|bs|, i requires 0 <= i < |bs| => bs[i].(lines := []))
  }

  /** The stop branch: everything pending and current goes to the file, which is then closed. */
  function FlushAll(s: State): State {
    s.(files := AddToFile(s.files, Lines(s.pending) + s.current.lines),
       pending := Emptied(s.pending),
       current := s.current.(lines := []),
       phase := LeftByStop)
  }

  function Swap(t: State): State {
    t.(flushing := t.pending, pending := t.flushing, phase := Flushing(0))
  }

  /** Hands the flush thread the pending buffers, with the current one if the wait timed out or a flush was forced. */
  function TakePending(s: State, timeout: bool): State {
    Swap(if timeout || s.flushNow then Retire(s).(flushNow := false) else s)
  }

  /** Writes one buffer to the file, after starting a new file if this one would reach its limit. */
  function FlushOne(s: State, next: nat): State
    requires next < |s.flushing|
  {
    var b := s.flushing[next];
    var roll := Size(b.lines) + s.written >= LOG_MAX_FILE_SIZE;
    s.(files := AddToFile(if roll then s.files + [[]] else s.files, b.lines),
       written := (if roll then 0 else s.written) + Size(b.lines),
       flushing := s.flushing[next := b.(lines := [])],
       phase := Flushing(next + 1))
  }

  function FlushThreadStep(s: State): State {
    match s.phase
    case LoopTest => s.(phase := if s.stop then LeftByGuard else Waiting)
    case Waiting => s.(phase := Woken(!(s.stop || s.pending != [] || s.flushNow)))
    case Woken(timeout) => if s.stop then FlushAll(s) else s.(phase := Undecided(timeout))
    case Undecided(timeout) => TakePending(s, timeout)
    case Flushing(next) =>
      if next < |s.flushing| then FlushOne(s, next)
      else s.(free := s.free + s.flushing, flushing := [], phase := LoopTest)
    case LeftByGuard => s
    case LeftByStop => s
  }

  function Apply(s: State, step: Step): State
    requires Enabled(s, step)
  {
    match step
    case Write(line) => WriteLine(s, line)
    case ForceFlush => s.(flushNow := true)
    case ForceDestroy => s.(stop := true)
    case FlushThread => FlushThreadStep(s)
  }

  /** s' is reached from s by the given steps. */
  ghost predicate Runs(s: State, steps: seq<Step>, s': State)
    decreases |steps|
  {
    if steps == [] then s == s'
    else Enabled(s, steps[0]) && Runs(Apply(s, steps[0]), steps[1..], s')
  }

  ghost predicate Reachable(s: State) {
    exists steps :: Runs(Init(), steps, s)
  }

  // ---- Lists of buffers and files ----

  lemma {:induction false} LinesSnoc(bs: seq<Buffer>, b: Buffer)
    ensures Lines(bs + [b]) == Lines(bs) + b.lines
  {
    assert (bs + [b])[..|bs|] == bs;
  }

  lemma {:induction false} LinesAppend(a: seq<Buffer>, b: seq<Buffer>)
    ensures Lines(a + b) == Lines(a) + Lines(b)
  {
    if b == [] {
      assert a + b == a;
    } else {
      var front, last := b[..|b| - 1], b[|b| - 1];
      LinesAppend(a, front);
      assert a + b == (a + front) + [last];
      LinesSnoc(a + front, last);
      Regroup(Lines(a), Lines(front), last.lines);
    }
  }

  lemma {:induction false} LinesOne(b: Buffer)
    ensures Lines([b]) == b.lines
  {
    assert [b][..0] == [];
  }

  lemma {:induction false} LinesOfEmpty(bs: seq<Buffer>)
    requires forall i :: 0 <= i < |bs| ==> bs[i].lines == []
    ensures Lines(bs) == []
  {
    if bs != [] {
      LinesOfEmpty(bs[..|bs| - 1]);
    }
  }

  /** Emptying the first nonempty buffer of a list takes exactly its lines off the front. */
  lemma {:induction false} LinesAfterFlush(bs: seq<Buffer>, next: nat)
    requires next < |bs|
    requires forall i :: 0 <= i < next ==> bs[i].lines == []
    ensures Lines(bs) == bs[next].lines + Lines(bs[next := bs[next].(lines := [])])
  {
    var n := |bs| - 1;
    var after := bs[next := bs[next].(lines := [])];
    if next == n {
      LinesOfEmpty(bs[..n]);
      assert after[..n] == bs[..n];
    } else {
      LinesAfterFlush(bs[..n], next);
      assert after[..n] == bs[..n][next := bs[next].(lines := [])];
      Regroup(bs[next].lines, Lines(after[..n]), bs[n].lines);
    }
  }

  lemma {:induction false} FiledAdd(files: seq<seq<Line>>, lines: seq<Line>)
    ensures Filed(AddToFile(files, lines)) == Filed(files) + lines
  {
    var t := AddToFile(files, lines);
    if files == [] {
      assert t[..0] == [];
    } else {
      assert t[..|t| - 1] == files[..|files| - 1];
    }
  }

  lemma {:induction false} FiledRoll(files: seq<seq<Line>>)
    ensures Filed(files + [[]]) == Filed(files)
  {
    assert (files + [[]])[..|files|] == files;
  }

  lemma {:induction false} SizeAppend(a: seq<Line>, b: seq<Line>)
    ensures Size(a + b) == Size(a) + Size(b)
  {
    if b == [] {
      assert a + b == a;
    } else {
      SizeAppend(a, b[..|b| - 1]);
      assert (a + b)[..|a + b| - 1] == a + b[..|b| - 1];
    }
  }

  /** How many buffers of a list have the given identity. */
  ghost function Count(bs: seq<Buffer>, id: nat): nat {
    if bs == [] then 0 else Count(bs[..|bs| - 1], id) + if bs[|bs| - 1].id == id then 1 else 0
  }

  lemma {:induction false} CountAppend(a: seq<Buffer>, b: seq<Buffer>, id: nat)
    ensures Count(a + b, id) == Count(a, id) + Count(b, id)
  {
    if b == [] {
      assert a + b == a;
    } else {
      CountAppend(a, b[..|b| - 1], id);
      assert (a + b)[..|a + b| - 1] == a + b[..|b| - 1];
    }
  }

  lemma {:induction false} CountOne(a: seq<Buffer>, b: Buffer, id: nat)
    ensures Count(a + [b], id) == Count(a, id) + if b.id == id then 1 else 0
  {
    assert (a + [b])[..|a|] == a;
  }

  lemma {:induction false} CountSame(a: seq<Buffer>, b: seq<Buffer>, id: nat)
    requires |a| == |b| && forall i :: 0 <= i < |a| ==> a[i].id == b[i].id
    ensures Count(a, id) == Count(b, id)
  {
    if a != [] {
      CountSame(a[..|a| - 1], b[..|b| - 1], id);
    }
  }

  // ---- Invariants ----

  /** Every buffer ever made is in exactly one place: the four places together hold each identity once. */
  ghost predicate Placed(s: State) {
    forall id: nat :: Held(s, id) == if id < s.made then 1 else 0
  }

  /** How many of the server's buffers have the given identity. */
  ghost function Held(s: State, id: nat): nat {
    (if s.current.id == id then 1 else 0) + Count(s.pending, id) + Count(s.free, id) + Count(s.flushing, id)
  }

  /** The hard limit on memory, and what each list can hold between steps. */
  ghost predicate Bounded(s: State) {
    && 1 + |s.pending| + |s.free| + |s.flushing| == s.made <= 16
    && |s.pending| <= 7
    && |s.flushing| <= 8
    && (if s.phase.Flushing? then s.phase.next <= |s.flushing| else s.flushing == [])
  }

  /** Free buffers are empty, and so are the buffers the flush thread has already written. */
  ghost predicate EmptyWhereExpected(s: State) {
    && (forall i :: 0 <= i < |s.free| ==> s.free[i].lines == [])
    && (s.phase.Flushing? ==> forall i :: 0 <= i < s.phase.next && i < |s.flushing| ==> s.flushing[i].lines == [])
  }

  /** Nothing accepted is lost, doubled or reordered on its way to the files. */
  ghost predicate Fifo(s: State) {
    Filed(s.files) + Lines(Queue(s)) == s.accepted
  }

  /** The buffers on their way to the files, oldest first. */
  ghost function Queue(s: State): seq<Buffer> {
    s.flushing + s.pending + [s.current]
  }

  ghost predicate AllFit(bs: seq<Buffer>) {
    forall i :: 0 <= i < |bs| ==> Size(bs[i].lines) <= LOG_BUFFER_SIZE
  }

  /** Every file but the last is below the limit. */
  ghost predicate FullBelow(files: seq<seq<Line>>) {
    forall i :: 0 <= i < |files| - 1 ==> Size(files[i]) < LOG_MAX_FILE_SIZE
  }

  /** The last file holds `written` bytes, and it is below the limit too. */
  ghost predicate FilesFit(files: seq<seq<Line>>, written: nat) {
    files != [] && FullBelow(files) && Size(files[|files| - 1]) == written < LOG_MAX_FILE_SIZE
  }

  /** No buffer overflows, and no file reaches its limit before the final flush. */
  ghost predicate Fit(s: State) {
    && Size(s.current.lines) <= LOG_BUFFER_SIZE && (s.current.lines != [] ==> Size(s.current.lines) > 0)
    && AllFit(s.pending) && AllFit(s.flushing)
    && s.files != []
    && (if s.phase.LeftByStop? then FullBelow(s.files) else FilesFit(s.files, s.written))
  }

  ghost predicate Inv(s: State) {
    Placed(s) && Bounded(s) && EmptyWhereExpected(s) && Fifo(s) && Fit(s)
  }

  lemma {:induction false} InitInv()
    ensures Inv(Init())
  {
    var none: seq<seq<Line>> := [[]];
    assert none[..0] == [];
  }

  // ---- Retiring the current buffer ----

  lemma {:induction false} RetireHeld(s: State, id: nat)
    ensures Held(Retire(s), id) == Held(s, id) + if s.free == [] && id == s.made then 1 else 0
  {
    var t := Retire(s);
    CountOne(s.pending, s.current, id);
    if s.free != [] {
      CountOne(t.free, t.current, id);
      assert s.free == t.free + [t.current];
    }
  }

  lemma {:induction false} RetirePlaced(s: State)
    requires Placed(s)
    ensures Placed(Retire(s))
  {
    var t := Retire(s);
    forall id: nat
      ensures Held(t, id) == if id < t.made then 1 else 0
    {
      RetireHeld(s, id);
      assert Held(s, id) == if id < s.made then 1 else 0;
    }
  }

  /** Moving buffers between places, or emptying them, keeps every count. */
  lemma {:induction false} SameHeld(s: State, t: State)
    requires Placed(s) && s.made == t.made
    requires forall id: nat :: Held(s, id) == Held(t, id)
    ensures Placed(t)
  {
    forall id: nat
      ensures Held(t, id) == if id < t.made then 1 else 0
    {
      assert Held(s, id) == if id < s.made then 1 else 0;
    }
  }

  lemma {:induction false} RetireFifo(s: State)
    requires Fifo(s) && EmptyWhereExpected(s)
    ensures Fifo(Retire(s)) && Retire(s).current.lines == []
  {
    var t := Retire(s);
    assert Queue(t) == Queue(s) + [t.current];
    LinesAppend(Queue(s), [t.current]);
    LinesOne(t.current);
  }

  lemma {:induction false} RetireBounded(s: State)
    requires Bounded(s) && EmptyWhereExpected(s) && (s.free == [] ==> s.made < 16)
    ensures var t := Retire(s);
            && 1 + |t.pending| + |t.free| + |t.flushing| == t.made <= 16
            && EmptyWhereExpected(t)
            && (t.made > s.made ==> s.free == [])
  {
  }

  lemma {:induction false} AppendFifo(t: State, line: Line)
    requires Fifo(t)
    ensures Fifo(t.(current := Append(t.current, line), accepted := t.accepted + [line]))
  {
    var u := t.(current := Append(t.current, line), accepted := t.accepted + [line]);
    LinesAppend(t.flushing + t.pending, [t.current]);
    LinesAppend(t.flushing + t.pending, [u.current]);
    LinesOne(t.current);
    LinesOne(u.current);
    Regroup(Lines(t.flushing + t.pending), t.current.lines, [line]);
    Regroup(Filed(t.files), Lines(Queue(t)), [line]);
  }

  lemma {:induction false} AppendSize(b: Buffer, line: Line)
    ensures Size(Append(b, line).lines) == Size(b.lines) + |line|
  {
    SizeAppend(b.lines, [line]);
    assert [line][..0] == [];
  }

  lemma {:induction false} WritePlaced(s: State, line: Line)
    requires Placed(s)
    ensures Placed(WriteLine(s, line))
  {
    RetirePlaced(s);
    SameHeld(s, s.(current := Append(s.current, line), accepted := s.accepted + [line]));
    var t := Retire(s);
    SameHeld(t, t.(current := Append(t.current, line), accepted := t.accepted + [line]));
  }

  lemma {:induction false} WriteFifo(s: State, line: Line)
    requires Fifo(s) && EmptyWhereExpected(s)
    ensures Fifo(WriteLine(s, line))
  {
    RetireFifo(s);
    AppendFifo(s, line);
    AppendFifo(Retire(s), line);
  }

  lemma {:induction false} RetireFit(s: State)
    requires Fit(s) && EmptyWhereExpected(s)
    ensures Fit(Retire(s)) && Size(Retire(s).current.lines) == 0
  {
  }

  lemma {:induction false} AppendFit(t: State, line: Line)
    requires Fit(t) && 0 < |line| <= LOG_BUFFER_SIZE - Size(t.current.lines)
    ensures Fit(t.(current := Append(t.current, line), accepted := t.accepted + [line]))
  {
    AppendSize(t.current, line);
  }

  lemma {:induction false} WriteFit(s: State, line: Line)
    requires Fit(s) && EmptyWhereExpected(s) && 0 < |line| <= LOG_BUFFER_SIZE
    ensures Fit(WriteLine(s, line))
  {
    if LOG_BUFFER_SIZE - Size(s.current.lines) >= |line| {
      AppendFit(s, line);
    } else {
      RetireFit(s);
      AppendFit(Retire(s), line);
    }
  }

  lemma {:induction false} WriteBounded(s: State, line: Line)
    requires Bounded(s) && EmptyWhereExpected(s) && !Locked(s)
    ensures Bounded(WriteLine(s, line)) && EmptyWhereExpected(WriteLine(s, line))
  {
    if |s.pending| <= MAX_PENDING_BUFFERS {
      RetireBounded(s);
    }
  }

  lemma {:induction false} WriteKeeps(s: State, line: Line)
    requires Inv(s) && Enabled(s, Write(line))
    ensures Inv(WriteLine(s, line))
  {
    WritePlaced(s, line);
    WriteFifo(s, line);
    WriteFit(s, line);
    WriteBounded(s, line);
  }

  // ---- The flush thread ----

  lemma {:induction false} FlushAllFifo(s: State)
    requires Fifo(s) && s.flushing == []
    ensures Fifo(FlushAll(s)) && Filed(FlushAll(s).files) == s.accepted
  {
    var t := FlushAll(s);
    FiledAdd(s.files, Lines(s.pending) + s.current.lines);
    assert Queue(s) == s.pending + [s.current];
    LinesAppend(s.pending, [s.current]);
    LinesOne(s.current);
    LinesOfEmpty(Queue(t));
    Regroup(Filed(s.files), Lines(s.pending), s.current.lines);
  }

  lemma {:induction false} FlushAllPlaced(s: State)
    requires Placed(s)
    ensures Placed(FlushAll(s))
  {
    forall id: nat
      ensures Held(s, id) == Held(FlushAll(s), id)
    {
      CountSame(s.pending, Emptied(s.pending), id);
    }
    SameHeld(s, FlushAll(s));
  }

  lemma {:induction false} FlushAllKeeps(s: State)
    requires Inv(s) && s.phase.Woken?
    ensures Inv(FlushAll(s)) && Filed(FlushAll(s).files) == s.accepted
  {
    FlushAllFifo(s);
    FlushAllPlaced(s);
  }

  lemma {:induction false} SwapFifo(t: State)
    requires Fifo(t) && t.flushing == []
    ensures Fifo(Swap(t))
  {
    assert Queue(Swap(t)) == Queue(t);
  }

  lemma {:induction false} SwapPlaced(t: State)
    requires Placed(t)
    ensures Placed(Swap(t))
  {
    forall id: nat
      ensures Held(t, id) == Held(Swap(t), id)
    {
    }
    SameHeld(t, Swap(t));
  }

  lemma {:induction false} TakePlaced(s: State, timeout: bool)
    requires Placed(s)
    ensures Placed(TakePending(s, timeout))
  {
    RetirePlaced(s);
    SameHeld(Retire(s), Retire(s).(flushNow := false));
    SwapPlaced(if timeout || s.flushNow then Retire(s).(flushNow := false) else s);
  }

  lemma {:induction false} TakeFifo(s: State, timeout: bool)
    requires Fifo(s) && EmptyWhereExpected(s) && s.flushing == []
    ensures Fifo(TakePending(s, timeout))
  {
    RetireFifo(s);
    SwapFifo(if timeout || s.flushNow then Retire(s).(flushNow := false) else s);
  }

  lemma {:induction false} TakeBounded(s: State, timeout: bool)
    requires Bounded(s) && EmptyWhereExpected(s) && s.flushing == []
    ensures Bounded(TakePending(s, timeout)) && EmptyWhereExpected(TakePending(s, timeout))
  {
    RetireBounded(s);
  }

  lemma {:induction false} TakePendingKeeps(s: State, timeout: bool)
    requires Inv(s) && s.phase == Undecided(timeout)
    ensures Inv(TakePending(s, timeout))
  {
    TakePlaced(s, timeout);
    TakeFifo(s, timeout);
    TakeBounded(s, timeout);
  }

  lemma {:induction false} FlushOneFifo(s: State, next: nat)
    requires Fifo(s) && EmptyWhereExpected(s) && s.phase == Flushing(next) && next < |s.flushing|
    ensures Fifo(FlushOne(s, next))
  {
    var b := s.flushing[next];
    var t := FlushOne(s, next);
    LinesAfterFlush(Queue(s), next);
    assert Queue(t) == Queue(s)[next := b.(lines := [])];
    FiledRoll(s.files);
    FiledAdd(s.files, b.lines);
    FiledAdd(s.files + [[]], b.lines);
    Regroup(Filed(s.files), b.lines, Lines(Queue(t)));
  }

  lemma {:induction false} AddFits(files: seq<seq<Line>>, written: nat, lines: seq<Line>)
    requires FilesFit(files, written) && written + Size(lines) < LOG_MAX_FILE_SIZE
    ensures FilesFit(AddToFile(files, lines), written + Size(lines))
  {
    SizeAppend(files[|files| - 1], lines);
  }

  lemma {:induction false} RollFits(files: seq<seq<Line>>, written: nat)
    requires FilesFit(files, written)
    ensures FilesFit(files + [[]], 0)
  {
  }

  lemma {:induction false} FlushOneFit(s: State, next: nat)
    requires Fit(s) && s.phase == Flushing(next) && next < |s.flushing|
    ensures Fit(FlushOne(s, next))
  {
    var lines := s.flushing[next].lines;
    if Size(lines) + s.written >= LOG_MAX_FILE_SIZE {
      RollFits(s.files, s.written);
      AddFits(s.files + [[]], 0, lines);
    } else {
      AddFits(s.files, s.written, lines);
    }
  }

  lemma {:induction false} FlushOnePlaced(s: State, next: nat)
    requires Placed(s) && next < |s.flushing|
    ensures Placed(FlushOne(s, next))
  {
    var t := FlushOne(s, next);
    forall id: nat
      ensures Held(s, id) == Held(t, id)
    {
      CountSame(s.flushing, t.flushing, id);
    }
    SameHeld(s, t);
  }

  lemma {:induction false} FlushOneKeeps(s: State, next: nat)
    requires Inv(s) && s.phase == Flushing(next) && next < |s.flushing|
    ensures Inv(FlushOne(s, next))
  {
    FlushOneFifo(s, next);
    FlushOneFit(s, next);
    FlushOnePlaced(s, next);
  }

  lemma {:induction false} ReturnFifo(s: State)
    requires Fifo(s) && EmptyWhereExpected(s) && s.phase == Flushing(|s.flushing|)
    ensures Fifo(FlushThreadStep(s))
  {
    var t := FlushThreadStep(s);
    assert Queue(s) == s.flushing + Queue(t);
    assert Lines(Queue(s)) == Lines(Queue(t)) by {
      LinesAppend(s.flushing, Queue(t));
      LinesOfEmpty(s.flushing);
    }
  }

  lemma {:induction false} ReturnPlaced(s: State)
    requires Placed(s) && s.phase == Flushing(|s.flushing|)
    ensures Placed(FlushThreadStep(s))
  {
    var t := FlushThreadStep(s);
    forall id: nat
      ensures Held(s, id) == Held(t, id)
    {
      CountAppend(s.free, s.flushing, id);
    }
    SameHeld(s, t);
  }

  lemma {:induction false} ReturnKeeps(s: State)
    requires Inv(s) && s.phase == Flushing(|s.flushing|)
    ensures Inv(FlushThreadStep(s))
  {
    ReturnFifo(s);
    ReturnPlaced(s);
  }

  /** Setting flags, or moving on without touching buffers, keeps the invariant. */
  lemma {:induction false} FlagsKeep(s: State, stop: bool, flushNow: bool, phase: Phase)
    requires Inv(s) && !s.phase.Flushing? && !s.phase.LeftByStop? && !phase.Flushing?
    ensures Inv(s.(stop := stop, flushNow := flushNow, phase := phase))
  {
    var t := s.(stop := stop, flushNow := flushNow, phase := phase);
    assert forall id: nat :: Held(s, id) == Held(t, id);
    SameHeld(s, t);
    assert Queue(s) == Queue(t);
  }

  lemma {:induction false} FlagKeeps(s: State, stop: bool, flushNow: bool)
    requires Inv(s)
    ensures Inv(s.(stop := stop, flushNow := flushNow))
  {
    var t := s.(stop := stop, flushNow := flushNow);
    assert forall id: nat :: Held(s, id) == Held(t, id);
    SameHeld(s, t);
    assert Queue(s) == Queue(t);
  }

  lemma {:induction false} QuietStepKeeps(s: State)
    requires Inv(s) && (s.phase.LoopTest? || s.phase.Waiting? || (s.phase.Woken? && !s.stop))
    ensures Inv(FlushThreadStep(s))
  {
    FlagsKeep(s, s.stop, s.flushNow, FlushThreadStep(s).phase);
  }

  lemma {:induction false} FlushStepKeeps(s: State)
    requires Inv(s) && s.phase.Flushing?
    ensures Inv(FlushThreadStep(s))
  {
    if s.phase.next < |s.flushing| {
      FlushOneKeeps(s, s.phase.next);
    } else {
      ReturnKeeps(s);
    }
  }

  lemma {:induction false} FlushThreadKeeps(s: State)
    requires Inv(s) && Enabled(s, FlushThread)
    ensures Inv(FlushThreadStep(s))
  {
    if s.phase.Flushing? {
      FlushStepKeeps(s);
    } else if s.phase.Undecided? {
      TakePendingKeeps(s, s.phase.timeout);
    } else if s.phase.Woken? && s.stop {
      FlushAllKeeps(s);
    } else {
      QuietStepKeeps(s);
    }
  }

  /** Every step of every thread keeps the invariant. */
  lemma {:induction false} StepKeeps(s: State, step: Step)
    requires Inv(s) && Enabled(s, step)
    ensures Inv(Apply(s, step))
  {
    match step
    case Write(line) => WriteKeeps(s, line);
    case ForceFlush => FlagKeeps(s, s.stop, true);
    case ForceDestroy => FlagKeeps(s, true, s.flushNow);
    case FlushThread => FlushThreadKeeps(s);
  }

  lemma {:induction false} RunKeeps(s: State, steps: seq<Step>, s': State)
    requires Inv(s) && Runs(s, steps, s')
    ensures Inv(s')
    decreases |steps|
  {
    if steps != [] {
      StepKeeps(s, steps[0]);
      RunKeeps(Apply(s, steps[0]), steps[1..], s');
    }
  }

  lemma {:induction false} ReachableInv(s: State)
    requires Reachable(s)
    ensures Inv(s)
  {
    var steps :| Runs(Init(), steps, s);
    InitInv();
    RunKeeps(Init(), steps, s);
  }

  // ---- What every run guarantees ----

  /** At every moment the files hold a prefix of the accepted lines, and the rest waits in order in the buffers. */
  lemma {:induction false} FilesHoldPrefix(s: State)
    requires Reachable(s)
    ensures Filed(s.files) <= s.accepted
    ensures Lines(Queue(s)) == s.accepted[|Filed(s.files)|..]
  {
    ReachableInv(s);
  }

  /** Never more than sixteen buffers, each in exactly one place. */
  lemma {:induction false} MemoryBound(s: State, id: nat)
    requires Reachable(s)
    ensures 1 + |s.pending| + |s.free| + |s.flushing| == s.made <= 16
    ensures |s.pending| <= 7 && |s.flushing| <= 8
    ensures Held(s, id) == if id < s.made then 1 else 0
  {
    ReachableInv(s);
  }

  /** A buffer is made only when none is free, and then it is empty. */
  lemma {:induction false} AllocatesWhenNoneFree(s: State, step: Step)
    requires Reachable(s) && Enabled(s, step)
    ensures var t := Apply(s, step);
            s.made <= t.made <= s.made + 1 && (t.made > s.made ==> s.free == [] && t.current.id == s.made)
  {
    ReachableInv(s);
  }

  lemma {:induction false} FlushOneGrows(s: State, next: nat)
    requires next < |s.flushing|
    ensures Filed(FlushOne(s, next).files) == Filed(s.files) + s.flushing[next].lines
  {
    FiledRoll(s.files);
    FiledAdd(s.files, s.flushing[next].lines);
    FiledAdd(s.files + [[]], s.flushing[next].lines);
  }

  /** What is in the files stays there: no step rewrites or removes a filed line. */
  lemma {:induction false} FilesOnlyGrow(s: State, step: Step)
    requires Reachable(s) && Enabled(s, step)
    ensures Filed(s.files) <= Filed(Apply(s, step).files)
  {
    if step.FlushThread? && s.phase.Woken? && s.stop {
      FiledAdd(s.files, Lines(s.pending) + s.current.lines);
    } else if step.FlushThread? && s.phase.Flushing? && s.phase.next < |s.flushing| {
      FlushOneGrows(s, s.phase.next);
    } else {
      assert Apply(s, step).files == s.files;
    }
  }

  /** Leaving through the stop branch puts every accepted line in the files. */
  lemma {:induction false} StopBranchFilesAll(s: State)
    requires Reachable(s) && s.phase.Woken? && s.stop
    ensures Apply(s, FlushThread).phase == LeftByStop
    ensures Filed(Apply(s, FlushThread).files) == s.accepted == Apply(s, FlushThread).accepted
  {
    ReachableInv(s);
    FlushAllKeeps(s);
  }

  /** A run that loses a line: written, and the server destroyed, before the flush thread first tests its guard. */
  lemma {:induction false} GuardCanLoseLines(line: Line)
    requires 0 < |line| <= LOG_BUFFER_SIZE
    ensures var s := Apply(Apply(Apply(Init(), Write(line)), ForceDestroy), FlushThread);
            Reachable(s) && s.phase == LeftByGuard && s.accepted == [line] && Filed(s.files) == []
  {
    var s1 := Apply(Init(), Write(line));
    var s2 := Apply(s1, ForceDestroy);
    var s3 := Apply(s2, FlushThread);
    assert Runs(s3, [], s3);
    assert Runs(s2, [FlushThread], s3);
    var two := [ForceDestroy, FlushThread];
    assert two[1..] == [FlushThread];
    assert Runs(s1, two, s3);
    var three := [Write(line), ForceDestroy, FlushThread];
    assert three[1..] == two;
    assert Runs(Init(), three, s3);
    var none: seq<seq<Line>> := [[]];
    assert none[..0] == [];
  }

  /** A line is refused exactly when it does not fit the current buffer and seven buffers are already pending. */
  lemma {:induction false} RefusedIff(s: State, line: Line)
    requires Reachable(s) && Enabled(s, Write(line))
    ensures Apply(s, Write(line)).accepted == s.accepted <==>
            Size(s.current.lines) + |line| > LOG_BUFFER_SIZE && |s.pending| == 7
    ensures Apply(s, Write(line)).accepted == s.accepted ==> Apply(s, Write(line)) == s
  {
    ReachableInv(s);
  }

  /** Where a line goes: a line that fits joins the current buffer alone; else the full buffer waits for the flush. */
  lemma {:induction false} LinePlaced(s: State, line: Line)
    requires Reachable(s) && Enabled(s, Write(line))
    ensures var t := Apply(s, Write(line));
            && t.phase == s.phase && t.files == s.files && t.flushing == s.flushing
            && t.stop == s.stop && t.flushNow == s.flushNow
            && (Size(s.current.lines) + |line| <= LOG_BUFFER_SIZE ==>
                  && t.pending == s.pending && t.free == s.free && t.made == s.made
                  && t.current.id == s.current.id && t.current.lines == s.current.lines + [line])
            && (Size(s.current.lines) + |line| > LOG_BUFFER_SIZE && |s.pending| < 7 ==>
                  && t.pending == s.pending + [s.current] && t.current.lines == [line]
                  && |t.free| + t.made == |s.free| + s.made + if s.free == [] then 1 else -1)
  {
    ReachableInv(s);
    assert [] + [line] == [line];
  }

  /** The flush thread begins a new file exactly when its next buffer would bring the last one to the limit. */
  lemma {:induction false} NewFileIff(s: State, next: nat)
    requires Reachable(s) && s.phase == Flushing(next) && next < |s.flushing|
    ensures s.files != []
    ensures var t := Apply(s, FlushThread);
            var last, lines := s.files[|s.files| - 1], s.flushing[next].lines;
            t.files == if Size(last) + Size(lines) >= LOG_MAX_FILE_SIZE then s.files + [lines]
                       else s.files[|s.files| - 1 := last + lines]
  {
    ReachableInv(s);
    FreshFile(s.files, s.flushing[next].lines);
  }

  lemma {:induction false} FreshFile(files: seq<seq<Line>>, lines: seq<Line>)
    ensures AddToFile(files + [[]], lines) == files + [lines]
  {
    assert [] + lines == lines;
  }

  /** Before the final flush every file stays below the limit, and no buffer ever overflows. */
  lemma {:induction false} FilesStayBelowLimit(s: State, i: nat)
    requires Reachable(s) && i < |s.files| && (i < |s.files| - 1 || !s.phase.LeftByStop?)
    ensures Size(s.files[i]) < LOG_MAX_FILE_SIZE && Size(s.current.lines) <= LOG_BUFFER_SIZE
  {
    ReachableInv(s);
  }
}
