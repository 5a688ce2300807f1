/** The log server's own objects: buffers over arrays, lists of them, and the file stream. */
module LogServers {
  import opened Common
  import opened LogFlush
  import opened LogProtocol

  /** The bytes of a sequence of lines. */
  ghost function Bytes(lines: seq<Line>): (b: seq<char>)
  {
    if lines == [] then [] else Bytes(lines[..|lines| - 1]) + lines[|lines| - 1]
  }

  lemma {:induction false} BytesAppend(a: seq<Line>, b: seq<Line>)
    ensures Bytes(a + b) == Bytes(a) + Bytes(b)
  {
    if b == [] {
      assert a + b == a;
    } else {
      BytesAppend(a, b[..|b| - 1]);
      assert (a + b)[..|a + b| - 1] == a + b[..|b| - 1];
      Regroup(Bytes(a), Bytes(b[..|b| - 1]), b[|b| - 1]);
    }
  }

  lemma {:induction false} BytesOne(lines: seq<Line>, line: Line)
    ensures Bytes(lines + [line]) == Bytes(lines) + line
  {
    assert (lines + [line])[..|lines|] == lines;
  }

  /** An open log file; `lines` says which lines its bytes are. */
  class LogFile {
    var bytes: seq<char>
    ghost var lines: seq<Line>

    ghost predicate Valid()
      reads this
    {
      bytes == Bytes(lines)
    }

    constructor ()
      ensures Valid() && lines == []
    {
      bytes, lines := [], [];
    }
  }

  /** Copies src to dst[at..], as memcpy does between different blocks. */
  method Memcpy(dst: array<char>, at: nat, src: seq<char>)
    requires at + |src| <= dst.Length
    modifies dst
    ensures dst[..at + |src|] == old(dst[..at]) + src
  {
    forall i | 0 <= i < |src| {
      dst[at + i] := src[i];
    }
    assert forall i :: 0 <= i < |src| ==> src[i] == dst[at + i];
  }

  class LogBuffer {
    ghost const id: nat
    const raw: array<char>
    var usedSize: nat
    ghost var lines: seq<Line>

    ghost predicate Valid()
      reads this, raw
    {
      && raw.Length == LOG_BUFFER_SIZE
      && usedSize == Size(lines) <= raw.Length
      && raw[..usedSize] == Bytes(lines)
    }

    ghost function Abs(): Buffer
      reads this
    {
      Buffer(id, lines)
    }

    constructor (ghost id: nat)
      ensures Valid() && this.id == id && lines == [] && fresh(raw)
    {
      this.id := id;
      raw := new char[LOG_BUFFER_SIZE];
      usedSize := 0;
      lines := [];
    }

    predicate Writable(size: nat)
      requires Valid()
      reads this, raw
      ensures Writable(size) <==> Size(lines) + size <= LOG_BUFFER_SIZE
    {
      raw.Length - usedSize >= size
    }

    predicate FlushEnable()
      requires Valid()
      reads this, raw
      ensures FlushEnable() <==> Size(lines) > 0
    {
      usedSize > 0
    }

    /** Copies the line behind what is already there. */
    method Write(line: Line)
      requires Valid() && Size(lines) + |line| <= LOG_BUFFER_SIZE
      modifies this, raw
      ensures Valid() && lines == old(lines) + [line]
    {
      Memcpy(raw, usedSize, line);
      AppendSize(Buffer(id, lines), line);
      BytesOne(lines, line);
      usedSize := usedSize + |line|;
      lines := lines + [line];
    }

    /** Writes everything held to the file and starts over. */
    method Flush(file: LogFile)
      requires Valid() && file.Valid()
      modifies this, file
      ensures Valid() && lines == []
      ensures file.Valid() && file.lines == old(file.lines) + old(lines)
      ensures file.bytes == old(file.bytes) + old(raw[..usedSize])
    {
      BytesAppend(file.lines, lines);
      file.bytes := file.bytes + raw[..usedSize];
      file.lines := file.lines + lines;
      usedSize := 0;
      lines := [];
    }
  }

  // ---- Which buffers can be the same ----

  lemma {:induction false} CountAt(bs: seq<Buffer>, i: nat)
    requires i < |bs|
    ensures Count(bs, bs[i].id) >= 1
  {
    if i < |bs| - 1 {
      CountAt(bs[..|bs| - 1], i);
    }
  }

  lemma {:induction false} CountTwo(bs: seq<Buffer>, i: nat, j: nat)
    requires i < j < |bs| && bs[i].id == bs[j].id
    ensures Count(bs, bs[i].id) >= 2
  {
    if j < |bs| - 1 {
      CountTwo(bs[..|bs| - 1], i, j);
    } else {
      CountAt(bs[..|bs| - 1], i);
    }
  }

  /** The buffers of a list all differ from the one with the given identity. */
  ghost predicate Without(bs: seq<Buffer>, id: nat) {
    forall i :: 0 <= i < |bs| ==> bs[i].id != id
  }

  lemma {:induction false} NotCounted(bs: seq<Buffer>, id: nat)
    requires Count(bs, id) == 0
    ensures Without(bs, id)
  {
    forall i | 0 <= i < |bs|
      ensures bs[i].id != id
    {
      CountAt(bs, i);
    }
  }

  lemma {:induction false} CurrentApart(s: State)
    requires Placed(s)
    ensures Without(s.pending, s.current.id) && Without(s.free, s.current.id) && Without(s.flushing, s.current.id)
  {
    assert Held(s, s.current.id) <= 1;
    NotCounted(s.pending, s.current.id);
    NotCounted(s.free, s.current.id);
    NotCounted(s.flushing, s.current.id);
  }

  lemma {:induction false} FlushingApart(s: State, next: nat)
    requires Placed(s) && next < |s.flushing|
    ensures var id := s.flushing[next].id;
            && s.current.id != id && Without(s.pending, id) && Without(s.free, id)
            && (forall j :: 0 <= j < |s.flushing| && j != next ==> s.flushing[j].id != id)
  {
    var id := s.flushing[next].id;
    assert Held(s, id) <= 1;
    CountAt(s.flushing, next);
    NotCounted(s.pending, id);
    NotCounted(s.free, id);
    forall j | 0 <= j < |s.flushing| && j != next
      ensures s.flushing[j].id != id
    {
      if s.flushing[j].id == id {
        CountTwo(s.flushing, if j < next then j else next, if j < next then next else j);
      }
    }
  }

  lemma {:induction false} PendingApart(s: State, next: nat)
    requires Placed(s) && next < |s.pending|
    ensures var id := s.pending[next].id;
            && s.current.id != id && Without(s.flushing, id) && Without(s.free, id)
            && (forall j :: 0 <= j < |s.pending| && j != next ==> s.pending[j].id != id)
  {
    var id := s.pending[next].id;
    assert Held(s, id) <= 1;
    CountAt(s.pending, next);
    NotCounted(s.flushing, id);
    NotCounted(s.free, id);
    forall j | 0 <= j < |s.pending| && j != next
      ensures s.pending[j].id != id
    {
      if s.pending[j].id == id {
        CountTwo(s.pending, if j < next then j else next, if j < next then next else j);
      }
    }
  }

  // ---- What the buffers hold, by number, and where they are ----

  /** Each buffer of the list holds the lines recorded under its number. */
  ghost predicate Recorded(bs: seq<Buffer>, contents: seq<seq<Line>>) {
    forall i :: 0 <= i < |bs| ==> bs[i].id < |contents| && bs[i].lines == contents[bs[i].id]
  }

  ghost predicate AllRecorded(s: State, contents: seq<seq<Line>>) {
    && s.made == |contents|
    && s.current.id < |contents| && s.current.lines == contents[s.current.id]
    && Recorded(s.pending, contents) && Recorded(s.free, contents) && Recorded(s.flushing, contents)
  }

  /** The list refers to the buffers of the model, in order. */
  ghost predicate Refers(bs: seq<LogBuffer>, model: seq<Buffer>, buffers: seq<LogBuffer>) {
    |bs| == |model| && forall i :: 0 <= i < |bs| ==> model[i].id < |buffers| && bs[i] == buffers[model[i].id]
  }

  datatype Places = Places(current: LogBuffer, pending: seq<LogBuffer>, free: seq<LogBuffer>, flushing: seq<LogBuffer>)

  ghost predicate Points(p: Places, s: State, buffers: seq<LogBuffer>) {
    && s.current.id < |buffers| && p.current == buffers[s.current.id]
    && Refers(p.pending, s.pending, buffers) && Refers(p.free, s.free, buffers)
    && Refers(p.flushing, s.flushing, buffers)
  }

  /** The places hold the buffers of s, and these hold the lines of s. */
  ghost predicate InPlace(p: Places, s: State, buffers: seq<LogBuffer>, contents: seq<seq<Line>>) {
    var recorded, points := AllRecorded(s, contents), Points(p, s, buffers);
    |buffers| == s.made && recorded && points
  }

  /** Only the buffers of the state matter. */
  lemma {:induction false} SamePlaces(p: Places, s: State, t: State, buffers: seq<LogBuffer>, contents: seq<seq<Line>>)
    requires InPlace(p, s, buffers, contents)
    requires t.current == s.current && t.pending == s.pending && t.free == s.free && t.flushing == s.flushing
    requires t.made == s.made
    ensures InPlace(p, t, buffers, contents)
  {
  }

  lemma {:induction false} RecordedElsewhere(bs: seq<Buffer>, contents: seq<seq<Line>>, id: nat, lines: seq<Line>)
    requires Recorded(bs, contents) && id < |contents| && Without(bs, id)
    ensures Recorded(bs, contents[id := lines])
  {
  }

  /** A line more in the current buffer. */
  lemma {:induction false} AppendPlaces(p: Places, s: State, buffers: seq<LogBuffer>, contents: seq<seq<Line>>,
                                        line: Line)
    requires InPlace(p, s, buffers, contents) && Placed(s)
    ensures InPlace(p, s.(current := Append(s.current, line), accepted := s.accepted + [line]), buffers,
                    contents[s.current.id := contents[s.current.id] + [line]])
  {
    var id := s.current.id;
    CurrentApart(s);
    RecordedElsewhere(s.pending, contents, id, contents[id] + [line]);
    RecordedElsewhere(s.free, contents, id, contents[id] + [line]);
    RecordedElsewhere(s.flushing, contents, id, contents[id] + [line]);
  }

  lemma {:induction false} RecordedSnoc(bs: seq<Buffer>, b: Buffer, contents: seq<seq<Line>>)
    requires Recorded(bs, contents) && b.id < |contents| && b.lines == contents[b.id]
    ensures Recorded(bs + [b], contents)
  {
  }

  lemma {:induction false} RefersSnoc(bs: seq<LogBuffer>, model: seq<Buffer>, buffers: seq<LogBuffer>, c: LogBuffer,
                                      b: Buffer)
    requires Refers(bs, model, buffers) && b.id < |buffers| && c == buffers[b.id]
    ensures Refers(bs + [c], model + [b], buffers)
  {
  }

  lemma {:induction false} OneBufferMore(bs: seq<LogBuffer>, model: seq<Buffer>, buffers: seq<LogBuffer>, c: LogBuffer,
                                         contents: seq<seq<Line>>)
    requires Refers(bs, model, buffers) && Recorded(model, contents)
    ensures Refers(bs, model, buffers + [c]) && Recorded(model, contents + [[]])
  {
  }

  /** A new buffer becomes current. */
  lemma {:induction false} RetireToNew(p: Places, s: State, buffers: seq<LogBuffer>, contents: seq<seq<Line>>,
                                       b: LogBuffer)
    requires InPlace(p, s, buffers, contents) && s.free == []
    ensures InPlace(Places(b, p.pending + [p.current], p.free, p.flushing), Retire(s), buffers + [b], contents + [[]])
  {
    RecordedSnoc(s.pending, s.current, contents);
    RefersSnoc(p.pending, s.pending, buffers, p.current, s.current);
    OneBufferMore(p.pending + [p.current], s.pending + [s.current], buffers, b, contents);
    OneBufferMore(p.flushing, s.flushing, buffers, b, contents);
    OneBufferMore(p.free, s.free, buffers, b, contents);
  }

  /** The last free buffer becomes current. */
  lemma {:induction false} RetireToFree(p: Places, s: State, buffers: seq<LogBuffer>, contents: seq<seq<Line>>)
    requires InPlace(p, s, buffers, contents) && s.free != []
    ensures |p.free| > 0 && p.free[|p.free| - 1] in buffers
    ensures InPlace(Places(p.free[|p.free| - 1], p.pending + [p.current], p.free[..|p.free| - 1], p.flushing),
                    Retire(s), buffers, contents)
  {
    RecordedSnoc(s.pending, s.current, contents);
    RefersSnoc(p.pending, s.pending, buffers, p.current, s.current);
  }

  lemma {:induction false} Recount(bs: seq<Buffer>, contents: seq<seq<Line>>, i: nat)
    requires Recorded(bs, contents) && i < |bs|
    requires forall j :: 0 <= j < |bs| && j != i ==> bs[j].id != bs[i].id
    ensures Recorded(bs[i := bs[i].(lines := [])], contents[bs[i].id := []])
  {
  }

  /** A buffer of the flush list goes to the file and is emptied. */
  function WrittenOut(s: State, next: nat): State
    requires next < |s.flushing|
  {
    var b := s.flushing[next];
    s.(files := AddToFile(s.files, b.lines), written := s.written + Size(b.lines),
       flushing := s.flushing[next := b.(lines := [])], phase := Flushing(next + 1))
  }

  function NextFile(s: State): State {
    s.(files := s.files + [[]], written := 0)
  }

  /** The protocol's flush step is these two, and what they need. */
  lemma {:induction false} FlushStep(s: State, next: nat)
    requires Reachable(s) && s.phase == Flushing(next) && next < |s.flushing|
    ensures Placed(s) && Reachable(Apply(s, FlushThread))
    ensures Apply(s, FlushThread) ==
              if Size(s.flushing[next].lines) + s.written >= LOG_MAX_FILE_SIZE then WrittenOut(NextFile(s), next)
              else WrittenOut(s, next)
  {
    ReachableInv(s);
    ReachableStep(s, FlushThread);
  }

  /** So is the stop step, and everything is in the files afterwards. */
  lemma {:induction false} StopStep(s: State)
    requires Reachable(s) && s.phase.Woken? && s.stop
    ensures Placed(s) && s.files != [] && (Size(s.current.lines) == 0 ==> s.current.lines == [])
    ensures Apply(s, FlushThread) == FlushAll(s) && Reachable(FlushAll(s))
    ensures Filed(FlushAll(s).files) == s.accepted
  {
    ReachableInv(s);
    ReachableStep(s, FlushThread);
    StopBranchFilesAll(s);
  }

  function CurrentFlushed(s: State): State {
    s.(current := s.current.(lines := []), files := AddToFile(s.files, s.current.lines))
  }

  function PendingFlushed(s: State): State {
    s.(pending := Emptied(s.pending), files := AddToFile(s.files, Lines(s.pending)))
  }

  lemma {:induction false} FlushedInTwo(s: State)
    requires s.files != []
    ensures FlushAll(s) == CurrentFlushed(PendingFlushed(s)).(phase := LeftByStop)
    ensures s.current.lines == [] ==> FlushAll(s) == PendingFlushed(s).(phase := LeftByStop)
  {
    AddTwice(s.files, Lines(s.pending), s.current.lines);
    assert Lines(s.pending) + [] == Lines(s.pending);
  }

  lemma {:induction false} FlushPlaces(p: Places, s: State, buffers: seq<LogBuffer>, contents: seq<seq<Line>>,
                                       next: nat)
    requires InPlace(p, s, buffers, contents) && Placed(s) && next < |s.flushing|
    ensures InPlace(p, WrittenOut(s, next), buffers, contents[s.flushing[next].id := []])
  {
    var id := s.flushing[next].id;
    FlushingApart(s, next);
    RecordedElsewhere(s.pending, contents, id, []);
    RecordedElsewhere(s.free, contents, id, []);
    Recount(s.flushing, contents, next);
  }

  function EmptyOne(s: State, i: nat): State
    requires i < |s.pending|
  {
    s.(pending := s.pending[i := s.pending[i].(lines := [])], files := AddToFile(s.files, s.pending[i].lines))
  }

  /** A pending buffer is emptied. */
  lemma {:induction false} EmptyPlaces(p: Places, s: State, buffers: seq<LogBuffer>, contents: seq<seq<Line>>, i: nat)
    requires InPlace(p, s, buffers, contents) && Placed(s) && i < |s.pending|
    ensures InPlace(p, EmptyOne(s, i), buffers, contents[s.pending[i].id := []])
    ensures Placed(EmptyOne(s, i))
  {
    var id := s.pending[i].id;
    PendingApart(s, i);
    RecordedElsewhere(s.flushing, contents, id, []);
    RecordedElsewhere(s.free, contents, id, []);
    Recount(s.pending, contents, i);
    forall n: nat
      ensures Held(s, n) == Held(EmptyOne(s, i), n)
    {
      CountSame(s.pending, EmptyOne(s, i).pending, n);
    }
    SameHeld(s, EmptyOne(s, i));
  }

  /** The current buffer is emptied. */
  lemma {:induction false} EmptyCurrent(p: Places, s: State, buffers: seq<LogBuffer>, contents: seq<seq<Line>>)
    requires InPlace(p, s, buffers, contents) && Placed(s)
    ensures InPlace(p, CurrentFlushed(s), buffers, contents[s.current.id := []])
  {
    var id := s.current.id;
    CurrentApart(s);
    RecordedElsewhere(s.pending, contents, id, []);
    RecordedElsewhere(s.free, contents, id, []);
    RecordedElsewhere(s.flushing, contents, id, []);
  }

  /** The flush thread swaps its empty list with the pending one. */
  lemma {:induction false} SwapPlaces(p: Places, s: State, buffers: seq<LogBuffer>, contents: seq<seq<Line>>)
    requires InPlace(p, s, buffers, contents)
    ensures InPlace(Places(p.current, p.flushing, p.free, p.pending), Swap(s), buffers, contents)
  {
  }

  /** It hands its list back. */
  lemma {:induction false} ReturnPlaces(p: Places, s: State, buffers: seq<LogBuffer>, contents: seq<seq<Line>>)
    requires InPlace(p, s, buffers, contents) && s.phase == Flushing(|s.flushing|)
    ensures InPlace(Places(p.current, p.pending, p.free + p.flushing, []), FlushThreadStep(s), buffers, contents)
  {
  }

  /** The files and flags of the state. */
  ghost predicate Matches(s: State, files: seq<seq<Line>>, written: nat, stop: bool, flushNow: bool, phase: Phase) {
    s.files == files && s.written == written && s.stop == stop && s.flushNow == flushNow && s.phase == phase
  }

  lemma {:induction false} MatchesWritten(s: State, closed: seq<seq<Line>>, last: seq<Line>, next: nat)
    requires next < |s.flushing| && s.files == closed + [last]
    ensures Matches(WrittenOut(s, next), closed + [last + s.flushing[next].lines],
                    s.written + Size(s.flushing[next].lines), s.stop, s.flushNow, Flushing(next + 1))
  {
    AddToLast(closed, last, s.flushing[next].lines);
  }

  lemma {:induction false} MatchesRetired(s: State)
    ensures Matches(Retire(s), s.files, s.written, s.stop, s.flushNow, s.phase)
  {
  }

  lemma {:induction false} AddToLast(closed: seq<seq<Line>>, last: seq<Line>, lines: seq<Line>)
    ensures AddToFile(closed + [last], lines) == closed + [last + lines]
  {
  }

  /**
   * The server, which holds its buffers by reference. `abs` is the state of the protocol that the objects stand for;
   * it is always a reachable one, so the theorems about runs hold for the objects, and they tell the buffers apart.
   */
  class LogServer {
    var current: LogBuffer
    var pending: seq<LogBuffer>
    var free: seq<LogBuffer>
    var flushing: seq<LogBuffer>
    var stream: LogFile
    var written: nat
    var stop: bool
    var flushNow: bool
    // Where the flush thread is.
    var phase: Phase
    ghost var closed: seq<seq<Line>>
    // Every buffer made so far by number, and the lines it holds.
    ghost var buffers: seq<LogBuffer>
    ghost var contents: seq<seq<Line>>
    ghost var abs: State

    /** Every buffer is sound and holds what is recorded, and no two share their bytes. */
    ghost predicate Heap()
      reads `buffers, `contents, buffers, set b | b in buffers :: b.raw
    {
      && |contents| == |buffers|
      && (forall k :: 0 <= k < |buffers| ==>
            buffers[k].id == k && buffers[k].Valid() && buffers[k].lines == contents[k])
      && (forall j, k :: 0 <= j < k < |buffers| ==> buffers[j].raw != buffers[k].raw)
    }

    ghost function Lists(): Places
      reads `current, `pending, `free, `flushing
    {
      Places(current, pending, free, flushing)
    }

    ghost predicate FileLinked()
      reads `stream, `closed, `written, `stop, `flushNow, `phase, `abs, stream
    {
      var matches := Matches(abs, closed + [stream.lines], written, stop, flushNow, phase);
      stream.Valid() && matches
    }

    /** The objects stand for `abs`. */
    ghost predicate Linked()
      reads this, stream, buffers, set b | b in buffers :: b.raw
    {
      var heap, inPlace := Heap(), InPlace(Lists(), abs, buffers, contents);
      heap && inPlace && FileLinked()
    }

    ghost predicate Valid()
      reads this, stream, buffers, set b | b in buffers :: b.raw
    {
      var linked := Linked();
      linked && Reachable(abs)
    }

    constructor ()
      ensures Valid() && abs == Init() && fresh(stream)
      ensures fresh(set b | b in buffers) && fresh(set b | b in buffers :: b.raw)
    {
      var b := new LogBuffer(0);
      current, pending, free, flushing := b, [], [], [];
      stream := new LogFile();
      written, stop, flushNow, phase := 0, false, false, LoopTest;
      closed, buffers, contents, abs := [], [b], [[]], Init();
      assert Runs(Init(), [], Init());
    }

    /** The objects, as they are now, stand for t. */
    ghost method StandFor(t: State)
      requires Heap() && InPlace(Lists(), t, buffers, contents)
      requires stream.Valid() && Matches(t, closed + [stream.lines], written, stop, flushNow, phase)
      modifies `abs
      ensures Linked() && abs == t
    {
      abs := t;
    }

    /** Writes a line to one buffer; the others keep what they hold. */
    method WriteTo(b: LogBuffer, line: Line)
      requires Heap() && b.id < |buffers| && b == buffers[b.id] && Size(b.lines) + |line| <= LOG_BUFFER_SIZE
      modifies this`contents, b, b.raw
      ensures Heap() && contents == old(contents)[b.id := old(contents)[b.id] + [line]]
    {
      b.Write(line);
      contents := contents[b.id := contents[b.id] + [line]];
    }

    /** The line goes behind those in the current buffer; no other buffer changes. */
    method AppendToCurrent(line: Line)
      requires Linked() && Placed(abs) && Size(abs.current.lines) + |line| <= LOG_BUFFER_SIZE
      modifies this`abs, this`contents, current, current.raw
      ensures Linked()
      ensures abs == old(abs).(current := Append(old(abs).current, line), accepted := old(abs).accepted + [line])
    {
      AppendPlaces(Lists(), abs, buffers, contents, line);
      WriteTo(current, line);
      abs := abs.(current := Append(abs.current, line), accepted := abs.accepted + [line]);
    }

    /** A new buffer, the next by number, joins the others. */
    ghost method Register(b: LogBuffer)
      requires Heap() && b.id == |buffers| && b.Valid() && b.lines == []
      requires forall k :: 0 <= k < |buffers| ==> buffers[k].raw != b.raw
      modifies `buffers, `contents
      ensures Heap() && buffers == old(buffers) + [b] && contents == old(contents) + [[]]
    {
      buffers := buffers + [b];
      contents := contents + [[]];
    }

    method TakeNew()
      requires Linked() && free == []
      modifies `current, `pending, `buffers, `contents, `abs
      ensures Linked() && abs == Retire(old(abs))
      ensures fresh(current) && fresh(current.raw) && buffers == old(buffers) + [current]
    {
      var b := new LogBuffer(|buffers|);
      RetireToNew(Lists(), abs, buffers, contents, b);
      MatchesRetired(abs);
      Register(b);
      pending := pending + [current];
      current := b;
      StandFor(Retire(abs));
    }

    method TakeFree()
      requires Linked() && free != []
      requires forall i :: 0 <= i < |abs.free| ==> abs.free[i].lines == []
      modifies `current, `pending, `free, `abs
      ensures Linked() && abs == Retire(old(abs)) && current in buffers
    {
      ghost var p := Lists();
      RetireToFree(p, abs, buffers, contents);
      MatchesRetired(abs);
      pending := pending + [current];
      current := free[|free| - 1];
      free := free[..|free| - 1];
      assert Lists() == Places(p.free[|p.free| - 1], p.pending + [p.current], p.free[..|p.free| - 1], p.flushing);
      StandFor(Retire(abs));
    }

    /** Retires the current buffer and takes the last free one, or makes one. */
    method RetireCurrent()
      requires Linked() && forall i :: 0 <= i < |abs.free| ==> abs.free[i].lines == []
      modifies this`current, this`pending, this`free, this`buffers, this`contents, this`abs
      ensures Linked() && abs == Retire(old(abs)) && current in buffers
      ensures buffers == old(buffers) || (fresh(current) && fresh(current.raw) && buffers == old(buffers) + [current])
    {
      if |free| == 0 {
        TakeNew();
      } else {
        TakeFree();
      }
    }

    /** A writer's critical section: append, or retire the full buffer first, or refuse. */
    method Write(line: Line)
      requires Valid() && Enabled(abs, Step.Write(line))
      modifies this, buffers, set b | b in buffers :: b.raw
      ensures Valid() && abs == Apply(old(abs), Step.Write(line)) && stream == old(stream)
      ensures abs.accepted == old(abs).accepted + [line] || (abs == old(abs) && |pending| == 7)
      ensures Size(old(abs).current.lines) + |line| <= LOG_BUFFER_SIZE ==>
                buffers == old(buffers) && current == old(current) && pending == old(pending)
      ensures buffers == old(buffers) || (fresh(current) && fresh(current.raw) && buffers == old(buffers) + [current])
    {
      ReachableInv(abs);
      ReachableStep(abs, Step.Write(line));
      RefusedIff(abs, line);
      CurrentSize();
      if current.Writable(|line|) {
        AppendToCurrent(line);
      } else if |pending| <= MAX_PENDING_BUFFERS {
        RetireAndAppend(line);
      }
    }

    method RetireAndAppend(line: Line)
      requires Linked() && Placed(abs) && Fifo(abs) && EmptyWhereExpected(abs) && |line| <= LOG_BUFFER_SIZE
      modifies this, buffers, set b | b in buffers :: b.raw
      ensures Linked() && stream == old(stream)
      ensures var t := Retire(old(abs));
              abs == t.(current := Append(t.current, line), accepted := t.accepted + [line])
      ensures buffers == old(buffers) || (fresh(current) && fresh(current.raw) && buffers == old(buffers) + [current])
    {
      RetirePlaced(abs);
      RetireFifo(abs);
      RetireCurrent();
      AppendToCurrent(line);
    }

    lemma {:induction false} CurrentSize()
      requires Linked()
      ensures current.Valid() && current.lines == abs.current.lines == contents[current.id]
      ensures |pending| == |abs.pending| && current.id == abs.current.id < |buffers| && current == buffers[current.id]
    {
    }

    /** The current buffer joins the pending ones because it must be flushed now. */
    method RetireForFlush()
      requires Linked() && forall i :: 0 <= i < |abs.free| ==> abs.free[i].lines == []
      modifies `current, `pending, `free, `flushNow, `buffers, `contents, `abs
      ensures Linked() && abs == Retire(old(abs)).(flushNow := false)
      ensures buffers == old(buffers) || (fresh(current) && fresh(current.raw) && buffers == old(buffers) + [current])
    {
      RetireCurrent();
      SamePlaces(Lists(), abs, abs.(flushNow := false), buffers, contents);
      flushNow := false;
      abs := abs.(flushNow := false);
    }

    method SwapPending()
      requires Linked()
      modifies `pending, `flushing, `phase, `abs
      ensures Linked() && abs == Swap(old(abs))
    {
      SwapPlaces(Lists(), abs, buffers, contents);
      flushing, pending := pending, flushing;
      phase := Flushing(0);
      abs := Swap(abs);
    }

    /** The flush thread's critical section: take the pending buffers, and the current one if it must be flushed now. */
    method TakePending(timeout: bool)
      requires Valid() && abs.phase == Undecided(timeout)
      modifies `current, `pending, `free, `flushing, `flushNow, `phase, `buffers, `contents, `abs
      ensures Valid() && abs == Apply(old(abs), FlushThread) && !flushNow
      ensures buffers == old(buffers) || (fresh(current) && fresh(current.raw) && buffers == old(buffers) + [current])
    {
      ReachableInv(abs);
      ReachableStep(abs, FlushThread);
      if timeout || flushNow {
        RetireForFlush();
      }
      SwapPending();
    }

    /** Writes one buffer to the stream and empties it; the others keep what they hold. */
    method FlushBuffer(b: LogBuffer)
      requires Heap() && b.id < |buffers| && b == buffers[b.id] && stream.Valid()
      modifies `contents, b, stream
      ensures Heap() && stream.Valid() && contents == old(contents)[b.id := []]
      ensures stream.lines == old(stream.lines) + old(contents)[b.id]
    {
      b.Flush(stream);
      contents := contents[b.id := []];
    }

    /** The current file is closed and the next one opened. */
    method NewFile()
      requires Linked() && Placed(abs)
      modifies `closed, `stream, `written, `abs
      ensures Linked() && Placed(abs) && fresh(stream) && abs == NextFile(old(abs))
    {
      closed := closed + [stream.lines];
      stream := new LogFile();
      written := 0;
      SameHeld(abs, NextFile(abs));
      SamePlaces(Lists(), abs, NextFile(abs), buffers, contents);
      StandFor(NextFile(abs));
    }

    lemma {:induction false} FlushingBuffer(next: nat)
      requires Linked() && next < |abs.flushing|
      ensures |flushing| == |abs.flushing|
      ensures var b := flushing[next];
              && b.id == abs.flushing[next].id < |buffers| && b == buffers[b.id]
              && contents[b.id] == abs.flushing[next].lines && b.usedSize == Size(contents[b.id])
    {
    }

    /** The bytes of the next buffer go to the stream. */
    method EmptyNext(next: nat)
      requires Heap() && InPlace(Lists(), abs, buffers, contents) && stream.Valid() && Placed(abs)
      requires next < |flushing|
      modifies `contents, stream, flushing[next]
      ensures Heap() && next < |abs.flushing| && InPlace(Lists(), WrittenOut(abs, next), buffers, contents)
      ensures stream.Valid() && stream.lines == old(stream.lines) + abs.flushing[next].lines
    {
      FlushPlaces(Lists(), abs, buffers, contents, next);
      FlushBuffer(flushing[next]);
    }

    /** Writes the next buffer of the flush list to the file. */
    method WriteNext(next: nat)
      requires Linked() && Placed(abs) && next < |flushing|
      modifies `written, `phase, `contents, `abs, stream, flushing[next]
      ensures Linked() && |old(abs).flushing| == |flushing| && abs == WrittenOut(old(abs), next)
    {
      FlushingBuffer(next);
      MatchesWritten(abs, closed, stream.lines, next);
      written := written + flushing[next].usedSize;
      phase := Flushing(next + 1);
      EmptyNext(next);
      StandFor(WrittenOut(abs, next));
    }

    /** One round of the unlocked flush loop, with a new file when this buffer would fill the old one. */
    method FlushNext(next: nat)
      requires Valid() && abs.phase == Flushing(next) && next < |flushing|
      modifies `stream, `closed, `written, `phase, `contents, `abs, stream, flushing[next]
      ensures Valid() && abs == Apply(old(abs), FlushThread)
      ensures stream == old(stream) || fresh(stream)
    {
      FlushingBuffer(next);
      FlushStep(abs, next);
      if flushing[next].usedSize + written >= LOG_MAX_FILE_SIZE {
        NewFile();
      }
      WriteNext(next);
    }

    lemma {:induction false} WithinList()
      requires Valid() && abs.phase.Flushing?
      ensures phase == abs.phase && phase.next <= |flushing|
    {
      ReachableInv(abs);
      assert |flushing| == |abs.flushing|;
    }

    /** Hands the flushed buffers back, one by one. */
    method ReturnEach()
      modifies `free
      ensures free == old(free) + flushing
    {
      var i := 0;
      while i < |flushing|
        invariant 0 <= i <= |flushing| && free == old(free) + flushing[..i]
      {
        free := free + [flushing[i]];
        i := i + 1;
      }
      assert flushing[..i] == flushing;
    }

    /** The critical section that returns the flush list. */
    method ReturnBuffers()
      requires Valid() && abs.phase == Flushing(|flushing|)
      modifies `free, `flushing, `phase, `abs
      ensures Valid() && abs == Apply(old(abs), FlushThread)
    {
      assert |flushing| == |abs.flushing|;
      ReachableStep(abs, FlushThread);
      ReturnPlaces(Lists(), abs, buffers, contents);
      ReturnEach();
      flushing := [];
      phase := LoopTest;
      abs := LogProtocol.FlushThreadStep(abs);
    }

    lemma {:induction false} PendingBuffer(i: nat)
      requires Linked() && i < |pending|
      ensures |pending| == |abs.pending|
      ensures var b := pending[i];
              && b.id == abs.pending[i].id < |buffers| && b == buffers[b.id]
              && contents[b.id] == abs.pending[i].lines
    {
    }

    /** One round of the final flush. */
    method FlushOnePending(i: nat)
      requires Linked() && Placed(abs) && i < |pending|
      modifies `contents, `abs, stream, pending[i]
      ensures Linked() && Placed(abs) && |old(abs).pending| == |pending| && abs == EmptyOne(old(abs), i)
    {
      PendingBuffer(i);
      EmptyPlaces(Lists(), abs, buffers, contents, i);
      AddToLast(closed, stream.lines, abs.pending[i].lines);
      FlushBuffer(pending[i]);
      abs := EmptyOne(abs, i);
    }

    /** The server stands for s with its first i pending buffers flushed. */
    ghost predicate PartlyFlushed(s: State, i: nat)
      reads this, stream, buffers, set b | b in buffers :: b.raw
    {
      var linked, placed := Linked(), Placed(abs);
      linked && placed && i <= |pending| == |s.pending| && abs == Partly(s, i)
    }

    method FlushNth(i: nat, ghost s: State)
      requires PartlyFlushed(s, i) && i < |pending|
      modifies `contents, `abs, stream, pending[i]
      ensures PartlyFlushed(s, i + 1)
    {
      PartlyNext(s, i);
      FlushOnePending(i);
    }

    method FlushPending()
      requires Linked() && Placed(abs) && abs.files != []
      modifies `contents, `abs, stream, pending
      ensures Linked() && Placed(abs) && abs == PendingFlushed(old(abs))
    {
      ghost var s := abs;
      PartlyNone(s);
      FlushEach(s);
      PartlyAll(s);
    }

    /** The loop over the pending buffers. */
    method FlushEach(ghost s: State)
      requires PartlyFlushed(s, 0)
      modifies `contents, `abs, stream, pending
      ensures PartlyFlushed(s, |s.pending|)
    {
      var i := 0;
      while i < |pending|
        invariant 0 <= i <= |pending|
        invariant var partly := PartlyFlushed(s, i); partly
      {
        FlushNth(i, s);
        i := i + 1;
      }
    }

    /** Empties the current buffer into the file. */
    method FlushCurrent()
      requires Linked() && Placed(abs)
      modifies `contents, `abs, stream, current
      ensures Linked() && abs == CurrentFlushed(old(abs))
    {
      CurrentSize();
      EmptyCurrent(Lists(), abs, buffers, contents);
      AddToLast(closed, stream.lines, abs.current.lines);
      FlushBuffer(current);
      abs := CurrentFlushed(abs);
    }

    /** The stop branch: flush the pending buffers in order, then the current one if it holds anything. */
    method FlushAllAndClose()
      requires Valid() && abs.phase.Woken? && stop
      modifies `phase, `contents, `abs, stream, pending, current
      ensures Valid() && abs == Apply(old(abs), FlushThread)
      ensures FiledLines() == abs.accepted
    {
      ghost var s := abs;
      StopStep(s);
      FlushPending();
      FlushRest(s);
    }

    method FlushRest(ghost s: State)
      requires Linked() && Placed(abs) && s.files != [] && abs == PendingFlushed(s)
      requires Size(s.current.lines) == 0 ==> s.current.lines == []
      modifies `phase, `contents, `abs, stream, current
      ensures Linked() && abs == FlushAll(s)
    {
      FlushedInTwo(s);
      CurrentSize();
      if current.FlushEnable() {
        FlushCurrent();
      }
      Leave();
    }

    /** The flush thread is gone. */
    method Leave()
      requires Linked()
      modifies `phase, `abs
      ensures Linked() && abs == old(abs).(phase := LeftByStop)
    {
      SamePlaces(Lists(), abs, abs.(phase := LeftByStop), buffers, contents);
      phase := LeftByStop;
      abs := abs.(phase := LeftByStop);
    }

    /** The guard of the loop. */
    method TestGuard()
      requires Valid() && abs.phase.LoopTest?
      modifies `phase, `abs
      ensures Valid() && abs == Apply(old(abs), FlushThread)
    {
      MoveOn(if stop then LeftByGuard else Waiting);
    }

    /** The end of the wait: on its condition, or on a timeout. */
    method EndWait()
      requires Valid() && abs.phase.Waiting?
      modifies `phase, `abs
      ensures Valid() && abs == Apply(old(abs), FlushThread)
      ensures phase.Woken? && (phase.timeout <==> !stop && pending == [] && !flushNow)
    {
      assert |pending| == |abs.pending|;
      MoveOn(Woken(!(stop || |pending| > 0 || flushNow)));
    }

    /** The test of the stop flag under the lock: the final flush, or on to the buffers. */
    method TestStop()
      requires Valid() && abs.phase.Woken?
      modifies `phase, `contents, `abs, stream, pending, current
      ensures Valid() && abs == Apply(old(abs), FlushThread)
    {
      if stop {
        FlushAllAndClose();
      } else {
        MoveOn(Undecided(phase.timeout));
      }
    }

    /** A step of the flush thread that touches no buffer. */
    method MoveOn(next: Phase)
      requires Valid() && Enabled(abs, FlushThread) && Apply(abs, FlushThread) == abs.(phase := next)
      modifies `phase, `abs
      ensures Valid() && abs == Apply(old(abs), FlushThread)
    {
      ReachableStep(abs, FlushThread);
      SamePlaces(Lists(), abs, abs.(phase := next), buffers, contents);
      phase := next;
      abs := abs.(phase := next);
    }

    method ForceFlush()
      requires Valid()
      modifies `flushNow, `abs
      ensures Valid() && abs == Apply(old(abs), Step.ForceFlush)
    {
      ReachableStep(abs, Step.ForceFlush);
      SamePlaces(Lists(), abs, abs.(flushNow := true), buffers, contents);
      flushNow := true;
      abs := abs.(flushNow := true);
    }

    /** Asks the flush thread to leave. */
    method RequestStop()
      requires Valid()
      modifies `stop, `abs
      ensures Valid() && abs == Apply(old(abs), ForceDestroy)
    {
      ReachableStep(abs, ForceDestroy);
      SamePlaces(Lists(), abs, abs.(stop := true), buffers, contents);
      stop := true;
      abs := abs.(stop := true);
    }

    /** Begins a pass: what it has taken is on its way to the files. */
    method BeginPass(timeout: bool) returns (ghost lines: seq<Line>)
      requires Valid() && abs.phase == Undecided(timeout)
      modifies `current, `pending, `free, `flushing, `flushNow, `phase, `buffers, `contents, `abs
      ensures Passing(0, lines) && abs.accepted == old(abs).accepted
      ensures Filed(old(abs).files) + Lines(old(abs).pending) <= lines
      ensures timeout || old(flushNow) ==> lines == old(abs).accepted
      ensures buffers == old(buffers) || (fresh(current) && fresh(current.raw) && buffers == old(buffers) + [current])
    {
      lines := if timeout || flushNow then abs.accepted else Filed(abs.files) + Lines(abs.pending);
      TakeOutcome(abs);
      TakePending(timeout);
    }

    /** A pass has come to the given buffer of its list, with the lines on their way. */
    ghost predicate Passing(next: nat, lines: seq<Line>)
      reads this, stream, buffers, set b | b in buffers :: b.raw
    {
      var valid, onTheWay := Valid(), OnTheWay(abs, lines);
      valid && onTheWay && abs.phase == Flushing(next)
    }

    method FlushOn(next: nat, ghost lines: seq<Line>)
      requires Passing(next, lines) && next < |flushing|
      modifies `stream, `closed, `written, `phase, `contents, `abs, stream, buffers
      ensures Passing(next + 1, lines) && abs.accepted == old(abs).accepted
      ensures stream == old(stream) || fresh(stream)
    {
      FlushingBuffer(next);
      FlushOneOutcome(abs, next, lines);
      FlushNext(next);
    }

    method FlushList(ghost lines: seq<Line>)
      requires Passing(0, lines)
      modifies `stream, `closed, `written, `phase, `contents, `abs, stream, buffers
      ensures Passing(|flushing|, lines) && abs.accepted == old(abs).accepted
      ensures stream == old(stream) || fresh(stream)
    {
      var next := 0;
      while next < |flushing|
        invariant 0 <= next <= |flushing|
        invariant Passing(next, lines) && abs.accepted == old(abs).accepted
        invariant stream == old(stream) || fresh(stream)
      {
        FlushOn(next, lines);
        next := next + 1;
      }
    }

    method EndPass(ghost lines: seq<Line>)
      requires Passing(|flushing|, lines)
      modifies `free, `flushing, `phase, `abs
      ensures Valid() && abs.phase == LoopTest && abs.accepted == old(abs).accepted
      ensures lines <= FiledLines() && (lines == abs.accepted ==> FiledLines() == abs.accepted)
    {
      assert |flushing| == |abs.flushing|;
      ReturnOutcome(abs, lines);
      ReturnBuffers();
      FilesHoldPrefix(abs);
    }

    method FinishPass(ghost lines: seq<Line>)
      requires Passing(0, lines)
      modifies `stream, `closed, `written, `phase, `contents, `abs, `free, `flushing, stream, buffers
      ensures buffers == old(buffers) && current == old(current)
      ensures stream == old(stream) || fresh(stream)
      ensures var valid := Valid(); valid && abs.phase == LoopTest && abs.accepted == old(abs).accepted
      ensures lines <= FiledLines() && (lines == abs.accepted ==> FiledLines() == abs.accepted)
    {
      FlushList(lines);
      EndPass(lines);
    }

    /**
     * One pass of the flush thread without writers in between: it ends with every line that was pending in the files,
     * and with every accepted line if the wait timed out or a flush was forced.
     */
    method FlushPass(timeout: bool)
      requires Valid() && abs.phase == Undecided(timeout)
      modifies this, stream, buffers
      ensures var valid := Valid(); valid && abs.phase == LoopTest && abs.accepted == old(abs).accepted
      ensures Filed(old(abs).files) + Lines(old(abs).pending) <= FiledLines()
      ensures timeout || old(flushNow) ==> FiledLines() == abs.accepted
      ensures stream == old(stream) || fresh(stream)
      ensures buffers == old(buffers) || (fresh(current) && fresh(current.raw) && buffers == old(buffers) + [current])
    {
      ghost var lines := BeginPass(timeout);
      FinishPass(lines);
    }

    // ---- What the objects guarantee ----

    /** The lines in the files so far. */
    ghost function FiledLines(): seq<Line>
      reads `closed, `stream, stream
    {
      Filed(closed + [stream.lines])
    }

    lemma {:induction false} FilesAre()
      requires Linked()
      ensures FiledLines() == Filed(abs.files)
    {
    }

    /**
     * The bytes of the open file are its lines, and all files together hold a prefix of the accepted lines; there are
     * at most sixteen buffers, and each is in one place only.
     */
    lemma {:induction false} Guarantees()
      requires Valid()
      ensures stream.bytes == Bytes(stream.lines) && FiledLines() <= abs.accepted
      ensures |buffers| <= 16 && 1 + |pending| + |free| + |flushing| == |buffers|
      ensures forall i :: 0 <= i < |pending| ==> pending[i] != current
      ensures forall i :: 0 <= i < |free| ==> free[i] != current && free[i].lines == []
      ensures forall i :: 0 <= i < |flushing| ==> flushing[i] != current
    {
      FilesHoldPrefix(abs);
      MemoryBound(abs, 0);
      ReachableInv(abs);
      CurrentApart(abs);
    }
  }

  lemma {:induction false} TakeOutcome(s: State)
    requires Reachable(s) && s.phase.Undecided?
    ensures var t := Apply(s, FlushThread);
            && t.phase == Flushing(0) && t.accepted == s.accepted
            && OnTheWay(t, if s.phase.timeout || s.flushNow then s.accepted else Filed(s.files) + Lines(s.pending))
            && Filed(s.files) + Lines(s.pending) <= s.accepted
  {
    ReachableInv(s);
    TakenIsOnTheWay(s);
    AcceptedIsFiledOrHeld(s);
    LinesSnoc(s.pending, s.current);
    Regroup(Filed(s.files), Lines(s.pending), s.current.lines);
  }

  lemma {:induction false} FlushOneOutcome(s: State, next: nat, lines: seq<Line>)
    requires Reachable(s) && s.phase == Flushing(next) && next < |s.flushing| && OnTheWay(s, lines)
    ensures var t := Apply(s, FlushThread);
            && t.phase == Flushing(next + 1) && |t.flushing| == |s.flushing|
            && t.accepted == s.accepted && OnTheWay(t, lines)
  {
    ReachableInv(s);
    OnTheWayStep(s, FlushThread, lines);
  }

  lemma {:induction false} ReturnOutcome(s: State, lines: seq<Line>)
    requires Reachable(s) && s.phase == Flushing(|s.flushing|) && OnTheWay(s, lines)
    ensures var t := Apply(s, FlushThread);
            t.phase == LoopTest && t.accepted == s.accepted && lines <= Filed(t.files)
  {
    ReachableInv(s);
    OnTheWayStep(s, FlushThread, lines);
  }

  /** The first i pending buffers are flushed. */
  function Partly(s: State, i: nat): State
    requires i <= |s.pending|
  {
    s.(pending := Emptied(s.pending[..i]) + s.pending[i..], files := AddToFile(s.files, Lines(s.pending[..i])))
  }

  lemma {:induction false} PartlyNone(s: State)
    requires s.files != []
    ensures Partly(s, 0) == s
  {
    AddNothing(s.files);
    assert Emptied(s.pending[..0]) + s.pending[0..] == s.pending;
  }

  lemma {:induction false} PartlyNext(s: State, i: nat)
    requires i < |s.pending|
    ensures Partly(s, i).pending[i] == s.pending[i]
    ensures Partly(s, i + 1) == EmptyOne(Partly(s, i), i)
  {
    assert Partly(s, i + 1).pending == EmptyOne(Partly(s, i), i).pending;
    assert s.pending[..i + 1] == s.pending[..i] + [s.pending[i]];
    LinesSnoc(s.pending[..i], s.pending[i]);
    AddTwice(s.files, Lines(s.pending[..i]), s.pending[i].lines);
  }

  lemma {:induction false} PartlyAll(s: State)
    ensures Partly(s, |s.pending|) == PendingFlushed(s)
  {
    assert s.pending[..|s.pending|] == s.pending;
    assert Emptied(s.pending) + s.pending[|s.pending|..] == Emptied(s.pending);
  }

  lemma {:induction false} AddTwice(files: seq<seq<Line>>, a: seq<Line>, b: seq<Line>)
    ensures AddToFile(AddToFile(files, a), b) == AddToFile(files, a + b)
  {
    if files != [] {
      Regroup(files[|files| - 1], a, b);
    }
  }

  lemma {:induction false} AddNothing(files: seq<seq<Line>>)
    requires files != []
    ensures AddToFile(files, []) == files
  {
    assert files[|files| - 1] + [] == files[|files| - 1];
  }
}
