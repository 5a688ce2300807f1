/** The growable byte queue with a read and a write cursor and lazy compaction. */
module TcpBuffers {
  import opened Common

  type Byte = b: int | 0 <= b < 256

  const INITIAL_SIZE: nat := 1024

  function Min(a: nat, b: nat): nat {
    if a < b then a else b
  }

  /** memcpy within one array; the two ranges must not overlap. */
  method Memcpy(a: array<Byte>, to: nat, from: nat, len: nat)
    requires to + len <= a.Length && from + len <= a.Length
    requires to + len <= from || from + len <= to
    modifies a
    ensures a[to..to + len] == old(a[from..from + len])
    ensures forall i :: 0 <= i < a.Length && !(to <= i < to + len) ==> a[i] == old(a[i])
  {
    forall i | 0 <= i < len {
      a[to + i] := a[from + i];
    }
  }

  /** What becomes of an append: only the first is meant. */
  datatype Appended = Stored | Spins | Overruns

  class TcpBuffer {
    var buffer: array<Byte>
    var readPos: nat
    var writePos: nat
    // Bytes moved by compaction, and bytes taken out, since construction.
    ghost var copied: nat
    ghost var consumed: nat

    ghost predicate Valid()
      reads this
    {
      && 2 * readPos <= writePos <= buffer.Length
      && copied + readPos <= consumed
    }

    /** The bytes written and not yet taken out. */
    ghost function Contents(): seq<Byte>
      requires Valid()
      reads this, buffer
    {
      buffer[readPos..writePos]
    }

    predicate HasRoom()
      reads this
    {
      writePos < buffer.Length
    }

    function WritableBytes(): nat
      requires Valid()
      reads this
    {
      buffer.Length - writePos
    }

    function ReadableBytes(): (n: nat)
      requires Valid()
      reads this, buffer
      ensures n == |Contents()|
    {
      writePos - readPos
    }

    constructor ()
      ensures Valid() && Contents() == [] && HasRoom() && fresh(buffer)
      ensures copied == consumed == 0 && writePos == 0 && buffer.Length == INITIAL_SIZE
    {
      buffer := new Byte[INITIAL_SIZE](_ => 0);
      readPos, writePos := 0, 0;
      copied, consumed := 0, 0;
    }

    /** Gives the array a new length, keeping what fits. */
    method Resize(size: nat)
      requires Valid()
      modifies this`buffer
      ensures fresh(buffer) && buffer.Length == size
      ensures writePos <= size ==> Valid() && Contents() == old(Contents())
    {
      var bigger := new Byte[size](_ => 0);
      var kept := Min(size, buffer.Length);
      forall i | 0 <= i < kept {
        bigger[i] := buffer[i];
      }
      buffer := bigger;
    }

    /** Copies bytes from outside behind the write cursor and advances it. */
    method Store(data: seq<Byte>)
      requires Valid() && |data| <= WritableBytes()
      modifies this`writePos, buffer
      ensures Valid() && writePos == old(writePos) + |data|
      ensures Contents() == old(Contents()) + data
    {
      ghost var before := Contents();
      forall i | 0 <= i < |data| {
        buffer[writePos + i] := data[i];
      }
      writePos := writePos + |data|;
      forall k | 0 <= k < |before + data|
        ensures Contents()[k] == (before + data)[k]
      {
        if k < |before| {
          assert Contents()[k] == buffer[readPos + k];
        } else {
          assert Contents()[k] == buffer[old(writePos) + (k - |before|)];
        }
      }
    }

    /** Takes in what the kernel has for the socket, as far as there is room; 0 makes the caller see a shutdown. */
    method ReadFromSocket(arrived: seq<Byte>) returns (got: nat)
      requires Valid()
      modifies this`buffer, this`writePos, buffer
      ensures Valid() && (buffer == old(buffer) || fresh(buffer))
      ensures got == Min(|arrived|, old(buffer.Length - writePos))
      ensures Contents() == old(Contents()) + arrived[..got]
      ensures old(HasRoom()) ==> HasRoom() && (got == 0 ==> arrived == [])
      ensures buffer.Length == if 0 < got == old(buffer.Length - writePos) then 2 * old(buffer.Length)
                               else old(buffer.Length)
    {
      got := Min(|arrived|, WritableBytes());
      var full := got == WritableBytes();
      Store(arrived[..got]);
      if got > 0 && full {
        Resize(buffer.Length * 2);
      }
    }

    /** The socket accepts the first `accepted` bytes, at least one. */
    method WriteToSocket(accepted: nat) returns (sent: seq<Byte>)
      requires Valid() && 0 < accepted <= |Contents()|
      modifies this`readPos, this`writePos, this`copied, this`consumed, buffer
      ensures Valid() && sent == old(Contents())[..accepted] && Contents() == old(Contents())[accepted..]
      ensures old(HasRoom()) ==> HasRoom()
    {
      sent := buffer[readPos..readPos + accepted];
      UpdateReadPos(accepted);
    }

    /** The data fits, or a buffer of twice its size has room behind the write cursor. */
    predicate CanTake(n: nat)
      requires Valid()
      reads this, buffer
    {
      n <= WritableBytes() || writePos <= n
    }

    /** An empty buffer has its cursors at the start, so everything fits or is long enough. */
    lemma {:induction false} EmptyTakesAll(n: nat)
      requires Valid() && Contents() == []
      ensures CanTake(n)
    {
      assert |Contents()| == writePos - readPos;
    }

    /**
     * Sets the capacity to twice the data until the data fits behind the write cursor, and copies it there. The
     * outcome tells what becomes of that: the loop ends with room, or goes on for good because a round no longer
     * changes anything, or ends because the capacity has dropped below the cursor, where the unsigned difference
     * is huge and the copy leaves the buffer.
     */
    method AppendToBuffer(data: seq<Byte>) returns (outcome: Appended)
      requires Valid()
      modifies this`buffer, this`writePos, buffer
      ensures buffer == old(buffer) || fresh(buffer)
      ensures outcome.Stored? <==> old(CanTake(|data|))
      ensures outcome.Stored? ==> Valid() && Contents() == old(Contents()) + data
      ensures outcome.Stored? ==> writePos == old(writePos) + |data|
      ensures |data| <= old(WritableBytes()) ==> buffer == old(buffer)
      ensures |data| > old(WritableBytes()) ==> buffer.Length == 2 * |data|
      ensures !outcome.Stored? ==> writePos == old(writePos) && |data| > old(WritableBytes())
      ensures outcome.Spins? ==> Valid() && Contents() == old(Contents()) && WritableBytes() < |data|
      ensures outcome.Overruns? ==> buffer.Length < writePos
    {
      ghost var before := Contents();
      while writePos <= buffer.Length && WritableBytes() < |data|
        invariant writePos == old(writePos) && readPos == old(readPos)
        invariant buffer == old(buffer) || (fresh(buffer) && buffer.Length == 2 * |data|)
        invariant buffer != old(buffer) ==> old(WritableBytes()) < |data|
        invariant writePos <= buffer.Length ==> Valid() && Contents() == before
        decreases if buffer.Length == 2 * |data| then 0 else 1
      {
        if buffer.Length == 2 * |data| {
          return Spins;
        }
        Resize(|data| * 2);
      }
      if buffer.Length < writePos {
        return Overruns;
      }
      Store(data);
      return Stored;
    }

    /** A view of up to `size` bytes; nothing changes. */
    method Read(size: nat) returns (view: seq<Byte>)
      requires Valid()
      ensures view == Contents()[..Min(size, |Contents()|)]
    {
      if size < ReadableBytes() {
        view := buffer[readPos..readPos + size];
      } else {
        view := buffer[readPos..readPos + ReadableBytes()];
      }
    }

    /** Takes out up to `size` bytes. */
    method Extract(size: nat) returns (result: seq<Byte>)
      requires Valid()
      modifies this`readPos, this`writePos, this`copied, this`consumed, buffer
      ensures Valid() && result == old(Contents())[..Min(size, |old(Contents())|)]
      ensures result + Contents() == old(Contents())
      ensures old(HasRoom()) ==> HasRoom()
    {
      result := Read(size);
      UpdateReadPos(|result|);
    }

    /** Advances the read cursor, and moves the rest to the front once less is left than was taken. */
    method UpdateReadPos(len: nat)
      requires Valid() && len <= |Contents()|
      modifies this`readPos, this`writePos, this`copied, this`consumed, buffer
      ensures Valid() && Contents() == old(Contents())[len..]
      ensures consumed == old(consumed) + len
      ensures if 2 * (old(readPos) + len) <= old(writePos) then
                readPos == old(readPos) + len && writePos == old(writePos) && copied == old(copied)
              else
                readPos == 0 && writePos == old(writePos) - old(readPos) - len && copied == old(copied) + writePos
      ensures (Cursors(readPos, writePos), copied - old(copied)) == TakeStep(Cursors(old(readPos), old(writePos)), len)
      ensures old(HasRoom()) ==> HasRoom()
    {
      ghost var before := Contents();
      readPos := readPos + len;
      consumed := consumed + len;
      assert buffer[readPos..writePos] == before[len..];
      if readPos > writePos - readPos {
        var readable := writePos - readPos;
        Memcpy(buffer, 0, readPos, readable);
        copied := copied + readable;
        writePos := readable;
        readPos := 0;
      }
    }
  }

  // ---- The cost of compaction ----

  datatype Cursors = Cursors(readPos: nat, writePos: nat)

  datatype Operation = Put(n: nat) | Take(n: nat)

  /** Where the cursors go when len bytes are taken, and how many bytes are moved for it. */
  function TakeStep(c: Cursors, len: nat): (r: (Cursors, nat))
    requires c.readPos + len <= c.writePos
  {
    var readPos := c.readPos + len;
    if readPos > c.writePos - readPos then (Cursors(0, c.writePos - readPos), c.writePos - readPos)
    else (Cursors(readPos, c.writePos), 0)
  }

  /** The bytes moved by a whole history of operations that never takes more than is there. */
  ghost predicate Moves(c: Cursors, ops: seq<Operation>, moved: nat)
    decreases |ops|
  {
    if ops == [] then moved == 0
    else match ops[0]
      case Put(n) => Moves(c.(writePos := c.writePos + n), ops[1..], moved)
      case Take(n) =>
        && c.readPos + n <= c.writePos
        && TakeStep(c, n).1 <= moved
        && Moves(TakeStep(c, n).0, ops[1..], moved - TakeStep(c, n).1)
  }

  function Taken(ops: seq<Operation>): nat {
    if ops == [] then 0 else (if ops[0].Take? then ops[0].n else 0) + Taken(ops[1..])
  }

  /** In any history compaction moves no more bytes than were taken: what is moved was paid for by the read cursor. */
  lemma {:induction false} CompactionIsPaidFor(c: Cursors, ops: seq<Operation>, moved: nat)
    requires Moves(c, ops, moved)
    ensures moved <= Taken(ops) + c.readPos
    decreases |ops|
  {
    if ops != [] {
      match ops[0]
      case Put(n) => CompactionIsPaidFor(c.(writePos := c.writePos + n), ops[1..], moved);
      case Take(n) => CompactionIsPaidFor(TakeStep(c, n).0, ops[1..], moved - TakeStep(c, n).1);
    }
  }

  // ---- When appending goes wrong ----

  /** The loop test of the append, on unsigned 64-bit sizes. */
  predicate NeedsResize(capacity: nat, writePos: nat, n: nat) {
    (capacity - writePos) % WORD64 < n
  }

  /** The capacity after k rounds of the loop, each of which sets it to twice the data size. */
  function CapacityAfter(capacity: nat, n: nat, k: nat): nat {
    if k == 0 then capacity else 2 * n
  }

  ghost predicate StopsAfter(capacity: nat, writePos: nat, n: nat, k: nat) {
    && !NeedsResize(CapacityAfter(capacity, n, k), writePos, n)
    && forall j :: 0 <= j < k ==> NeedsResize(CapacityAfter(capacity, n, j), writePos, n)
  }

  /** The loop ends, and with room for the data behind the write cursor. */
  ghost predicate AppendsSafely(capacity: nat, writePos: nat, n: nat) {
    exists k: nat :: StopsAfter(capacity, writePos, n, k) && writePos + n <= CapacityAfter(capacity, n, k)
  }

  /** On unsigned sizes the loop ends with room exactly then: else it spins, or cuts the buffer below its contents. */
  lemma {:induction false} AppendSafeIff(capacity: nat, writePos: nat, n: nat)
    requires writePos <= capacity && capacity + 2 * n < WORD64
    ensures AppendsSafely(capacity, writePos, n) <==> n <= capacity - writePos || writePos <= n
  {
    if n <= capacity - writePos {
      assert StopsAfter(capacity, writePos, n, 0);
    } else if writePos <= n {
      assert StopsAfter(capacity, writePos, n, 1);
    } else {
      forall k: nat
        ensures !(StopsAfter(capacity, writePos, n, k) && writePos + n <= CapacityAfter(capacity, n, k))
      {
      }
    }
  }

  /** Which failure it is depends on whether twice the data reaches the write cursor. */
  lemma {:induction false} AppendFailure(capacity: nat, writePos: nat, n: nat, k: nat)
    requires writePos <= capacity && capacity + 2 * n < WORD64
    requires capacity - writePos < n < writePos
    ensures writePos <= 2 * n ==> !StopsAfter(capacity, writePos, n, k)
    ensures 2 * n < writePos ==> StopsAfter(capacity, writePos, n, 1) && CapacityAfter(capacity, n, 1) < writePos
  {
    if writePos <= 2 * n {
      assert NeedsResize(CapacityAfter(capacity, n, k), writePos, n);
    } else {
      assert (2 * n - writePos) % WORD64 == 2 * n - writePos + WORD64;
    }
  }

  /** Both happen in a fresh buffer of 1024 bytes: 600 bytes and then 500 spin, 1000 and then 100 cut it to 200. */
  lemma {:induction false} AppendCanFail(k: nat)
    ensures !StopsAfter(INITIAL_SIZE, 600, 500, k)
    ensures StopsAfter(INITIAL_SIZE, 1000, 100, 1) && CapacityAfter(INITIAL_SIZE, 100, 1) == 200
  {
    AppendFailure(INITIAL_SIZE, 600, 500, k);
    AppendFailure(INITIAL_SIZE, 1000, 100, k);
  }

  /** The same on buffers. */
  method FailingAppends() returns (spinning: Appended, overrunning: Appended)
    ensures spinning.Spins? && overrunning.Overruns?
  {
    var one := new TcpBuffer();
    var _ := one.AppendToBuffer(seq(600, _ => 0));
    spinning := one.AppendToBuffer(seq(500, _ => 0));
    var other := new TcpBuffer();
    var _ := other.AppendToBuffer(seq(1000, _ => 0));
    overrunning := other.AppendToBuffer(seq(100, _ => 0));
  }
}
