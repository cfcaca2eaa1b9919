/**
 The growing, compacting byte buffer of a connection.

 `Raw` is the value of a buffer: the whole vector, stale bytes included, and the two indices.
 Each method of the class is proved to move `Raw` as one of the functions below does, and the
 promises about whole runs (first in first out, capacity, cost of compaction) are proved about
 those functions.
 */
module TcpBuffers {
  import opened Bytes
  import opened Common

  datatype Raw = Raw(bytes: seq<byte>, read: int, write: int) {
    ghost predicate Valid() {
      && 0 <= read <= write <= |bytes|
      && read <= |bytes| / 3
    }

    function Size(): nat {
      |bytes|
    }

    function Readable(): int {
      write - read
    }

    function Writeable(): int {
      |bytes| - write
    }

    function Unread(): seq<byte>
      requires 0 <= read <= write <= |bytes|
    {
      bytes[read..write]
    }
  }

  /** Where the write index ends up, and the vector, after moving the readable bytes to a new vector. */
  function Resized(raw: Raw, size: nat): Raw
    requires 0 <= raw.read <= raw.write <= |raw.bytes|
  {
    var c := Min(size, raw.Readable());
    Raw(raw.bytes[raw.read..raw.read + c] + Zeros(size - c), 0, c)
  }

  predicate MustCompact(raw: Raw) {
    raw.read > raw.Size() / 3
  }

  function Adjusted(raw: Raw): Raw
    requires 0 <= raw.read <= raw.write <= |raw.bytes|
  {
    if MustCompact(raw) then Resized(raw, raw.Size()) else raw
  }

  /** The size `WriteToBuffer` grows to: one and a half times the end of the write, truncated. */
  function GrownSize(raw: Raw, n: nat): int {
    3 * (raw.write + n) / 2
  }

  function Overwrite(s: seq<byte>, at: nat, data: seq<byte>): (r: seq<byte>)
    requires at + |data| <= |s|
    ensures |r| == |s|
  {
    s[..at] + data + s[at + |data|..]
  }

  function Appended(raw: Raw, data: seq<byte>): Raw
    requires raw.Valid()
  {
    var big := if |data| > raw.Writeable() then Resized(raw, GrownSize(raw, |data|)) else raw;
    Raw(Overwrite(big.bytes, big.write, data), big.read, big.write + |data|)
  }

  /** `RecycleRead`: an index past the end of the vector is refused. */
  function ReadAdvanced(raw: Raw, n: int): Raw
    requires raw.Valid()
    requires 0 <= raw.read + n <= raw.write || raw.read + n > raw.Size()
  {
    if raw.read + n > raw.Size() then raw else Adjusted(raw.(read := raw.read + n))
  }

  /** `RecycleWrite`: an index past the end of the vector is refused. */
  function WriteAdvanced(raw: Raw, n: nat): Raw
    requires raw.Valid()
  {
    if raw.write + n > raw.Size() then raw else Adjusted(raw.(write := raw.write + n))
  }

  /** The room `Input` makes before each `recv`. */
  function RoomMade(raw: Raw): Raw
    requires raw.Valid()
  {
    if raw.Writeable() == 0 then Resized(raw, 2 * raw.Size()) else raw
  }

  /** One turn of the loop of `Input`: make room, let the socket fill the vector, advance. */
  function Received(raw: Raw, data: seq<byte>): Raw
    requires raw.Valid()
    requires |data| <= RoomMade(raw).Writeable()
  {
    var room := RoomMade(raw);
    WriteAdvanced(room.(bytes := Overwrite(room.bytes, room.write, data)), |data|)
  }

  // ---- what each step does to the readable bytes ------------------------------------------

  lemma ResizedKeeps(raw: Raw, size: nat)
    requires 0 <= raw.read <= raw.write <= |raw.bytes|
    ensures Resized(raw, size).Valid()
    ensures Resized(raw, size).Size() == size
    ensures Resized(raw, size).Unread() == raw.Unread()[..Min(size, raw.Readable())]
  {
  }

  lemma AdjustedKeeps(raw: Raw)
    requires 0 <= raw.read <= raw.write <= |raw.bytes|
    ensures Adjusted(raw).Valid()
    ensures Adjusted(raw).Size() == raw.Size()
    ensures Adjusted(raw).Unread() == raw.Unread()
  {
    ResizedKeeps(raw, raw.Size());
  }

  lemma AppendedEnqueues(raw: Raw, data: seq<byte>)
    requires raw.Valid()
    ensures Appended(raw, data).Valid()
    ensures Appended(raw, data).Unread() == raw.Unread() + data
    ensures Appended(raw, data).Size() == if |data| <= raw.Writeable() then raw.Size() else 3 * (raw.write + |data|) / 2
  {
    if |data| > raw.Writeable() {
      ResizedKeeps(raw, GrownSize(raw, |data|));
      assert GrownSize(raw, |data|) - raw.Readable() >= |data|;
    }
  }

  lemma RoomForWrite(raw: Raw, data: seq<byte>)
    requires raw.Valid()
    ensures GrownSize(raw, |data|) >= 0
    ensures var big := Resized(raw, GrownSize(raw, |data|)); 0 <= big.write && big.write + |data| <= big.Size()
  {
  }

  lemma AppendedIsValid(raw: Raw, data: seq<byte>)
    requires raw.Valid()
    ensures Appended(raw, data).Valid()
  {
    AppendedEnqueues(raw, data);
  }

  lemma ReadAdvancedDequeues(raw: Raw, n: nat)
    requires raw.Valid() && n <= raw.Readable()
    ensures ReadAdvanced(raw, n).Valid()
    ensures ReadAdvanced(raw, n).Size() == raw.Size()
    ensures ReadAdvanced(raw, n).Unread() == raw.Unread()[n..]
  {
    AdjustedKeeps(raw.(read := raw.read + n));
  }

  lemma ReceivedEnqueues(raw: Raw, data: seq<byte>)
    requires raw.Valid()
    requires |data| <= RoomMade(raw).Writeable()
    ensures Received(raw, data).Valid()
    ensures Received(raw, data).Unread() == raw.Unread() + data
    ensures Received(raw, data).Size() == if raw.write == raw.Size() then 2 * raw.Size() else raw.Size()
  {
    ResizedKeeps(raw, 2 * raw.Size());
    var room := RoomMade(raw);
    assert room.Unread() == raw.Unread();
    var full := room.(bytes := Overwrite(room.bytes, room.write, data));
    assert full.(write := full.write + |data|).Unread() == room.Unread() + data;
    AdjustedKeeps(full.(write := full.write + |data|));
  }

  // ---- whole runs ---------------------------------------------------------------------------

  datatype Op =
    | Write(data: seq<byte>)    // WriteToBuffer
    | Receive(data: seq<byte>)  // one recv of Input
    | Take(n: nat)              // ReadFromBuffer or RecycleRead of at most the readable bytes

  predicate Enabled(raw: Raw, op: Op)
    requires raw.Valid()
  {
    match op
    case Write(_) => true
    case Receive(data) => |data| <= RoomMade(raw).Writeable()
    case Take(n) => n <= raw.Readable()
  }

  function Apply(raw: Raw, op: Op): (r: Raw)
    requires raw.Valid() && Enabled(raw, op)
    ensures r.Valid()
  {
    match op
    case Write(data) => AppendedEnqueues(raw, data); Appended(raw, data)
    case Receive(data) => ReceivedEnqueues(raw, data); Received(raw, data)
    case Take(n) => ReadAdvancedDequeues(raw, n); ReadAdvanced(raw, n)
  }

  predicate Runs(raw: Raw, ops: seq<Op>)
    requires raw.Valid()
    decreases |ops|
  {
    ops == [] || (Enabled(raw, ops[0]) && Runs(Apply(raw, ops[0]), ops[1..]))
  }

  function Final(raw: Raw, ops: seq<Op>): (r: Raw)
    requires raw.Valid() && Runs(raw, ops)
    ensures r.Valid()
    decreases |ops|
  {
    if ops == [] then raw else Final(Apply(raw, ops[0]), ops[1..])
  }

  function In(op: Op): seq<byte> {
    match op case Write(d) => d case Receive(d) => d case Take(_) => []
  }

  function Out(raw: Raw, op: Op): seq<byte>
    requires raw.Valid() && Enabled(raw, op)
  {
    if op.Take? then raw.Unread()[..op.n] else []
  }

  /** Everything put in by a run. */
  function PutIn(ops: seq<Op>): seq<byte> {
    if ops == [] then [] else In(ops[0]) + PutIn(ops[1..])
  }

  /** Everything taken out by a run, read off the readable bytes at each take. */
  function TakenOut(raw: Raw, ops: seq<Op>): seq<byte>
    requires raw.Valid() && Runs(raw, ops)
    decreases |ops|
  {
    if ops == [] then [] else Out(raw, ops[0]) + TakenOut(Apply(raw, ops[0]), ops[1..])
  }

  lemma StepIsFifo(raw: Raw, op: Op)
    requires raw.Valid() && Enabled(raw, op)
    ensures Out(raw, op) + Apply(raw, op).Unread() == raw.Unread() + In(op)
  {
    match op
    case Write(d) => AppendedEnqueues(raw, d);
    case Receive(d) => ReceivedEnqueues(raw, d);
    case Take(n) => ReadAdvancedDequeues(raw, n);
  }

  lemma Regroup(out: seq<byte>, outs: seq<byte>, left: seq<byte>,
                had: seq<byte>, inn: seq<byte>, ins: seq<byte>, mid: seq<byte>)
    requires out + mid == had + inn
    requires outs + left == mid + ins
    ensures (out + outs) + left == had + (inn + ins)
  {
    assert (out + outs) + left == out + (outs + left);
    assert out + (mid + ins) == (out + mid) + ins;
  }

  /** First in, first out: bytes read followed by bytes buffered are the bytes written. */
  lemma {:induction false} FirstInFirstOut(raw: Raw, ops: seq<Op>)
    requires raw.Valid() && Runs(raw, ops)
    ensures TakenOut(raw, ops) + Final(raw, ops).Unread() == raw.Unread() + PutIn(ops)
    decreases |ops|
  {
    if ops != [] {
      var next := Apply(raw, ops[0]);
      var rest := ops[1..];
      FirstInFirstOut(next, rest);
      StepIsFifo(raw, ops[0]);
      Regroup(Out(raw, ops[0]), TakenOut(next, rest), Final(next, rest).Unread(),
              raw.Unread(), In(ops[0]), PutIn(rest), next.Unread());
    }
  }

  /** At no step of the run do the readable bytes and the write in hand exceed `peak`. */
  predicate DemandWithin(raw: Raw, ops: seq<Op>, peak: nat)
    requires raw.Valid() && Runs(raw, ops)
    decreases |ops|
  {
    if ops == [] then true
    else
      && raw.Readable() + (if ops[0].Write? then |ops[0].data| else 0) <= peak
      && DemandWithin(Apply(raw, ops[0]), ops[1..], peak)
  }

  lemma StepCapacity(raw: Raw, op: Op)
    requires raw.Valid() && Enabled(raw, op)
    ensures var demand := raw.Readable() + if op.Write? then |op.data| else 0;
            Apply(raw, op).Size() <= (if raw.Size() > 3 * demand then raw.Size() else 3 * demand)
  {
    match op
    case Write(d) =>
      if |d| > raw.Writeable() {
        assert 2 * raw.read < raw.Readable() + |d|;
      }
    case Receive(d) => ReceivedEnqueues(raw, d);
    case Take(n) => ReadAdvancedDequeues(raw, n);
  }

  /** The vector never grows past three times the peak demand. */
  lemma {:induction false} CapacityBound(raw: Raw, ops: seq<Op>, peak: nat)
    requires raw.Valid() && Runs(raw, ops) && DemandWithin(raw, ops, peak)
    ensures Final(raw, ops).Size() <= (if raw.Size() > 3 * peak then raw.Size() else 3 * peak)
    decreases |ops|
  {
    if ops != [] {
      StepCapacity(raw, ops[0]);
      CapacityBound(Apply(raw, ops[0]), ops[1..], peak);
    }
  }

  /** The size of the vector that a step's `AdjustBuffer` copies into, or 0 if it copies nothing. */
  function CompactionCost(raw: Raw, op: Op): nat
    requires raw.Valid() && Enabled(raw, op)
  {
    match op
    case Write(_) => 0
    case Receive(d) => if MustCompact(RoomMade(raw)) then RoomMade(raw).Size() else 0
    case Take(n) => if MustCompact(raw.(read := raw.read + n)) then raw.Size() else 0
  }

  function TotalCost(raw: Raw, ops: seq<Op>): nat
    requires raw.Valid() && Runs(raw, ops)
    decreases |ops|
  {
    if ops == [] then 0 else CompactionCost(raw, ops[0]) + TotalCost(Apply(raw, ops[0]), ops[1..])
  }

  /** Amortised: all the compactions of a run cost at most three units per byte taken out. */
  lemma {:induction false} CompactionIsAmortised(raw: Raw, ops: seq<Op>)
    requires raw.Valid() && Runs(raw, ops)
    ensures TotalCost(raw, ops) + 3 * Final(raw, ops).read <= 3 * |TakenOut(raw, ops)| + 3 * raw.read
    decreases |ops|
  {
    if ops != [] {
      var next := Apply(raw, ops[0]);
      CompactionIsAmortised(next, ops[1..]);
    }
  }

  // ---- the class ----------------------------------------------------------------------------

  class TcpBuffer {
    var buffer: array<byte>
    var readIndex: int
    var writeIndex: int

    ghost function View(): Raw
      reads this, buffer
    {
      Raw(buffer[..], readIndex, writeIndex)
    }

    ghost predicate Valid()
      reads this, buffer
    {
      View().Valid()
    }

    constructor (size: nat)
      ensures Valid() && fresh(buffer)
      ensures View() == Raw(Zeros(size), 0, 0)
    {
      buffer := new byte[size](_ => 0);
      readIndex, writeIndex := 0, 0;
    }

    function Readable(): int
      reads this
    {
      writeIndex - readIndex
    }

    function Writeable(): int
      reads this, buffer
    {
      buffer.Length - writeIndex
    }

    /** What a socket is handed: `n` bytes from the read index on. */
    function Front(n: nat): (bytes: seq<byte>)
      requires 0 <= readIndex && readIndex + n <= writeIndex <= buffer.Length
      reads this, buffer
      ensures bytes == View().Unread()[..n]
    {
      buffer[..][readIndex..writeIndex][..n]
    }

    /** A new vector of `size` bytes holding as many readable bytes as fit. */
    method ResizeBuffer(size: nat)
      requires 0 <= readIndex <= writeIndex <= buffer.Length
      modifies this
      ensures fresh(buffer)
      ensures View() == Resized(old(View()), size)
    {
      var tmp := new byte[size](_ => 0);
      var c := Min(size, Readable());
      CopyInto(tmp, 0, buffer[readIndex..readIndex + c]);
      buffer := tmp;
      readIndex := 0;
      writeIndex := readIndex + c;
      assert buffer[..] == Resized(old(View()), size).bytes;
    }

    /** Grow if the bytes do not fit, then append them. */
    method WriteToBuffer(data: seq<byte>)
      requires Valid()
      modifies this, buffer
      ensures buffer == old(buffer) || fresh(buffer)
      ensures Valid() && View() == Appended(old(View()), data)
    {
      AppendedIsValid(View(), data);
      hide Overwrite, Resized;
      if |data| > Writeable() {
        var newSize := 3 * (writeIndex + |data|) / 2;
        RoomForWrite(View(), data);
        ResizeBuffer(newSize);
      }
      CopyBehind(data);
    }

    /** The copy at the write index. */
    method CopyBehind(data: seq<byte>)
      requires 0 <= writeIndex && writeIndex + |data| <= buffer.Length
      modifies this`writeIndex, buffer
      ensures View() == Raw(Overwrite(old(buffer[..]), old(writeIndex), data), readIndex, old(writeIndex) + |data|)
    {
      CopyInto(buffer, writeIndex, data);
      writeIndex := writeIndex + |data|;
    }

    /** Take up to `size` bytes; an empty buffer leaves `re` as it was. */
    method ReadFromBuffer(re: seq<byte>, size: nat) returns (re': seq<byte>)
      requires Valid()
      modifies this
      ensures buffer == old(buffer) || fresh(buffer)
      ensures Valid()
      ensures old(Readable()) == 0 ==> re' == re && View() == old(View())
      ensures old(Readable()) != 0 ==>
                var n := Min(size, old(Readable()));
                re' == old(View()).Unread()[..n] && View() == ReadAdvanced(old(View()), n)
    {
      hide Adjusted;
      if Readable() == 0 {
        return re;
      }
      var readSize := if Readable() > size then size else Readable();
      re' := buffer[readIndex..readIndex + readSize];
      assert View().Unread() == buffer[readIndex..writeIndex];
      readIndex := readIndex + readSize;
      var fault := AdjustBuffer();
    }

    /**
     Compact once more than a third of the vector has been read; `fault` when the read index has passed
     the write index by then, so that the size copied is negative.
     */
    method AdjustBuffer() returns (fault: bool)
      requires writeIndex <= buffer.Length
      modifies this
      ensures buffer == old(buffer) || fresh(buffer)
      ensures fault <==> MustCompact(old(View())) && old(readIndex > writeIndex)
      ensures 0 <= old(readIndex) <= old(writeIndex) ==> Valid() && View() == Adjusted(old(View()))
      ensures fault || !MustCompact(old(View())) ==> View() == old(View())
    {
      if readIndex > buffer.Length / 3 {
        var newBuffer := new byte[buffer.Length](_ => 0);
        var count := Readable();
        if count < 0 {
          return true;
        }
        CopyInto(newBuffer, 0, buffer[readIndex..writeIndex]);
        buffer := newBuffer;
        writeIndex := count;
        readIndex := 0;
        assert buffer[..] == Adjusted(old(View())).bytes;
      }
      return false;
    }

    method ClearBuffer()
      modifies this
      ensures fresh(buffer)
      ensures Valid() && View() == Raw([], 0, 0)
    {
      buffer := new byte[0];
      readIndex, writeIndex := 0, 0;
    }

    /**
     Advance the read index by any amount, or refuse an index past the vector. Outside the readable bytes
     the index is taken as it is, unless a compaction is due.
     */
    method RecycleRead(index: int) returns (fault: bool)
      requires Valid()
      modifies this
      ensures buffer == old(buffer) || fresh(buffer)
      ensures var j, raw := old(readIndex) + index, old(View());
              && (0 <= j <= raw.write || j > raw.Size() ==> !fault && Valid() && View() == ReadAdvanced(raw, index))
              && (raw.write < j <= raw.Size() ==> View() == raw.(read := j) && (fault <==> j > raw.Size() / 3))
              && (j < 0 ==> !fault && View() == raw.(read := j))
    {
      var j := readIndex + index;
      if j > buffer.Length {
        return false;
      }
      readIndex := j;
      fault := AdjustBuffer();
    }

    method RecycleWrite(index: nat)
      requires Valid()
      modifies this
      ensures buffer == old(buffer) || fresh(buffer)
      ensures Valid() && View() == WriteAdvanced(old(View()), index)
    {
      var j := writeIndex + index;
      if j > buffer.Length {
        return;
      }
      writeIndex := j;
      var fault := AdjustBuffer();
    }

    /** One turn of the loop of `Input`, the socket delivering `data` into the free room. */
    method Receive(data: seq<byte>)
      requires Valid()
      requires |data| <= RoomMade(View()).Writeable()
      modifies this, buffer
      ensures buffer == old(buffer) || fresh(buffer)
      ensures Valid() && View() == Received(old(View()), data)
    {
      if Writeable() == 0 {
        ResizedKeeps(View(), 2 * buffer.Length);
        ResizeBuffer(2 * buffer.Length);
      }
      CopyInto(buffer, writeIndex, data);
      RecycleWrite(|data|);
    }
  }

  /** `memcpy` of a value into a vector. */
  method CopyInto(dst: array<byte>, at: nat, data: seq<byte>)
    requires at + |data| <= dst.Length
    modifies dst
    ensures dst[..] == Overwrite(old(dst[..]), at, data)
  {
    for i := 0 to |data|
      invariant forall k :: 0 <= k < i ==> dst[at + k] == data[k]
      invariant forall k :: 0 <= k < dst.Length && !(at <= k < at + i) ==> dst[k] == old(dst[k])
    {
      dst[at + i] := data[i];
    }
    assert dst[..] == Overwrite(old(dst[..]), at, data);
  }
}
