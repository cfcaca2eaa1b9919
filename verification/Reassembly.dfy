/**
 Stream reassembly: whatever pieces the byte stream arrives in, alternating `recv` with the decode
 loop of `Execute` delivers the messages that were encoded, in order.
 */
module Reassembly {
  import opened Bytes
  import opened TcpBuffers
  import opened TinyPbCodec

  // ---- the decode loop ------------------------------------------------------------------------

  /** What one run of the decode loop hands on, the buffer it leaves, and whether it faulted. */
  datatype Delivery = Delivery(messages: seq<Message>, rest: Raw, fault: bool)

  lemma AfterDecodeValid(raw: Raw)
    requires raw.Valid()
    ensures AfterDecode(raw).Valid()
  {
    match Scan(raw, raw.read)
    case Hit(_, n) => if raw.read + n >= 0 { AdjustedKeeps(raw.(read := raw.read + n)); }
    case _ =>
  }

  function Delivered(raw: Raw): (d: Delivery)
    requires raw.Valid()
    ensures d.rest.Valid()
    decreases raw.Readable()
  {
    AfterDecodeValid(raw);
    if raw.Readable() <= 0 then Delivery([], raw, false)
    else
      match DecodeOutcome(raw)
      case Decoded(m, _) =>
        DecodeMakesProgress(raw);
        var d := Delivered(AfterDecode(raw));
        d.(messages := [m] + d.messages)
      case outcome => Delivery([], AfterDecode(raw), outcome.Fault?)
  }

  ghost predicate AllCarried(ms: seq<Message>) {
    forall m <- ms :: Encodable(m) && Carried(m)
  }

  /** The stream of bytes that the messages are sent as. */
  function Stream(ms: seq<Message>): seq<byte>
    requires forall m <- ms :: Encodable(m)
  {
    if ms == [] then [] else Frame(ms[0]) + Stream(ms[1..])
  }

  lemma {:induction false} StreamAppend(a: seq<Message>, b: seq<Message>)
    requires forall m <- a + b :: Encodable(m)
    ensures forall m <- a :: m in a + b
    ensures forall m <- b :: m in a + b
    ensures Stream(a + b) == Stream(a) + Stream(b)
  {
    if a == [] {
      assert a + b == b;
    } else {
      assert (a + b)[1..] == a[1..] + b;
      StreamAppend(a[1..], b);
    }
  }

  // ---- an incomplete packet at the front --------------------------------------------------------

  /** The scan of the raw vector takes no position for the start of a non-empty packet. */
  predicate Quiet(raw: Raw)
    requires raw.Valid()
  {
    match Scan(raw, raw.read)
    case NoHit => true
    case Hit(_, n) => n == 0
    case BadAccess => false
  }

  /** Decoding leaves the buffer as it is, and nothing is delivered, exactly when the scan is quiet. */
  lemma QuietExactly(raw: Raw)
    requires raw.Valid()
    ensures Quiet(raw) <==>
              !DecodeOutcome(raw).Fault? && !DecodeOutcome(raw).Decoded? && AfterDecode(raw) == raw
  {
    match Scan(raw, raw.read)
    case Hit(_, n) =>
      if raw.read + n >= 0 {
        AdjustedKeeps(raw.(read := raw.read + n));
        assert AfterDecode(raw).Readable() == |AfterDecode(raw).Unread()| == raw.Readable() - n;
      }
    case _ =>
  }

  /** The head of a packet whose first five bytes are not all there yet. */
  lemma ShortHeadIsQuiet(raw: Raw, m: Message)
    requires raw.Valid() && raw.Size() >= 8 && Encodable(m)
    requires 2 <= raw.Readable() < 5 && raw.Unread() == Frame(m)[..raw.Readable()]
    requires raw.read > 0
    ensures var t := TestAt(raw, raw.read); t.NoHit? || (t.Hit? && t.pkLen == 0)
  {
    var r := raw.read;
    var f := Frame(m);
    var header := raw.bytes[r + 1..r + 5];
    assert forall k :: 0 <= k < raw.Readable() ==> raw.bytes[r + k] == raw.Unread()[k] == f[k];
    assert f[1] == ToNet(FrameLength(m))[0] < 128;
    assert header[0] == raw.bytes[r + 1];
    var pkLen := FromNet(header);
    assert pkLen >= 0;
    if 1 <= pkLen && r + pkLen - 1 < raw.write {
      assert header[0] == 0 && header[1] == 0 && header[2] == 0;
      assert raw.bytes[r + 1] == 0 && raw.bytes[r + 2] == 0 && raw.bytes[r + 3] == 0;
    }
  }

  /**
   An incomplete packet is left alone if none of its bytes after the first is a start mark, unless
   its header has been cut within the length and sits at the very start of the vector.
   */
  lemma UnmarkedHeadIsQuiet(raw: Raw, m: Message)
    requires raw.Valid() && raw.Size() >= 8 && Encodable(m)
    requires 1 <= raw.Readable() < FrameLength(m) && raw.Unread() == Frame(m)[..raw.Readable()]
    requires PB_START !in Frame(m)[1..]
    requires raw.read > 0 || !(2 <= raw.Readable() < 5)
    ensures Quiet(raw)
  {
    hide FromNet;
    var f := Frame(m);
    var n := raw.Readable();
    assert forall k :: 0 <= k < n ==> raw.bytes[raw.read + k] == raw.Unread()[k] == f[k];
    forall i | raw.read < i < raw.write
      ensures TestAt(raw, i).NoHit?
    {
      assert raw.bytes[i] == f[1..][i - raw.read - 1];
    }
    ScanSkips(raw, raw.read + 1);
    if 2 <= n < 5 {
      ShortHeadIsQuiet(raw, m);
    } else if n >= 5 {
      assert raw.bytes[raw.read + 1..raw.read + 5] == f[1..5] == ToNet(FrameLength(m));
      NetRoundTrip(FrameLength(m));
    }
  }

  lemma {:induction false} ScanSkips(raw: Raw, i: int)
    requires raw.Valid() && raw.read <= i <= raw.write
    requires forall k | i <= k < raw.write :: TestAt(raw, k).NoHit?
    ensures Scan(raw, i) == NoHit
    decreases raw.write - i
  {
    if i < raw.write {
      ScanSkips(raw, i + 1);
    }
  }

  /** The exception is real: the first two bytes of a packet, received first, make Decode read before the vector. */
  lemma CutHeaderFaults()
    ensures var raw := Raw([PB_START, 0] + Zeros(126), 0, 2);
            && raw.Valid() && DecodeOutcome(raw) == Fault
            && raw.Unread() <= Frame(Message([65], [66], 0, [], []))
  {
    var raw := Raw([PB_START, 0] + Zeros(126), 0, 2);
    assert raw.bytes[1..5] == [0, 0, 0, 0];
    assert Frame(Message([65], [66], 0, [], []))[..2] == [PB_START, 0];
  }

  // ---- draining complete packets ----------------------------------------------------------------

  /** The reference for the loop: knowing the messages, drop the frames that are complete. */
  function Drained(raw: Raw, ms: seq<Message>): (d: (Raw, nat))
    requires raw.Valid() && forall m <- ms :: Encodable(m)
    ensures d.0.Valid() && d.1 <= |ms|
    decreases |ms|
  {
    if ms == [] || raw.Readable() < FrameLength(ms[0]) then (raw, 0)
    else
      ReadAdvancedDequeues(raw, FrameLength(ms[0]));
      var d := Drained(ReadAdvanced(raw, FrameLength(ms[0])), ms[1..]);
      (d.0, d.1 + 1)
  }

  lemma {:induction false} DrainedSplits(raw: Raw, ms: seq<Message>)
    requires raw.Valid() && forall m <- ms :: Encodable(m)
    requires raw.Unread() <= Stream(ms)
    ensures var (rest, n) := Drained(raw, ms);
            && raw.Unread() == Stream(ms[..n]) + rest.Unread()
            && rest.Unread() <= Stream(ms[n..])
            && (n == |ms| || rest.Readable() < FrameLength(ms[n]))
    decreases |ms|
  {
    hide Frame, ReadAdvanced;
    var (rest, n) := Drained(raw, ms);
    if n == 0 {
      assert ms[..0] == [] && ms[0..] == ms;
    } else {
      var next := ReadAdvanced(raw, FrameLength(ms[0]));
      FirstFrame(raw, ms);
      DrainedSplits(next, ms[1..]);
      assert ms[n..] == ms[1..][n - 1..];
      StreamHead(ms, n);
      Reassociate(Frame(ms[0]), Stream(ms[1..][..n - 1]), rest.Unread());
    }
  }

  lemma StreamAtLeast(ms: seq<Message>)
    requires forall m <- ms :: Encodable(m)
    ensures if ms == [] then Stream(ms) == [] else |Stream(ms)| >= FrameLength(ms[0])
  {
  }

  lemma Reassociate(a: seq<byte>, b: seq<byte>, c: seq<byte>)
    ensures a + (b + c) == (a + b) + c
  {
  }

  lemma StreamHead(ms: seq<Message>, n: nat)
    requires forall m <- ms :: Encodable(m)
    requires 1 <= n <= |ms|
    ensures Stream(ms[..n]) == Frame(ms[0]) + Stream(ms[1..][..n - 1])
  {
    hide Frame;
    assert ms[..n][1..] == ms[1..][..n - 1];
  }

  /** The first frame of a stream that has arrived whole is at the front of the readable bytes. */
  lemma FirstFrame(raw: Raw, ms: seq<Message>)
    requires raw.Valid() && forall m <- ms :: Encodable(m)
    requires raw.Unread() <= Stream(ms) && ms != [] && raw.Readable() >= FrameLength(ms[0])
    ensures var next := ReadAdvanced(raw, FrameLength(ms[0]));
            && next.Valid()
            && raw.Unread() == Frame(ms[0]) + next.Unread()
            && next.Unread() <= Stream(ms[1..])
  {
    hide Frame, ReadAdvanced;
    var f := Frame(ms[0]);
    ReadAdvancedDequeues(raw, |f|);
    PrefixOfJoined(raw.Unread(), f, Stream(ms[1..]));
  }

  lemma PrefixOfJoined(u: seq<byte>, a: seq<byte>, b: seq<byte>)
    requires u <= a + b && |u| >= |a|
    ensures u == a + u[|a|..] && u[|a|..] <= b
  {
    assert u[..|a|] == (a + b)[..|a|] == a;
  }

  /** On a stream of carried messages the loop of `Execute` delivers exactly the complete packets. */
  lemma {:induction false} LoopDrains(raw: Raw, ms: seq<Message>)
    requires raw.Valid() && AllCarried(ms)
    requires raw.Unread() <= Stream(ms)
    requires var rest := Drained(raw, ms).0; rest.Readable() == 0 || Quiet(rest)
    ensures var (rest, n) := Drained(raw, ms); Delivered(raw) == Delivery(ms[..n], rest, false)
    decreases |ms|
  {
    hide DecodeOutcome, AfterDecode, Carried, Encodable, Frame, Quiet, ReadAdvanced;
    var (rest, n) := Drained(raw, ms);
    if n == 0 {
      assert ms[..0] == [];
      QuietExactly(raw);
    } else {
      var m := ms[0];
      var next := ReadAdvanced(raw, FrameLength(m));
      FirstFrame(raw, ms);
      RoundTrip(raw, m, next.Unread());
      DecodeOfFrame(raw, m, next.Unread());
      LoopDrains(next, ms[1..]);
      assert ms[..n] == [m] + ms[1..][..n - 1];
    }
  }

  // ---- whole sessions ---------------------------------------------------------------------------

  /** A buffer holding exactly the encodings of `ms` is drained to the last byte. */
  lemma CompleteStream(raw: Raw, ms: seq<Message>)
    requires raw.Valid() && AllCarried(ms) && raw.Unread() == Stream(ms)
    ensures Delivered(raw).messages == ms && !Delivered(raw).fault
    ensures Delivered(raw).rest.Unread() == []
  {
    hide Delivered, Drained, Quiet, Frame, Carried, Stream;
    var (rest, n) := Drained(raw, ms);
    DrainedSplits(raw, ms);
    assert ms == ms[..n] + ms[n..];
    StreamAppend(ms[..n], ms[n..]);
    assert rest.Unread() == Stream(ms[n..]) by {
      assert raw.Unread()[|Stream(ms[..n])|..] == rest.Unread();
      assert (Stream(ms[..n]) + Stream(ms[n..]))[|Stream(ms[..n])|..] == Stream(ms[n..]);
    }
    StreamAtLeast(ms[n..]);
    LoopDrains(raw, ms);
  }

  /** And only of carried messages can a buffer holding exactly their encodings deliver them all. */
  lemma {:induction false} OnlyCarriedAreDelivered(raw: Raw, ms: seq<Message>)
    requires raw.Valid() && (forall m <- ms :: Encodable(m)) && raw.Unread() == Stream(ms)
    requires Delivered(raw).messages == ms
    ensures forall m <- ms :: Carried(m)
    decreases |ms|
  {
    hide DecodeOutcome, AfterDecode, Frame, Carried;
    if ms != [] {
      DecodeOfFrame(raw, ms[0], Stream(ms[1..]));
      FateOfCarried(ms[0]);
      OnlyCarriedAreDelivered(AfterDecode(raw), ms[1..]);
      assert forall m <- ms :: m == ms[0] || m in ms[1..];
    }
  }

  datatype Event = Recv(chunk: seq<byte>) | Exec

  predicate Possible(raw: Raw, evs: seq<Event>)
    requires raw.Valid()
    decreases |evs|
  {
    evs == [] ||
    match evs[0]
    case Recv(c) =>
      |c| <= RoomMade(raw).Writeable() && (ReceivedEnqueues(raw, c); Possible(Received(raw, c), evs[1..]))
    case Exec => !Delivered(raw).fault ==> Possible(Delivered(raw).rest, evs[1..])
  }

  /** Everything delivered over a session, and the buffer at its end; a fault ends it. */
  function Session(raw: Raw, evs: seq<Event>): (d: Delivery)
    requires raw.Valid() && Possible(raw, evs)
    ensures d.rest.Valid()
    decreases |evs|
  {
    if evs == [] then Delivery([], raw, false)
    else
      match evs[0]
      case Recv(c) => ReceivedEnqueues(raw, c); Session(Received(raw, c), evs[1..])
      case Exec =>
        var d := Delivered(raw);
        if d.fault then d
        else
          var later := Session(d.rest, evs[1..]);
          later.(messages := d.messages + later.messages)
  }

  function Arrived(evs: seq<Event>): seq<byte> {
    if evs == [] then [] else (if evs[0].Recv? then evs[0].chunk else []) + Arrived(evs[1..])
  }

  /** Each time the loop comes to an incomplete packet, the scan of the raw vector is quiet. */
  predicate QuietSession(raw: Raw, ms: seq<Message>, evs: seq<Event>)
    requires raw.Valid() && forall m <- ms :: Encodable(m)
    decreases |evs|
  {
    if evs == [] then true
    else
      match evs[0]
      case Recv(c) =>
        |c| <= RoomMade(raw).Writeable() ==>
          (ReceivedEnqueues(raw, c); QuietSession(Received(raw, c), ms, evs[1..]))
      case Exec =>
        var (rest, n) := Drained(raw, ms);
        (rest.Readable() == 0 || Quiet(rest)) && QuietSession(rest, ms[n..], evs[1..])
  }

  /**
   Reassembly. If what has arrived is a beginning of the encodings of `ms`, then at every moment of
   the session the messages delivered are a beginning of `ms`, in order and without a fault, and the
   bytes of the delivered packets followed by the bytes buffered are the bytes that arrived.
   */
  lemma {:induction false} DeliversAPrefix(raw: Raw, ms: seq<Message>, evs: seq<Event>)
    requires raw.Valid() && AllCarried(ms) && Possible(raw, evs)
    requires raw.Unread() + Arrived(evs) <= Stream(ms)
    requires QuietSession(raw, ms, evs)
    ensures var s := Session(raw, evs);
            && !s.fault
            && s.messages <= ms
            && Stream(s.messages) + s.rest.Unread() == raw.Unread() + Arrived(evs)
    decreases |evs|
  {
    hide Received, RoomMade, Delivered, Drained, Quiet, Frame, Carried;
    if evs != [] {
      var later := evs[1..];
      match evs[0]
      case Recv(c) =>
        ReceivedEnqueues(raw, c);
        assert raw.Unread() + Arrived(evs) == Received(raw, c).Unread() + Arrived(later);
        DeliversAPrefix(Received(raw, c), ms, later);
      case Exec =>
        ExecThenLater(raw, ms, evs);
    }
  }

  lemma {:induction false} ExecThenLater(raw: Raw, ms: seq<Message>, evs: seq<Event>)
    requires raw.Valid() && AllCarried(ms) && Possible(raw, evs)
    requires raw.Unread() + Arrived(evs) <= Stream(ms)
    requires QuietSession(raw, ms, evs)
    requires evs != [] && evs[0].Exec?
    ensures var s := Session(raw, evs);
            && !s.fault
            && s.messages <= ms
            && Stream(s.messages) + s.rest.Unread() == raw.Unread() + Arrived(evs)
    decreases |evs|, 0
  {
    hide Quiet, Carried, Encodable, Delivered, Drained, Frame, Stream, Session, Possible, QuietSession, Arrived;
    var later := evs[1..];
    var (rest, n) := Drained(raw, ms);
    var arrived := Arrived(later);
    ExecFirst(raw, ms, evs);
    DrainedSplits(raw, ms) by { assert raw.Unread() <= raw.Unread() + arrived; }
    LoopDrains(raw, ms);
    assert ms == ms[..n] + ms[n..];
    StreamAppend(ms[..n], ms[n..]);
    CancelDrained(raw.Unread(), arrived, Stream(ms[..n]), Stream(ms[n..]), rest.Unread());
    DeliversAPrefix(rest, ms[n..], later);
    var s := Session(rest, later);
    StreamAppend(ms[..n], s.messages);
    RestoreDrained(raw.Unread(), arrived, Stream(ms[..n]), rest.Unread(), Stream(s.messages), s.rest.Unread());
    assert ms[..n] + s.messages <= ms;
  }

  /** A session that begins with a run of the loop. */
  lemma ExecFirst(raw: Raw, ms: seq<Message>, evs: seq<Event>)
    requires raw.Valid() && (forall m <- ms :: Encodable(m)) && Possible(raw, evs)
    requires evs != [] && evs[0].Exec? && QuietSession(raw, ms, evs)
    ensures Arrived(evs) == Arrived(evs[1..])
    ensures var d := Delivered(raw);
            !d.fault ==>
              && Possible(d.rest, evs[1..])
              && Session(raw, evs) == var s := Session(d.rest, evs[1..]); s.(messages := d.messages + s.messages)
    ensures var (rest, n) := Drained(raw, ms);
            (rest.Readable() == 0 || Quiet(rest)) && QuietSession(rest, ms[n..], evs[1..])
  {
    hide Quiet, Encodable, Delivered, Drained;
    assert [] + Arrived(evs[1..]) == Arrived(evs[1..]);
  }

  lemma CancelDrained(unread: seq<byte>, arrived: seq<byte>, drained: seq<byte>, later: seq<byte>, left: seq<byte>)
    requires unread == drained + left && unread + arrived <= drained + later
    ensures left + arrived <= later
  {
    assert unread + arrived == drained + (left + arrived);
    assert (drained + later)[|drained|..] == later;
    assert (unread + arrived)[|drained|..] == left + arrived;
  }

  lemma RestoreDrained(unread: seq<byte>, arrived: seq<byte>, drained: seq<byte>, left: seq<byte>,
                       sent: seq<byte>, end: seq<byte>)
    requires unread == drained + left && sent + end == left + arrived
    ensures (drained + sent) + end == unread + arrived
  {
    assert (drained + sent) + end == drained + (sent + end);
  }

  lemma {:induction false} ArrivedThenExec(evs: seq<Event>)
    ensures Arrived(evs + [Exec]) == Arrived(evs)
  {
    if evs != [] {
      assert (evs + [Exec])[1..] == evs[1..] + [Exec];
      ArrivedThenExec(evs[1..]);
    }
  }

  lemma {:induction false} SessionThenExec(raw: Raw, evs: seq<Event>)
    requires raw.Valid() && Possible(raw, evs + [Exec])
    ensures Possible(raw, evs)
    ensures var s := Session(raw, evs);
            !s.fault ==>
              var d := Delivered(s.rest);
              Session(raw, evs + [Exec]) == Delivery(s.messages + d.messages, d.rest, d.fault)
    decreases |evs|
  {
    hide Delivered, Received;
    if evs != [] {
      assert (evs + [Exec])[1..] == evs[1..] + [Exec];
      match evs[0]
      case Recv(c) =>
        ReceivedEnqueues(raw, c);
        SessionThenExec(Received(raw, c), evs[1..]);
      case Exec =>
        if !Delivered(raw).fault {
          SessionThenExec(Delivered(raw).rest, evs[1..]);
        }
    }
  }

  /** Once all of the stream has arrived, the next run of the loop completes the delivery of `ms`. */
  lemma DeliversEverything(raw: Raw, ms: seq<Message>, evs: seq<Event>)
    requires raw.Valid() && AllCarried(ms) && Possible(raw, evs + [Exec])
    requires Possible(raw, evs) && raw.Unread() + Arrived(evs) == Stream(ms)
    requires QuietSession(raw, ms, evs)
    ensures var s := Session(raw, evs + [Exec]);
            !s.fault && s.messages == ms && s.rest.Unread() == []
  {
    hide Delivered, Session, Arrived, Carried, Encodable, Stream, QuietSession, Possible;
    SessionThenExec(raw, evs);
    DeliversAPrefix(raw, ms, evs);
    var s := Session(raw, evs);
    var k := |s.messages|;
    assert ms == ms[..k] + ms[k..];
    StreamAppend(ms[..k], ms[k..]);
    assert s.messages == ms[..k];
    assert Stream(ms)[|Stream(ms[..k])|..] == Stream(ms[k..]);
    assert (Stream(ms[..k]) + s.rest.Unread())[|Stream(ms[..k])|..] == s.rest.Unread();
    CompleteStream(s.rest, ms[k..]);
  }

  // ---- the proviso is exact -----------------------------------------------------------------------------

  /** One run of the loop does what it should: a prefix of `ms`, no fault, no byte lost or invented. */
  ghost predicate LoopBehaves(raw: Raw, ms: seq<Message>)
    requires raw.Valid() && forall m <- ms :: Encodable(m)
  {
    var d := Delivered(raw);
    !d.fault && d.messages <= ms && Stream(d.messages) + d.rest.Unread() == raw.Unread()
  }

  lemma NotQuietMisbehaves(raw: Raw, ms: seq<Message>)
    requires raw.Valid() && forall m <- ms :: Encodable(m)
    requires raw.Readable() > 0 && !Quiet(raw)
    requires ms == [] || raw.Readable() < FrameLength(ms[0])
    ensures !LoopBehaves(raw, ms)
  {
    hide Frame, Quiet;
    QuietExactly(raw);
    AfterDecodeValid(raw);
    var d := Delivered(raw);
    assert |raw.Unread()| == raw.Readable() && |d.rest.Unread()| == d.rest.Readable() && Stream([]) == [];
    match DecodeOutcome(raw)
    case Decoded(m, _) =>
      if d.messages <= ms {
        assert d.messages[0] == ms[0];
        StreamAtLeast(d.messages);
      }
    case Fault =>
    case _ =>
      AfterDecodeMoves(raw);
  }

  lemma AfterDecodeMoves(raw: Raw)
    requires raw.Valid() && AfterDecode(raw) != raw
    ensures AfterDecode(raw).Readable() != raw.Readable()
  {
    match Scan(raw, raw.read)
    case Hit(_, n) =>
      if raw.read + n >= 0 {
        AdjustedKeeps(raw.(read := raw.read + n));
        assert |AfterDecode(raw).Unread()| == raw.Readable() - n;
      }
    case _ =>
  }

  /** On a stream of carried messages one run of the loop behaves exactly if the scan is quiet at what it comes to. */
  lemma {:induction false} LoopExactly(raw: Raw, ms: seq<Message>)
    requires raw.Valid() && AllCarried(ms) && raw.Unread() <= Stream(ms)
    ensures var rest := Drained(raw, ms).0; LoopBehaves(raw, ms) <==> rest.Readable() == 0 || Quiet(rest)
    decreases |ms|
  {
    hide Frame, Quiet, DecodeOutcome, AfterDecode, Carried, Encodable, ReadAdvanced, LoopBehaves;
    var (rest, n) := Drained(raw, ms);
    if rest.Readable() == 0 || Quiet(rest) {
      LoopDrains(raw, ms);
      DrainedSplits(raw, ms);
      DrainedBehaves(raw, ms);
    } else if n == 0 {
      NotQuietMisbehaves(raw, ms);
    } else {
      var next := ReadAdvanced(raw, FrameLength(ms[0]));
      FirstFrame(raw, ms);
      RoundTrip(raw, ms[0], next.Unread());
      DecodeOfFrame(raw, ms[0], next.Unread());
      LoopExactly(next, ms[1..]);
      if LoopBehaves(raw, ms) {
        BehavesBehindFirst(raw, next, ms);
      }
    }
  }

  lemma DrainedBehaves(raw: Raw, ms: seq<Message>)
    requires raw.Valid() && forall m <- ms :: Encodable(m)
    requires var (rest, n) := Drained(raw, ms);
             && Delivered(raw) == Delivery(ms[..n], rest, false)
             && raw.Unread() == Stream(ms[..n]) + rest.Unread()
    ensures LoopBehaves(raw, ms)
  {
    hide Delivered, Drained, Stream;
  }

  lemma BehavesBehindFirst(raw: Raw, next: Raw, ms: seq<Message>)
    requires raw.Valid() && next.Valid() && ms != [] && forall m <- ms :: Encodable(m)
    requires raw.Unread() == Frame(ms[0]) + next.Unread()
    requires var d := Delivered(next); Delivered(raw) == d.(messages := [ms[0]] + d.messages)
    requires LoopBehaves(raw, ms)
    ensures LoopBehaves(next, ms[1..])
  {
    hide Delivered, Frame;
    var d := Delivered(next);
    var all := [ms[0]] + d.messages;
    assert all[1..] == d.messages;
    assert d.messages <= ms[1..] by { assert all <= ms; }
    Reassociate(Frame(ms[0]), Stream(d.messages), d.rest.Unread());
    assert (Frame(ms[0]) + next.Unread())[|Frame(ms[0])|..] == next.Unread();
    assert (Frame(ms[0]) + (Stream(d.messages) + d.rest.Unread()))[|Frame(ms[0])|..] == Stream(d.messages) + d.rest.Unread();
  }

  /** A session does what it should. */
  ghost predicate Behaves(raw: Raw, ms: seq<Message>, evs: seq<Event>)
    requires raw.Valid() && forall m <- ms :: Encodable(m)
  {
    Possible(raw, evs) &&
    var s := Session(raw, evs);
    !s.fault && s.messages <= ms && Stream(s.messages) + s.rest.Unread() == raw.Unread() + Arrived(evs)
  }

  ghost predicate AlwaysBehaves(raw: Raw, ms: seq<Message>, evs: seq<Event>)
    requires raw.Valid() && forall m <- ms :: Encodable(m)
  {
    forall k :: 0 <= k <= |evs| ==> Behaves(raw, ms, evs[..k])
  }

  lemma TakeTail(evs: seq<Event>, k: nat)
    requires 1 <= k <= |evs|
    ensures evs[..k] != [] && evs[..k][0] == evs[0] && evs[..k][1..] == evs[1..][..k - 1]
  {
  }

  /** The beginnings of a quiet session are quiet sessions. */
  lemma {:induction false} QuietPrefix(raw: Raw, ms: seq<Message>, evs: seq<Event>, k: nat)
    requires raw.Valid() && (forall m <- ms :: Encodable(m)) && k <= |evs|
    requires Possible(raw, evs) && QuietSession(raw, ms, evs) && AllCarried(ms) && raw.Unread() + Arrived(evs) <= Stream(ms)
    ensures Possible(raw, evs[..k]) && QuietSession(raw, ms, evs[..k])
    decreases |evs|
  {
    hide Quiet, Frame, Encodable, Carried, Drained, Delivered, Received, RoomMade, Stream;
    if k > 0 {
      TakeTail(evs, k);
      var later := evs[1..];
      match evs[0]
      case Recv(c) =>
        ReceivedEnqueues(raw, c);
        assert raw.Unread() + Arrived(evs) == Received(raw, c).Unread() + Arrived(later);
        QuietPrefix(Received(raw, c), ms, later, k - 1);
      case Exec =>
        var (rest, n) := Drained(raw, ms);
        QuietExec(raw, ms, evs);
        QuietPrefix(rest, ms[n..], later, k - 1);
    }
  }

  /** What a quiet run of the loop leaves for the rest of the session. */
  lemma QuietExec(raw: Raw, ms: seq<Message>, evs: seq<Event>)
    requires raw.Valid() && AllCarried(ms) && evs != [] && evs[0].Exec?
    requires raw.Unread() + Arrived(evs) <= Stream(ms)
    requires var rest := Drained(raw, ms).0; rest.Readable() == 0 || Quiet(rest)
    ensures var (rest, n) := Drained(raw, ms);
            && Delivered(raw) == Delivery(ms[..n], rest, false)
            && AllCarried(ms[n..])
            && raw.Unread() == Stream(ms[..n]) + rest.Unread()
            && rest.Unread() + Arrived(evs[1..]) <= Stream(ms[n..])
  {
    hide Quiet, Carried, Encodable, Delivered, Drained, Frame, Stream, Arrived;
    var (rest, n) := Drained(raw, ms);
    var arrived := Arrived(evs[1..]);
    ArrivedAtExec(evs);
    DrainedSplits(raw, ms) by { assert raw.Unread() <= raw.Unread() + arrived; }
    LoopDrains(raw, ms);
    assert ms == ms[..n] + ms[n..];
    StreamAppend(ms[..n], ms[n..]);
    CancelDrained(raw.Unread(), arrived, Stream(ms[..n]), Stream(ms[n..]), rest.Unread());
  }

  lemma ArrivedAtExec(evs: seq<Event>)
    requires evs != [] && evs[0].Exec?
    ensures Arrived(evs) == Arrived(evs[1..])
  {
    assert [] + Arrived(evs[1..]) == Arrived(evs[1..]);
  }

  lemma {:induction false} ArrivedPrefix(evs: seq<Event>, k: nat)
    requires k <= |evs|
    ensures Arrived(evs[..k]) <= Arrived(evs)
  {
    if k > 0 {
      TakeTail(evs, k);
      ArrivedPrefix(evs[1..], k - 1);
    }
  }

  /** A session that begins with a chunk. */
  lemma RecvFirst(raw: Raw, evs: seq<Event>)
    requires raw.Valid() && Possible(raw, evs) && evs != [] && evs[0].Recv?
    ensures |evs[0].chunk| <= RoomMade(raw).Writeable()
    ensures var next := Received(raw, evs[0].chunk);
            && next.Valid() && Possible(next, evs[1..])
            && Session(raw, evs) == Session(next, evs[1..])
            && raw.Unread() + Arrived(evs) == next.Unread() + Arrived(evs[1..])
  {
    hide Received, RoomMade;
    ReceivedEnqueues(raw, evs[0].chunk);
    Reassociate(raw.Unread(), evs[0].chunk, Arrived(evs[1..]));
  }

  lemma BehavesAfterRecv(raw: Raw, ms: seq<Message>, evs: seq<Event>)
    requires raw.Valid() && (forall m <- ms :: Encodable(m)) && evs != [] && evs[0].Recv?
    requires Behaves(raw, ms, evs)
    ensures |evs[0].chunk| <= RoomMade(raw).Writeable()
    ensures Received(raw, evs[0].chunk).Valid() && Behaves(Received(raw, evs[0].chunk), ms, evs[1..])
  {
    hide Received, RoomMade, Stream, Session, Possible, Arrived;
    RecvFirst(raw, evs);
  }

  /** Cancel what one run of the loop has delivered from the front of a session. */
  lemma BehavesAfterExec(raw: Raw, ms: seq<Message>, evs: seq<Event>, rest: Raw, n: nat)
    requires raw.Valid() && rest.Valid() && (forall m <- ms :: Encodable(m)) && evs != [] && evs[0].Exec? && n <= |ms|
    requires Delivered(raw) == Delivery(ms[..n], rest, false) && raw.Unread() == Stream(ms[..n]) + rest.Unread()
    requires Behaves(raw, ms, evs)
    ensures Behaves(rest, ms[n..], evs[1..])
  {
    hide Delivered, Stream, Frame, Encodable, Arrived;
    ArrivedAtExec(evs);
    var s, done := Session(rest, evs[1..]), ms[..n];
    assert Session(raw, evs).messages == done + s.messages;
    assert s.messages <= ms[n..] by {
      assert (done + s.messages)[n..] == s.messages;
      assert done + s.messages <= ms;
    }
    assert forall m <- done + s.messages :: m in ms;
    StreamAppend(done, s.messages);
    var a, arrived := Stream(done), Arrived(evs[1..]);
    assert (a + Stream(s.messages) + s.rest.Unread())[|a|..] == Stream(s.messages) + s.rest.Unread();
    assert (a + rest.Unread() + arrived)[|a|..] == rest.Unread() + arrived;
  }

  lemma {:induction false} BehavingIsQuiet(raw: Raw, ms: seq<Message>, evs: seq<Event>)
    requires raw.Valid() && AllCarried(ms) && raw.Unread() + Arrived(evs) <= Stream(ms)
    requires AlwaysBehaves(raw, ms, evs)
    ensures QuietSession(raw, ms, evs)
    decreases |evs|
  {
    hide Behaves, Quiet, Frame, Encodable, Carried, Drained, Delivered, Received, RoomMade, Stream;
    if evs != [] {
      var later := evs[1..];
      assert evs[..1] == [evs[0]];
      match evs[0]
      case Recv(c) =>
        ReceivedEnqueuesIfBehaves(raw, ms, evs[..1]);
        ReceivedEnqueues(raw, c);
        forall k | 0 <= k <= |later|
          ensures Behaves(Received(raw, c), ms, later[..k])
        {
          TakeTail(evs, k + 1);
          BehavesAfterRecv(raw, ms, evs[..k + 1]);
        }
        assert raw.Unread() + Arrived(evs) == Received(raw, c).Unread() + Arrived(later);
        BehavingIsQuiet(Received(raw, c), ms, later);
      case Exec =>
        assert Behaves(raw, ms, evs[..1]);
        FirstRunBehaves(raw, ms);
        ArrivedAtExec(evs);
        assert raw.Unread() <= Stream(ms) by { assert raw.Unread() <= raw.Unread() + Arrived(evs); }
        LoopExactly(raw, ms);
        QuietExec(raw, ms, evs);
        var (rest, n) := Drained(raw, ms);
        forall k | 0 <= k <= |later|
          ensures Behaves(rest, ms[n..], later[..k])
        {
          TakeTail(evs, k + 1);
          BehavesAfterExec(raw, ms, evs[..k + 1], rest, n);
        }
        BehavingIsQuiet(rest, ms[n..], later);
    }
  }

  lemma ReceivedEnqueuesIfBehaves(raw: Raw, ms: seq<Message>, evs: seq<Event>)
    requires raw.Valid() && (forall m <- ms :: Encodable(m)) && evs != [] && evs[0].Recv?
    requires Behaves(raw, ms, evs)
    ensures |evs[0].chunk| <= RoomMade(raw).Writeable()
  {
  }

  lemma FirstRunBehaves(raw: Raw, ms: seq<Message>)
    requires raw.Valid() && (forall m <- ms :: Encodable(m)) && Behaves(raw, ms, [Exec])
    ensures LoopBehaves(raw, ms)
  {
    hide Delivered, Stream;
    var d := Delivered(raw);
    assert [Exec][1..] == [];
    assert !d.fault ==> d.messages + [] == d.messages;
    assert raw.Unread() + Arrived([Exec]) == raw.Unread();
  }

  /**
   The proviso of reassembly is exact: a session on the stream of carried messages does what it should at
   every moment exactly if the scan is quiet each time the loop comes to an incomplete packet.
   */
  lemma SessionExactly(raw: Raw, ms: seq<Message>, evs: seq<Event>)
    requires raw.Valid() && AllCarried(ms) && Possible(raw, evs)
    requires raw.Unread() + Arrived(evs) <= Stream(ms)
    ensures AlwaysBehaves(raw, ms, evs) <==> QuietSession(raw, ms, evs)
  {
    hide Possible, QuietSession, Carried, Encodable, Stream, Arrived, Session;
    if AlwaysBehaves(raw, ms, evs) {
      BehavingIsQuiet(raw, ms, evs);
    }
    if QuietSession(raw, ms, evs) {
      forall k | 0 <= k <= |evs|
        ensures Behaves(raw, ms, evs[..k])
      {
        QuietPrefix(raw, ms, evs, k);
        ArrivedPrefix(evs, k);
        assert raw.Unread() + Arrived(evs[..k]) <= raw.Unread() + Arrived(evs);
        DeliversAPrefix(raw, ms, evs[..k]);
      }
    }
  }

  // ---- a proviso about the messages instead of the raw vector -------------------------------------

  /** No start mark inside a packet, after its first byte. */
  ghost predicate AllUnmarked(ms: seq<Message>)
    requires forall m <- ms :: Encodable(m)
  {
    forall m <- ms :: PB_START !in Frame(m)[1..]
  }

  /** The loop never meets a header cut within the length at the very start of the vector. */
  predicate NeverCutAtStart(raw: Raw, ms: seq<Message>, evs: seq<Event>)
    requires raw.Valid() && forall m <- ms :: Encodable(m)
    decreases |evs|
  {
    if evs == [] then true
    else
      match evs[0]
      case Recv(c) =>
        |c| <= RoomMade(raw).Writeable() ==>
          (ReceivedEnqueues(raw, c); NeverCutAtStart(Received(raw, c), ms, evs[1..]))
      case Exec =>
        var (rest, n) := Drained(raw, ms);
        !(rest.read == 0 && 2 <= rest.Readable() < 5) && NeverCutAtStart(rest, ms[n..], evs[1..])
  }

  lemma {:induction false} DrainedKeepsSize(raw: Raw, ms: seq<Message>)
    requires raw.Valid() && forall m <- ms :: Encodable(m)
    ensures Drained(raw, ms).0.Size() == raw.Size()
    decreases |ms|
  {
    hide ReadAdvanced;
    if ms != [] && raw.Readable() >= FrameLength(ms[0]) {
      ReadAdvancedDequeues(raw, FrameLength(ms[0]));
      DrainedKeepsSize(ReadAdvanced(raw, FrameLength(ms[0])), ms[1..]);
    }
  }

  lemma LeftoverIsQuiet(raw: Raw, ms: seq<Message>)
    requires raw.Valid() && raw.Size() >= 8
    requires (forall m <- ms :: Encodable(m)) && AllUnmarked(ms)
    requires raw.Unread() <= Stream(ms)
    requires ms == [] || raw.Readable() < FrameLength(ms[0])
    requires !(raw.read == 0 && 2 <= raw.Readable() < 5)
    ensures raw.Readable() == 0 || Quiet(raw)
  {
    hide Quiet, Frame;
    if ms != [] && raw.Readable() > 0 {
      assert Stream(ms)[..raw.Readable()] == Frame(ms[0])[..raw.Readable()];
      UnmarkedHeadIsQuiet(raw, ms[0]);
    }
  }

  /** For messages free of inner start marks the proviso reduces to where a header may be cut. */
  lemma {:induction false} UnmarkedSessionIsQuiet(raw: Raw, ms: seq<Message>, evs: seq<Event>)
    requires raw.Valid() && raw.Size() >= 8
    requires (forall m <- ms :: Encodable(m)) && AllUnmarked(ms)
    requires raw.Unread() + Arrived(evs) <= Stream(ms)
    requires NeverCutAtStart(raw, ms, evs)
    ensures QuietSession(raw, ms, evs)
    decreases |evs|
  {
    hide Quiet, Frame, Encodable, Drained, Received, Resized, Stream;
    if evs != [] {
      var later := evs[1..];
      match evs[0]
      case Recv(c) =>
        if |c| <= RoomMade(raw).Writeable() {
          ReceivedEnqueues(raw, c);
          ResizedKeeps(raw, 2 * raw.Size());
          assert raw.Unread() + Arrived(evs) == Received(raw, c).Unread() + Arrived(later);
          UnmarkedSessionIsQuiet(Received(raw, c), ms, later);
        }
      case Exec =>
        var (rest, n) := Drained(raw, ms);
        var arrived := Arrived(later);
        assert Arrived(evs) == arrived by { assert [] + arrived == arrived; }
        DrainedSplits(raw, ms) by { assert raw.Unread() <= raw.Unread() + arrived; }
        DrainedKeepsSize(raw, ms);
        LeftoverIsQuiet(rest, ms[n..]);
        assert ms == ms[..n] + ms[n..];
        StreamAppend(ms[..n], ms[n..]);
        CancelDrained(raw.Unread(), arrived, Stream(ms[..n]), Stream(ms[n..]), rest.Unread());
        UnmarkedSessionIsQuiet(rest, ms[n..], later);
    }
  }

  /**
   Reassembly with conditions on the messages and the cuts only: a fresh buffer of at least eight
   bytes, packets free of inner start marks, and no header cut at the start of the vector. When all
   of the stream has arrived and the loop has run, exactly the messages sent have been delivered.
   */
  lemma UnmarkedReassembly(size: nat, ms: seq<Message>, evs: seq<Event>)
    requires size >= 8 && AllCarried(ms) && AllUnmarked(ms)
    requires var raw := Raw(Zeros(size), 0, 0);
             && Possible(raw, evs) && Possible(raw, evs + [Exec])
             && Arrived(evs) == Stream(ms) && NeverCutAtStart(raw, ms, evs)
    ensures var s := Session(Raw(Zeros(size), 0, 0), evs + [Exec]);
            !s.fault && s.messages == ms && s.rest.Unread() == []
  {
    hide Session, Possible, NeverCutAtStart, QuietSession, Stream, Carried, Encodable, AllUnmarked;
    var raw := Raw(Zeros(size), 0, 0);
    assert raw.Unread() + Arrived(evs) == Stream(ms);
    UnmarkedSessionIsQuiet(raw, ms, evs);
    DeliversEverything(raw, ms, evs);
  }

  // ---- the conditions can be met --------------------------------------------------------------------

  /** A message of 28 bytes on the wire. */
  const SHORT := Message([65], [66], 0, [], [])

  lemma ShortFrame()
    ensures AllCarried([SHORT]) && AllUnmarked([SHORT]) && Stream([SHORT]) == Frame(SHORT)
  {
    var f, named, tail := Frame(SHORT), NamedPart(SHORT), ErrorPart(SHORT);
    assert PB_START !in tail by { assert tail == ToNet(0) + (ToNet(0) + ([] + ([] + (ToNet(1) + [PB_END])))); }
    assert PB_START !in named by { assert named == ToNet(1) + ([66] + tail); }
    assert f[1..] == ToNet(28) + (ToNet(1) + ([65] + named));
    assert f + [] == f;
  }

  lemma CutPacketWaits(head: Raw)
    requires head.Valid() && head.Size() == 128 && head.Unread() == Frame(SHORT)[..10] && head.Readable() == 10
    ensures Delivered(head) == Delivery([], head, false)
    ensures AllCarried([SHORT]) && Drained(head, [SHORT]) == (head, 0)
  {
    ShortFrame();
    hide Frame, Quiet, DecodeOutcome, AfterDecode;
    UnmarkedHeadIsQuiet(head, SHORT);
    QuietExactly(head);
  }

  lemma RestOfCutPacket(head: Raw, end: Raw, b: seq<byte>)
    requires head.Valid() && |b| <= RoomMade(head).Writeable() && end == Received(head, b) && end.Valid()
    requires AllCarried([SHORT]) && Delivered(head) == Delivery([], head, false) && Drained(head, [SHORT]) == (head, 0)
    requires head.Readable() >= 5
    ensures Possible(head, [Exec, Recv(b)]) && Possible(head, [Exec, Recv(b), Exec])
    ensures NeverCutAtStart(head, [SHORT], [Exec, Recv(b)])
  {
    hide Received, Delivered, Drained, RoomMade;
    assert Possible(end, []) && Possible(end, [Exec]);
    assert [Recv(b)][1..] == [] && [Recv(b), Exec][1..] == [Exec];
    assert Possible(head, [Recv(b)]) && Possible(head, [Recv(b), Exec]);
    assert [Exec, Recv(b)][1..] == [Recv(b)] && [Exec, Recv(b), Exec][1..] == [Recv(b), Exec];
    assert [SHORT][0..] == [SHORT] && NeverCutAtStart(head, [SHORT], [Recv(b)]);
  }

  /** The conditions of `UnmarkedReassembly` hold, for instance, of a packet cut after ten bytes with the loop run in between. */
  lemma CutPacketIsCovered()
    ensures var raw, f := Raw(Zeros(128), 0, 0), Frame(SHORT);
            var evs := [Recv(f[..10]), Exec, Recv(f[10..])];
            && AllCarried([SHORT]) && AllUnmarked([SHORT])
            && Possible(raw, evs) && Possible(raw, evs + [Exec])
            && Arrived(evs) == Stream([SHORT]) && NeverCutAtStart(raw, [SHORT], evs)
  {
    var raw, a, b := Raw(Zeros(128), 0, 0), Frame(SHORT)[..10], Frame(SHORT)[10..];
    ShortFrame();
    hide Frame, Received, Delivered, Drained, Stream, Carried, AllUnmarked;
    ReceivedEnqueues(raw, a);
    var head := Received(raw, a);
    assert head.Unread() == a && |head.Unread()| == head.Readable();
    ReceivedEnqueues(head, b) by { assert RoomMade(head).Writeable() >= 18; }
    CutPacketWaits(head);
    RestOfCutPacket(head, Received(head, b), b);
    var evs := [Recv(a), Exec, Recv(b)];
    assert evs[1..] == [Exec, Recv(b)] && (evs + [Exec])[1..] == [Exec, Recv(b), Exec];
    ArrivedInTwo(a, b);
    assert a + b == Frame(SHORT);
  }

  lemma ArrivedInTwo(a: seq<byte>, b: seq<byte>)
    ensures Arrived([Recv(a), Exec, Recv(b)]) == a + b
  {
    assert [Recv(a), Exec, Recv(b)][1..] == [Exec, Recv(b)] && [Exec, Recv(b)][1..] == [Recv(b)];
    assert Arrived([Recv(b)]) == b + Arrived([]) == b;
    assert Arrived([Exec, Recv(b)]) == [] + b == b;
  }
}
