/**
 TinyPB packets: how a message is framed, and how `Decode` finds and parses a frame in a buffer.

 `Decode` scans the raw vector, so it can look at stale bytes past the write index, and it trusts
 the inner lengths. `Outcome` therefore has a case `Fault` for the inputs on which the program
 leaves the vector or one of its fixed-size local arrays, or throws.
 */
module TinyPbCodec {
  import opened Bytes
  import opened Common
  import opened TcpBuffers

  const PB_START: byte := 0x02
  const PB_END: byte := 0x03

  // sizes of the local arrays that Decode copies the three strings into
  const MSG_REQ_CAPACITY := 50
  const SERVICE_NAME_CAPACITY := 512
  const ERR_INFO_CAPACITY := 512

  datatype Message = Message(
    msgSeq: seq<byte>,
    service: seq<byte>,
    errCode: int,
    errInfo: seq<byte>,
    pbData: seq<byte>)

  function FrameLength(m: Message): nat {
    26 + |m.msgSeq| + |m.service| + |m.errInfo| + |m.pbData|
  }

  /** The error code and the total length are 32-bit integers. */
  predicate Encodable(m: Message) {
    IsInt32(m.errCode) && FrameLength(m) <= INT32_MAX
  }

  /** The part of a packet from the service name on. */
  function NamedPart(m: Message): (f: seq<byte>)
    requires Encodable(m)
    ensures |f| == FrameLength(m) - 9 - |m.msgSeq|
  {
    ToNet(|m.service|) + (m.service + ErrorPart(m))
  }

  /** The part of a packet from the error code on. */
  function ErrorPart(m: Message): (f: seq<byte>)
    requires Encodable(m)
    ensures |f| == 13 + |m.errInfo| + |m.pbData|
  {
    ToNet(m.errCode) + (ToNet(|m.errInfo|) + (m.errInfo + (m.pbData + (ToNet(1) + [PB_END]))))
  }

  /** The packet of a message: what `EncodePbData` lays out, the constant checksum 1 included. */
  function Frame(m: Message): (f: seq<byte>)
    requires Encodable(m)
    ensures |f| == FrameLength(m)
  {
    [PB_START] + (ToNet(FrameLength(m)) + (ToNet(|m.msgSeq|) + (m.msgSeq + NamedPart(m))))
  }

  // ---- the scan and the parse, as functions of the raw vector ---------------------------------

  datatype Hit = NoHit | Hit(start: int, pkLen: int) | BadAccess

  function Int32At(bytes: seq<byte>, at: nat): (v: int)
    requires at + 4 <= |bytes|
  {
    FromNet(bytes[at..at + 4])
  }

  /** Does a frame seem to start at `i`? The four length bytes are read even past the write index. */
  function TestAt(raw: Raw, i: int): Hit
    requires raw.Valid() && raw.read <= i < raw.write
  {
    if raw.bytes[i] != PB_START || i + 1 >= raw.write then NoHit
    else if i + 5 > raw.Size() then BadAccess
    else
      var pkLen := Int32At(raw.bytes, i + 1);
      var j := i + pkLen - 1;
      if j >= raw.write then NoHit
      else if j < 0 then BadAccess
      else if raw.bytes[j] == PB_END then Hit(i, pkLen)
      else NoHit
  }

  /** The first position from `i` on where the test does not simply fail. */
  function Scan(raw: Raw, i: int): (h: Hit)
    requires raw.Valid() && raw.read <= i <= raw.write
    ensures h.Hit? ==> i <= h.start < raw.write && 0 <= h.start + h.pkLen - 1 < raw.write
    decreases raw.write - i
  {
    if i == raw.write then NoHit
    else if TestAt(raw, i).NoHit? then Scan(raw, i + 1)
    else TestAt(raw, i)
  }

  /** `memcpy` of `len` bytes at `at` into a zeroed array of `capacity`, read back as a C string. */
  function Field(bytes: seq<byte>, at: nat, len: int, capacity: nat): (f: Option<seq<byte>>)
    ensures f.Some? ==> 0 <= len <= capacity && at + len <= |bytes| && |f.value| <= capacity
  {
    if len < 0 || len > capacity || at + len > |bytes| then None
    else if len == capacity && 0 !in bytes[at..at + len] then None
    else Some(CString(bytes[at..at + len]))
  }

  datatype Outcome =
    | Incomplete                            // no frame found, nothing consumed
    | Dropped(length: int)                  // a frame consumed, but rejected by a check
    | Decoded(message: Message, length: int)
    | Fault                                 // the program leaves its arrays, or throws

  function Parse(bytes: seq<byte>, start: nat, pkLen: int): Outcome
    requires 0 <= start + pkLen - 1 < |bytes|
  {
    var end := start + pkLen - 1;
    if start + 5 >= end then Dropped(pkLen)
    else if start + 9 > |bytes| then Fault
    else
      var msgLen := Int32At(bytes, start + 5);
      if msgLen == 0 then Dropped(pkLen)
      else
        match Field(bytes, start + 9, msgLen, MSG_REQ_CAPACITY)
        case None => Fault
        case Some(msgSeq) => ParseService(bytes, start + 9 + msgLen, end, pkLen, msgLen, msgSeq)
  }

  function ParseService(bytes: seq<byte>, at: nat, end: int, pkLen: int, msgLen: nat, msgSeq: seq<byte>): Outcome
    requires 0 <= end < |bytes|
  {
    if at >= end || at + 4 >= end then Dropped(pkLen)
    else
      var nameLen := Int32At(bytes, at);
      if nameLen > pkLen then Dropped(pkLen)
      else
        match Field(bytes, at + 4, nameLen, SERVICE_NAME_CAPACITY)
        case None => Fault
        case Some(service) =>
          ParseError(bytes, at + 4 + nameLen, end, pkLen, msgLen + nameLen, msgSeq, service)
  }

  function ParseError(bytes: seq<byte>, at: nat, end: int, pkLen: int,
                      seqAndNameLen: nat, msgSeq: seq<byte>, service: seq<byte>): Outcome
    requires 0 <= end < |bytes|
  {
    if at + 4 > |bytes| then Fault
    else if at + 4 >= end then Dropped(pkLen)
    else if at + 8 > |bytes| then Fault
    else
      var errCode := Int32At(bytes, at);
      var infoLen := Int32At(bytes, at + 4);
      match Field(bytes, at + 8, infoLen, ERR_INFO_CAPACITY)
      case None => Fault
      case Some(errInfo) =>
        var pbLen := pkLen - seqAndNameLen - infoLen - 26;
        var pbAt := at + 8 + infoLen;
        if pbAt >= end then Dropped(pkLen)
        else if pbLen < 0 || pbAt + pbLen > |bytes| then Fault
        else Decoded(Message(msgSeq, service, errCode, errInfo, bytes[pbAt..pbAt + pbLen]), pkLen)
  }

  /** What `Decode` makes of a buffer. */
  function DecodeOutcome(raw: Raw): Outcome
    requires raw.Valid()
  {
    match Scan(raw, raw.read)
    case NoHit => Incomplete
    case BadAccess => Fault
    case Hit(start, pkLen) =>
      if raw.read + pkLen < 0 then Fault else Parse(raw.bytes, start, pkLen)
  }

  /** The buffer afterwards: the length of the frame is dropped from the old read index. */
  function AfterDecode(raw: Raw): Raw
    requires raw.Valid()
  {
    match Scan(raw, raw.read)
    case Hit(start, pkLen) => if raw.read + pkLen < 0 then raw else ReadAdvanced(raw, pkLen)
    case _ => raw
  }

  // ---- round trip -----------------------------------------------------------------------------

  /** What becomes of a string on its way through a local array of `capacity` bytes. */
  function Through(s: seq<byte>, capacity: nat): Option<seq<byte>> {
    if |s| > capacity || (|s| == capacity && 0 !in s) then None else Some(CString(s))
  }

  /** The fate of a framed message, read off the message alone. */
  function Fate(m: Message): Outcome {
    if m.msgSeq == [] then Dropped(FrameLength(m))
    else
      match (Through(m.msgSeq, MSG_REQ_CAPACITY), Through(m.service, SERVICE_NAME_CAPACITY),
             Through(m.errInfo, ERR_INFO_CAPACITY))
      case (Some(s), Some(v), Some(e)) => Decoded(Message(s, v, m.errCode, e, m.pbData), FrameLength(m))
      case _ => Fault
  }

  /** `bytes` holds `part` at `at`. */
  predicate Holds(bytes: seq<byte>, at: nat, part: seq<byte>) {
    at + |part| <= |bytes| && bytes[at..at + |part|] == part
  }

  lemma HoldsBoth(bytes: seq<byte>, at: nat, a: seq<byte>, b: seq<byte>)
    requires Holds(bytes, at, a + b)
    ensures Holds(bytes, at, a) && Holds(bytes, at + |a|, b)
  {
    var whole := bytes[at..at + |a| + |b|];
    assert whole == a + b;
    assert whole[..|a|] == bytes[at..at + |a|];
    assert whole[|a|..] == bytes[at + |a|..at + |a| + |b|];
  }

  /** The unsigned number at `at`, most significant byte first. */
  function WeightedAt(f: seq<byte>, at: nat): int
    requires at + 4 <= |f|
  {
    Weighted(f[at..at + 4])
  }

  /** Where everything is in a packet, byte by byte: start mark, total length, three strings behind their lengths, code, payload, checksum, end mark. */
  lemma PacketLayout(m: Message)
    requires Encodable(m)
    ensures var f, s, v, e, d := Frame(m), |m.msgSeq|, |m.service|, |m.errInfo|, |m.pbData|;
            && f[0] == 2 && WeightedAt(f, 1) == |f| == 26 + s + v + e + d
            && WeightedAt(f, 5) == s && f[9..9 + s] == m.msgSeq
            && WeightedAt(f, 9 + s) == v && f[13 + s..13 + s + v] == m.service
            && WeightedAt(f, 13 + s + v) == (if m.errCode < 0 then m.errCode + 4294967296 else m.errCode)
            && WeightedAt(f, 17 + s + v) == e && f[21 + s + v..21 + s + v + e] == m.errInfo
            && f[21 + s + v + e..21 + s + v + e + d] == m.pbData
            && WeightedAt(f, 21 + s + v + e + d) == 1 && f[25 + s + v + e + d] == 3
  {
    hide ToNet, NamedPart, ErrorPart, Frame, Weighted;
    var f, s, v := Frame(m), |m.msgSeq|, |m.service|;
    HeadLayout(f, m);
    NamedLayout(f, 9 + s, m);
    ErrorLayout(f, 13 + s + v, m);
  }

  /** The first five bytes on the wire: the start mark and the length of the whole packet, most significant byte first. */
  lemma PacketAnnouncesItsLength(m: Message)
    requires Encodable(m)
    ensures var f := Frame(m);
            var b1: int, b2: int, b3: int, b4: int := f[1], f[2], f[3], f[4];
            f[0] == 2 && b1 * 16777216 + b2 * 65536 + b3 * 256 + b4 == |f|
  {
    hide Frame;
    PacketLayout(m);
  }

  lemma WeightedHeld(f: seq<byte>, at: nat, v: int)
    requires IsInt32(v) && Holds(f, at, ToNet(v))
    ensures at + 4 <= |f| && WeightedAt(f, at) == if v < 0 then v + 4294967296 else v
  {
    hide ToNet;
    NetOrder(v);
  }

  lemma HeadLayout(f: seq<byte>, m: Message)
    requires Encodable(m) && f == Frame(m)
    ensures f[0] == 2 && WeightedAt(f, 1) == |f| && WeightedAt(f, 5) == |m.msgSeq| && f[9..9 + |m.msgSeq|] == m.msgSeq
    ensures Holds(f, 9 + |m.msgSeq|, NamedPart(m))
  {
    hide ToNet, NamedPart, Weighted;
    var rest := ToNet(|m.msgSeq|) + (m.msgSeq + NamedPart(m));
    assert f[0..|f|] == f;
    HoldsBoth(f, 0, [PB_START], ToNet(FrameLength(m)) + rest);
    assert f[0..1] == [PB_START];
    HoldsBoth(f, 1, ToNet(FrameLength(m)), rest);
    HoldsBoth(f, 5, ToNet(|m.msgSeq|), m.msgSeq + NamedPart(m));
    HoldsBoth(f, 9, m.msgSeq, NamedPart(m));
    WeightedHeld(f, 1, FrameLength(m));
    WeightedHeld(f, 5, |m.msgSeq|);
  }

  lemma NamedLayout(f: seq<byte>, at: nat, m: Message)
    requires Encodable(m) && Holds(f, at, NamedPart(m))
    ensures WeightedAt(f, at) == |m.service| && f[at + 4..at + 4 + |m.service|] == m.service
    ensures Holds(f, at + 4 + |m.service|, ErrorPart(m))
  {
    hide ToNet, ErrorPart, Weighted;
    HoldsBoth(f, at, ToNet(|m.service|), m.service + ErrorPart(m));
    HoldsBoth(f, at + 4, m.service, ErrorPart(m));
    WeightedHeld(f, at, |m.service|);
  }

  lemma ErrorLayout(f: seq<byte>, at: nat, m: Message)
    requires Encodable(m) && Holds(f, at, ErrorPart(m))
    ensures var e, d := |m.errInfo|, |m.pbData|;
            && at + 13 + e + d <= |f|
            && WeightedAt(f, at) == (if m.errCode < 0 then m.errCode + 4294967296 else m.errCode)
            && WeightedAt(f, at + 4) == e && f[at + 8..at + 8 + e] == m.errInfo
            && f[at + 8 + e..at + 8 + e + d] == m.pbData
            && WeightedAt(f, at + 8 + e + d) == 1 && f[at + 12 + e + d] == 3
  {
    hide ToNet, Weighted;
    var e, d := |m.errInfo|, |m.pbData|;
    var tail := ToNet(1) + [PB_END];
    HoldsBoth(f, at, ToNet(m.errCode), ToNet(e) + (m.errInfo + (m.pbData + tail)));
    HoldsBoth(f, at + 4, ToNet(e), m.errInfo + (m.pbData + tail));
    HoldsBoth(f, at + 8, m.errInfo, m.pbData + tail);
    HoldsBoth(f, at + 8 + e, m.pbData, tail);
    HoldsBoth(f, at + 8 + e + d, ToNet(1), [PB_END]);
    assert f[at + 12 + e + d..at + 12 + e + d + 1] == [PB_END];
    WeightedHeld(f, at, m.errCode);
    WeightedHeld(f, at + 4, e);
    WeightedHeld(f, at + 8 + e + d, 1);
  }

  lemma FieldOfHeld(bytes: seq<byte>, at: nat, s: seq<byte>, capacity: nat)
    requires Holds(bytes, at, s)
    ensures Field(bytes, at, |s|, capacity) == Through(s, capacity)
  {
  }

  lemma Int32OfHeld(bytes: seq<byte>, at: nat, v: int)
    requires IsInt32(v) && Holds(bytes, at, ToNet(v))
    ensures Int32At(bytes, at) == v
  {
    NetRoundTrip(v);
  }

  /** A string behind its length reads back through the length, whatever follows it. */
  lemma LengthAndString(bytes: seq<byte>, at: nat, s: seq<byte>, rest: seq<byte>, capacity: nat)
    requires |s| <= INT32_MAX && Holds(bytes, at, ToNet(|s|) + (s + rest))
    ensures at + 4 + |s| + |rest| <= |bytes|
    ensures Int32At(bytes, at) == |s|
    ensures Field(bytes, at + 4, |s|, capacity) == Through(s, capacity)
    ensures Holds(bytes, at + 4 + |s|, rest)
  {
    HoldsBoth(bytes, at, ToNet(|s|), s + rest);
    HoldsBoth(bytes, at + 4, s, rest);
    Int32OfHeld(bytes, at, |s|);
    FieldOfHeld(bytes, at + 4, s, capacity);
  }

  lemma FrameStart(bytes: seq<byte>, at: nat, m: Message)
    requires Encodable(m) && Holds(bytes, at, Frame(m))
    ensures bytes[at] == PB_START
    ensures at + 5 <= |bytes| && Int32At(bytes, at + 1) == FrameLength(m)
    ensures Holds(bytes, at + 5, ToNet(|m.msgSeq|) + (m.msgSeq + NamedPart(m)))
  {
    var rest := ToNet(|m.msgSeq|) + (m.msgSeq + NamedPart(m));
    HoldsBoth(bytes, at, [PB_START], ToNet(FrameLength(m)) + rest);
    assert bytes[at..at + 1] == [PB_START];
    HoldsBoth(bytes, at + 1, ToNet(FrameLength(m)), rest);
    Int32OfHeld(bytes, at + 1, FrameLength(m));
  }

  lemma FrameEnd(m: Message)
    requires Encodable(m)
    ensures Frame(m)[FrameLength(m) - 1] == PB_END
  {
    var e := m.errInfo + (m.pbData + (ToNet(1) + [PB_END]));
    assert e[|e| - 1] == PB_END;
    assert ErrorPart(m)[|ErrorPart(m)| - 1] == PB_END;
    assert NamedPart(m)[|NamedPart(m)| - 1] == PB_END;
  }

  lemma ParseErrorOfFrame(bytes: seq<byte>, at: nat, m: Message, end: int, msgSeq: seq<byte>, service: seq<byte>)
    requires Encodable(m) && Holds(bytes, at, ErrorPart(m)) && end == at + |ErrorPart(m)| - 1
    ensures ParseError(bytes, at, end, FrameLength(m), |m.msgSeq| + |m.service|, msgSeq, service)
         == match Through(m.errInfo, ERR_INFO_CAPACITY)
            case None => Fault
            case Some(e) => Decoded(Message(msgSeq, service, m.errCode, e, m.pbData), FrameLength(m))
  {
    hide CString, Field, Int32At;
    var tail := ToNet(1) + [PB_END];
    var n := |m.errInfo|;
    HoldsBoth(bytes, at, ToNet(m.errCode), ToNet(n) + (m.errInfo + (m.pbData + tail)));
    Int32OfHeld(bytes, at, m.errCode);
    LengthAndString(bytes, at + 4, m.errInfo, m.pbData + tail, ERR_INFO_CAPACITY);
    HoldsBoth(bytes, at + 8 + n, m.pbData, tail);
  }

  lemma ParseServiceOfFrame(bytes: seq<byte>, at: nat, m: Message, end: int, msgSeq: seq<byte>)
    requires Encodable(m) && Holds(bytes, at, NamedPart(m)) && end == at + |NamedPart(m)| - 1
    ensures ParseService(bytes, at, end, FrameLength(m), |m.msgSeq|, msgSeq)
         == match (Through(m.service, SERVICE_NAME_CAPACITY), Through(m.errInfo, ERR_INFO_CAPACITY))
            case (Some(v), Some(e)) => Decoded(Message(msgSeq, v, m.errCode, e, m.pbData), FrameLength(m))
            case _ => Fault
  {
    hide CString, Field, Int32At, ParseError;
    var n := |m.service|;
    LengthAndString(bytes, at, m.service, ErrorPart(m), SERVICE_NAME_CAPACITY);
    match Through(m.service, SERVICE_NAME_CAPACITY)
    case None =>
    case Some(v) => ParseErrorOfFrame(bytes, at + 4 + n, m, end, msgSeq, v);
  }

  lemma ParseOfFrame(bytes: seq<byte>, at: nat, m: Message)
    requires Encodable(m)
    requires Holds(bytes, at + 5, ToNet(|m.msgSeq|) + (m.msgSeq + NamedPart(m)))
    ensures Parse(bytes, at, FrameLength(m)) == Fate(m)
  {
    hide CString, Field, Int32At, ParseService;
    var n := |m.msgSeq|;
    LengthAndString(bytes, at + 5, m.msgSeq, NamedPart(m), MSG_REQ_CAPACITY);
    match Through(m.msgSeq, MSG_REQ_CAPACITY)
    case None =>
    case Some(v) => ParseServiceOfFrame(bytes, at + 9 + n, m, at + FrameLength(m) - 1, v);
  }

  lemma ScanOfFrame(raw: Raw, m: Message)
    requires raw.Valid() && Encodable(m)
    requires raw.read + FrameLength(m) <= raw.write && Holds(raw.bytes, raw.read, Frame(m))
    ensures Scan(raw, raw.read) == Hit(raw.read, FrameLength(m))
  {
    var n := FrameLength(m);
    FrameStart(raw.bytes, raw.read, m);
    FrameEnd(m);
    assert raw.bytes[raw.read + n - 1] == raw.bytes[raw.read..raw.read + n][n - 1];
  }

  /** Whatever else the vector holds, a frame at the front of the readable bytes meets its fate. */
  lemma DecodeOfFrame(raw: Raw, m: Message, rest: seq<byte>)
    requires raw.Valid() && Encodable(m)
    requires raw.Unread() == Frame(m) + rest
    ensures DecodeOutcome(raw) == Fate(m)
    ensures AfterDecode(raw) == ReadAdvanced(raw, FrameLength(m))
    ensures AfterDecode(raw).Valid() && AfterDecode(raw).Unread() == rest
  {
    HoldsBoth(raw.bytes, raw.read, Frame(m), rest);
    ScanOfFrame(raw, m);
    FrameStart(raw.bytes, raw.read, m);
    ParseOfFrame(raw.bytes, raw.read, m);
    ReadAdvancedDequeues(raw, FrameLength(m));
  }

  /** The messages that survive: what fits the local arrays with its terminating NUL. */
  predicate Carried(m: Message) {
    && 1 <= |m.msgSeq| <= 49 && 0 !in m.msgSeq
    && |m.service| <= 511 && 0 !in m.service
    && |m.errInfo| <= 511 && 0 !in m.errInfo
  }

  lemma FateOfCarried(m: Message)
    ensures Fate(m) == Decoded(m, FrameLength(m)) <==> Carried(m)
  {
    CStringWhole(m.msgSeq);
    CStringWhole(m.service);
    CStringWhole(m.errInfo);
  }

  /** Decoding an encoded message gives it back, exactly when the message is `Carried`. */
  lemma RoundTrip(raw: Raw, m: Message, rest: seq<byte>)
    requires raw.Valid() && Encodable(m)
    requires raw.Unread() == Frame(m) + rest
    ensures Carried(m) <==> DecodeOutcome(raw) == Decoded(m, FrameLength(m))
    ensures AfterDecode(raw).Valid() && AfterDecode(raw).Unread() == rest
  {
    DecodeOfFrame(raw, m, rest);
    FateOfCarried(m);
  }

  /** No frame of a carried message is a prefix of another's, so encoding is injective too. */
  lemma PrefixFree(a: Message, b: Message)
    requires Encodable(a) && Encodable(b) && Carried(a) && Carried(b)
    requires Frame(a) <= Frame(b)
    ensures a == b
  {
    hide DecodeOutcome, AfterDecode;
    var raw := Raw(Frame(b), 0, FrameLength(b));
    assert raw.Unread() == Frame(b) + [];
    RoundTrip(raw, b, []);
    assert raw.Unread() == Frame(a) + Frame(b)[|Frame(a)|..];
    RoundTrip(raw, a, Frame(b)[|Frame(a)|..]);
  }

  /** A successful decode consumes at least seven bytes and never more than are readable. */
  lemma DecodeMakesProgress(raw: Raw)
    requires raw.Valid()
    requires DecodeOutcome(raw).Decoded?
    ensures 7 <= DecodeOutcome(raw).length <= raw.Readable()
    ensures AfterDecode(raw).Valid()
    ensures AfterDecode(raw).Unread() == raw.Unread()[DecodeOutcome(raw).length..]
  {
    ReadAdvancedDequeues(raw, DecodeOutcome(raw).length);
  }

  /** What comes out of the parser is bounded by its local arrays, whatever was on the wire. */
  lemma DecodedIsBounded(raw: Raw)
    requires raw.Valid() && DecodeOutcome(raw).Decoded?
    ensures var m := DecodeOutcome(raw).message;
            && |m.msgSeq| <= 50 && |m.service| <= 512 && |m.errInfo| <= 512 && IsInt32(m.errCode)
  {
    hide Field;
  }

  // ---- the codec ------------------------------------------------------------------------------

  class TinyPbStruct {
    var pkLen: int
    var msgReqLen: int
    var msgSeq: seq<byte>
    var serviceNameLen: int
    var serviceFullName: seq<byte>
    var errCode: int
    var errInfoLen: int
    var errInfo: seq<byte>
    var pbData: seq<byte>
    var checkNum: int
    var decodeSucc: bool
    var encodeSucc: bool

    constructor ()
      ensures Value() == Message([], [], 0, [], [])
      ensures !decodeSucc && !encodeSucc
    {
      pkLen, msgReqLen, serviceNameLen, errCode, errInfoLen, checkNum := 0, 0, 0, 0, 0, -1;
      msgSeq, serviceFullName, errInfo, pbData := [], [], [], [];
      decodeSucc, encodeSucc := false, false;
    }

    function Value(): Message
      reads this
    {
      Message(msgSeq, serviceFullName, errCode, errInfo, pbData)
    }
  }

  /** A message without a number is given the generated one. */
  function Numbered(m: Message, generated: seq<byte>): Message {
    if m.msgSeq == [] then m.(msgSeq := generated) else m
  }

  /** Write `data` at the moving pointer and advance it. */
  method Put(buf: array<byte>, pos: nat, data: seq<byte>) returns (next: nat)
    requires pos + |data| <= buf.Length
    modifies buf
    ensures next == pos + |data|
    ensures buf[..next] == old(buf[..pos]) + data
  {
    CopyInto(buf, pos, data);
    next := pos + |data|;
    assert buf[..next] == buf[..][..next];
  }

  /** Write a string behind its length. */
  method PutString(buf: array<byte>, pos: nat, s: seq<byte>) returns (next: nat)
    requires |s| <= INT32_MAX && pos + 4 + |s| <= buf.Length
    modifies buf
    ensures next == pos + 4 + |s|
    ensures buf[..next] == old(buf[..pos]) + (ToNet(|s|) + s)
  {
    next := Put(buf, pos, ToNet(|s|));
    if |s| != 0 {
      next := Put(buf, next, s);
    }
  }

  lemma HeadLeftToRight(a: seq<byte>, b: seq<byte>, c: seq<byte>, d: seq<byte>, rest: seq<byte>)
    ensures a + b + (c + d) + rest == a + (b + (c + (d + rest)))
  {
  }

  lemma TailLeftToRight(had: seq<byte>, m: Message)
    requires Encodable(m)
    ensures had + (ToNet(|m.service|) + m.service) + ToNet(m.errCode) + (ToNet(|m.errInfo|) + m.errInfo)
              + m.pbData + (ToNet(1) + [PB_END])
         == had + NamedPart(m)
  {
    hide ToNet;
  }

  /** Write the fields of a packet through a moving pointer. */
  method LayOut(buf: array<byte>, m: Message)
    requires Encodable(m) && buf.Length == FrameLength(m)
    modifies buf
    ensures buf[..] == Frame(m)
  {
    hide ToNet, NamedPart;
    var tmp := Put(buf, 0, [PB_START]);
    tmp := Put(buf, tmp, ToNet(FrameLength(m)));
    tmp := PutString(buf, tmp, m.msgSeq);
    HeadLeftToRight([PB_START], ToNet(FrameLength(m)), ToNet(|m.msgSeq|), m.msgSeq, NamedPart(m));
    LayOutFromService(buf, tmp, m);
  }

  /** The rest of a packet, from the service name to the end mark. */
  method LayOutFromService(buf: array<byte>, pos: nat, m: Message)
    requires Encodable(m) && buf.Length == FrameLength(m) && pos == 9 + |m.msgSeq|
    modifies buf
    ensures buf[..] == old(buf[..pos]) + NamedPart(m)
  {
    hide ToNet, NamedPart;
    var tmp := PutString(buf, pos, m.service);
    tmp := Put(buf, tmp, ToNet(m.errCode));
    tmp := PutString(buf, tmp, m.errInfo);
    tmp := Put(buf, tmp, m.pbData);
    var checksum := 1;
    tmp := Put(buf, tmp, ToNet(checksum) + [PB_END]);
    TailLeftToRight(old(buf[..pos]), m);
    assert buf[..tmp] == buf[..];
  }

  /** Lay a message out in a new array; a message without a service name is refused. */
  method EncodePbData(data: TinyPbStruct, generated: seq<byte>) returns (buf: array?<byte>, len: int)
    requires Encodable(Numbered(data.Value(), generated))
    modifies data
    ensures old(data.serviceFullName) == [] ==>
              buf == null && len == 0 && !data.encodeSucc && data.Value() == old(data.Value())
    ensures old(data.serviceFullName) != [] ==>
              && buf != null && fresh(buf) && len == buf.Length
              && data.encodeSucc && data.Value() == Numbered(old(data.Value()), generated)
              && buf[..] == Frame(data.Value())
              && data.msgSeq == (if old(data.msgSeq) == [] then generated else old(data.msgSeq))
              && data.serviceFullName == old(data.serviceFullName) && data.errCode == old(data.errCode)
              && data.errInfo == old(data.errInfo) && data.pbData == old(data.pbData)
    ensures data.decodeSucc == old(data.decodeSucc)
  {
    if data.serviceFullName == [] {
      data.encodeSucc := false;
      return null, 0;
    }
    if data.msgSeq == [] {
      data.msgSeq := generated;
      data.msgReqLen := |data.msgSeq|;
    }
    hide ToNet, Frame;
    var pkLen := 2 + 6 * 4 + |data.pbData| + |data.serviceFullName| + |data.msgSeq| + |data.errInfo|;
    var packet := new byte[pkLen](_ => 0);
    LayOut(packet, data.Value());
    buf := packet;
    data.pkLen := pkLen;
    data.msgReqLen := |data.msgSeq|;
    data.serviceNameLen := |data.serviceFullName|;
    data.errInfoLen := |data.errInfo|;
    data.checkNum := 1;
    data.encodeSucc := true;
    len := pkLen;
  }

  /** Append the packet of a message to a buffer; a refused message leaves the buffer as it was. */
  method Encode(buf: TcpBuffer, data: TinyPbStruct, generated: seq<byte>)
    requires buf.Valid() && Encodable(Numbered(data.Value(), generated))
    modifies buf, buf.buffer, data
    ensures buf.Valid() && (buf.buffer == old(buf.buffer) || fresh(buf.buffer))
    ensures data.encodeSucc <==> old(data.serviceFullName) != []
    ensures data.encodeSucc ==>
              && data.Value() == Numbered(old(data.Value()), generated)
              && buf.View() == Appended(old(buf.View()), Frame(data.Value()))
    ensures !data.encodeSucc ==> buf.View() == old(buf.View()) && data.Value() == old(data.Value())
  {
    hide Frame;
    var re, len := EncodePbData(data, generated);
    if re == null || len == 0 || !data.encodeSucc {
      data.encodeSucc := false;
      return;
    }
    buf.WriteToBuffer(re[..]);
  }

  /** Find a frame, take it from the buffer and parse it; `fault` when the program has no meaning. */
  method Decode(buf: TcpBuffer, data: TinyPbStruct) returns (fault: bool)
    requires buf.Valid()
    modifies buf, data
    ensures fault <==> DecodeOutcome(old(buf.View())).Fault?
    ensures buf.Valid() && (buf.buffer == old(buf.buffer) || fresh(buf.buffer))
    ensures buf.View() == AfterDecode(old(buf.View()))
    ensures DecodeOutcome(old(buf.View())).Incomplete? ==> unchanged(data)
    ensures DecodeOutcome(old(buf.View())).Dropped? ==> !data.decodeSucc
    ensures DecodeOutcome(old(buf.View())).Decoded? ==>
              data.decodeSucc && data.Value() == DecodeOutcome(old(buf.View())).message
  {
    hide Parse, Int32At, ReadAdvanced;
    ghost var raw := buf.View();
    var tmp := buf.buffer[..];
    var startIndex, endIndex, pkLen := buf.readIndex, -1, -1;
    var parseFullPack := false;
    var i := startIndex;
    while i < buf.writeIndex
      invariant raw.read <= i <= raw.write
      invariant !parseFullPack && startIndex == raw.read
      invariant Scan(raw, raw.read) == Scan(raw, i)
    {
      if tmp[i] == PB_START && i + 1 < buf.writeIndex {
        if i + 5 > |tmp| {
          return true;
        }
        pkLen := Int32At(tmp, i + 1);
        var j := i + pkLen - 1;
        if j < buf.writeIndex {
          if j < 0 {
            return true;
          }
          if tmp[j] == PB_END {
            startIndex, endIndex := i, j;
            parseFullPack := true;
            break;
          }
        }
      }
      i := i + 1;
    }
    if !parseFullPack {
      return false;
    }
    if buf.readIndex + pkLen < 0 {
      return true;
    }
    fault := buf.RecycleRead(endIndex + 1 - startIndex);
    fault := ParseFields(tmp, startIndex, pkLen, data);
  }

  /** The second half of `Decode`: the fields of the frame at `start`. */
  method ParseFields(tmp: seq<byte>, start: nat, pkLen: int, data: TinyPbStruct) returns (fault: bool)
    requires 0 <= start + pkLen - 1 < |tmp|
    modifies data
    ensures fault <==> Parse(tmp, start, pkLen).Fault?
    ensures !Parse(tmp, start, pkLen).Incomplete?
    ensures Parse(tmp, start, pkLen).Dropped? ==> !data.decodeSucc
    ensures Parse(tmp, start, pkLen).Decoded? ==>
              data.decodeSucc && data.Value() == Parse(tmp, start, pkLen).message
  {
    hide Int32At, Field;
    var end := start + pkLen - 1;
    data.pkLen := pkLen;
    data.decodeSucc := false;

    var msgReqLenIndex := start + 5;
    if msgReqLenIndex >= end {
      return false;
    }
    if msgReqLenIndex + 4 > |tmp| {
      return true;
    }
    data.msgReqLen := Int32At(tmp, msgReqLenIndex);
    if data.msgReqLen == 0 {
      return false;
    }
    var msgReqIndex := msgReqLenIndex + 4;
    var msgReq := Field(tmp, msgReqIndex, data.msgReqLen, MSG_REQ_CAPACITY);
    if msgReq.None? {
      return true;
    }
    data.msgSeq := msgReq.value;

    var serviceNameLenIndex := msgReqIndex + data.msgReqLen;
    if serviceNameLenIndex >= end {
      return false;
    }
    var serviceNameIndex := serviceNameLenIndex + 4;
    if serviceNameIndex >= end {
      return false;
    }
    data.serviceNameLen := Int32At(tmp, serviceNameLenIndex);
    if data.serviceNameLen > pkLen {
      return false;
    }
    var serviceName := Field(tmp, serviceNameIndex, data.serviceNameLen, SERVICE_NAME_CAPACITY);
    if serviceName.None? {
      return true;
    }
    data.serviceFullName := serviceName.value;

    var errCodeIndex := serviceNameIndex + data.serviceNameLen;
    if errCodeIndex + 4 > |tmp| {
      return true;
    }
    data.errCode := Int32At(tmp, errCodeIndex);
    var errInfoLenIndex := errCodeIndex + 4;
    if errInfoLenIndex >= end {
      return false;
    }
    if errInfoLenIndex + 4 > |tmp| {
      return true;
    }
    data.errInfoLen := Int32At(tmp, errInfoLenIndex);
    var errInfoIndex := errInfoLenIndex + 4;
    var errInfo := Field(tmp, errInfoIndex, data.errInfoLen, ERR_INFO_CAPACITY);
    if errInfo.None? {
      return true;
    }
    data.errInfo := errInfo.value;

    var pbDataLen := data.pkLen - data.serviceNameLen - data.msgReqLen - data.errInfoLen - 2 - 6 * 4;
    var pbDataIndex := errInfoIndex + data.errInfoLen;
    if pbDataIndex >= end {
      return false;
    }
    if pbDataLen < 0 || pbDataIndex + pbDataLen > |tmp| {
      return true;
    }
    data.pbData := tmp[pbDataIndex..pbDataIndex + pbDataLen];
    data.decodeSucc := true;
    return false;
  }
}
