/**
 A connection: the decode loop of `Execute` on the server and on the client side, the reply table,
 and the correspondence between the requests a client sends and the replies it gets back.
 */
module TcpConnections {
  import opened Bytes
  import opened Common
  import opened TcpBuffers
  import opened TinyPbCodec
  import opened Reassembly
  import opened RpcDispatchers

  /** The replies to a run of requests; the k-th request without a number gets `numbers(k)`. */
  function Answers(services: ServiceMap, ms: seq<Message>, numbers: nat -> seq<byte>, k: nat): seq<Message> {
    if ms == [] then []
    else
      (if ms[0].service == [] then [] else [ReplyTo(services, ms[0], numbers(k))])
      + Answers(services, ms[1..], numbers, k + 1)
  }

  ghost predicate ShortNumbers(numbers: nat -> seq<byte>) {
    forall k :: |numbers(k)| <= NAME_LIMIT
  }

  lemma {:induction false} AnswersAreEncodable(services: ServiceMap, ms: seq<Message>, numbers: nat -> seq<byte>, k: nat)
    requires Bounded(services) && ShortNumbers(numbers)
    requires forall m <- ms :: Small(m)
    ensures forall a <- Answers(services, ms, numbers, k) :: Encodable(a)
  {
    hide ReplyTo, Encodable, Bounded;
    if ms != [] {
      ReplyIsEncodable(services, ms[0], numbers(k));
      AnswersAreEncodable(services, ms[1..], numbers, k + 1);
    }
  }

  lemma {:induction false} AnswersAppend(services: ServiceMap, a: seq<Message>, m: Message,
                                         numbers: nat -> seq<byte>, k: nat)
    ensures Answers(services, a + [m], numbers, k)
         == Answers(services, a, numbers, k)
            + if m.service == [] then [] else [ReplyTo(services, m, numbers(k + |a|))]
  {
    hide ReplyTo;
    if a == [] {
      assert a + [m] == [m];
    } else {
      assert (a + [m])[1..] == a[1..] + [m];
      AnswersAppend(services, a[1..], m, numbers, k + 1);
    }
  }

  /** The reply table: a number already present keeps its first reply. */
  function Collected(table: map<seq<byte>, Message>, ms: seq<Message>): map<seq<byte>, Message>
    decreases |ms|
  {
    if ms == [] then table
    else Collected(if ms[0].msgSeq in table then table else table[ms[0].msgSeq := ms[0]], ms[1..])
  }

  lemma {:induction false} CollectedAppend(table: map<seq<byte>, Message>, a: seq<Message>, m: Message)
    ensures Collected(table, a + [m])
         == var t := Collected(table, a); if m.msgSeq in t then t else t[m.msgSeq := m]
    decreases |a|
  {
    if a == [] {
      assert a + [m] == [m];
    } else {
      assert (a + [m])[1..] == a[1..] + [m];
      CollectedAppend(if a[0].msgSeq in table then table else table[a[0].msgSeq := a[0]], a[1..], m);
    }
  }

  predicate IsFirst(ms: seq<Message>, i: nat)
    requires i < |ms|
  {
    forall j :: 0 <= j < i ==> ms[j].msgSeq != ms[i].msgSeq
  }

  /** The table holds, for each number received and not there before, the first message with it. */
  lemma {:induction false} CollectedHoldsFirst(table: map<seq<byte>, Message>, ms: seq<Message>, i: nat)
    requires i < |ms| && IsFirst(ms, i) && ms[i].msgSeq !in table
    ensures ms[i].msgSeq in Collected(table, ms)
    ensures Collected(table, ms)[ms[i].msgSeq] == ms[i]
    decreases |ms|
  {
    if i == 0 {
      CollectedKeeps(table[ms[0].msgSeq := ms[0]], ms[1..], ms[0].msgSeq);
    } else {
      assert ms[0].msgSeq != ms[i].msgSeq;
      var rest := ms[1..];
      assert rest[i - 1] == ms[i];
      forall j | 0 <= j < i - 1
        ensures rest[j].msgSeq != rest[i - 1].msgSeq
      {
        assert rest[j] == ms[j + 1];
      }
      CollectedHoldsFirst(if ms[0].msgSeq in table then table else table[ms[0].msgSeq := ms[0]], rest, i - 1);
    }
  }

  lemma {:induction false} CollectedKeeps(table: map<seq<byte>, Message>, ms: seq<Message>, key: seq<byte>)
    requires key in table
    ensures key in Collected(table, ms) && Collected(table, ms)[key] == table[key]
    decreases |ms|
  {
    if ms != [] {
      CollectedKeeps(if ms[0].msgSeq in table then table else table[ms[0].msgSeq := ms[0]], ms[1..], key);
    }
  }

  class TcpConnection {
    const isServer: bool
    const dispatcher: RpcDispatcher
    var readBuffer: TcpBuffer
    var writeBuffer: TcpBuffer
    var replyDatas: map<seq<byte>, Message>

    ghost predicate Valid()
      reads this, readBuffer, readBuffer.buffer, writeBuffer, writeBuffer.buffer, dispatcher
    {
      && readBuffer != writeBuffer && readBuffer.buffer != writeBuffer.buffer
      && readBuffer.Valid() && writeBuffer.Valid()
      && Bounded(dispatcher.serviceMap)
    }

    constructor (isServer: bool, dispatcher: RpcDispatcher, size: nat)
      requires Bounded(dispatcher.serviceMap)
      ensures Valid() && fresh(readBuffer) && fresh(writeBuffer)
      ensures fresh(readBuffer.buffer) && fresh(writeBuffer.buffer)
      ensures this.isServer == isServer && this.dispatcher == dispatcher
      ensures readBuffer.View().Unread() == [] && writeBuffer.View().Unread() == [] && replyDatas == map[]
    {
      this.isServer := isServer;
      this.dispatcher := dispatcher;
      readBuffer := new TcpBuffer(size);
      writeBuffer := new TcpBuffer(size);
      replyDatas := map[];
    }

    /** Decode and hand on every complete packet; `fault` when Decode has no meaning. */
    method Execute(numbers: nat -> seq<byte>) returns (fault: bool)
      requires Valid() && ShortNumbers(numbers)
      modifies this`replyDatas, readBuffer, readBuffer.buffer, writeBuffer, writeBuffer.buffer
      ensures Valid() && readBuffer == old(readBuffer) && writeBuffer == old(writeBuffer)
      ensures var d := Delivered(old(readBuffer.View()));
              fault == d.fault && readBuffer.View() == d.rest
      ensures var answers := Answers(dispatcher.serviceMap, Delivered(old(readBuffer.View())).messages, numbers, 0);
              isServer ==>
                && (forall a <- answers :: Encodable(a))
                && writeBuffer.View().Unread() == old(writeBuffer.View().Unread()) + Stream(answers)
                && replyDatas == old(replyDatas)
      ensures !isServer ==>
                && writeBuffer.View() == old(writeBuffer.View())
                && replyDatas == Collected(old(replyDatas), Delivered(old(readBuffer.View())).messages)
    {
      hide Delivered, Answers, Collected, Bounded, DecodeOutcome, AfterDecode, Encodable, ReplyTo, Frame, Stream;
      ghost var raw := readBuffer.View();
      ghost var sent := writeBuffer.View().Unread();
      ghost var done: seq<Message> := [];
      var dispatched := 0;
      LoopStart(raw, dispatcher.serviceMap, numbers, sent, replyDatas);
      fault := false;
      while readBuffer.Readable() > 0
        invariant Valid() && readBuffer == old(readBuffer) && writeBuffer == old(writeBuffer)
        invariant readBuffer.buffer == old(readBuffer.buffer) || fresh(readBuffer.buffer)
        invariant writeBuffer.buffer == old(writeBuffer.buffer) || fresh(writeBuffer.buffer)
        invariant Delivered(raw) == Before(done, Delivered(readBuffer.View()))
        invariant dispatched == |done| && !fault
        invariant isServer ==> Sent(dispatcher.serviceMap, done, numbers, sent, writeBuffer.View().Unread())
        invariant isServer ==> replyDatas == old(replyDatas)
        invariant !isServer ==> writeBuffer.View() == old(writeBuffer.View())
        invariant !isServer ==> replyDatas == Collected(old(replyDatas), done)
        decreases readBuffer.Readable()
      {
        ghost var before := readBuffer.View();
        var data := new TinyPbStruct();
        LoopStep(before, done);
        fault := Decode(readBuffer, data);
        if fault || !data.decodeSucc {
          return;
        }
        var m := data.Value();
        ghost var out := writeBuffer.View();
        if isServer {
          dispatcher.Dispatch(data, writeBuffer, numbers(dispatched));
          AnswerSent(dispatcher.serviceMap, done, m, numbers, sent, out, writeBuffer.View());
        } else {
          CollectedAppend(old(replyDatas), done, m);
          if m.msgSeq !in replyDatas {
            replyDatas := replyDatas[m.msgSeq := m];
          }
        }
        done := done + [m];
        dispatched := dispatched + 1;
      }
      LoopEnd(readBuffer.View(), done);
    }

    /** Give out a reply once. */
    method GetResPackageData(msgReq: seq<byte>) returns (found: bool, reply: Option<Message>)
      modifies this`replyDatas
      ensures found <==> msgReq in old(replyDatas)
      ensures reply == if found then Some(old(replyDatas)[msgReq]) else None
      ensures replyDatas == old(replyDatas) - {msgReq}
    {
      if msgReq in replyDatas {
        reply := Some(replyDatas[msgReq]);
        replyDatas := replyDatas - {msgReq};
        return true, reply;
      }
      assert replyDatas == replyDatas - {msgReq};
      return false, None;
    }

    /**
     Send until the write buffer is empty, or the connection is over time or no longer connected: `sends`
     holds what each call of the socket returns until then, -1 for a failure.
     */
    method Output(sends: seq<int>) returns (wire: seq<byte>, fault: bool)
      requires Valid() && SocketTakes(writeBuffer.View(), sends)
      modifies writeBuffer
      ensures readBuffer == old(readBuffer) && writeBuffer == old(writeBuffer)
      ensures var d := SentBy(old(writeBuffer.View()), sends);
              wire == d.wire && fault == d.fault && (!fault ==> Valid() && writeBuffer.View() == d.rest)
    {
      hide Bounded, ReadAdvanced, Resized, Adjusted, SentBy, SocketTakes;
      ghost var raw := writeBuffer.View();
      wire := [];
      var k := 0;
      assert sends[0..] == sends;
      SentNothingYet(raw, sends);
      while k < |sends| && writeBuffer.Readable() != 0
        invariant 0 <= k <= |sends| && Valid()
        invariant writeBuffer.buffer == old(writeBuffer.buffer) || fresh(writeBuffer.buffer)
        invariant SocketTakes(writeBuffer.View(), sends[k..])
        invariant SentBy(raw, sends) == Ahead(wire, SentBy(writeBuffer.View(), sends[k..]))
        decreases |sends| - k
      {
        var rt := sends[k];
        SendStep(writeBuffer.View(), sends[k..], wire);
        assert sends[k..][1..] == sends[k + 1..];
        if rt > 0 {
          wire := wire + writeBuffer.Front(rt);
        }
        if writeBuffer.readIndex + rt < 0 {
          return wire, true;
        }
        fault := writeBuffer.RecycleRead(rt);
        k := k + 1;
      }
      SendingEnds(writeBuffer.View(), sends[k..], wire);
      fault := false;
    }
  }

  // ---- sending ----------------------------------------------------------------------------------------

  /** Bytes on the wire, the buffer left, and whether the program is about to send from before the vector. */
  datatype Sending = Sending(wire: seq<byte>, rest: Raw, fault: bool)

  /** A socket fails with -1 or takes at most what it is handed. */
  predicate SocketTakes(raw: Raw, sends: seq<int>)
    requires raw.Valid()
    decreases |sends|
  {
    sends == [] || raw.Readable() == 0 ||
    (-1 <= sends[0] <= raw.Readable() &&
     (raw.read + sends[0] >= 0 ==> (AdvancedIsValid(raw, sends[0]); SocketTakes(ReadAdvanced(raw, sends[0]), sends[1..]))))
  }

  /** The loop of `Output`: a failed send moves the read index back by one. */
  function SentBy(raw: Raw, sends: seq<int>): (d: Sending)
    requires raw.Valid() && SocketTakes(raw, sends)
    ensures d.rest.Valid()
    decreases |sends|
  {
    if sends == [] || raw.Readable() == 0 then Sending([], raw, false)
    else
      var rt := sends[0];
      if raw.read + rt < 0 then Sending([], raw, true)
      else
        AdvancedIsValid(raw, rt);
        Ahead(raw.Unread()[..if rt > 0 then rt else 0], SentBy(ReadAdvanced(raw, rt), sends[1..]))
  }

  function Ahead(wire: seq<byte>, d: Sending): Sending {
    d.(wire := wire + d.wire)
  }

  lemma AdvancedIsValid(raw: Raw, n: int)
    requires raw.Valid() && 0 <= raw.read + n <= raw.write
    ensures ReadAdvanced(raw, n).Valid() && ReadAdvanced(raw, n).Readable() == raw.Readable() - n
  {
    AdjustedKeeps(raw.(read := raw.read + n));
    assert |ReadAdvanced(raw, n).Unread()| == |raw.(read := raw.read + n).Unread()|;
  }

  /** The calls made fail this often. */
  function Failures(raw: Raw, sends: seq<int>): nat
    requires raw.Valid() && SocketTakes(raw, sends)
    decreases |sends|
  {
    if sends == [] || raw.Readable() == 0 then 0
    else
      (if sends[0] < 0 then 1 else 0)
      + if raw.read + sends[0] < 0 then 0
        else AdvancedIsValid(raw, sends[0]); Failures(ReadAdvanced(raw, sends[0]), sends[1..])
  }

  /** Each failure puts one byte in front that has been sent already, or that was never in the buffer. */
  lemma {:induction false} SentLength(raw: Raw, sends: seq<int>)
    requires raw.Valid() && SocketTakes(raw, sends)
    ensures var d := SentBy(raw, sends); !d.fault ==> |d.wire| + d.rest.Readable() == raw.Readable() + Failures(raw, sends)
    ensures SentBy(raw, sends).fault ==> Failures(raw, sends) > 0
    decreases |sends|
  {
    hide ReadAdvanced;
    if sends != [] && raw.Readable() != 0 && raw.read + sends[0] >= 0 {
      AdvancedIsValid(raw, sends[0]);
      SentLength(ReadAdvanced(raw, sends[0]), sends[1..]);
    }
  }

  lemma {:induction false} SentInOrder(raw: Raw, sends: seq<int>)
    requires raw.Valid() && SocketTakes(raw, sends) && Failures(raw, sends) == 0
    ensures var d := SentBy(raw, sends); !d.fault && d.wire + d.rest.Unread() == raw.Unread()
    decreases |sends|
  {
    hide ReadAdvanced;
    if sends != [] && raw.Readable() != 0 {
      AdvancedIsValid(raw, sends[0]);
      ReadAdvancedDequeues(raw, sends[0]);
      SentInOrder(ReadAdvanced(raw, sends[0]), sends[1..]);
      hide Failures, SocketTakes;
      var d := SentBy(ReadAdvanced(raw, sends[0]), sends[1..]);
      FrontAndRest(raw.Unread(), sends[0], d.wire, d.rest.Unread());
    }
  }

  lemma FrontAndRest(unread: seq<byte>, n: nat, wire: seq<byte>, rest: seq<byte>)
    requires n <= |unread| && wire + rest == unread[n..]
    ensures (unread[..n] + wire) + rest == unread
  {
    assert unread == unread[..n] + unread[n..];
  }

  /** The bytes sent followed by the bytes left are the bytes buffered exactly if no send that was made failed. */
  lemma SentExactly(raw: Raw, sends: seq<int>)
    requires raw.Valid() && SocketTakes(raw, sends)
    ensures var d := SentBy(raw, sends);
            !d.fault && d.wire + d.rest.Unread() == raw.Unread() <==> Failures(raw, sends) == 0
  {
    SentLength(raw, sends);
    var d := SentBy(raw, sends);
    assert |d.rest.Unread()| == d.rest.Readable() && |raw.Unread()| == raw.Readable();
    if Failures(raw, sends) == 0 {
      SentInOrder(raw, sends);
    }
  }

  /** For instance: after two of three bytes have been sent, a failure sends the second again. */
  lemma FailedSendRepeats()
    ensures var raw := Raw([1, 2, 3] + Zeros(9), 0, 3);
            raw.Valid() && SocketTakes(raw, [2, -1, 2]) && SentBy(raw, [2, -1, 2]).wire == [1, 2, 2, 3]
  {
    var raw := Raw([1, 2, 3] + Zeros(9), 0, 3);
    var r1, r2 := raw.(read := 2), raw.(read := 1);
    assert ReadAdvanced(raw, 2) == r1 && ReadAdvanced(r1, -1) == r2;
    assert [2, -1, 2][1..] == [-1, 2] && [-1, 2][1..] == [2] && [2][1..] == [];
    var r3 := ReadAdvanced(r2, 2);
    AdvancedIsValid(r2, 2);
    assert SocketTakes(r3, []) && SocketTakes(r2, [2]) && SocketTakes(r1, [-1, 2]);
    assert raw.Unread()[..2] == [1, 2] && r1.Unread()[..0] == [] && r2.Unread()[..2] == [2, 3];
    assert SentBy(r2, [2]).wire == [2, 3] && SentBy(r1, [-1, 2]).wire == [2, 3];
  }

  // ---- steps of the proof of Execute ----------------------------------------------------------

  function Before(done: seq<Message>, d: Delivery): Delivery {
    d.(messages := done + d.messages)
  }

  /** The replies to `done` have been appended to what the buffer held. */
  ghost predicate Sent(services: ServiceMap, done: seq<Message>, numbers: nat -> seq<byte>,
                       had: seq<byte>, unread: seq<byte>) {
    var answers := Answers(services, done, numbers, 0);
    (forall a <- answers :: Encodable(a)) && unread == had + Stream(answers)
  }

  lemma LoopStart(raw: Raw, services: ServiceMap, numbers: nat -> seq<byte>,
                  sent: seq<byte>, table: map<seq<byte>, Message>)
    requires raw.Valid()
    ensures Delivered(raw) == Before([], Delivered(raw))
    ensures Sent(services, [], numbers, sent, sent)
    ensures Collected(table, []) == table
  {
    assert Delivered(raw).messages == [] + Delivered(raw).messages;
  }

  lemma SentNothingYet(raw: Raw, sends: seq<int>)
    requires raw.Valid() && SocketTakes(raw, sends)
    ensures SentBy(raw, sends) == Ahead([], SentBy(raw, sends))
  {
    assert [] + SentBy(raw, sends).wire == SentBy(raw, sends).wire;
  }

  /** One turn of the sending loop. */
  lemma SendStep(raw: Raw, sends: seq<int>, wire: seq<byte>)
    requires raw.Valid() && SocketTakes(raw, sends) && sends != [] && raw.Readable() != 0
    ensures -1 <= sends[0] <= raw.Readable()
    ensures raw.read + sends[0] < 0 ==> Ahead(wire, SentBy(raw, sends)) == Sending(wire, raw, true) && sends[0] <= 0
    ensures raw.read + sends[0] >= 0 ==>
              && ReadAdvanced(raw, sends[0]).Valid() && SocketTakes(ReadAdvanced(raw, sends[0]), sends[1..])
              && Ahead(wire, SentBy(raw, sends))
                 == Ahead(wire + raw.Unread()[..if sends[0] > 0 then sends[0] else 0],
                          SentBy(ReadAdvanced(raw, sends[0]), sends[1..]))
  {
    hide ReadAdvanced;
    if raw.read + sends[0] < 0 {
      assert wire + [] == wire;
    } else {
      AdvancedIsValid(raw, sends[0]);
      Reassociate(wire, raw.Unread()[..if sends[0] > 0 then sends[0] else 0],
                  SentBy(ReadAdvanced(raw, sends[0]), sends[1..]).wire);
    }
  }

  lemma SendingEnds(raw: Raw, sends: seq<int>, wire: seq<byte>)
    requires raw.Valid() && SocketTakes(raw, sends) && (sends == [] || raw.Readable() == 0)
    ensures Ahead(wire, SentBy(raw, sends)) == Sending(wire, raw, false)
  {
    assert wire + [] == wire;
  }

  lemma LoopEnd(raw: Raw, done: seq<Message>)
    requires raw.Valid() && raw.Readable() <= 0
    ensures Before(done, Delivered(raw)) == Delivery(done, raw, false)
  {
    assert done + [] == done;
  }

  lemma LoopStep(raw: Raw, done: seq<Message>)
    requires raw.Valid() && raw.Readable() > 0
    ensures AfterDecode(raw).Valid()
    ensures var o := DecodeOutcome(raw);
            if o.Decoded? then
              && Before(done, Delivered(raw)) == Before(done + [o.message], Delivered(AfterDecode(raw)))
              && AfterDecode(raw).Readable() < raw.Readable()
              && Small(o.message)
            else
              Before(done, Delivered(raw)) == Delivery(done, AfterDecode(raw), o.Fault?)
  {
    assert done + [] == done;
    AfterDecodeValid(raw);
    if DecodeOutcome(raw).Decoded? {
      DecodeMakesProgress(raw);
      DecodedIsBounded(raw);
      var m := DecodeOutcome(raw).message;
      var later := Delivered(AfterDecode(raw)).messages;
      assert done + ([m] + later) == (done + [m]) + later;
    }
  }

  lemma AnswerSent(services: ServiceMap, done: seq<Message>, m: Message, numbers: nat -> seq<byte>,
                   had: seq<byte>, out: Raw, out': Raw)
    requires out.Valid() && Sent(services, done, numbers, had, out.Unread())
    requires Encodable(ReplyTo(services, m, numbers(|done|)))
    requires out' == if m.service == [] then out
                     else Appended(out, Frame(ReplyTo(services, m, numbers(|done|))))
    ensures out'.Valid() && Sent(services, done + [m], numbers, had, out'.Unread())
  {
    hide Frame, ReplyTo, Encodable, Appended;
    AnswersAppend(services, done, m, numbers, 0);
    if m.service == [] {
      assert Answers(services, done, numbers, 0) + [] == Answers(services, done, numbers, 0);
    } else {
      var reply := ReplyTo(services, m, numbers(|done|));
      AppendedEnqueues(out, Frame(reply));
      StreamAppend(Answers(services, done, numbers, 0), [reply]);
      assert Stream([reply]) == Frame(reply) by {
        assert [reply][1..] == [];
        assert Frame(reply) + [] == Frame(reply);
      }
      Reassociate(had, Stream(Answers(services, done, numbers, 0)), Frame(reply));
    }
  }

  // ---- requests and replies ----------------------------------------------------------------------

  /** The i-th reply answers the i-th request, with the same number and service name. */
  lemma {:induction false} AnswersCorrespond(services: ServiceMap, ms: seq<Message>, numbers: nat -> seq<byte>,
                                             k: nat, i: nat)
    requires (forall m <- ms :: m.service != [] && m.msgSeq != []) && i < |ms|
    ensures var answers := Answers(services, ms, numbers, k);
            && |answers| == |ms|
            && answers[i] == ReplyTo(services, ms[i], numbers(k + i))
            && answers[i].msgSeq == ms[i].msgSeq && answers[i].service == ms[i].service
    decreases |ms|
  {
    hide ReplyTo;
    ReplyAnswers(services, ms[0], numbers(k));
    AllAnswered(services, ms, numbers, k);
    if i > 0 {
      assert ms[i] == ms[1..][i - 1];
      AnswersCorrespond(services, ms[1..], numbers, k + 1, i - 1);
    }
  }

  lemma {:induction false} AllAnswered(services: ServiceMap, ms: seq<Message>, numbers: nat -> seq<byte>, k: nat)
    requires forall m <- ms :: m.service != []
    ensures |Answers(services, ms, numbers, k)| == |ms|
  {
    hide ReplyTo;
    if ms != [] {
      AllAnswered(services, ms[1..], numbers, k + 1);
    }
  }

  /** Requests that name no service get no reply; every other gets one. */
  lemma {:induction false} OneReplyPerNamedRequest(services: ServiceMap, ms: seq<Message>,
                                                   numbers: nat -> seq<byte>, k: nat)
    ensures |Answers(services, ms, numbers, k)| == |Named(ms)|
  {
    hide ReplyTo;
    if ms != [] {
      OneReplyPerNamedRequest(services, ms[1..], numbers, k + 1);
    }
  }

  function Named(ms: seq<Message>): seq<Message> {
    if ms == [] then [] else (if ms[0].service == [] then [] else [ms[0]]) + Named(ms[1..])
  }

  /** The stream of a server's replies. */
  function AnswerStream(services: ServiceMap, requests: seq<Message>, numbers: nat -> seq<byte>): seq<byte>
    requires Bounded(services) && ShortNumbers(numbers) && AllCarried(requests)
  {
    AnswersAreEncodable(services, requests, numbers, 0);
    Stream(Answers(services, requests, numbers, 0))
  }

  /** All the replies survive decoding exactly if each request's reply fits. */
  lemma {:induction false} AnswersCarriedExactly(services: ServiceMap, ms: seq<Message>, numbers: nat -> seq<byte>, k: nat)
    requires forall m <- ms :: Carried(m) && m.service != []
    ensures (forall a <- Answers(services, ms, numbers, k) :: Carried(a)) <==> forall m <- ms :: ReplyFits(services, m)
  {
    hide ReplyTo, ReplyFits, Carried;
    if ms != [] {
      ReplyIsCarried(services, ms[0], numbers(k));
      AnswersCarriedExactly(services, ms[1..], numbers, k + 1);
      var first, rest := ReplyTo(services, ms[0], numbers(k)), Answers(services, ms[1..], numbers, k + 1);
      assert forall a :: a in [first] + rest <==> a == first || a in rest;
      assert forall m :: m in ms <==> m == ms[0] || m in ms[1..];
    }
  }

  /**
   There and back: a server buffer holding the packets of `requests` and a client buffer holding the
   packets of the server's replies. The server decodes exactly the requests. The client decodes exactly
   the replies if each request's reply fits, and then, looking a request's number up on the client finds
   the reply to the first request with that number.
   */
  lemma RequestsAndReplies(services: ServiceMap, requests: seq<Message>, numbers: nat -> seq<byte>,
                           server: Raw, client: Raw)
    requires Bounded(services) && ShortNumbers(numbers)
    requires AllCarried(requests) && forall m <- requests :: m.service != []
    requires server.Valid() && server.Unread() == Stream(requests)
    requires client.Valid() && client.Unread() == AnswerStream(services, requests, numbers)
    ensures Delivered(server).messages == requests && Delivered(server).rest.Unread() == []
    ensures (forall m <- requests :: ReplyFits(services, m)) <==>
              Delivered(client).messages == Answers(services, requests, numbers, 0)
    ensures var table := Collected(map[], Delivered(client).messages);
            (forall m <- requests :: ReplyFits(services, m)) ==>
              forall i :: 0 <= i < |requests| && IsFirst(requests, i) ==>
                && requests[i].msgSeq in table
                && table[requests[i].msgSeq] == ReplyTo(services, requests[i], numbers(i))
  {
    hide Delivered, Collected, ReplyTo, ReplyFits, Stream, Encodable, Bounded, Answers, AnswerStream, Carried;
    CompleteStream(server, requests);
    ClientDecodesExactly(services, requests, numbers, client);
    if forall m <- requests :: ReplyFits(services, m) {
      forall i | 0 <= i < |requests| && IsFirst(requests, i)
        ensures var table := Collected(map[], Delivered(client).messages);
                && requests[i].msgSeq in table
                && table[requests[i].msgSeq] == ReplyTo(services, requests[i], numbers(i))
      {
        CarriedIsNumbered(requests);
        FirstAnswerIsKept(services, requests, numbers, i);
      }
    }
  }

  lemma CarriedIsNumbered(ms: seq<Message>)
    requires AllCarried(ms)
    ensures forall m <- ms :: m.msgSeq != []
  {
  }

  lemma ClientDecodesExactly(services: ServiceMap, requests: seq<Message>, numbers: nat -> seq<byte>, client: Raw)
    requires Bounded(services) && ShortNumbers(numbers)
    requires AllCarried(requests) && forall m <- requests :: m.service != []
    requires client.Valid() && client.Unread() == AnswerStream(services, requests, numbers)
    ensures (forall m <- requests :: ReplyFits(services, m)) <==>
              Delivered(client).messages == Answers(services, requests, numbers, 0)
  {
    CarriedIsSmall(requests);
    hide Delivered, ReplyTo, ReplyFits, Stream, Encodable, Bounded, Answers, Carried;
    var answers := Answers(services, requests, numbers, 0);
    AnswersAreEncodable(services, requests, numbers, 0);
    AnswersCarriedExactly(services, requests, numbers, 0);
    if forall m <- requests :: ReplyFits(services, m) {
      CompleteStream(client, answers);
    } else if Delivered(client).messages == answers {
      OnlyCarriedAreDelivered(client, answers);
      assert false;
    }
  }

  lemma CarriedIsSmall(ms: seq<Message>)
    requires AllCarried(ms)
    ensures forall m <- ms :: Small(m) && Carried(m)
  {
  }

  lemma FirstAnswerIsKept(services: ServiceMap, requests: seq<Message>, numbers: nat -> seq<byte>, i: nat)
    requires forall m <- requests :: m.service != [] && m.msgSeq != []
    requires i < |requests| && IsFirst(requests, i)
    ensures var table := Collected(map[], Answers(services, requests, numbers, 0));
            && requests[i].msgSeq in table
            && table[requests[i].msgSeq] == ReplyTo(services, requests[i], numbers(i))
  {
    hide Collected, ReplyTo, Answers;
    var answers := Answers(services, requests, numbers, 0);
    forall j | 0 <= j <= i
      ensures |answers| == |requests| && answers[j].msgSeq == requests[j].msgSeq
    {
      AnswersCorrespond(services, requests, numbers, 0, j);
    }
    AnswersCorrespond(services, requests, numbers, 0, i);
    CollectedHoldsFirst(map[], answers, i);
  }
}
