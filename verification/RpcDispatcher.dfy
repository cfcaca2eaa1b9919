/** Dispatching one decoded request: exactly one reply, whatever branch is taken. */
module RpcDispatchers {
  import opened Bytes
  import opened Common
  import opened TcpBuffers
  import opened TinyPbCodec

  const ERROR_FAILED_SERIALIZE := 10000004
  const ERROR_SERVICE_NOT_FOUND := 10000008
  const ERROR_METHOD_NOT_FOUND := 10000009
  const ERROR_PARSE_SERVICE_NAME := 10000010

  const DOT: byte := 46

  /** What parsing the request, calling the service and serializing the response come to. */
  datatype CallResult = ParseFailed | SerializeFailed | Response(payload: seq<byte>)

  /** A method of a service: its request type's name and the opaque behaviour behind it. */
  datatype ServiceMethod = ServiceMethod(requestName: seq<byte>, invoke: seq<byte> -> CallResult)

  /** The service map: a registered pointer may be null. */
  type ServiceMap = map<seq<byte>, Option<map<seq<byte>, ServiceMethod>>>

  const NAME_LIMIT := 0x1_0000
  const PAYLOAD_LIMIT := 0x4000_0000

  /** Type names and response payloads are small enough for the packet length to be an int32. */
  ghost predicate Bounded(services: ServiceMap) {
    forall s, m | s in services && services[s].Some? && m in services[s].value ::
      && |services[s].value[m].requestName| <= NAME_LIMIT
      && forall b :: services[s].value[m].invoke(b).Response? ==>
                       |services[s].value[m].invoke(b).payload| <= PAYLOAD_LIMIT
  }

  /** Split at the first dot; a name without one is refused. */
  function ParseServiceFullName(name: seq<byte>): (r: Option<(seq<byte>, seq<byte>)>)
    ensures r.Some? <==> DOT in name
    ensures r.Some? ==> name == r.value.0 + [DOT] + r.value.1 && DOT !in r.value.0
  {
    if name == [] then None
    else if name[0] == DOT then Some(([], name[1..]))
    else
      var rest := ParseServiceFullName(name[1..]);
      if rest.None? then None else Some(([name[0]] + rest.value.0, rest.value.1))
  }

  datatype Complaint =
    | CannotParse(name: seq<byte>)
    | NoService(name: seq<byte>)
    | NoMethod(name: seq<byte>)
    | BadRequest(name: seq<byte>)
    | BadResponse

  function Code(c: Complaint): int {
    match c
    case CannotParse(_) => ERROR_PARSE_SERVICE_NAME
    case NoService(_) => ERROR_SERVICE_NOT_FOUND
    case NoMethod(_) => ERROR_METHOD_NOT_FOUND
    case BadRequest(_) => ERROR_FAILED_SERIALIZE
    case BadResponse => ERROR_FAILED_SERIALIZE
  }

  const CANNOT_PARSE: Literal := "cannot parse service_name:["
  const NO_SERVICE: Literal := "not found service_name:["
  const NO_METHOD: Literal := "not found method_name:["
  const BAD_REQUEST: Literal := "faild to parse request data"
  const REQUEST_NAME: Literal := ", request.name:["
  const BAD_RESPONSE: Literal := "failed to serilize relpy data"
  const CLOSE: Literal := "]"

  /** The error text of a reply. */
  function Text(c: Complaint): (t: seq<byte>)
    ensures 0 < |t| <= (if c.BadResponse? then 0 else |c.name|) + 64
  {
    match c
    case CannotParse(name) => Ascii(CANNOT_PARSE) + name + Ascii(CLOSE)
    case NoService(name) => Ascii(NO_SERVICE) + name + Ascii(CLOSE)
    case NoMethod(name) => Ascii(NO_METHOD) + name + Ascii(CLOSE)
    case BadRequest(name) => Ascii(BAD_REQUEST) + Ascii(REQUEST_NAME) + name + Ascii(CLOSE)
    case BadResponse => Ascii(BAD_RESPONSE)
  }

  lemma TextIsClean(c: Complaint)
    requires c.BadResponse? || 0 !in c.name
    ensures 0 !in Text(c)
  {
    hide Ascii;
  }

  function Failure(to: Message, c: Complaint): Message {
    to.(errCode := Code(c), errInfo := Text(c))
  }

  /** The reply to a request. */
  function ReplyTo(services: ServiceMap, request: Message, generated: seq<byte>): Message {
    var seq' := if request.msgSeq == [] then generated else request.msgSeq;
    var reply := Message(seq', request.service, 0, [], []);
    match ParseServiceFullName(request.service)
    case None =>
      Failure(reply, CannotParse(request.service))
    case Some((service, name)) =>
      if service !in services || services[service].None? then
        Failure(reply, NoService(service))
      else if name !in services[service].value then
        Failure(reply, NoMethod(name))
      else
        var m := services[service].value[name];
        match m.invoke(request.pbData)
        case ParseFailed =>
          Failure(reply, BadRequest(m.requestName))
        case SerializeFailed =>
          Failure(reply, BadResponse)
        case Response(payload) => reply.(pbData := payload)
  }

  /** A reply answers its request: same number, same service name, and an error code exactly when there is error text. */
  lemma ReplyAnswers(services: ServiceMap, request: Message, generated: seq<byte>)
    ensures var reply := ReplyTo(services, request, generated);
            && reply.service == request.service
            && (request.msgSeq != [] ==> reply.msgSeq == request.msgSeq)
            && (reply.errCode != 0 <==> reply.errInfo != [])
            && (reply.errCode != 0 ==> reply.pbData == [])
  {
    hide Text, ParseServiceFullName;
  }

  lemma {:induction false} SplitIsUnique(name: seq<byte>, service: seq<byte>, method': seq<byte>)
    requires name == service + [DOT] + method' && DOT !in service
    ensures ParseServiceFullName(name) == Some((service, method'))
  {
    if service == [] {
      assert name[1..] == method';
    } else {
      assert name[0] == service[0] && name[1..] == service[1..] + [DOT] + method';
      SplitIsUnique(name[1..], service[1..], method');
      assert service == [service[0]] + service[1..];
    }
  }

  predicate Registered(services: ServiceMap, service: seq<byte>) {
    service in services && services[service].Some?
  }

  /** The error code tells exactly how far a request got; only an answered one has a payload, the service's own. */
  lemma CodeTellsBranch(services: ServiceMap, request: Message, generated: seq<byte>,
                        service: seq<byte>, name: seq<byte>)
    requires request.service == service + [DOT] + name && DOT !in service
    ensures var reply := ReplyTo(services, request, generated);
            var known := Registered(services, service) && name in services[service].value;
            && (reply.errCode == 10000008 <==> !Registered(services, service))
            && (reply.errCode == 10000009 <==> Registered(services, service) && !known)
            && (reply.errCode == 0 <==> known && services[service].value[name].invoke(request.pbData).Response?)
            && (reply.errCode == 10000004 <==>
                  known && !services[service].value[name].invoke(request.pbData).Response?)
            && (reply.errCode == 0 ==>
                  services[service].value[name].invoke(request.pbData) == Response(reply.pbData))
            && (reply.errCode == 10000008 ==>
                  reply.errInfo == Ascii("not found service_name:[") + service + Ascii("]"))
            && (reply.errCode == 10000009 ==>
                  reply.errInfo == Ascii("not found method_name:[") + name + Ascii("]"))
            && (reply.errCode == 10000004 ==>
                  reply.errInfo ==
                  if services[service].value[name].invoke(request.pbData).SerializeFailed?
                  then Ascii("failed to serilize relpy data")
                  else Ascii("faild to parse request data") + Ascii(", request.name:[")
                       + services[service].value[name].requestName + Ascii("]"))
  {
    hide ParseServiceFullName, Ascii;
    SplitIsUnique(request.service, service, name);
  }

  /** The remaining code: the name has no dot. */
  lemma CodeTellsNoDot(services: ServiceMap, request: Message, generated: seq<byte>)
    ensures ReplyTo(services, request, generated).errCode == 10000010 <==> 46 !in request.service
    ensures 46 !in request.service ==>
              ReplyTo(services, request, generated).errInfo
              == Ascii("cannot parse service_name:[") + request.service + Ascii("]")
  {
    hide Ascii;
  }

  /** A decoded request is small, whatever was on the wire. */
  predicate Small(m: Message) {
    |m.msgSeq| <= NAME_LIMIT && |m.service| <= SERVICE_NAME_CAPACITY
  }

  lemma ReplyIsEncodable(services: ServiceMap, request: Message, generated: seq<byte>)
    requires Bounded(services) && Small(request) && |generated| <= NAME_LIMIT
    ensures Encodable(ReplyTo(services, request, generated))
  {
    hide Text, ParseServiceFullName;
  }

  /**
   Whether the reply to a request fits the client's local arrays, read off the request and the services:
   the error texts quote the name, the service, the method or the request's type.
   */
  predicate ReplyFits(services: ServiceMap, request: Message) {
    match ParseServiceFullName(request.service)
    case None => |request.service| <= 483
    case Some((service, name)) =>
      if !Registered(services, service) then |service| <= 486
      else if name !in services[service].value then |name| <= 487
      else if services[service].value[name].invoke(request.pbData).ParseFailed? then
        var typeName := services[service].value[name].requestName;
        |typeName| <= 467 && 0 !in typeName
      else true
  }

  lemma TextLengths(name: seq<byte>)
    ensures |Text(CannotParse(name))| == |name| + 28
    ensures |Text(NoService(name))| == |name| + 25
    ensures |Text(NoMethod(name))| == |name| + 24
    ensures |Text(BadRequest(name))| == |name| + 44
    ensures |Text(BadResponse)| == 29
  {
    hide Ascii;
  }

  lemma TextQuotesNul(name: seq<byte>)
    ensures 0 in Text(BadRequest(name)) <==> 0 in name
  {
    hide Ascii;
  }

  /** The reply to a carried request survives decoding exactly if it fits. */
  lemma ReplyIsCarried(services: ServiceMap, request: Message, generated: seq<byte>)
    requires Carried(request)
    ensures Carried(ReplyTo(services, request, generated)) <==> ReplyFits(services, request)
  {
    hide Text, ParseServiceFullName;
    match ParseServiceFullName(request.service)
    case None =>
      TextLengths(request.service);
      TextIsClean(CannotParse(request.service));
    case Some((service, name)) =>
      assert forall c :: c in service || c in name ==> c in request.service;
      TextLengths(service);
      TextLengths(name);
      TextIsClean(NoService(service));
      TextIsClean(NoMethod(name));
      TextIsClean(BadResponse);
      if Registered(services, service) && name in services[service].value {
        TextLengths(services[service].value[name].requestName);
        TextQuotesNul(services[service].value[name].requestName);
      }
  }

  /** For a name that cannot be parsed, that is a bound on the name alone. */
  lemma UnparsableNameReply(services: ServiceMap, request: Message, generated: seq<byte>)
    requires Carried(request) && DOT !in request.service
    ensures Carried(ReplyTo(services, request, generated)) <==> |request.service| <= 483
  {
    hide Text, Carried, ReplyTo;
    ReplyIsCarried(services, request, generated);
  }

  /** It need not: a service name of 487 bytes that nobody has registered. */
  lemma LongServiceReplyIsLost(generated: seq<byte>)
    ensures var request := Message([49], seq(487, _ => 97) + [DOT, 98], 0, [], []);
            Carried(request) && !Carried(ReplyTo(map[], request, generated))
  {
    var service: seq<byte> := seq(487, _ => 97);
    var request := Message([49], service + [DOT, 98], 0, [], []);
    assert service + [DOT, 98] == service + [DOT] + [98];
    SplitIsUnique(request.service, service, [98]);
    ReplyIsCarried(map[], request, generated);
  }

  /** Registering a service concerns the requests that name it, and those only; afterwards it is found. */
  lemma RegistrationIsLocal(services: ServiceMap, fullName: seq<byte>, registered: Option<map<seq<byte>, ServiceMethod>>,
                            request: Message, generated: seq<byte>)
    ensures var before, after := ReplyTo(services, request, generated),
                                 ReplyTo(services[fullName := registered], request, generated);
            if fullName + [DOT] <= request.service && DOT !in fullName
            then after.errCode == 10000008 <==> registered.None?
            else after == before
  {
    hide Text, ParseServiceFullName;
    var r := request.service;
    if fullName + [DOT] <= r && DOT !in fullName {
      assert r == fullName + [DOT] + r[|fullName| + 1..];
      SplitIsUnique(r, fullName, r[|fullName| + 1..]);
    }
  }

  class RpcDispatcher {
    var serviceMap: ServiceMap

    constructor ()
      ensures serviceMap == map[]
    {
      serviceMap := map[];
    }

    method RegisterService(fullName: seq<byte>, service: Option<map<seq<byte>, ServiceMethod>>)
      modifies this
      ensures serviceMap == old(serviceMap)[fullName := service]
    {
      serviceMap := serviceMap[fullName := service];
    }

    /** Set the reply to `request`, with the checks in the order of the branches of `Dispatch`. */
    method FillReply(request: TinyPbStruct, replyPk: TinyPbStruct, generated: seq<byte>)
      requires request != replyPk && replyPk.Value() == Message([], [], 0, [], [])
      modifies replyPk
      ensures replyPk.Value() == ReplyTo(serviceMap, request.Value(), generated)
    {
      hide Text, ParseServiceFullName;
      replyPk.serviceFullName := request.serviceFullName;
      replyPk.msgSeq := request.msgSeq;
      if replyPk.msgSeq == [] {
        replyPk.msgSeq := generated;
      }
      var parsed := ParseServiceFullName(request.serviceFullName);
      if parsed.None? {
        replyPk.errCode := ERROR_PARSE_SERVICE_NAME;
        replyPk.errInfo := Text(CannotParse(request.serviceFullName));
        return;
      }
      var (serviceName, methodName) := parsed.value;
      if serviceName !in serviceMap || serviceMap[serviceName].None? {
        replyPk.errCode := ERROR_SERVICE_NOT_FOUND;
        replyPk.errInfo := Text(NoService(serviceName));
        return;
      }
      var service := serviceMap[serviceName].value;
      if methodName !in service {
        replyPk.errCode := ERROR_METHOD_NOT_FOUND;
        replyPk.errInfo := Text(NoMethod(methodName));
        return;
      }
      var called := service[methodName].invoke(request.pbData);
      if called.ParseFailed? {
        replyPk.errCode := ERROR_FAILED_SERIALIZE;
        replyPk.errInfo := Text(BadRequest(service[methodName].requestName));
        return;
      }
      if called.SerializeFailed? {
        replyPk.pbData := [];
        replyPk.errCode := ERROR_FAILED_SERIALIZE;
        replyPk.errInfo := Text(BadResponse);
      } else {
        replyPk.pbData := called.payload;
      }
    }

    /** Encode the reply to `request` into `out`; nothing is written if the request names no service. */
    method Dispatch(request: TinyPbStruct, out: TcpBuffer, generated: seq<byte>)
      requires out.Valid() && Bounded(serviceMap)
      requires Small(request.Value()) && |generated| <= NAME_LIMIT
      modifies out, out.buffer
      ensures out.Valid() && (out.buffer == old(out.buffer) || fresh(out.buffer))
      ensures Encodable(ReplyTo(serviceMap, request.Value(), generated))
      ensures request.serviceFullName == [] ==> out.View() == old(out.View())
      ensures request.serviceFullName != [] ==>
                out.View() == Appended(old(out.View()), Frame(ReplyTo(serviceMap, request.Value(), generated)))
    {
      hide Frame, Text, ParseServiceFullName, Bounded, Appended;
      ReplyIsEncodable(serviceMap, request.Value(), generated);
      var replyPk := new TinyPbStruct();
      FillReply(request, replyPk, generated);
      Encode(out, replyPk, generated);
    }
  }
}
