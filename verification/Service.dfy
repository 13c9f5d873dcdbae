/**
  The serving side: how a request's meta is built, how the generated request stub selects a method
  and answers errors, and the reply object handed to the service.
*/
module Service {
  import opened Bytes
  import opened Meta
  import opened Interceptors
  import Messages

  /** A message on its way to or from the transport. */
  datatype Packet = Packet(meta: RpcMeta, body: ByteString)

  // ---------------------------------------------------------------- metas

  /** Fills a fresh message field by field, as the calling side does before it sets the timeout. */
  method MakeRequestRpcMeta(id: uint64, serviceId: uint32, msgId: uint64, encoding: int32, expectResponse: bool)
    returns (meta: Messages.RpcMetaMessage)
    ensures fresh(meta) && fresh(meta.requestInfo)
    ensures meta.typ == 0 && meta.serviceId == serviceId && meta.encoding == encoding
    ensures meta.responseInfo == null && meta.metaData == map[] && meta.requestInfo != null
    ensures meta.requestInfo.intMethod == msgId && meta.requestInfo.strMethod == []
    ensures meta.requestInfo.sequenceId == id && meta.requestInfo.expectResponse == expectResponse
    ensures meta.requestInfo.timeout == 0
    ensures meta.Value() == RequestMeta(id, serviceId, msgId, encoding, expectResponse, 0)
  {
    meta := new Messages.RpcMetaMessage();
    meta.typ := REQUEST;
    meta.encoding := encoding;
    meta.serviceId := serviceId;
    var info := meta.MutableRequestInfo();
    info.intMethod := msgId;
    info.sequenceId := id;
    info.expectResponse := expectResponse;
  }

  function ReplyPacket(request: RpcMeta, body: ByteString): Packet {
    Packet(RpcMeta(RESPONSE, request.serviceId, BINARY, None,
                   Some(Response(RequestOf(request).sequenceId, false, 0, [], false)), map[]), body)
  }

  /** The body of an error is an empty message. */
  function ErrorPacket(serviceId: uint32, id: uint64, code: int32, reason: ByteString): Packet {
    Packet(RpcMeta(RESPONSE, serviceId, BINARY, None, Some(Response(id, true, code, reason, false)), map[]), [])
  }

  // ---------------------------------------------------------------- bodies

  /** Which bodies of a message type parse, in either encoding. */
  datatype Codec = Codec(binary: ByteString -> bool, json: ByteString -> bool)

  predicate Parses(codec: Codec, encoding: int32, body: ByteString) {
    if encoding == BINARY then codec.binary(body)
    else if encoding == JSON then codec.json(body)
    else false
  }

  // ---------------------------------------------------------------- the reply object

  datatype Answer = Reply(body: ByteString) | Error(code: int32, reason: ByteString)

  datatype ReplyState = ReplyState(request: RpcMeta, replied: bool)

  /** What one call on the reply object does; the second and later ones throw. */
  datatype Effect = AlreadyReplied | Quiet | Sends(packet: Packet)

  function PacketOf(request: RpcMeta, a: Answer): Packet {
    match a
    case Reply(body) => ReplyPacket(request, body)
    case Error(code, reason) => ErrorPacket(request.serviceId, RequestOf(request).sequenceId, code, reason)
  }

  /** The error a response handler is given; `timeout` is the mark that `setTimeout` sets. */
  datatype RpcError = RpcError(code: int32, reason: ByteString, timeout: bool)

  /** The copy constructor copies code and reason only. There is no other way to pass an error on. */
  function Copied(e: RpcError): RpcError {
    RpcError(e.code, e.reason, false)
  }

  /** What a response handler is given, and a promise is set to: the body, and an error. */
  type Arguments = (ByteString, Option<RpcError>)

  /** For a response: an error when the meta says failed. */
  function HandlerArguments(p: Packet): Arguments {
    var info := ResponseOf(p.meta);
    (p.body, if info.failed then Some(Copied(RpcError(info.errorCode, info.reason, false))) else None)
  }

  /** For a timeout: an empty response and a copy of a marked error. */
  function TimeoutArguments(): Arguments {
    ([], Some(Copied(RpcError(0, [], true))))
  }

  /** For an answer of the service. */
  function ArgumentsOf(a: Answer): Arguments {
    match a
    case Reply(body) => (body, None)
    case Error(code, reason) => ([], Some(RpcError(code, reason, false)))
  }

  lemma AnswerArrives(request: RpcMeta, a: Answer)
    ensures HandlerArguments(PacketOf(request, a)) == ArgumentsOf(a)
  {}

  /** A caller takes an answer for a timeout exactly when it is the error with code 0 and no reason. */
  lemma TimeoutLooksLike(a: Answer)
    ensures ArgumentsOf(a) == TimeoutArguments() <==> a == Error(0, [])
  {}

  /** Distinct answers to a request never look alike to its caller, and name no other request. */
  lemma CallerSeesAnswer(request: RpcMeta, a: Answer, other: RpcMeta, b: Answer)
    ensures HandlerArguments(PacketOf(request, a)) == HandlerArguments(PacketOf(other, b)) ==> a == b
    ensures PacketOf(request, a) == PacketOf(other, b) ==>
              RequestOf(request).sequenceId == RequestOf(other).sequenceId && request.serviceId == other.serviceId
  {}

  function EffectOf(r: ReplyState, a: Answer): Effect {
    if r.replied then AlreadyReplied
    else if !RequestOf(r.request).expectResponse then Quiet
    else Sends(PacketOf(r.request, a))
  }

  function Sent(e: Effect): seq<Packet> {
    if e.Sends? then [e.packet] else []
  }

  /** Messages that go out for a list of calls, in the order their test-and-set happened. */
  function Answers(r: ReplyState, calls: seq<Answer>): seq<Packet>
    decreases |calls|
  {
    if calls == [] then [] else Sent(EffectOf(r, calls[0])) + Answers(r.(replied := true), calls[1..])
  }

  /** Whatever mix of calls meets the object: the first one is sent if a response is expected, no other ever is. */
  lemma {:induction false} OnlyFirstAnswerSent(r: ReplyState, calls: seq<Answer>)
    ensures Answers(r, calls)
         == if !r.replied && calls != [] && RequestOf(r.request).expectResponse then [PacketOf(r.request, calls[0])]
            else []
    decreases |calls|
  {
    if calls != [] {
      OnlyFirstAnswerSent(r.(replied := true), calls[1..]);
    }
  }

  class BaseReply {
    const mRequestMeta: RpcMeta
    var mReplyFlag: bool
    var outbound: seq<Packet>      // what the outbound interceptor was given

    ghost function Value(): ReplyState
      reads this
    {
      ReplyState(mRequestMeta, mReplyFlag)
    }

    constructor (meta: RpcMeta)
      ensures Value() == ReplyState(meta, false) && outbound == []
    {
      mRequestMeta := meta;
      mReplyFlag, outbound := false, [];
    }

    method TestAndSet() returns (was: bool)
      modifies this`mReplyFlag
      ensures was == old(mReplyFlag) && mReplyFlag
    {
      was := mReplyFlag;
      mReplyFlag := true;
    }

    /** The first call sends, if a response is expected; later ones throw. */
    method DoReply(body: ByteString) returns (e: Effect)
      modifies this
      ensures e == EffectOf(old(Value()), Reply(body))
      ensures mReplyFlag
      ensures var request := RequestOf(mRequestMeta);
              if old(mReplyFlag) then e == AlreadyReplied && outbound == old(outbound)
              else if !request.expectResponse then e == Quiet && outbound == old(outbound)
              else
                var info := Response(request.sequenceId, false, 0, [], false);
                var meta := RpcMeta(1, mRequestMeta.serviceId, 0, None, Some(info), map[]);
                outbound == old(outbound) + [Packet(meta, body)]
    {
      var was := TestAndSet();
      if was {
        return AlreadyReplied;
      }
      if !RequestOf(mRequestMeta).expectResponse {
        return Quiet;
      }
      var meta := NO_META.(typ := RESPONSE, serviceId := mRequestMeta.serviceId);
      meta := meta.(responseInfo := Some(NO_RESPONSE.(sequenceId := RequestOf(mRequestMeta).sequenceId)));
      outbound := outbound + [Packet(meta, body)];
      return Sends(Packet(meta, body));
    }

    method DoError(code: int32, reason: ByteString) returns (e: Effect)
      modifies this
      ensures e == EffectOf(old(Value()), Error(code, reason))
      ensures mReplyFlag
      ensures var request := RequestOf(mRequestMeta);
              if old(mReplyFlag) then e == AlreadyReplied && outbound == old(outbound)
              else if !request.expectResponse then e == Quiet && outbound == old(outbound)
              else
                var info := Response(request.sequenceId, true, code, reason, false);
                var meta := RpcMeta(1, mRequestMeta.serviceId, 0, None, Some(info), map[]);
                outbound == old(outbound) + [Packet(meta, [])]
    {
      var was := TestAndSet();
      if was {
        return AlreadyReplied;
      }
      if !RequestOf(mRequestMeta).expectResponse {
        return Quiet;
      }
      var packet := ErrorPacket(mRequestMeta.serviceId, RequestOf(mRequestMeta).sequenceId, code, reason);
      outbound := outbound + [packet];
      return Sends(packet);
    }
  }

  // ---------------------------------------------------------------- methods

  datatype Method = Echo | Login

  const ECHO_ID: uint64 := 2333
  const LOGIN_ID: uint64 := 3333

  /** The id with which the generated client calls a method. */
  function MethodId(x: Method): uint64 {
    match x case Echo => ECHO_ID case Login => LOGIN_ID
  }

  function MethodName(x: Method): string {
    match x
    case Echo => "dodo.test.EchoServer.Echo"
    case Login => "dodo.test.EchoServer.Login"
  }

  function Ascii(s: string): ByteString {
    seq(|s|, i requires 0 <= i < |s| => (s[i] as int) % 256)
  }

  function Decimal(n: nat): ByteString {
    if n < 10 then [48 + n] else Decimal(n / 10) + [48 + n % 10]
  }

  /** By name when the request carries one, by id otherwise. */
  function SelectMethod(info: Request): Option<Method> {
    if info.strMethod != [] then
      if info.strMethod == Ascii("dodo.test.EchoServer.Echo") then Some(Echo)
      else if info.strMethod == Ascii("dodo.test.EchoServer.Login") then Some(Login)
      else None
    else
      if info.intMethod == ECHO_ID then Some(Echo)
      else if info.intMethod == LOGIN_ID then Some(Login)
      else None
  }

  lemma NamesDiffer()
    ensures Ascii(MethodName(Echo)) != Ascii(MethodName(Login))
  {
    assert |MethodName(Echo)| != |MethodName(Login)|;
  }

  /** Without a name, a method is selected exactly by its id, with a name exactly by its name. */
  lemma SelectsExactly(info: Request, x: Method)
    ensures info.strMethod == [] ==> (SelectMethod(info) == Some(x) <==> info.intMethod == MethodId(x))
    ensures info.strMethod != [] ==> (SelectMethod(info) == Some(x) <==> info.strMethod == Ascii(MethodName(x)))
  {
    NamesDiffer();
  }

  /** No two methods share an id or a name; the ids are those of the service definition. */
  lemma MethodTables(x: Method, y: Method)
    ensures MethodId(Echo) == 2333 && MethodId(Login) == 3333
    ensures MethodName(Echo) == "dodo.test.EchoServer.Echo" && MethodName(Login) == "dodo.test.EchoServer.Login"
    ensures MethodId(x) == MethodId(y) ==> x == y
    ensures Ascii(MethodName(x)) == Ascii(MethodName(y)) ==> x == y
    ensures forall i :: 0 <= i < |MethodName(x)| ==> Ascii(MethodName(x))[i] == MethodName(x)[i] as int
  {
    NamesDiffer();
  }

  /** The number that decimal digits stand for. */
  function DecimalValue(digits: ByteString): int {
    if digits == [] then 0 else 10 * DecimalValue(digits[..|digits| - 1]) + (digits[|digits| - 1] as int - 48)
  }

  lemma {:induction false} DecimalIsRight(n: nat)
    ensures DecimalValue(Decimal(n)) == n
    ensures forall i :: 0 <= i < |Decimal(n)| ==> 48 <= Decimal(n)[i] < 58
    ensures |Decimal(n)| > 0 && (n > 0 ==> Decimal(n)[0] != 48)
  {
    var d := Decimal(n);
    if n < 10 {
      assert d[..0] == [];
    } else {
      DecimalIsRight(n / 10);
      assert d[..|d| - 1] == Decimal(n / 10);
    }
  }

  /** A text handed on as a C string ends in front of its first zero byte. */
  function CString(b: ByteString): ByteString {
    if b == [] || b[0] == 0 then [] else [b[0]] + CString(b[1..])
  }

  lemma {:induction false} CStringEnds(b: ByteString)
    ensures CString(b) <= b && 0 !in CString(b)
    ensures |CString(b)| < |b| ==> b[|CString(b)|] == 0
  {
    if b != [] && b[0] != 0 {
      CStringEnds(b[1..]);
      assert b == [b[0]] + b[1..];
    }
  }

  function NotFoundReason(info: Request): ByteString {
    CString(Ascii("not found handle, method:")
            + if info.strMethod != [] then info.strMethod else Decimal(info.intMethod))
  }

  // ---------------------------------------------------------------- between the stub and the service

  /**
    What comes back through a chain: a result with an optional error text, a future that holds an
    exception, a thrown exception, or a future to which nothing ever comes. A result that comes later
    is taken as one that comes at once.
  */
  datatype Future = Ready(err: Option<ByteString>) | Broken(text: ByteString) | Threw(text: ByteString) | Lost

  /** What a handler that throws this text, or nothing, gives back. */
  function Outcome(throws: Option<ByteString>): Future {
    match throws case None => Ready(None) case Some(text) => Threw(text)
  }

  /**
    What became of the stub's meta. `own`: the meta in hand is the stub's own and not a copy of it.
    `moved`: the stub's own was moved away. `replyBuilt`: a reply object took the meta in hand.
  */
  datatype Custody = Custody(own: bool, moved: bool, replyBuilt: bool)

  const UNTOUCHED := Custody(true, false, false)

  /** The construction of a reply object moves the meta in hand. */
  function HandedOver(s: Custody): Custody {
    Custody(s.own, s.moved || s.own, true)
  }

  /** A link of the inbound chain. */
  type Link = Interceptor<RpcMeta, Custody, Future>

  /** The service's own code: which bodies its methods can parse, and the text of the exception a method throws. */
  datatype Implementation = Implementation(codec: Method -> Codec,
                                           code: (Method, RpcMeta, ByteString) -> Option<ByteString>)

  /** The handler behind the inbound chain: the reply object takes the meta, then the method is called. */
  function CallService(impl: Implementation, target: Method, body: ByteString):
    Interceptors.Handler<RpcMeta, Custody, Future>
  {
    (m: RpcMeta, s: Custody) => (Outcome(impl.code(target, m, body)), HandedOver(s))
  }

  /**
    The outcome as far as the stub can see it: an exception came out of the handler (the body did not
    parse, or the chain or the service threw), or the chain ended. `replyBuilt`: the service was given
    a reply object. `metaMoved`: somebody moved the meta out of the stub's hands, as the construction of
    a reply object does unless a copy was passed on. `err`: the error text the chain's result carries.
  */
  datatype ChainResult =
    | Thrown(replyBuilt: bool)
    | Finished(metaMoved: bool, replyBuilt: bool, err: Option<ByteString>)

  function ChainResultOf(r: Future, s: Custody): ChainResult {
    match r
    case Ready(err) => Finished(s.moved, s.replyBuilt, err)
    case Broken(text) => Finished(s.moved, s.replyBuilt, Some(text))
    case Threw(_) => Thrown(s.replyBuilt)
    case Lost => Finished(s.moved, s.replyBuilt, None)
  }

  /** The outcome for a request in front of the installed interceptors and the service's code. */
  function ChainOf(list: seq<Link>, impl: Implementation, meta: RpcMeta, body: ByteString): ChainResult
    requires SelectMethod(RequestOf(meta)).Some?
  {
    var target := SelectMethod(RequestOf(meta)).value;
    if !Parses(impl.codec(target), meta.encoding, body) then Thrown(false)
    else
      var (r, s) := Run(list, CallService(impl, target, body), meta, UNTOUCHED);
      ChainResultOf(r, s)
  }

  /** What becomes of a call of a method depends on the parser and the code of this method and of no other. */
  lemma OwnMethodDecides(list: seq<Link>, impl: Implementation, other: Implementation, x: Method, meta: RpcMeta,
                         body: ByteString)
    requires SelectMethod(RequestOf(meta)) == Some(x)
    requires Parses(impl.codec(x), meta.encoding, body) == Parses(other.codec(x), meta.encoding, body)
    requires forall m :: impl.code(x, m, body) == other.code(x, m, body)
    ensures ChainOf(list, impl, meta, body) == ChainOf(list, other, meta, body)
  {
    hide SelectMethod, Parses;
    RunExtensional(list, CallService(impl, x, body), CallService(other, x, body), meta, UNTOUCHED);
  }

  /** A service of which only one method can parse anything, and one of which only one method throws. */
  function ParsesOnly(x: Method): Implementation {
    Implementation(y => Codec(_ => y == x, _ => y == x), (_, _, _) => None)
  }

  function ThrowsOnly(x: Method): Implementation {
    Implementation(_ => Codec(_ => true, _ => true), (y, _, _) => if y == x then Some([]) else None)
  }

  /** A call with a method's id, or with its name, comes to this method's parser and code. */
  lemma CallReachesMethod(x: Method, y: Method, meta: RpcMeta, body: ByteString)
    requires meta.encoding in {BINARY, JSON}
    requires var info := RequestOf(meta);
             if info.strMethod == [] then info.intMethod == MethodId(x) else info.strMethod == Ascii(MethodName(x))
    ensures SelectMethod(RequestOf(meta)) == Some(x)
    ensures ChainOf([], ParsesOnly(y), meta, body) == if x == y then Finished(true, true, None) else Thrown(false)
    ensures ChainOf([], ThrowsOnly(y), meta, body) == if x == y then Thrown(true) else Finished(true, true, None)
  {
    hide SelectMethod;
    SelectsExactly(RequestOf(meta), x);
    assert Parses(ParsesOnly(y).codec(x), meta.encoding, body) == (x == y);
    forall impl: Implementation
      ensures Run([], CallService(impl, x, body), meta, UNTOUCHED)
           == (Outcome(impl.code(x, meta, body)), HandedOver(UNTOUCHED))
    {}
  }

  /** A link that answers by itself. */
  function AnswerWith(r: Future): Link {
    (m: RpcMeta, s: Custody) => Stop(r, s)
  }

  /** What the stub sees of each kind of answer: its own text, an exception, or nothing. */
  lemma AnswerSeen(r: Future, impl: Implementation, meta: RpcMeta, body: ByteString)
    requires SelectMethod(RequestOf(meta)).Some?
    requires Parses(impl.codec(SelectMethod(RequestOf(meta)).value), meta.encoding, body)
    ensures ChainOf([AnswerWith(r)], impl, meta, body) ==
            match r
            case Ready(err) => Finished(false, false, err)
            case Broken(text) => Finished(false, false, Some(text))
            case Threw(_) => Thrown(false)
            case Lost => Finished(false, false, None)
  {
    hide SelectMethod, Parses;
  }

  predicate Failed(c: ChainResult) {
    c.Finished? && c.err.Some?
  }

  /** An error is reported only while the meta is in its place. */
  predicate ErrorBeforeNext(c: ChainResult) {
    Failed(c) ==> !c.metaMoved
  }

  // ---------------------------------------------------------------- the request stub

  /** Whether the stub throws, what it sends itself, and the reply object it leaves with the service. */
  datatype StubResult = StubResult(threw: bool, packets: seq<Packet>, reply: Option<ReplyState>)

  function Stub(meta: RpcMeta, chain: ChainResult): StubResult {
    if meta.typ != REQUEST then StubResult(true, [], None)
    else if SelectMethod(RequestOf(meta)).None? then
      var info := RequestOf(meta);
      StubResult(false, [ErrorPacket(meta.serviceId, info.sequenceId, 0, NotFoundReason(info))], None)
    else
      var reply := if chain.replyBuilt then Some(ReplyState(meta, false)) else None;
      match chain
      case Thrown(_) => StubResult(true, [], reply)
      case Finished(metaMoved, _, err) =>
        var left := if metaMoved then NO_META else meta;
        var report := if err.Some? then [ErrorPacket(left.serviceId, RequestOf(left).sequenceId, 0, err.value)] else [];
        StubResult(false, report, reply)
  }

  /** Everything sent for one delivered request whose reply object, if any, sees `calls`. */
  function SentFor(meta: RpcMeta, chain: ChainResult, calls: seq<Answer>): seq<Packet> {
    var r := Stub(meta, chain);
    r.packets + if r.reply.Some? then Answers(r.reply.value, calls) else []
  }

  /**
    The stub's report of a chain error goes to the caller that asked exactly when the meta was not
    moved away before, or the request had the ids a moved-from meta shows.
  */
  lemma ChainErrorAddress(meta: RpcMeta, chain: ChainResult)
    requires meta.typ == REQUEST && SelectMethod(RequestOf(meta)).Some? && Failed(chain)
    ensures |Stub(meta, chain).packets| == 1
    ensures var p := Stub(meta, chain).packets[0];
            ResponseOf(p.meta).sequenceId == RequestOf(meta).sequenceId && p.meta.serviceId == meta.serviceId
            <==> !chain.metaMoved || (RequestOf(meta).sequenceId == 0 && meta.serviceId == 0)
  {}

  /** A request that expects no response is answered all the same exactly when the stub itself reports a failure. */
  lemma OneWayAnswered(meta: RpcMeta, chain: ChainResult, calls: seq<Answer>)
    requires meta.typ == REQUEST && !RequestOf(meta).expectResponse
    ensures SentFor(meta, chain, calls) != [] <==> SelectMethod(RequestOf(meta)).None? || Failed(chain)
  {
    OnlyFirstAnswerSent(ReplyState(meta, false), calls);
  }

  /**
    Stub and reply object together send at most one response for a delivered request, except when the
    chain fails after the service got its reply object and the service answers too.
  */
  lemma OneResponsePerDelivery(meta: RpcMeta, chain: ChainResult, calls: seq<Answer>)
    requires meta.typ == REQUEST
    ensures |SentFor(meta, chain, calls)| <= 1
            <==> !(SelectMethod(RequestOf(meta)).Some? && Failed(chain) && chain.replyBuilt
                   && calls != [] && RequestOf(meta).expectResponse)
  {
    OnlyFirstAnswerSent(ReplyState(meta, false), calls);
  }

  class EchoServerService {
    var outbound: seq<Packet>      // what the outbound interceptor was given

    constructor ()
      ensures outbound == []
    {
      outbound := [];
    }

    /** The stub of one method: parse the body, then enter the inbound chain. */
    method HandleRequest(target: Method, meta: RpcMeta, body: ByteString, inbound: seq<Link>, impl: Implementation)
      returns (chain: ChainResult)
      requires SelectMethod(RequestOf(meta)) == Some(target)
      ensures chain == ChainOf(inbound, impl, meta, body)
    {
      var parsed := match meta.encoding
                    case 0 => impl.codec(target).binary(body)
                    case 1 => impl.codec(target).json(body)
                    case _ => false;
      if !parsed {
        return Thrown(false);
      }
      var combination := MakeInterceptor(inbound);
      var (r, s) := combination(meta, CallService(impl, target, body), UNTOUCHED);
      return ChainResultOf(r, s);
    }

    /**
      The function registered for requests, with the interceptors installed in front of the service and
      the service's code. A method that is not known does not enter the chain.
    */
    method RequestStub(meta: RpcMeta, body: ByteString, inbound: seq<Link>, impl: Implementation)
      returns (threw: bool, reply: BaseReply?)
      modifies this
      ensures var chain := if SelectMethod(RequestOf(meta)).Some? then ChainOf(inbound, impl, meta, body)
                           else Thrown(false);
              && threw == Stub(meta, chain).threw
              && outbound == old(outbound) + Stub(meta, chain).packets
              && (reply == null <==> Stub(meta, chain).reply.None?)
              && (reply != null ==>
                    fresh(reply) && Some(reply.Value()) == Stub(meta, chain).reply && reply.outbound == [])
      // not a request
      ensures meta.typ != 0 ==> threw && reply == null && outbound == old(outbound)
      // a method that is not known
      ensures meta.typ == 0 && SelectMethod(RequestOf(meta)).None? ==>
                var request := RequestOf(meta);
                var name := if request.strMethod != [] then request.strMethod else Decimal(request.intMethod);
                var reason := CString(Ascii("not found handle, method:") + name);
                var info := Response(request.sequenceId, true, 0, reason, false);
                && !threw && reply == null
                && outbound == old(outbound) + [Packet(RpcMeta(1, meta.serviceId, 0, None, Some(info), map[]), [])]
      // a known one
      ensures meta.typ == 0 && SelectMethod(RequestOf(meta)).Some? ==>
                var chain := ChainOf(inbound, impl, meta, body);
                && threw == chain.Thrown?
                && (reply != null <==> chain.replyBuilt)
                && (reply != null ==> reply.mRequestMeta == meta && !reply.mReplyFlag)
                && (!Failed(chain) ==> outbound == old(outbound))
                && (Failed(chain) ==>
                      var service := if chain.metaMoved then 0 else meta.serviceId;
                      var id := if chain.metaMoved then 0 else RequestOf(meta).sequenceId;
                      var info := Response(id, true, 0, chain.err.value, false);
                      outbound == old(outbound) + [Packet(RpcMeta(1, service, 0, None, Some(info), map[]), [])])
    {
      threw, reply := false, null;
      if meta.typ != REQUEST {
        return true, null;
      }
      var target: Option<Method> := None;
      var info := RequestOf(meta);
      if info.strMethod != [] {
        if info.strMethod == Ascii("dodo.test.EchoServer.Echo") {
          target := Some(Echo);
        } else if info.strMethod == Ascii("dodo.test.EchoServer.Login") {
          target := Some(Login);
        }
      } else {
        if info.intMethod == ECHO_ID {
          target := Some(Echo);
        } else if info.intMethod == LOGIN_ID {
          target := Some(Login);
        }
      }
      if target.None? {
        outbound := outbound + [ErrorPacket(meta.serviceId, info.sequenceId, 0, NotFoundReason(info))];
        return;
      }
      var chain := HandleRequest(target.value, meta, body, inbound, impl);
      if chain.replyBuilt {
        reply := new BaseReply(meta);
      }
      if chain.Thrown? {
        threw := true;
        return;
      }
      var left := if chain.metaMoved then NO_META else meta;
      if chain.err.Some? {
        outbound := outbound + [ErrorPacket(left.serviceId, RequestOf(left).sequenceId, 0, chain.err.value)];
      }
    }
  }
}
