/**
  Two endpoints, each caller and service at once, joined by a link that may lose, repeat and reorder
  messages: an endpoint may receive any message its peer ever sent, any number of times, or never.
*/
module Protocol {
  import opened Bytes
  import opened Meta
  import opened Service
  import opened InboundChains
  import opened StandardInterceptors
  import C = Client
  import R = ClientRuns

  /** A packet handed to the transport; a response remembers the delivery it answers (history). */
  datatype Envelope = Envelope(packet: Packet, delivery: nat)

  datatype Endpoint = Endpoint(
    service: uint32,                  // the service it offers and calls
    sys: R.Sys,
    sent: seq<Envelope>,              // everything handed to the transport, in order
    deliveries: seq<nat>,             // requests that reached the stub, as positions in the peer's `sent`
    replies: map<nat, ReplyState>,    // reply objects held by the service, by delivery
    answers: map<nat, seq<Answer>>)   // history: the replies and errors given for a delivery

  function Idle(service: uint32): Endpoint {
    Endpoint(service, R.INIT, [], [], map[], map[])
  }

  datatype Step =
    | Local(event: R.Event)                                    // Begin, Register, CauseTimeout, Poll
    | Transmit(thread: nat, msgId: uint64, body: ByteString)   // the call leaves through the outbound chain
    | Receive(i: nat, chain: ChainResult)                      // message i of the peer arrives
    | Respond(delivery: nat, answer: Answer)                   // the service uses a reply object

  predicate IsRequest(x: Envelope) {
    x.packet.meta.typ == REQUEST
  }

  predicate IsResponse(x: Envelope) {
    x.packet.meta.typ == RESPONSE
  }

  /** The id by which a response names its call. */
  function AnsweredId(x: Envelope): uint64 {
    ResponseOf(x.packet.meta).sequenceId
  }

  function RequestId(x: Envelope): uint64 {
    RequestOf(x.packet.meta).sequenceId
  }

  function ServiceOf(x: Envelope): uint32 {
    x.packet.meta.serviceId
  }

  function Envelopes(packets: seq<Packet>, delivery: nat): seq<Envelope> {
    seq(|packets|, i requires 0 <= i < |packets| => Envelope(packets[i], delivery))
  }

  function Timeout(kind: R.Kind): uint64 {
    if kind.Timed? then Unsigned(kind.seconds) else 0
  }

  /** A scheduled notice carries service id 0, so that it comes to no client of another service. */
  ghost function AfterLocal(e: Endpoint, event: R.Event): Endpoint {
    if event.Send? || event.Response? || (event.CauseTimeout? && e.service != 0) then e
    else e.(sys := R.Apply(e.sys, event))
  }

  /** The meta with which the call of a thread leaves. */
  function MetaOf(service: uint32, pc: R.Pc, msgId: uint64): RpcMeta {
    RequestMeta(pc.id, service, msgId, BINARY, pc.kind != R.OneWay, Timeout(pc.kind))
  }

  /**
    The timeout check in the outbound chain reads the meta: it schedules a notice exactly for the calls
    that sending arms, under the call's id and after the caller's timeout.
  */
  lemma NoticeScheduled(s: R.Sys, thread: nat, service: uint32, msgId: uint64)
    requires thread in s.threads
    ensures var pc := s.threads[thread];
            && R.AfterSend(s, thread).armed == s.armed + (set n | n in Armed(MetaOf(service, pc, msgId)) :: n.1)
            && Armed(MetaOf(service, pc, msgId))
               == if pc.kind.Timed? && pc.kind.seconds != 0 then
                    [(if pc.kind.seconds > 0 then pc.kind.seconds else pc.kind.seconds + TWO64, pc.id)]
                  else []
  {
    var pc := s.threads[thread];
    var armed := Armed(MetaOf(service, pc, msgId));
    if armed != [] {
      assert armed == [(Timeout(pc.kind), pc.id)];
      assert (set n | n in armed :: n.1) == {armed[0].1};
    }
  }

  ghost function AfterTransmit(e: Endpoint, thread: nat, msgId: uint64, body: ByteString): Endpoint {
    if !R.Enabled(e.sys, R.Send(thread)) then e
    else
      e.(sys := R.Apply(e.sys, R.Send(thread)),
         sent := e.sent + [Envelope(Packet(MetaOf(e.service, e.sys.threads[thread], msgId), body), 0)])
  }

  function WithDelivery(e: Endpoint, i: nat, reply: Option<ReplyState>): Endpoint {
    e.(deliveries := e.deliveries + [i],
       replies := if reply.Some? then e.replies[|e.deliveries| := reply.value] else e.replies)
  }

  function ReportedError(packet: Packet): Answer {
    Error(ResponseOf(packet.meta).errorCode, ResponseOf(packet.meta).reason)
  }

  function AnswersOf(e: Endpoint, d: nat): seq<Answer> {
    if d in e.answers then e.answers[d] else []
  }

  function WithAnswer(e: Endpoint, d: nat, a: Answer): Endpoint {
    e.(answers := e.answers[d := AnswersOf(e, d) + [a]])
  }

  /** What the stub itself sends for the latest delivery. */
  function Reporting(e: Endpoint, packets: seq<Packet>): Endpoint
    requires e.deliveries != []
  {
    if packets == [] then e
    else
      var d := |e.deliveries| - 1;
      WithAnswer(e, d, ReportedError(packets[0])).(sent := e.sent + Envelopes(packets, d))
  }

  ghost function AfterResponse(e: Endpoint, p: Packet, i: nat): Endpoint {
    e.(sys := R.Apply(e.sys, R.Response(ResponseOf(p.meta).sequenceId, ResponseOf(p.meta).timeout, i)))
  }

  ghost function AfterRequest(e: Endpoint, p: Packet, i: nat, chain: ChainResult): Endpoint {
    var StubResult(_, packets, reply) := Stub(p.meta, chain);
    Reporting(WithDelivery(e, i, reply), packets)
  }

  /** A packet arrives, the peer's message `i`. Messages for another service meet no handler. */
  ghost function AfterPacket(e: Endpoint, p: Packet, i: nat, chain: ChainResult): Endpoint {
    if p.meta.serviceId != e.service then e
    else if p.meta.typ == RESPONSE then AfterResponse(e, p, i)
    else if p.meta.typ == REQUEST then AfterRequest(e, p, i, chain)
    else e
  }

  ghost function AfterReceive(e: Endpoint, inbound: seq<Envelope>, i: nat, chain: ChainResult): Endpoint {
    if i >= |inbound| then e else AfterPacket(e, inbound[i].packet, i, chain)
  }

  function Replied(e: Endpoint, d: nat): Endpoint
    requires d in e.replies
  {
    e.(replies := e.replies[d := e.replies[d].(replied := true)])
  }

  function AfterRespond(e: Endpoint, d: nat, answer: Answer): Endpoint {
    if d !in e.replies || e.replies[d].replied then e
    else Replied(WithAnswer(e, d, answer), d).(sent := e.sent + Envelopes(Sent(EffectOf(e.replies[d], answer)), d))
  }

  ghost function Take(e: Endpoint, inbound: seq<Envelope>, step: Step): Endpoint {
    match step
    case Local(event) => AfterLocal(e, event)
    case Transmit(thread, msgId, body) => AfterTransmit(e, thread, msgId, body)
    case Receive(i, chain) => AfterReceive(e, inbound, i, chain)
    case Respond(d, answer) => AfterRespond(e, d, answer)
  }

  datatype World = World(a: Endpoint, b: Endpoint)

  datatype Move = MoveA(step: Step) | MoveB(step: Step)

  ghost function Next(w: World, m: Move): World {
    match m
    case MoveA(step) => w.(a := Take(w.a, w.b.sent, step))
    case MoveB(step) => w.(b := Take(w.b, w.a.sent, step))
  }

  ghost function Play(w: World, moves: seq<Move>): World
    decreases |moves|
  {
    if moves == [] then w else Play(Next(w, moves[0]), moves[1..])
  }

  function Start(service: uint32): World {
    World(Idle(service), Idle(service))
  }

  ghost predicate WithinCounters(w: World) {
    w.a.sys.issued <= TWO64 && w.b.sys.issued <= TWO64
  }

  /**
    A meta as the calling side builds it: a method id and no name, nothing of a response, a timeout only
    with a response expected.
  */
  predicate IsCall(m: RpcMeta) {
    var info := RequestOf(m);
    && m == RequestMeta(info.sequenceId, m.serviceId, info.intMethod, BINARY, info.expectResponse, info.timeout)
    && (info.timeout != 0 ==> info.expectResponse)
  }

  // ---------------------------------------------------------------- which chains a run meets

  /** What chains may do with a request. */
  type Policy = (Packet, ChainResult) -> bool

  /** What the peer of the moving endpoint has sent. */
  function Inbound(w: World, m: Move): seq<Envelope> {
    if m.MoveA? then w.b.sent else w.a.sent
  }

  predicate Allowed(inbound: seq<Envelope>, step: Step, policy: Policy) {
    step.Receive? && step.i < |inbound| && IsRequest(inbound[step.i]) ==> policy(inbound[step.i].packet, step.chain)
  }

  /** Every request of the run meets a chain that acts within the policy. */
  ghost predicate Follows(w: World, moves: seq<Move>, policy: Policy)
    decreases |moves|
  {
    moves != [] ==>
      && Allowed(Inbound(w, moves[0]), moves[0].step, policy)
      && Follows(Next(w, moves[0]), moves[1..], policy)
  }

  /**
    The stub reports an error for this request after its meta was moved away, and the report comes to
    the caller, but names another call.
  */
  predicate GoesAstray(m: RpcMeta, c: ChainResult) {
    && SelectMethod(RequestOf(m)).Some? && Failed(c) && c.metaMoved
    && m.serviceId == 0 && RequestOf(m).sequenceId != 0
  }

  /** The policy lets no error report of a call of the service go astray. */
  ghost predicate Sound(policy: Policy, service: uint32) {
    forall p, c :: policy(p, c) && IsCall(p.meta) && p.meta.serviceId == service ==> !GoesAstray(p.meta, c)
  }

  /** The steps by which no error report goes astray. */
  predicate Addressed(inbound: seq<Envelope>, step: Step) {
    step.Receive? && step.i < |inbound| && IsRequest(inbound[step.i]) ==>
      !GoesAstray(inbound[step.i].packet.meta, step.chain)
  }

  /** No chain reports an error after the meta was moved on or a reply object was built. */
  function Polite(): Policy {
    (p: Packet, c: ChainResult) => Failed(c) ==> !c.metaMoved && !c.replyBuilt
  }

  // ---------------------------------------------------------------- what every step keeps

  /** The request of the peer that delivery `d` at `e` brought. */
  function RequestAt(e: Endpoint, d: nat, peerSent: seq<Envelope>): Envelope
    requires d < |e.deliveries| && e.deliveries[d] < |peerSent|
  {
    peerSent[e.deliveries[d]]
  }

  /** Response `x` is, field by field, an answer `e` gave to a request of the peer that was delivered to it. */
  predicate AnswersRequest(x: Envelope, e: Endpoint, peerSent: seq<Envelope>) {
    && x.delivery < |e.deliveries|
    && e.deliveries[x.delivery] < |peerSent|
    && IsRequest(RequestAt(e, x.delivery, peerSent))
    && exists a :: a in AnswersOf(e, x.delivery)
                   && x.packet == PacketOf(RequestAt(e, x.delivery, peerSent).packet.meta, a)
  }

  predicate EnvelopeOk(x: Envelope, e: Endpoint, peerSent: seq<Envelope>) {
    if ServiceOf(x) == e.service then
      && (IsRequest(x) || IsResponse(x))
      && (IsRequest(x) ==> RequestId(x) < e.sys.issued && IsCall(x.packet.meta))
      && (IsResponse(x) ==> AnswersRequest(x, e, peerSent))
    else
      !IsRequest(x)
  }

  /** Endpoint `e` sends requests for calls it began, and responses that give its answers to requests it received. */
  predicate SentOk(e: Endpoint, peerSent: seq<Envelope>) {
    forall i :: 0 <= i < |e.sent| ==> EnvelopeOk(e.sent[i], e, peerSent)
  }

  predicate DeliveriesOk(e: Endpoint, peerSent: seq<Envelope>) {
    && (forall d :: 0 <= d < |e.deliveries| ==>
          && e.deliveries[d] < |peerSent|
          && IsRequest(peerSent[e.deliveries[d]]) && ServiceOf(peerSent[e.deliveries[d]]) == e.service)
    && (forall d :: d in e.replies ==>
          d < |e.deliveries| && e.replies[d].request == peerSent[e.deliveries[d]].packet.meta)
  }

  predicate TakenOk(t: R.Taken, service: uint32, peerSent: seq<Envelope>) {
    match t.how
    case ByResponse(i) =>
      && i < |peerSent| && IsResponse(peerSent[i])
      && ServiceOf(peerSent[i]) == service && AnsweredId(peerSent[i]) == t.token
    case _ => true
  }

  /** Every callback taken by a response was taken by one for this service that carries its id. */
  predicate LogOk(log: seq<R.Taken>, service: uint32, peerSent: seq<Envelope>) {
    forall k :: 0 <= k < |log| ==> TakenOk(log[k], service, peerSent)
  }

  ghost predicate Good(e: Endpoint, peerSent: seq<Envelope>) {
    && R.Inv(e.sys)
    && SentOk(e, peerSent)
    && DeliveriesOk(e, peerSent)
    && LogOk(e.sys.log, e.service, peerSent)
  }

  /** The peer sending more changes nothing of this. */
  lemma GoodStable(e: Endpoint, peerSent: seq<Envelope>, more: seq<Envelope>)
    requires Good(e, peerSent)
    ensures Good(e, peerSent + more)
  {}

  lemma SysKeeps(e: Endpoint, peerSent: seq<Envelope>, sys: R.Sys)
    requires Good(e, peerSent)
    requires R.Inv(sys) && e.sys.issued <= sys.issued && LogOk(sys.log, e.service, peerSent)
    ensures Good(e.(sys := sys), peerSent)
  {}

  lemma PollLogs(s: R.Sys, now: int, fired: seq<C.Timer>, rest: multiset<C.Timer>,
                 service: uint32, peerSent: seq<Envelope>)
    requires LogOk(s.log, service, peerSent)
    ensures LogOk(R.Apply(s, R.Poll(now, fired, rest)).log, service, peerSent)
  {}

  lemma NoticeLogs(s: R.Sys, id: uint64, service: uint32, peerSent: seq<Envelope>)
    requires LogOk(s.log, service, peerSent) && R.Inv(s)
    ensures LogOk(R.Apply(s, R.CauseTimeout(id)).log, service, peerSent)
  {}

  lemma LocalKeeps(e: Endpoint, peerSent: seq<Envelope>, event: R.Event)
    requires Good(e, peerSent) && AfterLocal(e, event).sys.issued <= TWO64
    ensures Good(AfterLocal(e, event), peerSent)
  {
    hide R.Inv, LogOk, SentOk, DeliveriesOk, R.Enabled;
    if AfterLocal(e, event) != e {
      R.ApplyKeeps(e.sys, event);
      match event {
        case Poll(now, fired, rest) => PollLogs(e.sys, now, fired, rest, e.service, peerSent);
        case CauseTimeout(id) => NoticeLogs(e.sys, id, e.service, peerSent);
        case _ =>
      }
      SysKeeps(e, peerSent, R.Apply(e.sys, event));
    }
  }

  /** Sending more keeps everything when the new envelopes are in order. */
  lemma SendKeeps(e: Endpoint, peerSent: seq<Envelope>, more: seq<Envelope>)
    requires Good(e, peerSent)
    requires forall i :: 0 <= i < |more| ==> EnvelopeOk(more[i], e, peerSent)
    ensures Good(e.(sent := e.sent + more), peerSent)
  {}

  lemma TransmitKeeps(e: Endpoint, peerSent: seq<Envelope>, thread: nat, msgId: uint64, body: ByteString)
    requires Good(e, peerSent)
    ensures Good(AfterTransmit(e, thread, msgId, body), peerSent)
  {
    hide LogOk, SentOk, DeliveriesOk, R.InvTimers, R.InvFates, R.InvMaps, R.InvArmed;
    if R.Enabled(e.sys, R.Send(thread)) {
      R.ApplyKeeps(e.sys, R.Send(thread));
      var e1 := e.(sys := R.Apply(e.sys, R.Send(thread)));
      SysKeeps(e, peerSent, e1.sys);
      SendKeeps(e1, peerSent, [Envelope(Packet(MetaOf(e.service, e.sys.threads[thread], msgId), body), 0)]);
    }
  }

  lemma ResponseLogs(s: R.Sys, service: uint32, peerSent: seq<Envelope>, i: nat)
    requires LogOk(s.log, service, peerSent) && R.Inv(s)
    requires i < |peerSent| && IsResponse(peerSent[i]) && ServiceOf(peerSent[i]) == service
    requires !ResponseOf(peerSent[i].packet.meta).timeout
    ensures LogOk(R.Apply(s, R.Response(AnsweredId(peerSent[i]), false, i)).log, service, peerSent)
  {}

  lemma IssuedSame(s: R.Sys, event: R.Event)
    requires R.Inv(s)
    ensures s.issued <= TWO64 && s.issued <= R.Apply(s, event).issued
    ensures !event.Begin? ==> R.Apply(s, event).issued == s.issued
  {}

  lemma ReceiveResponseKeeps(e: Endpoint, peerSent: seq<Envelope>, i: nat, chain: ChainResult)
    requires Good(e, peerSent) && i < |peerSent| && IsResponse(peerSent[i])
    requires ServiceOf(peerSent[i]) == e.service ==> !ResponseOf(peerSent[i].packet.meta).timeout
    ensures Good(AfterReceive(e, peerSent, i, chain), peerSent)
  {
    hide R.Inv, R.Apply, LogOk, SentOk, DeliveriesOk;
    if ServiceOf(peerSent[i]) == e.service {
      var event := R.Response(AnsweredId(peerSent[i]), false, i);
      IssuedSame(e.sys, event);
      R.ApplyKeeps(e.sys, event);
      ResponseLogs(e.sys, e.service, peerSent, i);
      SysKeeps(e, peerSent, R.Apply(e.sys, event));
    }
  }

  lemma DeliveryKeeps(e: Endpoint, peerSent: seq<Envelope>, i: nat, reply: Option<ReplyState>)
    requires Good(e, peerSent) && i < |peerSent| && IsRequest(peerSent[i]) && ServiceOf(peerSent[i]) == e.service
    requires reply.Some? ==> reply.value == ReplyState(peerSent[i].packet.meta, false)
    ensures Good(WithDelivery(e, i, reply), peerSent)
  {}

  /** Recording one more answer. */
  lemma AnswerKeeps(e: Endpoint, peerSent: seq<Envelope>, d: nat, a: Answer)
    requires Good(e, peerSent)
    ensures Good(WithAnswer(e, d, a), peerSent)
  {}

  lemma RepliedKeeps(e: Endpoint, peerSent: seq<Envelope>, d: nat)
    requires Good(e, peerSent) && d in e.replies
    ensures Good(Replied(e, d), peerSent)
  {}

  lemma PacketOfIsResponse(meta: RpcMeta, a: Answer)
    ensures var p := PacketOf(meta, a);
            && p.meta.typ == RESPONSE && p.meta.serviceId == meta.serviceId
            && ResponseOf(p.meta).sequenceId == RequestOf(meta).sequenceId && !ResponseOf(p.meta).timeout
  {}

  /** What the stub reports is an error answer to the request, unless it goes to another service or astray. */
  lemma StubReports(meta: RpcMeta, chain: ChainResult)
    requires !GoesAstray(meta, chain) && Stub(meta, chain).packets != []
    ensures var packets := Stub(meta, chain).packets;
            && |packets| == 1 && packets[0].meta.typ == RESPONSE
            && (packets[0] == PacketOf(meta, ReportedError(packets[0])) || packets[0].meta.serviceId != meta.serviceId)
  {}

  lemma AnswerEnvelopeOk(e: Endpoint, peerSent: seq<Envelope>, d: nat, a: Answer)
    requires DeliveriesOk(e, peerSent) && d < |e.deliveries| && a in AnswersOf(e, d)
    ensures EnvelopeOk(Envelope(PacketOf(RequestAt(e, d, peerSent).packet.meta, a), d), e, peerSent)
  {}

  /** A request that reaches the stub: a delivery, with what the stub itself sends for it. */
  lemma ReceiveRequestKeeps(e: Endpoint, peerSent: seq<Envelope>, i: nat, chain: ChainResult)
    requires Good(e, peerSent) && i < |peerSent| && IsRequest(peerSent[i])
    requires !GoesAstray(peerSent[i].packet.meta, chain)
    ensures Good(AfterReceive(e, peerSent, i, chain), peerSent)
  {
    hide R.Inv, LogOk, SelectMethod, NotFoundReason, SentOk, PacketOf, ReportedError;
    var meta, d := peerSent[i].packet.meta, |e.deliveries|;
    if meta.serviceId == e.service {
      var StubResult(_, packets, reply) := Stub(meta, chain);
      DeliveryKeeps(e, peerSent, i, reply);
      var e1 := WithDelivery(e, i, reply);
      if packets != [] {
        StubReports(meta, chain);
        var answer, x := ReportedError(packets[0]), Envelope(packets[0], d);
        assert Envelopes(packets, d) == [x];
        AnswerKeeps(e1, peerSent, d, answer);
        var e2 := WithAnswer(e1, d, answer);
        if packets[0] == PacketOf(meta, answer) {
          AnswerEnvelopeOk(e2, peerSent, d, answer);
        }
        SendKeeps(e2, peerSent, [x]);
      }
    }
  }

  lemma RespondKeeps(e: Endpoint, peerSent: seq<Envelope>, d: nat, answer: Answer)
    requires Good(e, peerSent)
    ensures Good(AfterRespond(e, d, answer), peerSent)
  {
    hide R.Inv, LogOk, SentOk, PacketOf;
    if d in e.replies && !e.replies[d].replied {
      var request := e.replies[d].request;
      AnswerKeeps(e, peerSent, d, answer);
      var e1 := WithAnswer(e, d, answer);
      RepliedKeeps(e1, peerSent, d);
      var e2 := Replied(e1, d);
      var more := Envelopes(Sent(EffectOf(e.replies[d], answer)), d);
      if RequestOf(request).expectResponse {
        assert more == [Envelope(PacketOf(request, answer), d)];
        AnswerEnvelopeOk(e2, peerSent, d, answer);
      } else {
        assert more == [];
      }
      SendKeeps(e2, peerSent, more);
    }
  }

  lemma LinkOk(p: Endpoint, peerSent: seq<Envelope>, i: nat)
    requires Good(p, peerSent) && i < |p.sent| && ServiceOf(p.sent[i]) == p.service
    ensures var x := p.sent[i];
            && (IsRequest(x) || IsResponse(x))
            && (IsResponse(x) ==> !ResponseOf(x.packet.meta).timeout)
  {}

  lemma SentGrows(e: Endpoint, inbound: seq<Envelope>, step: Step)
    ensures e.sent <= Take(e, inbound, step).sent && Take(e, inbound, step).service == e.service
  {}

  lemma TakeKeeps(e: Endpoint, p: Endpoint, step: Step)
    requires Good(e, p.sent) && Good(p, e.sent) && e.service == p.service
    requires Addressed(p.sent, step) && Take(e, p.sent, step).sys.issued <= TWO64
    ensures Good(Take(e, p.sent, step), p.sent)
  {
    hide Good, AfterLocal, AfterTransmit, AfterRespond, Stub, R.Apply, GoesAstray;
    match step
    case Local(event) => LocalKeeps(e, p.sent, event);
    case Transmit(thread, msgId, body) => TransmitKeeps(e, p.sent, thread, msgId, body);
    case Receive(i, chain) =>
      if i < |p.sent| && ServiceOf(p.sent[i]) == e.service {
        LinkOk(p, e.sent, i);
        if IsResponse(p.sent[i]) {
          ReceiveResponseKeeps(e, p.sent, i, chain);
        } else {
          ReceiveRequestKeeps(e, p.sent, i, chain);
        }
      }
    case Respond(d, answer) => RespondKeeps(e, p.sent, d, answer);
  }

  ghost predicate GoodWorld(w: World) {
    Good(w.a, w.b.sent) && Good(w.b, w.a.sent) && w.a.service == w.b.service
  }

  lemma StartGood(service: uint32)
    ensures GoodWorld(Start(service))
  {}

  lemma NextKeeps(w: World, m: Move)
    requires GoodWorld(w) && Addressed(Inbound(w, m), m.step) && WithinCounters(Next(w, m))
    ensures GoodWorld(Next(w, m))
  {
    hide Good, Take, Addressed;
    var w' := Next(w, m);
    match m
    case MoveA(step) =>
      TakeKeeps(w.a, w.b, step);
      SentGrows(w.a, w.b.sent, step);
      assert w'.a.sent == w.a.sent + w'.a.sent[|w.a.sent|..];
      GoodStable(w.b, w.a.sent, w'.a.sent[|w.a.sent|..]);
    case MoveB(step) =>
      TakeKeeps(w.b, w.a, step);
      SentGrows(w.b, w.a.sent, step);
      assert w'.b.sent == w.b.sent + w'.b.sent[|w.b.sent|..];
      GoodStable(w.a, w.b.sent, w'.b.sent[|w.b.sent|..]);
  }

  lemma TakeIssued(e: Endpoint, inbound: seq<Envelope>, step: Step)
    ensures e.sys.issued <= Take(e, inbound, step).sys.issued
  {}

  lemma {:induction false} PlayIssued(w: World, moves: seq<Move>)
    ensures w.a.sys.issued <= Play(w, moves).a.sys.issued && w.b.sys.issued <= Play(w, moves).b.sys.issued
    decreases |moves|
  {
    hide Take;
    if moves != [] {
      match moves[0] {
        case MoveA(step) => TakeIssued(w.a, w.b.sent, step);
        case MoveB(step) => TakeIssued(w.b, w.a.sent, step);
      }
      PlayIssued(Next(w, moves[0]), moves[1..]);
    }
  }

  /** Every request on the link is a call of the service. */
  lemma SoundStep(w: World, m: Move, policy: Policy)
    requires GoodWorld(w) && Sound(policy, w.a.service) && Allowed(Inbound(w, m), m.step, policy)
    ensures Addressed(Inbound(w, m), m.step)
  {}

  lemma NextService(w: World, m: Move)
    ensures Next(w, m).a.service == w.a.service
  {}

  lemma {:induction false} PlayKeeps(w: World, moves: seq<Move>, policy: Policy)
    requires GoodWorld(w) && WithinCounters(Play(w, moves))
    requires Sound(policy, w.a.service) && Follows(w, moves, policy)
    ensures GoodWorld(Play(w, moves))
    decreases |moves|
  {
    hide GoodWorld, Next, Allowed, Addressed, Sound;
    if moves != [] {
      PlayIssued(Next(w, moves[0]), moves[1..]);
      SoundStep(w, moves[0], policy);
      NextKeeps(w, moves[0]);
      NextService(w, moves[0]);
      PlayKeeps(Next(w, moves[0]), moves[1..], policy);
    }
  }

  // ---------------------------------------------------------------- one response per delivery

  predicate Unused(e: Endpoint, d: nat) {
    d in e.replies && !e.replies[d].replied
  }

  /** A delivery has at most one answer and one response, and none while its reply object is unused. */
  ghost predicate OnceOk(e: Endpoint) {
    && (forall i, j :: 0 <= i < j < |e.sent| && IsResponse(e.sent[i]) && IsResponse(e.sent[j]) ==>
          e.sent[i].delivery != e.sent[j].delivery)
    && (forall i :: 0 <= i < |e.sent| && IsResponse(e.sent[i]) ==> e.sent[i].delivery < |e.deliveries|)
    && (forall i, d :: 0 <= i < |e.sent| && IsResponse(e.sent[i]) && Unused(e, d) ==> e.sent[i].delivery != d)
    && (forall d :: d in e.replies || d in e.answers ==> d < |e.deliveries|)
    && (forall d :: |AnswersOf(e, d)| <= 1 && (Unused(e, d) ==> d !in e.answers))
  }

  lemma AnsweredOnce(e: Endpoint, d: nat, a: Answer)
    requires OnceOk(e) && d < |e.deliveries| && !Unused(e, d) && d !in e.answers
    ensures OnceOk(WithAnswer(e, d, a))
  {
    var e' := WithAnswer(e, d, a);
    assert forall d' :: Unused(e', d') == Unused(e, d');
    forall d' ensures |AnswersOf(e', d')| <= 1 && (Unused(e', d') ==> d' !in e'.answers) {
      assert d' != d ==> AnswersOf(e', d') == AnswersOf(e, d');
      assert Unused(e', d') == Unused(e, d');
    }
  }

  lemma SentOnce(e: Endpoint, x: Envelope)
    requires OnceOk(e) && x.delivery < |e.deliveries| && !Unused(e, x.delivery)
    requires forall i :: 0 <= i < |e.sent| && IsResponse(e.sent[i]) ==> e.sent[i].delivery != x.delivery
    ensures OnceOk(e.(sent := e.sent + [x]))
  {
    var e' := e.(sent := e.sent + [x]);
    assert forall d :: Unused(e', d) == Unused(e, d) && AnswersOf(e', d) == AnswersOf(e, d);
  }

  lemma DeliveredOnce(e: Endpoint, i: nat, reply: Option<ReplyState>)
    requires OnceOk(e)
    ensures OnceOk(WithDelivery(e, i, reply))
  {
    var e', d := WithDelivery(e, i, reply), |e.deliveries|;
    assert forall d' :: AnswersOf(e', d') == AnswersOf(e, d') && (d' != d ==> Unused(e', d') == Unused(e, d'));
  }

  lemma OnceSys(e: Endpoint, sys: R.Sys)
    requires OnceOk(e)
    ensures OnceOk(e.(sys := sys))
  {
    assert forall d :: AnswersOf(e.(sys := sys), d) == AnswersOf(e, d) && Unused(e.(sys := sys), d) == Unused(e, d);
  }

  lemma ReportedOnce(e: Endpoint, i: nat, packets: seq<Packet>)
    requires OnceOk(e) && |packets| == 1
    ensures OnceOk(Reporting(WithDelivery(e, i, None), packets))
  {
    hide ReportedError;
    var e1, d := WithDelivery(e, i, None), |e.deliveries|;
    DeliveredOnce(e, i, None);
    AnsweredOnce(e1, d, ReportedError(packets[0]));
    assert Envelopes(packets, d) == [Envelope(packets[0], d)];
    SentOnce(WithAnswer(e1, d, ReportedError(packets[0])), Envelope(packets[0], d));
  }

  lemma ReceiveOnce(e: Endpoint, inbound: seq<Envelope>, i: nat, chain: ChainResult)
    requires OnceOk(e) && Allowed(inbound, Receive(i, chain), Polite())
    ensures OnceOk(AfterReceive(e, inbound, i, chain))
  {
    hide SelectMethod, NotFoundReason, R.Apply, OnceOk;
    if i < |inbound| && ServiceOf(inbound[i]) == e.service {
      if IsResponse(inbound[i]) {
        var info := ResponseOf(inbound[i].packet.meta);
        OnceSys(e, R.Apply(e.sys, R.Response(info.sequenceId, info.timeout, i)));
      } else if IsRequest(inbound[i]) {
        var StubResult(_, packets, reply) := Stub(inbound[i].packet.meta, chain);
        DeliveredOnce(e, i, reply);
        if packets != [] {
          ReportedOnce(e, i, packets);
        }
      }
    }
  }

  lemma UsedOnce(e: Endpoint, d: nat, a: Answer)
    requires OnceOk(e) && Unused(e, d)
    ensures OnceOk(WithAnswer(Replied(e, d), d, a))
    ensures forall i :: 0 <= i < |e.sent| && IsResponse(e.sent[i]) ==> e.sent[i].delivery != d
  {
    var e1 := Replied(e, d);
    assert forall d' :: AnswersOf(e1, d') == AnswersOf(e, d') && (Unused(e1, d') <==> Unused(e, d') && d' != d);
    assert OnceOk(e1);
    AnsweredOnce(e1, d, a);
  }

  lemma RepliesDelivered(e: Endpoint, d: nat)
    requires OnceOk(e) && d in e.replies
    ensures d < |e.deliveries|
  {}

  lemma RespondOnce(e: Endpoint, d: nat, answer: Answer)
    requires OnceOk(e)
    ensures OnceOk(AfterRespond(e, d, answer))
  {
    hide PacketOf, OnceOk;
    if Unused(e, d) {
      UsedOnce(e, d, answer);
      var e1 := WithAnswer(Replied(e, d), d, answer);
      assert e1 == Replied(WithAnswer(e, d, answer), d);
      var more := Envelopes(Sent(EffectOf(e.replies[d], answer)), d);
      if RequestOf(e.replies[d].request).expectResponse {
        assert more == [Envelope(PacketOf(e.replies[d].request, answer), d)];
        assert d < |e.deliveries| by { RepliesDelivered(e, d); }
        SentOnce(e1, Envelope(PacketOf(e.replies[d].request, answer), d));
      } else {
        assert e.sent + more == e.sent;
      }
    }
  }

  lemma TransmitOnce(e: Endpoint, thread: nat, msgId: uint64, body: ByteString)
    requires OnceOk(e)
    ensures OnceOk(AfterTransmit(e, thread, msgId, body))
  {
    hide R.Apply, R.Enabled;
    var e' := AfterTransmit(e, thread, msgId, body);
    assert forall d :: AnswersOf(e', d) == AnswersOf(e, d) && Unused(e', d) == Unused(e, d);
  }

  lemma TakeOnce(e: Endpoint, inbound: seq<Envelope>, step: Step)
    requires OnceOk(e) && Allowed(inbound, step, Polite())
    ensures OnceOk(Take(e, inbound, step))
  {
    hide OnceOk, AfterTransmit, AfterReceive, AfterRespond, Polite, R.Apply;
    match step
    case Local(event) => OnceSys(e, AfterLocal(e, event).sys);
    case Transmit(thread, msgId, body) => TransmitOnce(e, thread, msgId, body);
    case Receive(i, chain) => ReceiveOnce(e, inbound, i, chain);
    case Respond(d, answer) => RespondOnce(e, d, answer);
  }

  lemma {:induction false} PlayOnce(w: World, moves: seq<Move>)
    requires OnceOk(w.a) && OnceOk(w.b) && Follows(w, moves, Polite())
    ensures OnceOk(Play(w, moves).a) && OnceOk(Play(w, moves).b)
    decreases |moves|
  {
    hide OnceOk, Take, Allowed, Polite;
    if moves != [] {
      match moves[0] {
        case MoveA(step) => TakeOnce(w.a, w.b.sent, step);
        case MoveB(step) => TakeOnce(w.b, w.a.sent, step);
      }
      PlayOnce(Next(w, moves[0]), moves[1..]);
    }
  }

  // ---------------------------------------------------------------- what this means for the two callers

  predicate MatchedEntry(t: R.Taken, e: Endpoint, p: Endpoint) {
    t.how.ByResponse? ==>
      && t.how.msg < |p.sent|
      && var x := p.sent[t.how.msg];
         && IsResponse(x)
         && AnswersRequest(x, p, e.sent)
         && RequestId(RequestAt(p, x.delivery, e.sent)) == t.token
  }

  /**
    Each call of `e` has at most one callback taken, and one taken by a message of the peer was taken
    by a response that is, field by field, an answer the peer gave to the very request `e` sent for
    that call.
  */
  predicate Matched(e: Endpoint, p: Endpoint) {
    && (forall j, k :: 0 <= j < k < |e.sys.log| ==> e.sys.log[j].token != e.sys.log[k].token)
    && (forall k :: 0 <= k < |e.sys.log| ==> MatchedEntry(e.sys.log[k], e, p))
  }

  /** No delivered request has two answers or two responses. */
  ghost predicate OneResponseEach(e: Endpoint) {
    && (forall d :: |AnswersOf(e, d)| <= 1)
    && (forall i, j :: 0 <= i < j < |e.sent| && IsResponse(e.sent[i]) && IsResponse(e.sent[j]) ==>
          e.sent[i].delivery != e.sent[j].delivery)
  }

  lemma GoodIsMatched(e: Endpoint, p: Endpoint)
    requires Good(e, p.sent) && Good(p, e.sent) && e.service == p.service
    ensures Matched(e, p)
  {}

  ghost predicate AllMatched(w: World) {
    Matched(w.a, w.b) && Matched(w.b, w.a)
  }

  lemma SoundMatches(service: uint32, moves: seq<Move>, policy: Policy)
    requires Sound(policy, service)
    requires Follows(Start(service), moves, policy) && WithinCounters(Play(Start(service), moves))
    ensures AllMatched(Play(Start(service), moves))
  {
    hide Play, Follows, Good, Matched, Sound;
    StartGood(service);
    PlayKeeps(Start(service), moves, policy);
    var w := Play(Start(service), moves);
    GoodIsMatched(w.a, w.b);
    GoodIsMatched(w.b, w.a);
  }

  // ---------------------------------------------------------------- the clients' own runs

  /** What the step of an endpoint is for its client. */
  function EventsOf(e: Endpoint, inbound: seq<Envelope>, step: Step): seq<R.Event> {
    match step
    case Local(event) =>
      if event.Send? || event.Response? || (event.CauseTimeout? && e.service != 0) then [] else [event]
    case Transmit(thread, _, _) => [R.Send(thread)]
    case Receive(i, _) =>
      if i < |inbound| && ServiceOf(inbound[i]) == e.service && IsResponse(inbound[i]) then
        [R.Response(AnsweredId(inbound[i]), ResponseOf(inbound[i].packet.meta).timeout, i)]
      else []
    case Respond(_, _) => []
  }

  datatype End = A | B

  function At(w: World, end: End): Endpoint {
    if end == A then w.a else w.b
  }

  function Other(end: End): End {
    if end == A then B else A
  }

  function Mover(m: Move): End {
    if m.MoveA? then A else B
  }

  /** The run of the client at one end. */
  ghost function EventsAt(end: End, w: World, moves: seq<Move>): seq<R.Event>
    decreases |moves|
  {
    if moves == [] then []
    else
      (if Mover(moves[0]) == end then EventsOf(At(w, end), Inbound(w, moves[0]), moves[0].step) else [])
      + EventsAt(end, Next(w, moves[0]), moves[1..])
  }

  lemma TakeIsRun(e: Endpoint, inbound: seq<Envelope>, step: Step)
    ensures Take(e, inbound, step).sys == R.Exec(e.sys, EventsOf(e, inbound, step))
  {}

  lemma EmptyRun(s: R.Sys)
    ensures R.Exec(s, []) == s
  {}

  /** What happens to the client of an endpoint in a run of both endpoints is a run of that client. */
  lemma {:induction false} PlayIsRun(end: End, w: World, moves: seq<Move>)
    ensures At(Play(w, moves), end).sys == R.Exec(At(w, end).sys, EventsAt(end, w, moves))
    decreases |moves|
  {
    hide R.Exec, Take, EventsOf;
    if moves == [] {
      assert R.Exec(At(w, end).sys, []) == At(w, end).sys by { EmptyRun(At(w, end).sys); }
    } else {
      var w1, rest := Next(w, moves[0]), EventsAt(end, Next(w, moves[0]), moves[1..]);
      PlayIsRun(end, w1, moves[1..]);
      if Mover(moves[0]) == end {
        var first := EventsOf(At(w, end), Inbound(w, moves[0]), moves[0].step);
        TakeIsRun(At(w, end), Inbound(w, moves[0]), moves[0].step);
        R.ExecAppend(At(w, end).sys, first, rest);
      } else {
        assert [] + rest == rest;
      }
    }
  }

  /** Every timed call of the run comes with a timeout callback that is there and returns. */
  predicate ReturningMoves(moves: seq<Move>) {
    forall i :: 0 <= i < |moves| ==> moves[i].step.Local? ==> R.ReturningBegin(moves[i].step.event)
  }

  predicate Harmless(es: seq<R.Event>) {
    R.LocalTimeouts(es) && forall i :: 0 <= i < |es| ==> R.ReturningBegin(es[i])
  }

  lemma HarmlessAppend(a: seq<R.Event>, b: seq<R.Event>)
    requires Harmless(a) && Harmless(b)
    ensures Harmless(a + b)
  {}

  lemma StepHarmless(w: World, m: Move)
    requires GoodWorld(w) && (m.step.Local? ==> R.ReturningBegin(m.step.event))
    ensures Harmless(EventsOf(At(w, Mover(m)), Inbound(w, m), m.step))
  {}

  lemma NoEventHarmless()
    ensures Harmless([])
  {}

  /** Peers of this library never send the timeout mark. */
  lemma {:induction false} EventsHarmless(end: End, w: World, moves: seq<Move>, policy: Policy)
    requires GoodWorld(w) && WithinCounters(Play(w, moves)) && ReturningMoves(moves)
    requires Sound(policy, w.a.service) && Follows(w, moves, policy)
    ensures Harmless(EventsAt(end, w, moves))
    decreases |moves|
  {
    hide GoodWorld, Next, Allowed, Addressed, Sound, EventsOf, Harmless;
    if moves == [] {
      assert Harmless([]) by { NoEventHarmless(); }
    } else {
      var w1 := Next(w, moves[0]);
      PlayIssued(w1, moves[1..]);
      SoundStep(w, moves[0], policy);
      NextKeeps(w, moves[0]);
      NextService(w, moves[0]);
      StepHarmless(w, moves[0]);
      assert forall i :: 0 <= i < |moves[1..]| ==> moves[1..][i] == moves[i + 1];
      EventsHarmless(end, w1, moves[1..], policy);
      if Mover(moves[0]) == end {
        HarmlessAppend(EventsOf(At(w, end), Inbound(w, moves[0]), moves[0].step), EventsAt(end, w1, moves[1..]));
      } else {
        assert [] + EventsAt(end, w1, moves[1..]) == EventsAt(end, w1, moves[1..]);
      }
    }
  }

  /** No handler of either client leaves the maps without anything being run. */
  predicate NothingLost(w: World) {
    R.NoneDropped(w.a.sys.log) && R.NoneDropped(w.b.sys.log)
  }

  lemma NothingYet()
    ensures R.NoneDropped(R.INIT.log) && R.AllReturn(R.INIT)
  {}

  lemma ReturningLosesNothing(service: uint32, moves: seq<Move>, policy: Policy)
    requires Sound(policy, service) && ReturningMoves(moves)
    requires Follows(Start(service), moves, policy) && WithinCounters(Play(Start(service), moves))
    ensures NothingLost(Play(Start(service), moves))
  {
    hide Play, Follows, Sound, R.Exec, R.NoneDropped, R.Inv, EventsAt;
    StartGood(service);
    R.InitInv();
    assert R.NoneDropped(R.INIT.log) && R.AllReturn(R.INIT) by { NothingYet(); }
    forall end: End ensures R.NoneDropped(At(Play(Start(service), moves), end).sys.log) {
      var es := EventsAt(end, Start(service), moves);
      PlayIsRun(end, Start(service), moves);
      EventsHarmless(end, Start(service), moves, policy);
      R.NothingDropped(R.INIT, es);
    }
    assert At(Play(Start(service), moves), A) == Play(Start(service), moves).a;
    assert At(Play(Start(service), moves), B) == Play(Start(service), moves).b;
  }

  // ---------------------------------------------------------------- the main result

  /**
    In every run over a losing, repeating, reordering link, in both directions at once: callbacks are
    matched to their own requests and taken at most once, no delivered request is answered twice, and
    no handler is lost when the callers' timeout callbacks return.
  */
  lemma CallbacksMatchRequests(service: uint32, moves: seq<Move>)
    requires Follows(Start(service), moves, Polite()) && WithinCounters(Play(Start(service), moves))
    ensures var w := Play(Start(service), moves);
            && AllMatched(w) && OneResponseEach(w.a) && OneResponseEach(w.b)
            && (ReturningMoves(moves) ==> NothingLost(w))
  {
    hide Play, Follows, Matched, ReturningMoves, NothingLost;
    SoundMatches(service, moves, Polite());
    PlayOnce(Start(service), moves);
    if ReturningMoves(moves) {
      ReturningLosesNothing(service, moves, Polite());
    }
  }

  /**
    A call completes: its request is delivered and answered, the answer is delivered, and the caller's
    handler for that very call is taken by it.
  */
  lemma CallCompletes(e: Endpoint, p: Endpoint, j: nat, answer: Answer, c: ChainResult)
    requires Good(e, p.sent) && Good(p, e.sent) && e.service == p.service
    requires j < |e.sent| && IsRequest(e.sent[j]) && RequestOf(e.sent[j].packet.meta).expectResponse
    requires SelectMethod(RequestOf(e.sent[j].packet.meta)).Some?
    requires RequestId(e.sent[j]) in e.sys.client.stubs
    ensures var p1 := AfterReceive(p, e.sent, j, Finished(true, true, None));
            var p2 := AfterRespond(p1, |p.deliveries|, answer);
            var e1 := AfterReceive(e, p2.sent, |p.sent|, c);
            && |p2.sent| == |p.sent| + 1
            && p2.sent[|p.sent|].packet == PacketOf(e.sent[j].packet.meta, answer)
            && e1.sys.log == e.sys.log + [R.Taken(RequestId(e.sent[j]), R.ByResponse(|p.sent|))]
            && RequestId(e.sent[j]) !in e1.sys.client.stubs
  {
    hide SelectMethod, NotFoundReason, LogOk, DeliveriesOk, R.InvTimers, R.InvFates, R.InvThreads, PacketOf;
    var meta, d := e.sent[j].packet.meta, |p.deliveries|;
    assert EnvelopeOk(e.sent[j], e, p.sent);
    var p1 := AfterReceive(p, e.sent, j, Finished(true, true, None));
    assert p1.sent == p.sent && p1.replies[d] == ReplyState(meta, false);
    var p2 := AfterRespond(p1, d, answer);
    assert Envelopes([PacketOf(meta, answer)], d) == [Envelope(PacketOf(meta, answer), d)];
    assert p2.sent == p.sent + [Envelope(PacketOf(meta, answer), d)];
    PacketOfIsResponse(meta, answer);
    var id := RequestId(e.sent[j]);
    assert e.sys.client.stubs[id] == id;
  }

  // ---------------------------------------------------------------- and exactly when it holds

  lemma {:induction false} PlayAppend(w: World, a: seq<Move>, b: seq<Move>, policy: Policy)
    ensures Play(w, a + b) == Play(Play(w, a), b)
    ensures Follows(w, a + b, policy) <==> Follows(w, a, policy) && Follows(Play(w, a), b, policy)
    decreases |a|
  {
    hide Next, Allowed;
    if a == [] {
      assert a + b == b;
    } else {
      assert (a + b)[1..] == a[1..] + b;
      PlayAppend(Next(w, a[0]), a[1..], b, policy);
    }
  }

  lemma PlayOne(w: World, m: Move, policy: Policy)
    ensures Play(w, [m]) == Next(w, m)
    ensures Follows(w, [m], policy) <==> Allowed(Inbound(w, m), m.step, policy)
  {}

  /** One call of A, begun, registered and sent by an idle thread. */
  function CallMoves(kind: R.Kind, msgId: uint64, body: ByteString): seq<Move> {
    [MoveA(Local(R.Begin(0, kind))), MoveA(Local(R.Register(0, 0))), MoveA(Transmit(0, msgId, body))]
  }

  /** A made `k` calls, one after the other, and nothing else happened. */
  predicate Begun(w: World, k: nat) {
    && w.b == Idle(w.a.service)
    && w.a.sys.threads == map[] && w.a.sys.log == []
    && w.a.sys.issued == k == |w.a.sent| && w.a.sys.client.next == k % TWO64
    && (forall id :: id in w.a.sys.client.stubs ==> id < k && w.a.sys.client.stubs[id] == id)
    && (forall id :: id in w.a.sys.client.timeouts ==> id < k)
  }

  ghost function AfterCall(e: Endpoint, kind: R.Kind, msgId: uint64, body: ByteString): Endpoint {
    AfterTransmit(AfterLocal(AfterLocal(e, R.Begin(0, kind)), R.Register(0, 0)), 0, msgId, body)
  }

  lemma CallStarts(w: World, k: nat, kind: R.Kind)
    requires Begun(w, k) && k < TWO64
    ensures var e := AfterLocal(AfterLocal(w.a, R.Begin(0, kind)), R.Register(0, 0));
            && e.(sys := w.a.sys) == w.a
            && e.sys.threads == map[0 := if kind == R.OneWay then R.Allocated(k, k, kind) else R.Ready(k, k, kind)]
            && e.sys.log == [] && e.sys.issued == k + 1 && e.sys.client.next == (k + 1) % TWO64
            && e.sys.client.stubs == (if kind == R.OneWay then w.a.sys.client.stubs else w.a.sys.client.stubs[k := k])
            && e.sys.client.timeouts ==
                 if kind.Timed? then w.a.sys.client.timeouts[k := C.TimeoutCallback(k, kind.callback)]
                 else w.a.sys.client.timeouts
  {
    var e1 := AfterLocal(w.a, R.Begin(0, kind));
    assert e1 == w.a.(sys := R.AfterBegin(w.a.sys, 0, kind));
    assert e1.sys.threads == map[0 := R.Allocated(k, k, kind)];
    assert !R.AssertFails(e1.sys, 0);
  }

  lemma CallLeaves(w: World, k: nat, kind: R.Kind, msgId: uint64, body: ByteString)
    requires Begun(w, k) && k < TWO64
    ensures var e := AfterCall(w.a, kind, msgId, body);
            && Begun(w.(a := e), k + 1) && e.service == w.a.service
            && e.sent == w.a.sent + [Envelope(Packet(MetaOf(w.a.service, R.Ready(k, k, kind), msgId), body), 0)]
            && e.sys.client.stubs.Keys == w.a.sys.client.stubs.Keys + if kind == R.OneWay then {} else {k}
  {
    hide AfterLocal;
    CallStarts(w, k, kind);
    var e := AfterLocal(AfterLocal(w.a, R.Begin(0, kind)), R.Register(0, 0));
    assert R.Enabled(e.sys, R.Send(0));
    assert e.sys.threads - {0} == map[];
  }

  lemma OneCall(w: World, k: nat, kind: R.Kind, msgId: uint64, body: ByteString, policy: Policy)
    requires Begun(w, k) && k < TWO64
    ensures var w' := Play(w, CallMoves(kind, msgId, body));
            && Begun(w', k + 1) && w'.a.service == w.a.service
            && w'.a.sent == w.a.sent + [Envelope(Packet(MetaOf(w.a.service, R.Ready(k, k, kind), msgId), body), 0)]
            && w'.a.sys.client.stubs.Keys == w.a.sys.client.stubs.Keys + if kind == R.OneWay then {} else {k}
    ensures Follows(w, CallMoves(kind, msgId, body), policy)
  {
    hide AfterLocal, AfterTransmit, Begun;
    CallLeaves(w, k, kind, msgId, body);
    var moves := CallMoves(kind, msgId, body);
    var w1 := Next(w, moves[0]);
    var w2 := Next(w1, moves[1]);
    assert moves[1..] == [moves[1], moves[2]] && moves[1..][1..] == [moves[2]];
    PlayOne(w2, moves[2], policy);
    assert Play(w, moves) == Play(w1, moves[1..]) == Play(w2, [moves[2]]) == w.(a := AfterCall(w.a, kind, msgId, body));
    assert Follows(w2, [moves[2]], policy);
    assert Follows(w1, moves[1..], policy);
  }

  function OneWays(n: nat): seq<Move> {
    if n == 0 then [] else OneWays(n - 1) + CallMoves(R.OneWay, ECHO_ID, [])
  }

  lemma {:induction false} ManyCalls(w: World, k: nat, n: nat, policy: Policy)
    requires Begun(w, k) && k + n <= TWO64
    ensures var w' := Play(w, OneWays(n));
            && Begun(w', k + n) && w'.a.service == w.a.service
            && w'.a.sys.client.stubs.Keys == w.a.sys.client.stubs.Keys
    ensures Follows(w, OneWays(n), policy)
  {
    hide Begun, CallMoves, Allowed;
    if n > 0 {
      ManyCalls(w, k, n - 1, policy);
      PlayAppend(w, OneWays(n - 1), CallMoves(R.OneWay, ECHO_ID, []), policy);
      OneCall(Play(w, OneWays(n - 1)), k + n - 1, R.OneWay, ECHO_ID, [], policy);
    }
  }

  /** The kind of call that leaves with this meta. */
  function KindOf(info: Request): R.Kind {
    if !info.expectResponse then R.OneWay
    else if info.timeout == 0 then R.Plain
    else R.Timed(if info.timeout < TWO63 then info.timeout else info.timeout - TWO64, C.Returns)
  }

  lemma KindLeaves(m: RpcMeta)
    requires IsCall(m)
    ensures var info := RequestOf(m);
            MetaOf(m.serviceId, R.Ready(info.sequenceId, info.sequenceId, KindOf(info)), info.intMethod) == m
  {}

  /** A makes all calls up to the one that leaves with this packet; call 0 waits for a response. */
  function CallsUpTo(p: Packet): seq<Move> {
    var info := RequestOf(p.meta);
    CallMoves(R.Plain, ECHO_ID, []) + (OneWays(if info.sequenceId > 0 then info.sequenceId - 1 else 0)
                                       + CallMoves(KindOf(info), info.intMethod, p.body))
  }

  lemma CallsLeave(p: Packet, policy: Policy)
    requires IsCall(p.meta) && RequestOf(p.meta).sequenceId > 0
    ensures var w, k := Play(Start(p.meta.serviceId), CallsUpTo(p)), RequestOf(p.meta).sequenceId;
            Begun(w, k + 1) && w.a.service == p.meta.serviceId && w.a.sent[k].packet == p && 0 in w.a.sys.client.stubs
    ensures Follows(Start(p.meta.serviceId), CallsUpTo(p), policy)
  {
    hide Play, Follows, CallMoves, OneWays;
    var info, w0 := RequestOf(p.meta), Start(p.meta.serviceId);
    var k, first := info.sequenceId, CallMoves(R.Plain, ECHO_ID, []);
    var last := CallMoves(KindOf(info), info.intMethod, p.body);
    OneCall(w0, 0, R.Plain, ECHO_ID, [], policy);
    var w1 := Play(w0, first);
    ManyCalls(w1, 1, k - 1, policy);
    var w2 := Play(w1, OneWays(k - 1));
    OneCall(w2, k, KindOf(info), info.intMethod, p.body, policy);
    KindLeaves(p.meta);
    PlayAppend(w0, first, OneWays(k - 1) + last, policy);
    PlayAppend(w1, OneWays(k - 1), last, policy);
  }

  /**
    The run that goes wrong: with call 0 still pending, the chain at B fails for a later call after the
    meta was moved, and the error it reports takes the callback of call 0.
  */
  function Misdirected(p: Packet, c: ChainResult): seq<Move> {
    CallsUpTo(p) + ([MoveB(Receive(RequestOf(p.meta).sequenceId, c))] + [MoveA(Receive(0, c))])
  }

  /** What the stub at B sends for such a call names call 0. */
  lemma ErrorGoesAstray(e: Endpoint, inbound: seq<Envelope>, i: nat, c: ChainResult)
    requires e == Idle(0) && i < |inbound| && IsRequest(inbound[i]) && GoesAstray(inbound[i].packet.meta, c)
    ensures var e' := AfterReceive(e, inbound, i, c);
            && e'.sent == [Envelope(ErrorPacket(0, 0, 0, c.err.value), 0)]
            && e'.deliveries == [i]
  {}

  lemma MisdirectedFails(p: Packet, c: ChainResult, policy: Policy)
    requires IsCall(p.meta) && GoesAstray(p.meta, c) && policy(p, c)
    ensures Follows(Start(0), Misdirected(p, c), policy) && WithinCounters(Play(Start(0), Misdirected(p, c)))
    ensures !AllMatched(Play(Start(0), Misdirected(p, c)))
  {
    hide Play, Follows, CallsUpTo, SelectMethod, NotFoundReason;
    var k, m, n := RequestOf(p.meta).sequenceId, MoveB(Receive(RequestOf(p.meta).sequenceId, c)), MoveA(Receive(0, c));
    CallsLeave(p, policy);
    var w2 := Play(Start(0), CallsUpTo(p));
    PlayAppend(Start(0), CallsUpTo(p), [m] + [n], policy);
    PlayAppend(w2, [m], [n], policy);
    PlayOne(w2, m, policy);
    var w3 := Next(w2, m);
    PlayOne(w3, n, policy);
    ErrorGoesAstray(w2.b, w2.a.sent, k, c);
    var w4 := Next(w3, n);
    assert w4.a.sys.log == [R.Taken(0, R.ByResponse(0))];
    assert !MatchedEntry(w4.a.sys.log[0], w4.a, w4.b);
  }

  ghost predicate GoesWell(moves: seq<Move>, w: World) {
    AllMatched(w) && (ReturningMoves(moves) ==> NothingLost(w))
  }

  /** All runs that follow the policy end well. */
  ghost predicate AlwaysMatched(service: uint32, policy: Policy) {
    forall moves :: Follows(Start(service), moves, policy) && WithinCounters(Play(Start(service), moves)) ==>
      GoesWell(moves, Play(Start(service), moves))
  }

  /**
    Callbacks are matched to their requests in all runs that follow a policy exactly when the policy
    lets no error report of a call go astray.
  */
  lemma MatchedExactly(service: uint32, policy: Policy)
    ensures AlwaysMatched(service, policy) <==> Sound(policy, service)
  {
    hide Play, Follows, AllMatched, WithinCounters, IsCall, ReturningMoves, NothingLost;
    if Sound(policy, service) {
      forall moves | Follows(Start(service), moves, policy) && WithinCounters(Play(Start(service), moves))
        ensures GoesWell(moves, Play(Start(service), moves))
      {
        SoundMatches(service, moves, policy);
        if ReturningMoves(moves) {
          ReturningLosesNothing(service, moves, policy);
        }
      }
    } else {
      var p, c :| policy(p, c) && IsCall(p.meta) && p.meta.serviceId == service && GoesAstray(p.meta, c);
      MisdirectedFails(p, c, policy);
    }
  }

  /** The chains, whatever the request, end only in the given ways. */
  function Ending(ways: ChainResult -> bool): Policy {
    (p: Packet, c: ChainResult) => ways(c)
  }

  /**
    For services other than service 0 callbacks are matched always; for service 0 exactly when no chain
    reports an error after the meta was moved on.
  */
  lemma MatchedIffErrorsComeBeforeNext(service: uint32, ways: ChainResult -> bool)
    ensures AlwaysMatched(service, Ending(ways)) <==>
              service != 0 || forall c :: ways(c) ==> ErrorBeforeNext(c)
  {
    hide AlwaysMatched;
    MatchedExactly(service, Ending(ways));
    if service == 0 && exists c :: ways(c) && !ErrorBeforeNext(c) {
      var c :| ways(c) && !ErrorBeforeNext(c);
      var p := Packet(RequestMeta(1, 0, ECHO_ID, BINARY, true, 0), []);
      assert Ending(ways)(p, c) && IsCall(p.meta) && GoesAstray(p.meta, c);
    }
  }

  // ---------------------------------------------------------------- installed interceptors

  /** The same interceptors are installed at both ends, in front of any code of the service. */
  ghost function Installed(list: seq<Link>): Policy {
    (p: Packet, c: ChainResult) =>
      SelectMethod(RequestOf(p.meta)).Some? ==> exists impl :: c == ChainOf(list, impl, p.meta, p.body)
  }

  /** A call whose error report would go astray if it came late. */
  predicate Exposed(m: RpcMeta) {
    IsCall(m) && m.serviceId == 0 && RequestOf(m).sequenceId != 0 && SelectMethod(RequestOf(m)).Some?
  }

  lemma SafeNeverAstray(list: seq<Link>, p: Packet)
    requires AllRespectful(list) && Exposed(p.meta)
    ensures SafeAt(list, p.meta) <==> forall c :: Installed(list)(p, c) ==> !GoesAstray(p.meta, c)
  {
    hide SafeAt, SelectMethod, ChainOf;
    SafeExactly(list, p.meta, p.body);
    if SafeAt(list, p.meta) {
      forall c | Installed(list)(p, c) ensures !GoesAstray(p.meta, c) {
        var impl :| c == ChainOf(list, impl, p.meta, p.body);
        assert ErrorBeforeNext(ChainOf(list, impl, p.meta, p.body));
      }
    } else {
      var impl :| !ErrorBeforeNext(ChainOf(list, impl, p.meta, p.body));
      var c := ChainOf(list, impl, p.meta, p.body);
      ReplyBuiltExactly(list, impl, p.meta, p.body);
      assert Installed(list)(p, c) && GoesAstray(p.meta, c);
    }
  }

  /**
    With given interceptors in front of the services, whatever code these run: callbacks are matched to
    their requests in all runs exactly when the service is not service 0, or the list reports no error
    after the meta was moved on for any call it can receive.
  */
  lemma MatchedForInstalledChains(service: uint32, list: seq<Link>)
    requires AllRespectful(list)
    ensures AlwaysMatched(service, Installed(list)) <==>
              service != 0 || forall m :: Exposed(m) ==> SafeAt(list, m)
  {
    hide AlwaysMatched, SafeAt, SelectMethod, Installed, IsCall;
    MatchedExactly(service, Installed(list));
    if service == 0 {
      if forall m :: Exposed(m) ==> SafeAt(list, m) {
        forall p, c | Installed(list)(p, c) && IsCall(p.meta) && p.meta.serviceId == service
          ensures !GoesAstray(p.meta, c)
        {
          if Exposed(p.meta) {
            SafeNeverAstray(list, p);
          }
        }
        assert Sound(Installed(list), service);
      } else {
        var m :| Exposed(m) && !SafeAt(list, m);
        var p := Packet(m, []);
        SafeNeverAstray(list, p);
        assert !Sound(Installed(list), service);
      }
    }
  }

  /** The library's protected call, alone, lets errors go astray at service 0, and is harmless elsewhere. */
  lemma ProtectedCallMatches(service: uint32)
    ensures AlwaysMatched(service, Installed([ProtectedCall()])) <==> service != 0
  {
    hide AlwaysMatched, Installed, SafeAt;
    ProtectedCallIsNotQuiet();
    MatchedForInstalledChains(service, [ProtectedCall()]);
    var m := RequestMeta(1, 0, ECHO_ID, BINARY, true, 0);
    assert Exposed(m);
    ProtectedCallUnsafe(m);
  }

  /** Behind a link that passes a copy of the meta on, any interceptors will do at any service. */
  lemma CopyAlwaysMatches(service: uint32, rest: seq<Link>)
    requires AllRespectful(rest)
    ensures AlwaysMatched(service, Installed([PassCopy()] + rest))
  {
    hide AlwaysMatched, Installed, SafeAt, AllRespectful;
    CopyMakesSafe(rest, NO_META);
    MatchedForInstalledChains(service, [PassCopy()] + rest);
    forall m | Exposed(m) ensures SafeAt([PassCopy()] + rest, m) {
      CopyMakesSafe(rest, m);
    }
  }
}
