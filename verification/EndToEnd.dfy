/**
  The two-endpoint protocol over the byte transport: what an endpoint sends in any run is within the
  limits of the wire and arrives as it was sent.
*/
module EndToEnd {
  import opened Bytes
  import opened Framing
  import opened Wire
  import opened Meta
  import opened Stack
  import Messages
  import Service
  import P = Protocol

  lemma {:induction false} VarintSizeBound(v: nat, k: nat)
    requires k > 0 && v < Pow128(k)
    ensures VarintSize(v) <= k
  {
    if v >= 128 {
      VarintSizeBound(v / 128, k - 1);
    }
  }

  lemma Uint64Size(v: uint64)
    ensures VarintSize(v) <= 10
  {
    assert Pow128(10) > TWO64 by {
      assert Pow128(5) == 0x8_0000_0000;
      assert Pow128(10) == 128 * (128 * (128 * (128 * (128 * Pow128(5)))));
    }
    VarintSizeBound(v, 10);
  }

  lemma VarintFieldSize(num: nat, v: uint64)
    requires 0 < num < 16
    ensures AllTagged(VarintUnlessZero(num, v)) && |EncodeFields(VarintUnlessZero(num, v))| <= 11
  {
    hide EncodeFields, VarintSize;
    Uint64Size(v);
    Messages.SizeOfVarint(num, v);
  }

  lemma RecordFieldSize(num: nat, b: ByteString)
    requires 0 < num < 16 && |b| < TWO64
    ensures |EncodeFields([RecordField(num, b)])| <= 11 + |b|
  {
    hide EncodeFields, VarintSize;
    Uint64Size(|b|);
    Messages.SizeOfRecord(num, b);
  }

  lemma NoFieldsSize()
    ensures |EncodeFields([])| == 0
  {}

  lemma RequestSize(r: Request)
    requires |r.strMethod| < TWO31
    ensures |SerializeRequest(r)| <= 55 + |r.strMethod|
  {
    hide EncodeFields, VarintUnlessZero;
    NoFieldsSize();
    VarintFieldSize(1, r.intMethod);
    RecordFieldSize(2, r.strMethod);
    VarintFieldSize(3, Bit(r.expectResponse));
    VarintFieldSize(4, r.sequenceId);
    VarintFieldSize(5, r.timeout);
    Messages.SizeOfFive(VarintUnlessZero(1, r.intMethod), RecordUnlessEmpty(2, r.strMethod),
                        VarintUnlessZero(3, Bit(r.expectResponse)), VarintUnlessZero(4, r.sequenceId),
                        VarintUnlessZero(5, r.timeout));
  }

  lemma ResponseSize(r: Response)
    requires |r.reason| < TWO31
    ensures |SerializeResponse(r)| <= 55 + |r.reason|
  {
    hide EncodeFields, VarintUnlessZero;
    NoFieldsSize();
    VarintFieldSize(1, r.sequenceId);
    VarintFieldSize(2, Bit(r.failed));
    VarintFieldSize(3, SignExtend(r.errorCode));
    RecordFieldSize(4, r.reason);
    VarintFieldSize(5, Bit(r.timeout));
    Messages.SizeOfFive(VarintUnlessZero(1, r.sequenceId), VarintUnlessZero(2, Bit(r.failed)),
                        VarintUnlessZero(3, SignExtend(r.errorCode)), RecordUnlessEmpty(4, r.reason),
                        VarintUnlessZero(5, Bit(r.timeout)));
  }

  /** Apart from its two texts, a meta without annotations takes less than two hundred bytes. */
  lemma MetaSize(m: RpcMeta)
    requires m.metaData == map[]
    requires |RequestOf(m).strMethod| + |ResponseOf(m).reason| < TWO31 - 200
    ensures |Serialize(m, [])| < 200 + |RequestOf(m).strMethod| + |ResponseOf(m).reason|
  {
    hide EncodeFields, VarintUnlessZero, SerializeRequest, SerializeResponse;
    NoFieldsSize();
    VarintFieldSize(1, SignExtend(m.typ));
    VarintFieldSize(2, m.serviceId);
    VarintFieldSize(3, SignExtend(m.encoding));
    if m.requestInfo.Some? {
      RequestSize(m.requestInfo.value);
      RecordFieldSize(4, SerializeRequest(m.requestInfo.value));
    }
    if m.responseInfo.Some? {
      ResponseSize(m.responseInfo.value);
      RecordFieldSize(5, SerializeResponse(m.responseInfo.value));
    }
    Messages.SizeOfFive(VarintUnlessZero(1, SignExtend(m.typ)), VarintUnlessZero(2, m.serviceId),
                        VarintUnlessZero(3, SignExtend(m.encoding)), RequestRecord(m), ResponseRecord(m));
    assert MetaFields(m, []) == FixedFields(m);
  }

  // ---------------------------------------------------------------- what endpoints send

  /** The only text in a message of an endpoint is the reason of an error; there are no annotations. */
  predicate Shaped(x: P.Envelope) {
    && (P.IsRequest(x) || P.IsResponse(x))
    && RequestOf(x.packet.meta).strMethod == [] && x.packet.meta.metaData == map[]
    && (P.IsRequest(x) ==> ResponseOf(x.packet.meta).reason == [])
  }

  predicate AllShaped(sent: seq<P.Envelope>) {
    forall i :: 0 <= i < |sent| ==> Shaped(sent[i])
  }

  lemma AnswerShaped(request: RpcMeta, a: Service.Answer, d: nat)
    ensures Shaped(P.Envelope(Service.PacketOf(request, a), d))
  {}

  lemma ReportShaped(meta: RpcMeta, chain: Service.ChainResult, d: nat)
    ensures AllShaped(P.Envelopes(Service.Stub(meta, chain).packets, d))
  {}

  lemma ShapedAppend(a: seq<P.Envelope>, b: seq<P.Envelope>)
    requires AllShaped(a) && AllShaped(b)
    ensures AllShaped(a + b)
  {}

  lemma OneShaped(x: P.Envelope)
    requires Shaped(x)
    ensures AllShaped([x])
  {}

  lemma TakeShapes(e: P.Endpoint, inbound: seq<P.Envelope>, step: P.Step)
    requires AllShaped(e.sent)
    ensures AllShaped(P.Take(e, inbound, step).sent)
  {
    hide P.R.Apply, Service.Stub, Service.PacketOf, AllShaped;
    match step
    case Local(_) =>
    case Transmit(thread, msgId, body) =>
      if P.R.Enabled(e.sys, P.R.Send(thread)) {
        var x := P.Envelope(Service.Packet(P.MetaOf(e.service, e.sys.threads[thread], msgId), body), 0);
        assert AllShaped([x]) by { OneShaped(x); }
        ShapedAppend(e.sent, [x]);
      }
    case Receive(i, chain) =>
      if i < |inbound| {
        var packets, d := Service.Stub(inbound[i].packet.meta, chain).packets, |e.deliveries|;
        ReportShaped(inbound[i].packet.meta, chain, d);
        ShapedAppend(e.sent, P.Envelopes(packets, d));
      }
    case Respond(d, answer) =>
      if d in e.replies && !e.replies[d].replied {
        var x := P.Envelope(Service.PacketOf(e.replies[d].request, answer), d);
        AnswerShaped(e.replies[d].request, answer, d);
        OneShaped(x);
        ShapedAppend(e.sent, [x]);
        var more := P.Envelopes(Service.Sent(Service.EffectOf(e.replies[d], answer)), d);
        assert more == [x] || e.sent + more == e.sent;
      }
  }

  lemma {:induction false} PlayShapes(w: P.World, moves: seq<P.Move>)
    requires AllShaped(w.a.sent) && AllShaped(w.b.sent)
    ensures AllShaped(P.Play(w, moves).a.sent) && AllShaped(P.Play(w, moves).b.sent)
    decreases |moves|
  {
    hide P.Take, AllShaped;
    if moves != [] {
      match moves[0] {
        case MoveA(step) => TakeShapes(w.a, w.b.sent, step);
        case MoveB(step) => TakeShapes(w.b, w.a.sent, step);
      }
      PlayShapes(P.Next(w, moves[0]), moves[1..]);
    }
  }

  // ---------------------------------------------------------------- over the wire

  /** Bodies and error texts of a size processes can hold. */
  predicate Reasonable(x: P.Envelope) {
    |x.packet.body| < TWO64 - TWO32 && (P.IsResponse(x) ==> |ResponseOf(x.packet.meta).reason| < TWO31 - 200)
  }

  predicate AllReasonable(sent: seq<P.Envelope>) {
    forall i :: 0 <= i < |sent| ==> Reasonable(sent[i])
  }

  function Sending(sent: seq<P.Envelope>): seq<Traffic> {
    seq(|sent|, i requires 0 <= i < |sent| => Carry(sent[i].packet, []))
  }

  function PacketsOf(sent: seq<P.Envelope>): seq<Service.Packet> {
    seq(|sent|, i requires 0 <= i < |sent| => sent[i].packet)
  }

  lemma {:induction false} PacketsOfSending(sent: seq<P.Envelope>)
    ensures Packets(Sending(sent)) == PacketsOf(sent)
    decreases |sent|
  {
    if sent != [] {
      PacketsOfSending(sent[1..]);
      assert Sending(sent)[1..] == Sending(sent[1..]);
      assert PacketsOf(sent) == [sent[0].packet] + PacketsOf(sent[1..]);
    }
  }

  lemma ShapedTransportable(x: P.Envelope)
    requires Shaped(x) && Reasonable(x)
    ensures Transportable(x.packet, [])
  {
    hide Serialize;
    MetaSize(x.packet.meta);
  }

  lemma SendingCarriable(sent: seq<P.Envelope>)
    requires AllShaped(sent) && AllReasonable(sent)
    ensures AllCarriable(Sending(sent))
  {
    hide Transportable, Reasonable, Shaped;
    forall i | 0 <= i < |sent| ensures Carriable(Sending(sent)[i]) {
      ShapedTransportable(sent[i]);
    }
  }

  /**
    The bytes of these messages, of which the receiver has read `chunks` and `unread` is still on its
    way. Of the messages whose texts pass the receiver's check the first have arrived, in order and equal
    in every field, and once all bytes are read all of them, with no byte left over.
  */
  predicate Carried(valid: TextCheck, sent: seq<P.Envelope>, chunks: seq<ByteString>, unread: ByteString) {
    && AllCarriable(Sending(sent))
    && (Concat(chunks) + unread == EncodeTraffic(Sending(sent)) ==>
          var p, legible := Feed([], chunks), Legible(valid, PacketsOf(sent));
          && AllInRange(p.frames) && AllWorkable(p.frames)
          && var arrived := Arrivals(valid, Deliver(p.frames));
             arrived <= legible && (unread == [] ==> p.rest == [] && arrived == legible))
  }

  /** Whatever part of the bytes was read, in whatever cut: the peer's parsers give back the messages. */
  lemma SentArrives(valid: TextCheck, sent: seq<P.Envelope>, chunks: seq<ByteString>, unread: ByteString)
    requires AllShaped(sent) && AllReasonable(sent)
    ensures Carried(valid, sent, chunks, unread)
  {
    hide Transportable, Reasonable, Shaped, Feed, Arrivals, Packets, Legible;
    SendingCarriable(sent);
    if Concat(chunks) + unread == EncodeTraffic(Sending(sent)) {
      WireCarriesPrefix(valid, Sending(sent), chunks, unread);
      PacketsOfSending(sent);
      if unread == [] {
        assert Concat(chunks) + unread == Concat(chunks);
        WireCarriesPackets(valid, Sending(sent), chunks);
      }
    }
  }

  /**
    In every run of the two endpoints, whatever goes wrong in it, both directions of the byte transport
    carry what was sent.
  */
  lemma EverythingSentArrives(valid: TextCheck, service: uint32, moves: seq<P.Move>, end: P.End,
                              chunks: seq<ByteString>, unread: ByteString)
    requires AllReasonable(P.At(P.Play(P.Start(service), moves), end).sent)
    ensures Carried(valid, P.At(P.Play(P.Start(service), moves), end).sent, chunks, unread)
  {
    hide P.Play, AllReasonable, Carried;
    PlayShapes(P.Start(service), moves);
    SentArrives(valid, P.At(P.Play(P.Start(service), moves), end).sent, chunks, unread);
  }

  lemma ErrorReasonable(request: RpcMeta, code: int32, reason: ByteString)
    requires |reason| < TWO31 - 200
    ensures var x := P.Envelope(Service.PacketOf(request, Service.Error(code, reason)), 0);
            && AllShaped([x]) && AllReasonable([x])
            && ResponseOf(x.packet.meta).reason == reason && x.packet.meta.responseInfo.Some?
  {}

  lemma NoneLegible(valid: TextCheck, x: P.Envelope)
    requires x.packet.meta.responseInfo.Some?
    requires ResponseOf(x.packet.meta).reason != [] && !valid(ResponseOf(x.packet.meta).reason)
    ensures Legible(valid, PacketsOf([x])) == []
  {}

  /** An error answer whose reason the receiver's check refuses is sent, and nothing arrives. */
  lemma IllegibleAnswerLost(valid: TextCheck, request: RpcMeta, code: int32, reason: ByteString,
                            chunks: seq<ByteString>)
    requires reason != [] && !valid(reason) && |reason| < TWO31 - 200
    ensures var sent := [P.Envelope(Service.PacketOf(request, Service.Error(code, reason)), 0)];
            && AllCarriable(Sending(sent))
            && (Concat(chunks) == EncodeTraffic(Sending(sent)) ==>
                  var p := Feed([], chunks);
                  p.rest == [] && AllInRange(p.frames) && Arrivals(valid, Deliver(p.frames)) == [])
  {
    hide Transportable, Feed, Arrivals, Packets, Legible, Service.PacketOf, AllCarriable;
    var x := P.Envelope(Service.PacketOf(request, Service.Error(code, reason)), 0);
    ErrorReasonable(request, code, reason);
    SentArrives(valid, [x], chunks, []);
    assert Concat(chunks) + [] == Concat(chunks);
    NoneLegible(valid, x);
  }
}
