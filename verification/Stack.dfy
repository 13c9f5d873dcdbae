/**
  The layers together: packets become one byte stream, the stream is cut anywhere, and the receiver's
  frame parser, inner parser, meta parser and registry hand each packet to its handler.
*/
module Stack {
  import opened Bytes
  import opened Framing
  import opened Meta
  import opened Registry
  import Messages
  import Service

  /**
    A packet the wire can carry, its annotations written in the given order: serialized meta below
    2 GiB, sizes in 64 bits. The sender does not check texts.
  */
  predicate Transportable(p: Service.Packet, order: seq<ByteString>) {
    && Lists(order, p.meta.metaData)
    && |Serialize(p.meta, order)| < TWO31
    && InMemory(Serialize(p.meta, order), p.body)
  }

  /** Other complete frames may travel between the packets. */
  datatype Traffic = Carry(packet: Service.Packet, order: seq<ByteString>) | Foreign(frame: OpPacket)

  /** The packet as its sender serializes it. */
  function ItemFor(t: Traffic): Item {
    match t
    case Carry(p, order) => Rpc(Serialize(p.meta, order), p.body)
    case Foreign(frame) => Noise(frame)
  }

  function Items(ts: seq<Traffic>): seq<Item> {
    seq(|ts|, i requires 0 <= i < |ts| => ItemFor(ts[i]))
  }

  function Packets(ts: seq<Traffic>): seq<Service.Packet> {
    if ts == [] then []
    else (match ts[0] case Carry(p, _) => [p] case Foreign(_) => []) + Packets(ts[1..])
  }

  predicate Carriable(t: Traffic) {
    match t
    case Carry(p, order) => Transportable(p, order)
    case Foreign(frame) => Sendable(Noise(frame))
  }

  predicate AllCarriable(ts: seq<Traffic>) {
    forall i :: 0 <= i < |ts| ==> Carriable(ts[i])
  }

  /** What the bytes of one inner packet become; metas that do not parse are reported and dropped. */
  function Arrival(valid: TextCheck, raw: (ByteString, ByteString)): seq<Service.Packet> {
    match ParseMeta(valid, NO_META, raw.0)
    case None => []
    case Some(meta) => [Service.Packet(meta, raw.1)]
  }

  function Arrivals(valid: TextCheck, raws: seq<(ByteString, ByteString)>): seq<Service.Packet> {
    if raws == [] then [] else Arrival(valid, raws[0]) + Arrivals(valid, raws[1..])
  }

  lemma {:induction false} ArrivalsAppend(valid: TextCheck, a: seq<(ByteString, ByteString)>,
                                          b: seq<(ByteString, ByteString)>)
    ensures Arrivals(valid, a + b) == Arrivals(valid, a) + Arrivals(valid, b)
    decreases |a|
  {
    hide Arrival;
    if a == [] {
      assert a + b == b;
    } else {
      assert (a + b)[1..] == a[1..] + b;
      ArrivalsAppend(valid, a[1..], b);
    }
  }

  lemma SendableItems(ts: seq<Traffic>)
    requires AllCarriable(ts)
    ensures forall x :: x in Items(ts) ==> Sendable(x)
  {}

  function EncodeTraffic(ts: seq<Traffic>): ByteString
    requires AllCarriable(ts)
  {
    SendableItems(ts);
    EncodeItems(Items(ts))
  }

  function IfLegible(valid: TextCheck, p: Service.Packet): seq<Service.Packet> {
    if TextOk(valid, p.meta) then [p] else []
  }

  /** The packets whose texts pass the receiver's check. */
  function Legible(valid: TextCheck, ps: seq<Service.Packet>): seq<Service.Packet> {
    if ps == [] then [] else IfLegible(valid, ps[0]) + Legible(valid, ps[1..])
  }

  lemma {:induction false} LegibleAppend(valid: TextCheck, a: seq<Service.Packet>, b: seq<Service.Packet>)
    ensures Legible(valid, a + b) == Legible(valid, a) + Legible(valid, b)
    decreases |a|
  {
    hide IfLegible;
    if a == [] {
      assert a + b == b;
    } else {
      assert (a + b)[1..] == a[1..] + b;
      LegibleAppend(valid, a[1..], b);
    }
  }

  lemma {:induction false} ArrivalsOfItems(valid: TextCheck, ts: seq<Traffic>)
    requires AllCarriable(ts)
    ensures Arrivals(valid, Rpcs(Items(ts))) == Legible(valid, Packets(ts))
    decreases |ts|
  {
    hide Serialize, ParseMeta, TextOk;
    if ts != [] {
      assert Carriable(ts[0]);
      assert Items(ts)[1..] == Items(ts[1..]);
      assert forall i :: 0 <= i < |ts[1..]| ==> ts[1..][i] == ts[i + 1];
      ArrivalsOfItems(valid, ts[1..]);
      match ts[0]
      case Carry(p, order) =>
        SerializeParse(valid, p.meta, order);
        LegibleAppend(valid, [p], Packets(ts[1..]));
        var raw := (Serialize(p.meta, order), p.body);
        assert Rpcs(Items(ts)) == [raw] + Rpcs(Items(ts[1..]));
        assert ([raw] + Rpcs(Items(ts[1..])))[1..] == Rpcs(Items(ts[1..]));
        assert Packets(ts) == [p] + Packets(ts[1..]);
      case Foreign(_) =>
        assert Rpcs(Items(ts)) == Rpcs(Items(ts[1..])) && Packets(ts) == Packets(ts[1..]);
    }
  }

  /**
    The frame handler works within the frame, and the meta is below the 2 GiB that the meta parser can
    be given. Nothing is said about what other frames lead to, nor about anything after them.
  */
  predicate Workable(p: OpPacket) {
    p.op == OP_PROTOBUF ==> match ParsePacket(p.data)
                            case TooShort => true
                            case OutOfRange => false
                            case Packet(meta, _) => |meta| < TWO31
  }

  predicate AllWorkable(frames: seq<OpPacket>) {
    forall i :: 0 <= i < |frames| ==> Workable(frames[i])
  }

  lemma {:induction false} WorkableByDelivery(frames: seq<OpPacket>)
    requires AllInRange(frames)
    requires forall raw :: raw in Deliver(frames) ==> |raw.0| < TWO31
    ensures AllWorkable(frames)
    decreases |frames|
  {
    hide ParsePacket;
    if frames != [] {
      WorkableByDelivery(frames[1..]);
      var p := frames[0];
      assert InRange(p);
      assert forall raw :: raw in DeliverFrame(p) ==> raw in Deliver(frames);
      if p.op == OP_PROTOBUF && ParsePacket(p.data).Packet? {
        var Packet(meta, body) := ParsePacket(p.data);
        assert (meta, body) in DeliverFrame(p);
      }
      forall i | 0 <= i < |frames| ensures Workable(frames[i]) {
        assert i > 0 ==> frames[i] == frames[1..][i - 1];
      }
    }
  }

  lemma {:induction false} MetasSmall(ts: seq<Traffic>)
    requires AllCarriable(ts)
    ensures forall raw :: raw in Rpcs(Items(ts)) ==> |raw.0| < TWO31
    decreases |ts|
  {
    hide Serialize;
    if ts != [] {
      assert Carriable(ts[0]);
      assert Items(ts)[1..] == Items(ts[1..]);
      assert forall i :: 0 <= i < |ts[1..]| ==> ts[1..][i] == ts[i + 1];
      MetasSmall(ts[1..]);
    }
  }

  /**
    End to end: whatever frames travel in between and however the bytes are cut into reads, the
    receiver gets exactly the packets sent whose texts pass its check, in order and equal in every field,
    and keeps no byte.
  */
  lemma WireCarriesPackets(valid: TextCheck, ts: seq<Traffic>, chunks: seq<ByteString>)
    requires AllCarriable(ts)
    requires Concat(chunks) == EncodeTraffic(ts)
    ensures var p := Feed([], chunks);
            && p.rest == [] && AllInRange(p.frames) && AllWorkable(p.frames)
            && Arrivals(valid, Deliver(p.frames)) == Legible(valid, Packets(ts))
  {
    hide Feed, Deliver, Arrivals, Arrival;
    SendableItems(ts);
    ChunkedStreamDelivers(Items(ts), chunks);
    MetasSmall(ts);
    WorkableByDelivery(Feed([], chunks).frames);
    ArrivalsOfItems(valid, ts);
  }

  /** At every moment before that, with `unread` still on its way, the first of these packets have arrived. */
  lemma WireCarriesPrefix(valid: TextCheck, ts: seq<Traffic>, chunks: seq<ByteString>, unread: ByteString)
    requires AllCarriable(ts)
    requires Concat(chunks) + unread == EncodeTraffic(ts)
    ensures var p := Feed([], chunks);
            && AllInRange(p.frames) && AllWorkable(p.frames)
            && Arrivals(valid, Deliver(p.frames)) <= Legible(valid, Packets(ts))
  {
    hide Feed, Deliver, Arrivals, Legible, Packets, Items, Rpcs, Concat, AllCarriable, AllInRange, AllWorkable;
    SendableItems(ts);
    StreamPrefix(Items(ts), chunks, unread);
    ArrivalsOfItems(valid, ts);
    var some, all := Deliver(Feed([], chunks).frames), Rpcs(Items(ts));
    assert all == some + all[|some|..];
    MetasSmall(ts);
    WorkableByDelivery(Feed([], chunks).frames);
    ArrivalsAppend(valid, some, all[|some|..]);
  }

  // ---------------------------------------------------------------- the receiving code

  /** The frames in front of the first one that is not workable. */
  function Leading(frames: seq<OpPacket>): (some: seq<OpPacket>)
    ensures some <= frames && AllInRange(some)
    ensures forall p :: p in some ==> Workable(p)
    ensures |some| < |frames| ==> !Workable(frames[|some|])
  {
    if frames == [] || !Workable(frames[0]) then [] else [frames[0]] + Leading(frames[1..])
  }

  /** A packet without a handler makes the registry throw; the exception is caught and reported. */
  function CallFor(n: Nested, p: Service.Packet): seq<(Handler, Service.Packet)> {
    match Look(n, p.meta) case Call(h) => [(h, p)] case _ => []
  }

  function CallsOf(n: Nested, ps: seq<Service.Packet>): seq<(Handler, Service.Packet)> {
    if ps == [] then [] else CallFor(n, ps[0]) + CallsOf(n, ps[1..])
  }

  /** The handler calls that the complete frames of a buffer lead to, in order. */
  function Calls(valid: TextCheck, n: Nested, frames: seq<OpPacket>): seq<(Handler, Service.Packet)>
    requires AllInRange(frames)
  {
    if frames == [] then [] else CallsOf(n, Arrivals(valid, DeliverFrame(frames[0]))) + Calls(valid, n, frames[1..])
  }

  lemma {:induction false} CallsOfAppend(n: Nested, a: seq<Service.Packet>, b: seq<Service.Packet>)
    ensures CallsOf(n, a + b) == CallsOf(n, a) + CallsOf(n, b)
    decreases |a|
  {
    hide CallFor;
    if a == [] {
      assert a + b == b;
    } else {
      assert (a + b)[1..] == a[1..] + b;
      CallsOfAppend(n, a[1..], b);
    }
  }

  lemma NoCalls(valid: TextCheck, n: Nested)
    ensures Arrivals(valid, []) == [] && CallsOf(n, []) == []
  {}

  /** A packet is handed, unchanged, to the handler registered for its type and service; without one to none. */
  lemma CallsOfOne(n: Nested, p: Service.Packet)
    requires Tidy(n)
    ensures forall h, q :: CallsOf(n, [p]) == [(h, q)] <==>
                             && q == p && (p.meta.typ, p.meta.serviceId) in Flatten(n)
                             && Flatten(n)[(p.meta.typ, p.meta.serviceId)] == h
    ensures CallsOf(n, [p]) == [] <==> (p.meta.typ, p.meta.serviceId) !in Flatten(n)
  {
    hide Look, Flatten;
    DispatchIsFlat(n, p.meta);
    FlattenHas(n, p.meta.typ, p.meta.serviceId);
    assert [p][1..] == [] && CallsOf(n, []) == [];
    assert CallsOf(n, [p]) == CallFor(n, p);
    var key := (p.meta.typ, p.meta.serviceId);
    assert key in Flatten(n) ==> Look(n, p.meta) == Call(Flatten(n)[key]);
    assert Look(n, p.meta).Call? ==> Look(n, p.meta) == Call(Look(n, p.meta).handler);
  }

  /** Frame by frame or all together: the calls are those of the packets that arrive. */
  lemma {:induction false} CallsAreArrivals(valid: TextCheck, n: Nested, frames: seq<OpPacket>)
    requires AllInRange(frames)
    ensures Calls(valid, n, frames) == CallsOf(n, Arrivals(valid, Deliver(frames)))
    decreases |frames|
  {
    hide DeliverFrame, CallsOf, Arrivals;
    if frames == [] {
      assert Arrivals(valid, []) == [] && CallsOf(n, []) == [] by { NoCalls(valid, n); }
    } else {
      CallsAreArrivals(valid, n, frames[1..]);
      ArrivalsAppend(valid, DeliverFrame(frames[0]), Deliver(frames[1..]));
      CallsOfAppend(n, Arrivals(valid, DeliverFrame(frames[0])), Arrivals(valid, Deliver(frames[1..])));
    }
  }

  /** The meta as it is handed on. */
  method Snapshot(m: Messages.RpcMetaMessage) returns (value: RpcMeta)
    ensures value == m.Value()
  {
    var request: Option<Request> := None;
    if m.requestInfo != null {
      var r := m.requestInfo;
      request := Some(Request(r.intMethod, r.strMethod, r.expectResponse, r.sequenceId, r.timeout));
    }
    var response: Option<Response> := None;
    if m.responseInfo != null {
      var r := m.responseInfo;
      response := Some(Response(r.sequenceId, r.failed, r.errorCode, r.reason, r.timeout));
    }
    value := RpcMeta(m.typ, m.serviceId, m.encoding, request, response, m.metaData);
  }

  /**
    The handler of one outer frame; its boolean answer is not looked at by the parse loop. `done` is
    false for a frame that is not workable.
  */
  method HandleFrame(manager: RpcTypeHandleManager, valid: TextCheck, frame: OpPacket)
    returns (calls: seq<(Handler, Service.Packet)>, done: bool)
    ensures done == Workable(frame)
    ensures done <==> (frame.op == 1 ==>
                         && ParsePacket(frame.data) != OutOfRange
                         && (ParsePacket(frame.data).Packet? ==> |ParsePacket(frame.data).meta| < 0x8000_0000))
    ensures done ==> calls == CallsOf(manager.mTypeHandlers, Arrivals(valid, DeliverFrame(frame)))
  {
    hide ParseMeta, ParsePacket, Look;
    calls, done := [], true;
    if frame.op != OP_PROTOBUF {
      return;
    }
    var inner := ParseProtobufPacket(frame.data);
    if inner.TooShort? {
      return;
    }
    if inner.OutOfRange? || |inner.meta| >= TWO31 {
      return [], false;
    }
    var meta := new Messages.RpcMetaMessage();
    var ok := meta.InternalParse(valid, inner.meta);
    assert DeliverFrame(frame) == [(inner.meta, inner.body)];
    assert Arrivals(valid, [(inner.meta, inner.body)]) == Arrival(valid, (inner.meta, inner.body));
    if !ok {
      return;
    }
    ghost var packet := Service.Packet(meta.Value(), inner.body);
    assert Arrival(valid, (inner.meta, inner.body)) == [packet];
    var value := Snapshot(meta);
    var d := manager.HandleRpcMsg(value);
    assert CallsOf(manager.mTypeHandlers, [packet]) ==
           match Look(manager.mTypeHandlers, value) case Call(h) => [(h, packet)] case _ => [];
    if d.Call? {
      calls := [(d.handler, Service.Packet(value, inner.body))];
    }
  }

  lemma LeadingStep(frames: seq<OpPacket>, i: nat)
    requires i < |frames|
    ensures Leading(frames[i..]) == if Workable(frames[i]) then [frames[i]] + Leading(frames[i + 1..]) else []
  {}

  lemma {:induction false} LeadingAll(frames: seq<OpPacket>)
    requires AllWorkable(frames)
    ensures Leading(frames) == frames
  {}

  /** The frames of one read, handled in order up to the first one that is not workable. */
  method HandleFrames(manager: RpcTypeHandleManager, valid: TextCheck, frames: seq<OpPacket>)
    returns (calls: seq<(Handler, Service.Packet)>, done: bool)
    ensures done == AllWorkable(frames)
    ensures calls == Calls(valid, manager.mTypeHandlers, Leading(frames))
  {
    hide Arrivals, CallsOf, DeliverFrame, Workable, Leading;
    calls := [];
    assert frames[0..] == frames;
    var i := 0;
    while i < |frames|
      invariant 0 <= i <= |frames|
      invariant forall j :: 0 <= j < i ==> Workable(frames[j])
      invariant var n := manager.mTypeHandlers;
                calls + Calls(valid, n, Leading(frames[i..])) == Calls(valid, n, Leading(frames))
    {
      LeadingStep(frames, i);
      var more, handled := HandleFrame(manager, valid, frames[i]);
      if !handled {
        return calls, false;
      }
      assert ([frames[i]] + Leading(frames[i + 1..]))[1..] == Leading(frames[i + 1..]);
      calls := calls + more;
      i := i + 1;
    }
    assert frames[i..] == [];
    return calls, true;
  }

  /**
    Everything a read leads to: the calls of the complete frames, in order, and the bytes left for the
    next read. From the first frame on that is not workable, nothing is promised.
  */
  method BinaryPacketHandle(manager: RpcTypeHandleManager, valid: TextCheck, reader: BasePacketReader)
    returns (calls: seq<(Handler, Service.Packet)>, done: bool)
    requires reader.Valid() && reader.pos == reader.savedPos
    modifies reader
    ensures var p, n := Decode(reader.buffer[old(reader.pos)..]), manager.mTypeHandlers;
            && done == AllWorkable(p.frames)
            && calls == CallsOf(n, Arrivals(valid, Deliver(Leading(p.frames))))
            && (done ==> Leading(p.frames) == p.frames && reader.Valid() && reader.buffer[reader.savedPos..] == p.rest)
  {
    hide Decode, Arrivals, CallsOf, Calls, Deliver, DeliverFrame, Workable, Leading;
    var frames := ParseOpPacket(reader);
    calls, done := HandleFrames(manager, valid, frames);
    CallsAreArrivals(valid, manager.mTypeHandlers, Leading(frames));
    if done {
      LeadingAll(frames);
    }
  }
}
