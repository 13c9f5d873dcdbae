/**
  Runs of the two endpoints driven by bytes. Each endpoint reads the peer's byte stream in pieces of any
  size, parses what is complete, and its registry hands one packet after the other to the request stub or
  the client, while other threads go on.
*/
module ByteRuns {
  import opened Bytes
  import opened Framing
  import opened Meta
  import opened Stack
  import opened EndToEnd
  import Service
  import Registry
  import P = Protocol
  import C = Client
  import R = ClientRuns

  // ---------------------------------------------------------------- dispatch

  const REQUEST_STUB: Registry.Handler := 0
  const RESPONSE_STUB: Registry.Handler := 1

  /** What an endpoint registers: a service and a client of the same id. */
  function Table(service: uint32): Registry.Nested {
    map[REQUEST := map[service := REQUEST_STUB], RESPONSE := map[service := RESPONSE_STUB]]
  }

  /** The stub the packet is handed to; it is the peer's message `i` (history). */
  ghost function Handed(e: P.Endpoint, h: Registry.Handler, p: Service.Packet, i: nat, chain: Service.ChainResult):
    P.Endpoint
  {
    if h == RESPONSE_STUB then P.AfterResponse(e, p, i) else P.AfterRequest(e, p, i, chain)
  }

  /** The handler calls that a packet leads to in the receiving code, if any. */
  ghost function Dispatched(e: P.Endpoint, p: Service.Packet, i: nat, chain: Service.ChainResult): P.Endpoint {
    var calls := CallsOf(Table(e.service), [p]);
    if calls == [] then e else Handed(e, calls[0].0, calls[0].1, i, chain)
  }

  lemma TableCalls(service: uint32, p: Service.Packet)
    ensures CallsOf(Table(service), [p]) ==
            if p.meta.serviceId != service then []
            else if p.meta.typ == REQUEST then [(REQUEST_STUB, p)]
            else if p.meta.typ == RESPONSE then [(RESPONSE_STUB, p)]
            else []
  {
    hide CallsOf;
    assert service in Table(service)[REQUEST] && service in Table(service)[RESPONSE];
    CallsOfOne(Table(service), p);
    Registry.FlattenHas(Table(service), p.meta.typ, p.meta.serviceId);
  }

  /** Dispatch through the registry is the step of the endpoint that receives the packet. */
  lemma DispatchIsReceive(e: P.Endpoint, sent: seq<P.Envelope>, i: nat, chain: Service.ChainResult)
    requires i < |sent|
    ensures Dispatched(e, sent[i].packet, i, chain) == P.Take(e, sent, P.Receive(i, chain))
  {
    hide P.AfterRequest, P.AfterResponse, CallsOf;
    TableCalls(e.service, sent[i].packet);
  }

  /**
    A scheduled notice goes through the registry: it is the step in which the client of service 0 times
    the call out, and no step of the client of another service.
  */
  lemma NoticeIsDispatched(e: P.Endpoint, id: uint64, chain: Service.ChainResult)
    requires id in e.sys.armed
    ensures Dispatched(e, Service.Packet(Registry.TimeoutNotice(id), []), 0, chain)
         == P.AfterLocal(e, R.CauseTimeout(id))
  {
    hide CallsOf;
    TableCalls(e.service, Service.Packet(Registry.TimeoutNotice(id), []));
  }

  // ---------------------------------------------------------------- states

  datatype Side = Side(
    end: P.Endpoint,
    read: nat,                      // bytes of the peer's stream read so far
    kept: ByteString,               // bytes of a frame that is not complete
    inbox: seq<Service.Packet>,     // packets parsed and not handed on yet
    handled: nat)                   // history: packets handed on

  datatype ByteStep =
    | Do(step: P.Step)                       // anything but receiving
    | Read(n: nat)                           // the next `n` bytes arrive
    | Handle(chain: Service.ChainResult)     // the next packet is handed on

  /** All bytes an endpoint has given to the transport. */
  function Stream(sent: seq<P.Envelope>): ByteString {
    if AllCarriable(Sending(sent)) then EncodeTraffic(Sending(sent)) else []
  }

  function AfterRead(valid: TextCheck, s: Side, peerSent: seq<P.Envelope>, n: nat): Side {
    if s.read + n > |Stream(peerSent)| then s
    else
      var p := Decode(s.kept + Stream(peerSent)[s.read..s.read + n]);
      s.(read := s.read + n, kept := p.rest, inbox := s.inbox + Arrivals(valid, Deliver(Leading(p.frames))))
  }

  /** Where the k-th of the packets with acceptable texts stands among all packets. */
  function Position(valid: TextCheck, ps: seq<Service.Packet>, k: nat): nat {
    if ps == [] then 0
    else if TextOk(valid, ps[0].meta) then (if k == 0 then 0 else 1 + Position(valid, ps[1..], k - 1))
    else 1 + Position(valid, ps[1..], k)
  }

  lemma {:induction false} PositionHits(valid: TextCheck, ps: seq<Service.Packet>, k: nat)
    requires k < |Legible(valid, ps)|
    ensures var i := Position(valid, ps, k);
            i < |ps| && ps[i] == Legible(valid, ps)[k] && TextOk(valid, ps[i].meta)
    decreases |ps|
  {
    hide TextOk;
    if TextOk(valid, ps[0].meta) {
      if k > 0 {
        PositionHits(valid, ps[1..], k - 1);
      }
    } else {
      PositionHits(valid, ps[1..], k);
    }
  }

  /** No message is handed on twice, and none before an earlier one. */
  lemma {:induction false} PositionGrows(valid: TextCheck, ps: seq<Service.Packet>, k: nat)
    requires k + 1 < |Legible(valid, ps)|
    ensures Position(valid, ps, k) < Position(valid, ps, k + 1)
    decreases |ps|
  {
    hide TextOk;
    if TextOk(valid, ps[0].meta) {
      if k > 0 {
        PositionGrows(valid, ps[1..], k - 1);
      }
    } else {
      PositionGrows(valid, ps[1..], k);
    }
  }

  ghost function AfterHandle(valid: TextCheck, s: Side, peerSent: seq<P.Envelope>, chain: Service.ChainResult): Side {
    if s.inbox == [] then s
    else s.(end := Dispatched(s.end, s.inbox[0], Position(valid, PacketsOf(peerSent), s.handled), chain),
            inbox := s.inbox[1..], handled := s.handled + 1)
  }

  ghost function Stepped(valid: TextCheck, s: Side, peerSent: seq<P.Envelope>, step: ByteStep): Side {
    match step
    case Do(own) => if own.Receive? then s else s.(end := P.Take(s.end, [], own))
    case Read(n) => AfterRead(valid, s, peerSent, n)
    case Handle(chain) => AfterHandle(valid, s, peerSent, chain)
  }

  datatype Wires = Wires(a: Side, b: Side)

  datatype ByteMove = ByteMove(end: P.End, step: ByteStep)

  function SideAt(w: Wires, end: P.End): Side {
    if end == P.A then w.a else w.b
  }

  /** The two endpoints, without the transport. */
  function Ends(w: Wires): P.World {
    P.World(w.a.end, w.b.end)
  }

  ghost function NextBytes(valid: TextCheck, w: Wires, m: ByteMove): Wires {
    if m.end == P.A then w.(a := Stepped(valid, w.a, w.b.end.sent, m.step))
    else w.(b := Stepped(valid, w.b, w.a.end.sent, m.step))
  }

  ghost function PlayBytes(valid: TextCheck, w: Wires, moves: seq<ByteMove>): Wires
    decreases |moves|
  {
    if moves == [] then w else PlayBytes(valid, NextBytes(valid, w, moves[0]), moves[1..])
  }

  function Begin(service: uint32): Wires {
    var side := Side(P.Idle(service), 0, [], [], 0);
    Wires(side, side)
  }

  // ---------------------------------------------------------------- what every read and every packet keeps

  predicate InboxOk(s: Side, arrived: seq<Service.Packet>, legible: seq<Service.Packet>) {
    arrived <= legible && s.handled <= |arrived| && s.inbox == arrived[s.handled..]
  }

  /**
    What was read is a part of the peer's stream; its packets are the first of those the peer sent whose
    texts pass the check; the ones not handed on yet are in the inbox.
  */
  predicate SideOk(valid: TextCheck, s: Side, peerSent: seq<P.Envelope>) {
    && AllCarriable(Sending(peerSent))
    && s.read <= |Stream(peerSent)|
    && var p := Decode(Stream(peerSent)[..s.read]);
       && AllInRange(p.frames) && AllWorkable(p.frames) && p.rest == s.kept
       && InboxOk(s, Arrivals(valid, Deliver(p.frames)), Legible(valid, PacketsOf(peerSent)))
  }

  /** The k-th packet in the inbox is a message the peer sent, and which one. */
  lemma InboxIsSent(valid: TextCheck, s: Side, peerSent: seq<P.Envelope>, k: nat)
    requires SideOk(valid, s, peerSent) && k < |s.inbox|
    ensures var i := Position(valid, PacketsOf(peerSent), s.handled + k);
            i < |peerSent| && s.inbox[k] == peerSent[i].packet && TextOk(valid, peerSent[i].packet.meta)
  {
    hide Decode, Deliver, Arrivals, Legible, TextOk, Stream, AllCarriable, AllWorkable, AllInRange;
    PositionHits(valid, PacketsOf(peerSent), s.handled + k);
  }

  lemma ReadPrefix(valid: TextCheck, sent: seq<P.Envelope>, n: nat)
    requires AllCarriable(Sending(sent)) && n <= |Stream(sent)|
    ensures var p := Decode(Stream(sent)[..n]);
            && AllInRange(p.frames) && AllWorkable(p.frames)
            && Arrivals(valid, Deliver(p.frames)) <= Legible(valid, PacketsOf(sent))
  {
    hide Decode, Deliver, Arrivals, Legible, AllCarriable, AllWorkable, AllInRange, EncodeTraffic, Packets;
    var some, unread := Stream(sent)[..n], Stream(sent)[n..];
    assert [some] == [some] + [] && Concat([some]) == some + [] == some;
    assert some + unread == Stream(sent);
    CutIndependence([], [some]) by { assert !Complete([]); }
    assert [] + Concat([some]) == some;
    WireCarriesPrefix(valid, Sending(sent), [some], unread);
    PacketsOfSending(sent);
  }

  lemma WorkablePart(a: seq<OpPacket>, b: seq<OpPacket>)
    requires AllWorkable(a + b)
    ensures AllWorkable(b)
  {
    hide Workable;
    assert forall i :: 0 <= i < |b| ==> b[i] == (a + b)[|a| + i];
  }

  lemma ReadKeeps(valid: TextCheck, s: Side, peerSent: seq<P.Envelope>, n: nat)
    requires SideOk(valid, s, peerSent)
    ensures SideOk(valid, AfterRead(valid, s, peerSent, n), peerSent)
  {
    hide Decode, Deliver, Arrivals, Legible, AllCarriable, AllWorkable, AllInRange, Stream, Leading;
    var all := Stream(peerSent);
    if s.read + n <= |all| {
      var before, chunk := all[..s.read], all[s.read..s.read + n];
      assert before + chunk == all[..s.read + n];
      DecodeAppend(before, chunk);
      ReadPrefix(valid, peerSent, s.read + n);
      var first, second := Decode(before), Decode(s.kept + chunk);
      WorkablePart(first.frames, second.frames);
      LeadingAll(second.frames);
      DeliverAppend(first.frames, second.frames);
      ArrivalsAppend(valid, Deliver(first.frames), Deliver(second.frames));
    }
  }

  lemma HandleKeeps(valid: TextCheck, s: Side, peerSent: seq<P.Envelope>, chain: Service.ChainResult)
    requires SideOk(valid, s, peerSent)
    ensures SideOk(valid, AfterHandle(valid, s, peerSent, chain), peerSent)
  {}

  lemma SendingAppend(a: seq<P.Envelope>, b: seq<P.Envelope>)
    ensures Sending(a + b) == Sending(a) + Sending(b) && PacketsOf(a + b) == PacketsOf(a) + PacketsOf(b)
    ensures Items(Sending(a + b)) == Items(Sending(a)) + Items(Sending(b))
  {}

  lemma StreamGrows(a: seq<P.Envelope>, b: seq<P.Envelope>)
    requires AllCarriable(Sending(a + b))
    ensures AllCarriable(Sending(a)) && Stream(a) <= Stream(a + b)
  {
    hide Carriable, ItemFor;
    SendingAppend(a, b);
    assert forall i :: 0 <= i < |a| ==> Sending(a)[i] == Sending(a + b)[i];
    SendableItems(Sending(a + b));
    EncodeItemsAppend(Items(Sending(a)), Items(Sending(b)));
  }

  /** The peer sending more changes nothing of this. */
  lemma SideStable(valid: TextCheck, s: Side, peerSent: seq<P.Envelope>, more: seq<P.Envelope>)
    requires SideOk(valid, s, peerSent) && AllCarriable(Sending(peerSent + more))
    ensures SideOk(valid, s, peerSent + more)
  {
    hide Decode, Deliver, Arrivals, Legible, AllCarriable, AllWorkable, AllInRange, Stream;
    StreamGrows(peerSent, more);
    SendingAppend(peerSent, more);
    LegibleAppend(valid, PacketsOf(peerSent), PacketsOf(more));
    assert Stream(peerSent + more)[..s.read] == Stream(peerSent)[..s.read];
  }

  // ---------------------------------------------------------------- byte-driven runs are runs of the protocol

  function MoveAt(end: P.End, step: P.Step): P.Move {
    if end == P.A then P.MoveA(step) else P.MoveB(step)
  }

  /** The step of the protocol that a byte-driven step is, if any. */
  function StepsOf(valid: TextCheck, s: Side, peerSent: seq<P.Envelope>, step: ByteStep): seq<P.Step> {
    match step
    case Do(own) => if own.Receive? then [] else [own]
    case Read(_) => []
    case Handle(chain) =>
      if s.inbox == [] then [] else [P.Receive(Position(valid, PacketsOf(peerSent), s.handled), chain)]
  }

  lemma StepIsStep(valid: TextCheck, s: Side, peerSent: seq<P.Envelope>, step: ByteStep)
    requires SideOk(valid, s, peerSent)
    ensures var steps := StepsOf(valid, s, peerSent, step);
            && |steps| <= 1
            && Stepped(valid, s, peerSent, step).end == if steps == [] then s.end else P.Take(s.end, peerSent, steps[0])
  {
    hide SideOk, Position, Dispatched, P.AfterReceive;
    if step.Handle? && s.inbox != [] {
      InboxIsSent(valid, s, peerSent, 0);
      DispatchIsReceive(s.end, peerSent, Position(valid, PacketsOf(peerSent), s.handled), step.chain);
    }
  }

  ghost predicate WiresOk(valid: TextCheck, w: Wires) {
    && SideOk(valid, w.a, w.b.end.sent) && SideOk(valid, w.b, w.a.end.sent)
    && AllShaped(w.a.end.sent) && AllShaped(w.b.end.sent)
  }

  ghost predicate Sizes(w: Wires) {
    AllReasonable(w.a.end.sent) && AllReasonable(w.b.end.sent)
  }

  function PeerOf(w: Wires, end: P.End): Side {
    SideAt(w, P.Other(end))
  }

  lemma SideIgnoresEnd(valid: TextCheck, s: Side, peerSent: seq<P.Envelope>, e: P.Endpoint)
    requires SideOk(valid, s, peerSent)
    ensures SideOk(valid, s.(end := e), peerSent)
  {}

  /** What the moving side keeps, and what it sends. */
  lemma StepKeeps(valid: TextCheck, s: Side, peerSent: seq<P.Envelope>, step: ByteStep)
    requires SideOk(valid, s, peerSent) && AllShaped(s.end.sent)
    ensures var s' := Stepped(valid, s, peerSent, step);
            SideOk(valid, s', peerSent) && AllShaped(s'.end.sent) && s.end.sent <= s'.end.sent
  {
    hide SideOk, AllShaped, P.Take, AfterRead, AfterHandle;
    StepIsStep(valid, s, peerSent, step);
    var steps := StepsOf(valid, s, peerSent, step);
    if steps != [] {
      P.SentGrows(s.end, peerSent, steps[0]);
      TakeShapes(s.end, peerSent, steps[0]);
    }
    match step
    case Do(own) => SideIgnoresEnd(valid, s, peerSent, P.Take(s.end, [], own));
    case Read(n) => ReadKeeps(valid, s, peerSent, n);
    case Handle(chain) => HandleKeeps(valid, s, peerSent, chain);
  }

  lemma NextOk(valid: TextCheck, w: Wires, m: ByteMove)
    requires WiresOk(valid, w) && Sizes(NextBytes(valid, w, m))
    ensures WiresOk(valid, NextBytes(valid, w, m))
    ensures w.a.end.sent <= NextBytes(valid, w, m).a.end.sent && w.b.end.sent <= NextBytes(valid, w, m).b.end.sent
  {
    hide SideOk, AllShaped, AllReasonable, Stepped;
    var w', s, p := NextBytes(valid, w, m), SideAt(w, m.end), PeerOf(w, m.end);
    StepKeeps(valid, s, p.end.sent, m.step);
    var sent, sent' := s.end.sent, SideAt(w', m.end).end.sent;
    assert sent' == sent + sent'[|sent|..];
    SendingCarriable(sent');
    SideStable(valid, p, sent, sent'[|sent|..]);
  }

  function FirstMoves(valid: TextCheck, w: Wires, m: ByteMove): seq<P.Move> {
    var steps := StepsOf(valid, SideAt(w, m.end), PeerOf(w, m.end).end.sent, m.step);
    if steps == [] then [] else [MoveAt(m.end, steps[0])]
  }

  /** The moves of the protocol that a byte-driven run makes. */
  ghost function MovesOf(valid: TextCheck, w: Wires, moves: seq<ByteMove>): seq<P.Move>
    decreases |moves|
  {
    if moves == [] then []
    else FirstMoves(valid, w, moves[0]) + MovesOf(valid, NextBytes(valid, w, moves[0]), moves[1..])
  }

  /** A request is handed on to a chain that acts within the policy. */
  predicate ChainAllowed(s: Side, step: ByteStep, policy: P.Policy) {
    step.Handle? && s.inbox != [] && s.inbox[0].meta.typ == REQUEST ==> policy(s.inbox[0], step.chain)
  }

  ghost predicate BytesFollow(valid: TextCheck, w: Wires, moves: seq<ByteMove>, policy: P.Policy)
    decreases |moves|
  {
    moves != [] ==>
      && ChainAllowed(SideAt(w, moves[0].end), moves[0].step, policy)
      && BytesFollow(valid, NextBytes(valid, w, moves[0]), moves[1..], policy)
  }

  lemma FirstIsMove(valid: TextCheck, w: Wires, m: ByteMove, policy: P.Policy)
    requires WiresOk(valid, w) && ChainAllowed(SideAt(w, m.end), m.step, policy)
    ensures P.Play(Ends(w), FirstMoves(valid, w, m)) == Ends(NextBytes(valid, w, m))
    ensures P.Follows(Ends(w), FirstMoves(valid, w, m), policy)
  {
    hide SideOk, AllShaped, Stepped, P.Take, Position;
    var s, peerSent := SideAt(w, m.end), PeerOf(w, m.end).end.sent;
    StepIsStep(valid, s, peerSent, m.step);
    var steps := StepsOf(valid, s, peerSent, m.step);
    if steps != [] {
      P.PlayOne(Ends(w), MoveAt(m.end, steps[0]), policy);
      if m.step.Handle? {
        InboxIsSent(valid, s, peerSent, 0);
      }
    }
  }

  lemma SizesBefore(valid: TextCheck, w: Wires, moves: seq<ByteMove>)
    requires Sizes(PlayBytes(valid, w, moves))
    requires w.a.end.sent <= PlayBytes(valid, w, moves).a.end.sent
    requires w.b.end.sent <= PlayBytes(valid, w, moves).b.end.sent
    ensures Sizes(w)
  {}

  lemma StepGrows(valid: TextCheck, s: Side, peerSent: seq<P.Envelope>, step: ByteStep)
    ensures s.end.sent <= Stepped(valid, s, peerSent, step).end.sent
  {}

  /** Sent messages stay sent. */
  lemma {:induction false} BytesGrow(valid: TextCheck, w: Wires, moves: seq<ByteMove>)
    ensures w.a.end.sent <= PlayBytes(valid, w, moves).a.end.sent
    ensures w.b.end.sent <= PlayBytes(valid, w, moves).b.end.sent
    decreases |moves|
  {
    hide Stepped;
    if moves != [] {
      var m := moves[0];
      StepGrows(valid, SideAt(w, m.end), PeerOf(w, m.end).end.sent, m.step);
      BytesGrow(valid, NextBytes(valid, w, m), moves[1..]);
    }
  }

  /** Every byte-driven run is a run of the protocol, within the same policy. */
  lemma {:induction false} ByteRunIsRun(valid: TextCheck, w: Wires, moves: seq<ByteMove>, policy: P.Policy)
    requires WiresOk(valid, w) && Sizes(PlayBytes(valid, w, moves)) && BytesFollow(valid, w, moves, policy)
    ensures P.Play(Ends(w), MovesOf(valid, w, moves)) == Ends(PlayBytes(valid, w, moves))
    ensures P.Follows(Ends(w), MovesOf(valid, w, moves), policy)
    ensures WiresOk(valid, PlayBytes(valid, w, moves))
    decreases |moves|
  {
    hide WiresOk, Sizes, NextBytes, FirstMoves, ChainAllowed, P.Next, P.Allowed;
    if moves != [] {
      var w1 := NextBytes(valid, w, moves[0]);
      BytesGrow(valid, w1, moves[1..]);
      SizesBefore(valid, w1, moves[1..]);
      NextOk(valid, w, moves[0]);
      FirstIsMove(valid, w, moves[0], policy);
      ByteRunIsRun(valid, w1, moves[1..], policy);
      P.PlayAppend(Ends(w), FirstMoves(valid, w, moves[0]), MovesOf(valid, w1, moves[1..]), policy);
    }
  }

  lemma BeginOk(valid: TextCheck, service: uint32)
    ensures WiresOk(valid, Begin(service)) && Ends(Begin(service)) == P.Start(service)
  {}

  /**
    Callbacks are matched to their own requests in every run driven by bytes, cut anywhere, whose chains
    let no error report go astray; and no handler is lost when timeout callbacks return.
  */
  lemma ByteRunsMatch(valid: TextCheck, service: uint32, moves: seq<ByteMove>, policy: P.Policy)
    requires P.Sound(policy, service) && BytesFollow(valid, Begin(service), moves, policy)
    requires Sizes(PlayBytes(valid, Begin(service), moves))
    requires P.WithinCounters(Ends(PlayBytes(valid, Begin(service), moves)))
    ensures var w := Ends(PlayBytes(valid, Begin(service), moves));
            P.GoesWell(MovesOf(valid, Begin(service), moves), w)
  {
    hide WiresOk, Sizes, PlayBytes, BytesFollow, MovesOf, P.Play, P.Follows, P.Sound, P.AllMatched, P.NothingLost,
         P.ReturningMoves;
    BeginOk(valid, service);
    ByteRunIsRun(valid, Begin(service), moves, policy);
    var made := MovesOf(valid, Begin(service), moves);
    P.SoundMatches(service, made, policy);
    if P.ReturningMoves(made) {
      P.ReturningLosesNothing(service, made, policy);
    }
  }

  // ---------------------------------------------------------------- answers that cannot be read

  /** Every response that took a call has texts that pass the caller's check. */
  predicate LegibleLog(valid: TextCheck, log: seq<R.Taken>, peerSent: seq<P.Envelope>) {
    forall k :: 0 <= k < |log| && log[k].how.ByResponse? ==>
      log[k].how.msg < |peerSent| && TextOk(valid, peerSent[log[k].how.msg].packet.meta)
  }

  lemma LegibleGrows(valid: TextCheck, log: seq<R.Taken>, peerSent: seq<P.Envelope>, more: seq<P.Envelope>)
    requires LegibleLog(valid, log, peerSent)
    ensures LegibleLog(valid, log, peerSent + more)
  {}

  lemma TakeLegible(valid: TextCheck, e: P.Endpoint, peerSent: seq<P.Envelope>, step: P.Step)
    requires LegibleLog(valid, e.sys.log, peerSent)
    requires step.Receive? && step.i < |peerSent| ==> TextOk(valid, peerSent[step.i].packet.meta)
    ensures LegibleLog(valid, P.Take(e, peerSent, step).sys.log, peerSent)
  {}

  lemma StepLegible(valid: TextCheck, s: Side, peerSent: seq<P.Envelope>, step: ByteStep)
    requires SideOk(valid, s, peerSent) && LegibleLog(valid, s.end.sys.log, peerSent)
    ensures LegibleLog(valid, Stepped(valid, s, peerSent, step).end.sys.log, peerSent)
  {
    hide SideOk, LegibleLog, TextOk, Stepped, P.Take, Position;
    StepIsStep(valid, s, peerSent, step);
    var steps := StepsOf(valid, s, peerSent, step);
    if steps != [] {
      if step.Handle? {
        InboxIsSent(valid, s, peerSent, 0);
      }
      TakeLegible(valid, s.end, peerSent, steps[0]);
    }
  }

  ghost predicate BothLegible(valid: TextCheck, w: Wires) {
    && LegibleLog(valid, w.a.end.sys.log, w.b.end.sent)
    && LegibleLog(valid, w.b.end.sys.log, w.a.end.sent)
  }

  lemma NextLegible(valid: TextCheck, w: Wires, m: ByteMove)
    requires WiresOk(valid, w) && Sizes(NextBytes(valid, w, m)) && BothLegible(valid, w)
    ensures BothLegible(valid, NextBytes(valid, w, m))
  {
    hide SideOk, AllShaped, AllReasonable, Stepped, LegibleLog;
    var w', s, p := NextBytes(valid, w, m), SideAt(w, m.end), PeerOf(w, m.end);
    StepLegible(valid, s, p.end.sent, m.step);
    StepGrows(valid, s, p.end.sent, m.step);
    var sent, sent' := s.end.sent, SideAt(w', m.end).end.sent;
    assert sent' == sent + sent'[|sent|..];
    LegibleGrows(valid, p.end.sys.log, sent, sent'[|sent|..]);
  }

  /**
    An answer whose reason the caller's check refuses takes no call: in every byte-driven run the call
    stays pending until a timeout or another answer takes it.
  */
  lemma {:induction false} OnlyLegibleTake(valid: TextCheck, w: Wires, moves: seq<ByteMove>)
    requires WiresOk(valid, w) && BothLegible(valid, w) && Sizes(PlayBytes(valid, w, moves))
    ensures BothLegible(valid, PlayBytes(valid, w, moves))
    decreases |moves|
  {
    hide WiresOk, BothLegible, Sizes, NextBytes;
    if moves != [] {
      var w1 := NextBytes(valid, w, moves[0]);
      BytesGrow(valid, w1, moves[1..]);
      SizesBefore(valid, w1, moves[1..]);
      NextOk(valid, w, moves[0]);
      NextLegible(valid, w, moves[0]);
      OnlyLegibleTake(valid, w1, moves[1..]);
    }
  }
}
