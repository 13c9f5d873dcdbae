/**
  The two nested length-prefixed layers of the binary transport: the outer
  frame `[data_len | op | data]` and, for `op == 1`, the inner packet
  `[meta_size | data_size | meta | data]`, all in big-endian order.
*/
module Framing {
  import opened Bytes

  /** One outer frame as the handler sees it. */
  datatype OpPacket = OpPacket(op: uint32, data: ByteString)

  /** The complete frames at the front of a stream, and the bytes after the last of them. */
  datatype Parsed = Parsed(frames: seq<OpPacket>, rest: ByteString)

  const OP_HEADER := 12
  const OP_PROTOBUF: uint32 := 1

  function DataLen(b: ByteString): (n: uint64)
    requires |b| >= OP_HEADER
  {
    WordSizes();
    FromBigEndian(b[..8])
  }

  function Op(b: ByteString): (n: uint32)
    requires |b| >= OP_HEADER
  {
    WordSizes();
    FromBigEndian(b[8..12])
  }

  predicate Complete(b: ByteString) {
    |b| >= OP_HEADER && DataLen(b) <= |b| - OP_HEADER
  }

  /** Reference definition: split a byte stream into frames. */
  function Decode(b: ByteString): Parsed
    decreases |b|
  {
    if !Complete(b) then
      Parsed([], b)
    else
      var end := OP_HEADER + DataLen(b);
      var tail := Decode(b[end..]);
      Parsed([OpPacket(Op(b), b[OP_HEADER..end])] + tail.frames, tail.rest)
  }

  function EncodeFrame(p: OpPacket): ByteString
    requires |p.data| < TWO64
  {
    BigEndian(|p.data|, 8) + BigEndian(p.op, 4) + p.data
  }

  predicate Encodable(frames: seq<OpPacket>) {
    forall p :: p in frames ==> |p.data| < TWO64
  }

  function EncodeFrames(frames: seq<OpPacket>): ByteString
    requires Encodable(frames)
  {
    if frames == [] then [] else EncodeFrame(frames[0]) + EncodeFrames(frames[1..])
  }

  // ---------------------------------------------------------------- positions

  /** The digits of a number to the base 256, the high-order one first. */
  predicate Spells(digits: ByteString, v: nat) {
    forall i :: 0 <= i < |digits| ==> digits[i] == v / Pow256(|digits| - 1 - i) % 256
  }

  lemma BigEndianSpells(v: nat, k: nat)
    ensures Spells(BigEndian(v, k), v)
  {
    hide BigEndian;
    forall i | 0 <= i < k ensures BigEndian(v, k)[i] == v / Pow256(k - 1 - i) % 256 {
      BigEndianPlace(v, k, i);
    }
  }

  /** The outer frame: eight bytes of length, four of op, the data. */
  lemma FrameLayout(p: OpPacket)
    requires |p.data| < TWO64
    ensures var b := EncodeFrame(p);
            |b| == 12 + |p.data| && Spells(b[..8], |p.data|) && Spells(b[8..12], p.op) && b[12..] == p.data
  {
    hide BigEndian, Spells;
    BigEndianSpells(|p.data|, 8);
    BigEndianSpells(p.op, 4);
    assert EncodeFrame(p)[..8] == BigEndian(|p.data|, 8) && EncodeFrame(p)[8..12] == BigEndian(p.op, 4);
  }

  lemma {:induction false} ZerosAreZero(zeros: ByteString)
    requires forall i :: 0 <= i < |zeros| ==> zeros[i] == 0
    ensures FromBigEndian(zeros) == 0
  {
    if zeros != [] {
      ZerosAreZero(zeros[..|zeros| - 1]);
    }
  }

  /** Leading zeros do not count. */
  lemma {:induction false} SmallNumber(zeros: ByteString, v: Byte)
    requires forall i :: 0 <= i < |zeros| ==> zeros[i] == 0
    ensures FromBigEndian(zeros + [v]) == v
  {
    assert (zeros + [v])[..|zeros|] == zeros;
    ZerosAreZero(zeros);
  }

  /** Any twenty bytes behind the length 20 and the op 1 are handed on as one frame. */
  lemma TwentyBytes(data: ByteString)
    requires |data| == 20
    ensures Decode([0, 0, 0, 0, 0, 0, 0, 20, 0, 0, 0, 1] + data) == Parsed([OpPacket(1, data)], [])
  {
    var b := [0, 0, 0, 0, 0, 0, 0, 20, 0, 0, 0, 1] + data;
    SmallNumber([0, 0, 0, 0, 0, 0, 0], 20);
    SmallNumber([0, 0, 0], 1);
    assert b[..8] == [0, 0, 0, 0, 0, 0, 0] + [20] && b[8..12] == [0, 0, 0] + [1];
    assert b[12..32] == data && b[32..] == [];
  }

  // ---------------------------------------------------------------- outer layer

  lemma DecodeOneFrame(p: OpPacket, more: ByteString)
    requires |p.data| < TWO64
    ensures var tail := Decode(more);
            Decode(EncodeFrame(p) + more) == Parsed([p] + tail.frames, tail.rest)
  {
    hide BigEndian, FromBigEndian;
    WordSizes();
    BigEndianRead(|p.data|, 8);
    BigEndianRead(p.op, 4);
    var b := EncodeFrame(p) + more;
    assert b[..8] == BigEndian(|p.data|, 8);
    assert b[8..12] == BigEndian(p.op, 4);
    assert b[12..12 + |p.data|] == p.data;
    assert b[12 + |p.data|..] == more;
  }

  /** Whatever was encoded is decoded, frame by frame, before anything that follows. */
  lemma {:induction false} DecodeEncode(frames: seq<OpPacket>, more: ByteString)
    requires Encodable(frames)
    ensures var tail := Decode(more);
            Decode(EncodeFrames(frames) + more) == Parsed(frames + tail.frames, tail.rest)
  {
    hide BigEndian, FromBigEndian, Decode, EncodeFrame;
    if frames == [] {
      assert EncodeFrames(frames) + more == more;
    } else {
      var after := EncodeFrames(frames[1..]) + more;
      assert EncodeFrames(frames) + more == EncodeFrame(frames[0]) + after;
      DecodeOneFrame(frames[0], after);
      DecodeEncode(frames[1..], more);
    }
  }

  lemma ReencodeFrame(b: ByteString)
    requires Complete(b)
    ensures var end := OP_HEADER + DataLen(b);
            b == EncodeFrame(OpPacket(Op(b), b[OP_HEADER..end])) + b[end..]
  {
    hide BigEndian, FromBigEndian;
    BigEndianWrite(b[..8]);
    BigEndianWrite(b[8..12]);
  }

  /** Decoding loses no byte: the frames and the leftover re-encode to the input. */
  lemma {:induction false} DecodeConserves(b: ByteString)
    ensures Encodable(Decode(b).frames)
    ensures EncodeFrames(Decode(b).frames) + Decode(b).rest == b
    ensures !Complete(Decode(b).rest)
    decreases |b|
  {
    hide BigEndian, FromBigEndian, EncodeFrame;
    if Complete(b) {
      var end := OP_HEADER + DataLen(b);
      var p, tail := OpPacket(Op(b), b[OP_HEADER..end]), Decode(b[end..]);
      DecodeConserves(b[end..]);
      ReencodeFrame(b);
      assert ([p] + tail.frames)[1..] == tail.frames;
      Regroup(EncodeFrame(p), EncodeFrames(tail.frames), tail.rest);
    }
  }

  /** Resuming on the leftover bytes is the same as having seen all bytes at once. */
  lemma {:induction false} DecodeAppend(a: ByteString, b: ByteString)
    ensures var first := Decode(a);
            var second := Decode(first.rest + b);
            Decode(a + b) == Parsed(first.frames + second.frames, second.rest)
  {
    hide Decode, EncodeFrames, Complete;
    DecodeConserves(a);
    var first := Decode(a);
    assert a + b == EncodeFrames(first.frames) + (first.rest + b);
    DecodeEncode(first.frames, first.rest + b);
  }

  function Concat(chunks: seq<ByteString>): ByteString {
    if chunks == [] then [] else chunks[0] + Concat(chunks[1..])
  }

  /** Frames handled and bytes kept after the reads `chunks`, starting with `pending` kept. */
  function Feed(pending: ByteString, chunks: seq<ByteString>): Parsed
    decreases |chunks|
  {
    if chunks == [] then
      Parsed([], pending)
    else
      var first := Decode(pending + chunks[0]);
      var later := Feed(first.rest, chunks[1..]);
      Parsed(first.frames + later.frames, later.rest)
  }

  /** However the stream is cut into reads, the outcome is that of one pass. */
  lemma {:induction false} CutIndependence(pending: ByteString, chunks: seq<ByteString>)
    requires !Complete(pending)
    ensures Feed(pending, chunks) == Decode(pending + Concat(chunks))
    decreases |chunks|
  {
    if chunks == [] {
      assert pending + Concat(chunks) == pending;
    } else {
      var a, b := pending + chunks[0], Concat(chunks[1..]);
      assert pending + Concat(chunks) == a + b;
      DecodeAppend(a, b);
      DecodeConserves(a);
      CutIndependence(Decode(a).rest, chunks[1..]);
    }
  }

  // ---------------------------------------------------------------- inner layer

  /** Outcome of parsing a frame's data as an RPC packet. */
  datatype Inner =
    | TooShort                                    // the sizes do not fit: the parser answers false
    | OutOfRange                                  // the 64-bit sum of the sizes wrapped and the check passed
    | Packet(meta: ByteString, body: ByteString)

  const INNER_HEADER := 12

  /** The sizes an inner header announces. */
  function MetaSize(data: ByteString): (n: uint32)
    requires |data| >= INNER_HEADER
  {
    WordSizes();
    FromBigEndian(data[..4])
  }

  function DataSize(data: ByteString): (n: uint64)
    requires |data| >= INNER_HEADER
  {
    WordSizes();
    FromBigEndian(data[4..12])
  }

  function ParsePacket(data: ByteString): Inner {
    if |data| < INNER_HEADER then
      TooShort
    else
      var metaSize, dataSize := MetaSize(data), DataSize(data);
      var left := |data| - INNER_HEADER;
      if left < (metaSize + dataSize) % TWO64 then
        TooShort
      else if left < metaSize + dataSize then
        OutOfRange
      else
        Packet(data[12..12 + metaSize], data[12 + metaSize..12 + metaSize + dataSize])
  }

  /**
    The size check passes although the packet is longer than its frame exactly when the 64-bit sum of
    the two sizes wraps to a number of bytes that the frame has. A frame's length is a 64-bit field.
  */
  lemma OutOfRangeExactly(data: ByteString)
    requires |data| < TWO64
    ensures ParsePacket(data) == OutOfRange <==>
              && |data| >= INNER_HEADER
              && var sum := MetaSize(data) + DataSize(data);
                 TWO64 <= sum && sum - TWO64 <= |data| - INNER_HEADER
  {}

  /** Sizes 1 and 2^64 - 1 and nothing behind them. */
  function WrappedSizes(): ByteString {
    BigEndian(1, 4) + BigEndian(TWO64 - 1, 8)
  }

  /** The frame with these sizes passes the check, and its packet would be 2^64 bytes long. */
  lemma WrappedSizesPass()
    ensures |WrappedSizes()| == INNER_HEADER
    ensures MetaSize(WrappedSizes()) == 1 && DataSize(WrappedSizes()) == TWO64 - 1
    ensures ParsePacket(WrappedSizes()) == OutOfRange
  {
    hide BigEndian, FromBigEndian;
    WordSizes();
    BigEndianRead(1, 4);
    BigEndianRead(TWO64 - 1, 8);
    assert WrappedSizes()[..4] == BigEndian(1, 4) && WrappedSizes()[4..12] == BigEndian(TWO64 - 1, 8);
    OutOfRangeExactly(WrappedSizes());
  }

  /** The body of the frame written for one RPC message; the size of `meta` is cut to 32 bits. */
  function InnerBytes(meta: ByteString, body: ByteString): ByteString {
    BigEndian(|meta| % TWO32, 4) + BigEndian(|body|, 8) + meta + body
  }

  /** `std::string` sizes and their sum are 64-bit on the wire and in memory. */
  predicate InMemory(meta: ByteString, body: ByteString) {
    INNER_HEADER + |meta| + |body| < TWO64
  }

  function SerializePacket(meta: ByteString, body: ByteString): ByteString
    requires InMemory(meta, body)
  {
    EncodeFrame(OpPacket(OP_PROTOBUF, InnerBytes(meta, body)))
  }

  lemma OpOne(op: ByteString)
    requires |op| == 4 && Spells(op, 1)
    ensures op == [0, 0, 0, 1]
  {
    assert Pow256(1) == 256 && Pow256(2) == 0x1_0000 && Pow256(3) == 0x100_0000;
    hide Pow256;
    assert op[0] == 1 / 0x100_0000 % 256 == 0;
    assert op[1] == 1 / 0x1_0000 % 256 == 0;
    assert op[2] == 1 / 256 % 256 == 0;
  }

  /** The whole frame of an RPC message: length, op 1, the two sizes, meta and body. */
  lemma PacketLayout(meta: ByteString, body: ByteString)
    requires InMemory(meta, body)
    ensures var b := SerializePacket(meta, body);
            && |b| == 24 + |meta| + |body|
            && Spells(b[..8], 12 + |meta| + |body|) && b[8..12] == [0, 0, 0, 1]
            && Spells(b[12..16], |meta| % TWO32) && Spells(b[16..24], |body|)
            && b[24..24 + |meta|] == meta && b[24 + |meta|..] == body
  {
    hide BigEndian, Spells;
    var b, inner := SerializePacket(meta, body), InnerBytes(meta, body);
    FrameLayout(OpPacket(OP_PROTOBUF, inner));
    BigEndianSpells(|meta| % TWO32, 4);
    BigEndianSpells(|body|, 8);
    assert b[12..16] == inner[..4] == BigEndian(|meta| % TWO32, 4);
    assert b[16..24] == inner[4..12] == BigEndian(|body|, 8);
    assert b[24..24 + |meta|] == inner[12..12 + |meta|] == meta;
    assert b[24 + |meta|..] == inner[12 + |meta|..] == body;
    OpOne(b[8..12]);
  }

  lemma ParseInnerBytes(meta: ByteString, body: ByteString)
    requires InMemory(meta, body)
    ensures var k := |meta| % TWO32;
            ParsePacket(InnerBytes(meta, body)) == Packet(meta[..k], (meta + body)[k..k + |body|])
  {
    hide BigEndian, FromBigEndian;
    WordSizes();
    var k := |meta| % TWO32;
    BigEndianRead(k, 4);
    BigEndianRead(|body|, 8);
    var b := InnerBytes(meta, body);
    assert b[..4] == BigEndian(k, 4);
    assert b[4..12] == BigEndian(|body|, 8);
    assert b[12..12 + k] == meta[..k];
    assert b[12 + k..12 + k + |body|] == (meta + body)[k..k + |body|];
  }

  /** The inner layer gives back the packet exactly when the meta size fits its 32-bit field. */
  lemma InnerRoundTrip(meta: ByteString, body: ByteString)
    requires InMemory(meta, body)
    ensures ParsePacket(InnerBytes(meta, body)) == Packet(meta, body) <==> |meta| < TWO32
  {
    hide BigEndian, FromBigEndian;
    ParseInnerBytes(meta, body);
    if |meta| < TWO32 {
      assert meta[..|meta|] == meta;
      assert (meta + body)[|meta|..|meta| + |body|] == body;
    }
  }

  // ---------------------------------------------------------------- streams of packets

  /** Parsing this frame stays within its bytes. Nothing is said about what other frames lead to. */
  predicate InRange(p: OpPacket) {
    p.op == OP_PROTOBUF ==> ParsePacket(p.data) != OutOfRange
  }

  predicate AllInRange(frames: seq<OpPacket>) {
    forall i :: 0 <= i < |frames| ==> InRange(frames[i])
  }

  /** What reaches the RPC core from one frame: the handler's answer is ignored by the loop. */
  function DeliverFrame(p: OpPacket): seq<(ByteString, ByteString)>
    requires InRange(p)
  {
    if p.op != OP_PROTOBUF then []
    else match ParsePacket(p.data)
         case Packet(meta, body) => [(meta, body)]
         case TooShort => []
  }

  function Deliver(frames: seq<OpPacket>): seq<(ByteString, ByteString)>
    requires AllInRange(frames)
  {
    if frames == [] then [] else DeliverFrame(frames[0]) + Deliver(frames[1..])
  }

  /** A stream element: an RPC packet, or a complete frame the receiver skips. */
  datatype Item = Rpc(meta: ByteString, body: ByteString) | Noise(frame: OpPacket)

  predicate Sendable(x: Item) {
    match x
    case Rpc(meta, body) => |meta| < TWO32 && InMemory(meta, body)
    case Noise(frame) => |frame.data| < TWO64 && (frame.op == OP_PROTOBUF ==> ParsePacket(frame.data) == TooShort)
  }

  function EncodeItem(x: Item): ByteString
    requires Sendable(x)
  {
    match x
    case Rpc(meta, body) => SerializePacket(meta, body)
    case Noise(frame) => EncodeFrame(frame)
  }

  function EncodeItems(xs: seq<Item>): ByteString
    requires forall x :: x in xs ==> Sendable(x)
  {
    if xs == [] then [] else EncodeItem(xs[0]) + EncodeItems(xs[1..])
  }

  lemma {:induction false} EncodeItemsAppend(a: seq<Item>, b: seq<Item>)
    requires forall x :: x in a + b ==> Sendable(x)
    ensures (forall x :: x in a ==> Sendable(x)) && forall x :: x in b ==> Sendable(x)
    ensures EncodeItems(a + b) == EncodeItems(a) + EncodeItems(b)
    decreases |a|
  {
    hide Sendable, EncodeItem;
    assert forall x :: x in a || x in b ==> x in a + b;
    if a == [] {
      assert a + b == b;
    } else {
      assert (a + b)[1..] == a[1..] + b;
      EncodeItemsAppend(a[1..], b);
    }
  }

  function Rpcs(xs: seq<Item>): seq<(ByteString, ByteString)> {
    if xs == [] then []
    else (match xs[0] case Rpc(meta, body) => [(meta, body)] case Noise(_) => []) + Rpcs(xs[1..])
  }

  /** One pass over RPC packets mixed with skippable frames delivers the packets, in order, and keeps nothing. */
  lemma {:induction false} StreamDelivers(xs: seq<Item>)
    requires forall x :: x in xs ==> Sendable(x)
    ensures var p := Decode(EncodeItems(xs)); p.rest == [] && AllInRange(p.frames) && Deliver(p.frames) == Rpcs(xs)
  {
    hide BigEndian, FromBigEndian;
    if xs != [] {
      var frame := match xs[0] case Rpc(meta, body) => OpPacket(OP_PROTOBUF, InnerBytes(meta, body)) case Noise(f) => f;
      assert Sendable(xs[0]);
      if xs[0].Rpc? {
        InnerRoundTrip(xs[0].meta, xs[0].body);
      }
      StreamDelivers(xs[1..]);
      DecodeOneFrame(frame, EncodeItems(xs[1..]));
      var tail := Decode(EncodeItems(xs[1..])).frames;
      assert Decode(EncodeItems(xs)).frames == [frame] + tail && InRange(frame);
      assert ([frame] + tail)[1..] == tail;
    }
  }

  /** The same for any cut of the stream into reads: round trip and resynchronisation in one. */
  lemma ChunkedStreamDelivers(xs: seq<Item>, chunks: seq<ByteString>)
    requires forall x :: x in xs ==> Sendable(x)
    requires Concat(chunks) == EncodeItems(xs)
    ensures var p := Feed([], chunks); p.rest == [] && AllInRange(p.frames) && Deliver(p.frames) == Rpcs(xs)
  {
    CutIndependence([], chunks);
    assert [] + Concat(chunks) == Concat(chunks);
    StreamDelivers(xs);
  }

  lemma InRangeParts(a: seq<OpPacket>, b: seq<OpPacket>)
    requires AllInRange(a + b)
    ensures AllInRange(a) && AllInRange(b)
  {
    hide InRange;
    assert forall i :: 0 <= i < |a| ==> a[i] == (a + b)[i];
    assert forall i :: 0 <= i < |b| ==> b[i] == (a + b)[|a| + i];
  }

  lemma {:induction false} DeliverAppend(a: seq<OpPacket>, b: seq<OpPacket>)
    requires AllInRange(a + b)
    ensures AllInRange(a) && AllInRange(b) && Deliver(a + b) == Deliver(a) + Deliver(b)
    decreases |a|
  {
    hide DeliverFrame, InRange, AllInRange;
    InRangeParts(a, b);
    if a == [] {
      assert a + b == b;
    } else {
      assert a + b == [a[0]] + (a[1..] + b);
      InRangeParts([a[0]], a[1..] + b);
      assert (a + b)[1..] == a[1..] + b;
      DeliverAppend(a[1..], b);
    }
  }

  /** Before the whole stream was read: what was delivered so far is the beginning of what was sent. */
  lemma StreamPrefix(xs: seq<Item>, chunks: seq<ByteString>, unread: ByteString)
    requires forall x :: x in xs ==> Sendable(x)
    requires Concat(chunks) + unread == EncodeItems(xs)
    ensures var p := Feed([], chunks); AllInRange(p.frames) && Deliver(p.frames) <= Rpcs(xs)
  {
    hide Decode, Deliver, AllInRange;
    var soFar := Decode(Concat(chunks));
    CutIndependence([], chunks);
    assert [] + Concat(chunks) == Concat(chunks);
    DecodeAppend(Concat(chunks), unread);
    StreamDelivers(xs);
    DeliverAppend(soFar.frames, Decode(soFar.rest + unread).frames);
  }

  // ---------------------------------------------------------------- the code

  /** The cursor over received bytes that the parsers use. */
  class BasePacketReader {
    const buffer: ByteString
    var pos: nat
    var savedPos: nat

    ghost predicate Valid()
      reads this
    {
      savedPos <= pos <= |buffer|
    }

    constructor (buffer: ByteString)
      ensures Valid() && this.buffer == buffer && pos == savedPos == 0
    {
      this.buffer := buffer;
      pos, savedPos := 0, 0;
    }

    predicate Enough(n: nat)
      requires Valid()
      reads this
    {
      n <= |buffer| - pos
    }

    method ReadUINT32() returns (v: uint32)
      requires Valid() && Enough(4)
      modifies this`pos
      ensures Valid() && pos == old(pos) + 4 && v == FromBigEndian(buffer[old(pos)..pos])
    {
      WordSizes();
      v := FromBigEndian(buffer[pos..pos + 4]);
      pos := pos + 4;
    }

    method ReadUINT64() returns (v: uint64)
      requires Valid() && Enough(8)
      modifies this`pos
      ensures Valid() && pos == old(pos) + 8 && v == FromBigEndian(buffer[old(pos)..pos])
    {
      WordSizes();
      v := FromBigEndian(buffer[pos..pos + 8]);
      pos := pos + 8;
    }

    method AddPos(n: nat)
      requires Valid() && Enough(n)
      modifies this`pos
      ensures Valid() && pos == old(pos) + n
    {
      pos := pos + n;
    }

    method SavePos()
      requires Valid()
      modifies this`savedPos
      ensures Valid() && savedPos == pos
    {
      savedPos := pos;
    }
  }

  /** Appends to a growing packet buffer. */
  class BasePacketWriter {
    var data: ByteString

    constructor ()
      ensures data == []
    {
      data := [];
    }

    method WriteUINT32(v: nat)
      modifies this
      ensures data == old(data) + BigEndian(v % TWO32, 4)
    {
      data := data + BigEndian(v % TWO32, 4);
    }

    method WriteUINT64(v: nat)
      modifies this
      ensures data == old(data) + BigEndian(v % TWO64, 8)
    {
      data := data + BigEndian(v % TWO64, 8);
    }

    method WriteBinary(b: ByteString)
      modifies this
      ensures data == old(data) + b
    {
      data := data + b;
    }
  }

  method SerializeProtobufPacket(bpw: BasePacketWriter, meta: ByteString, body: ByteString)
    requires InMemory(meta, body)
    modifies bpw
    ensures bpw.data == old(bpw.data) + SerializePacket(meta, body)
  {
    hide BigEndian, FromBigEndian;
    var bodyLen := INNER_HEADER + |meta| + |body|;
    bpw.WriteUINT64(bodyLen);
    bpw.WriteUINT32(OP_PROTOBUF);
    bpw.WriteUINT32(|meta|);
    bpw.WriteUINT64(|body|);
    bpw.WriteBinary(meta);
    bpw.WriteBinary(body);
    assert bpw.data == old(bpw.data) + (BigEndian(bodyLen, 8) + BigEndian(OP_PROTOBUF, 4)
                                        + (BigEndian(|meta| % TWO32, 4) + BigEndian(|body|, 8) + meta + body));
  }

  /** One step of the reference decoder, in terms of positions in a buffer. */
  lemma DecodeAt(buffer: ByteString, pos: nat)
    requires pos <= |buffer|
    ensures var b := buffer[pos..];
            if pos + OP_HEADER > |buffer| then Decode(b) == Parsed([], b)
            else
              var len := FromBigEndian(buffer[pos..pos + 8]);
              var start := pos + OP_HEADER;
              if start + len > |buffer| then Decode(b) == Parsed([], b)
              else
                var op, tail := FromBigEndian(buffer[pos + 8..start]), Decode(buffer[start + len..]);
                op < TWO32 && Decode(b) == Parsed([OpPacket(op, buffer[start..start + len])] + tail.frames, tail.rest)
  {
    hide FromBigEndian;
    var b := buffer[pos..];
    if |b| >= OP_HEADER {
      assert buffer[pos..pos + 8] == b[..8] && buffer[pos + 8..pos + 12] == b[8..12];
      var len := DataLen(b);
      if Complete(b) {
        assert buffer[pos + 12..pos + 12 + len] == b[12..12 + len];
        assert buffer[pos + 12 + len..] == b[12 + len..];
        assert Op(b) < TWO32;
      }
    }
  }

  /**
    The outer parse loop. `handled` lists the frames given to the handler, in order. Bytes of an
    incomplete frame stay after `savedPos`, even when its header was already read.
  */
  method ParseOpPacket(reader: BasePacketReader) returns (handled: seq<OpPacket>)
    requires reader.Valid() && reader.pos == reader.savedPos
    modifies reader
    ensures reader.Valid()
    ensures var p := Decode(reader.buffer[old(reader.pos)..]);
            handled == p.frames && reader.buffer[reader.savedPos..] == p.rest
  {
    hide BigEndian, FromBigEndian, Decode;
    handled := [];
    ghost var all := Decode(reader.buffer[reader.pos..]);
    while reader.Enough(8 + 4)
      invariant reader.Valid() && reader.pos == reader.savedPos
      invariant var p := Decode(reader.buffer[reader.pos..]);
                all == Parsed(handled + p.frames, p.rest)
      decreases |reader.buffer| - reader.savedPos
    {
      DecodeAt(reader.buffer, reader.pos);
      var dataLen := reader.ReadUINT64();
      var op := reader.ReadUINT32();
      if !reader.Enough(dataLen) {
        break;
      }
      var data := reader.buffer[reader.pos..reader.pos + dataLen];
      handled := handled + [OpPacket(op, data)];
      reader.AddPos(dataLen);
      reader.SavePos();
    }
    DecodeAt(reader.buffer, reader.savedPos);
  }

  /** The inner parser; the 64-bit sum of the two sizes is taken before it is compared. */
  method ParseProtobufPacket(data: ByteString) returns (r: Inner)
    ensures r == ParsePacket(data)
  {
    var bpr := new BasePacketReader(data);
    if !bpr.Enough(4 + 8) {
      return TooShort;
    }
    var metaSize := bpr.ReadUINT32();
    var dataSize := bpr.ReadUINT64();
    if !bpr.Enough((metaSize + dataSize) % TWO64) {
      return TooShort;
    }
    if !bpr.Enough(metaSize + dataSize) {
      return OutOfRange;
    }
    var meta := data[bpr.pos..bpr.pos + metaSize];
    bpr.AddPos(metaSize);
    var body := data[bpr.pos..bpr.pos + dataSize];
    bpr.AddPos(dataSize);
    return Packet(meta, body);
  }

  /**
    The receiving end of a connection: each read is appended to the bytes kept so far, parsed, and
    the bytes up to `savedPos` are discarded.
  */
  class Connection {
    var kept: ByteString
    var handled: seq<OpPacket>
    ghost var received: ByteString

    /** The frames handled and the bytes kept are those of one pass over all bytes received. */
    ghost predicate Valid()
      reads this
    {
      Decode(received) == Parsed(handled, kept)
    }

    constructor ()
      ensures Valid() && received == []
    {
      kept, handled, received := [], [], [];
    }

    method OnData(chunk: ByteString)
      requires Valid()
      modifies this
      ensures Valid() && received == old(received) + chunk
    {
      hide Decode, BigEndian, FromBigEndian;
      DecodeAppend(received, chunk);
      var reader := new BasePacketReader(kept + chunk);
      assert reader.buffer[0..] == kept + chunk;
      var frames := ParseOpPacket(reader);
      handled := handled + frames;
      kept := reader.buffer[reader.savedPos..];
      received := received + chunk;
    }
  }
}
