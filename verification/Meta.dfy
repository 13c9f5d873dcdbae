/**
  The RpcMeta message as a value: what its generated serializer writes, what its parser makes of
  any bytes, and how two messages merge. `valid` stands for the library's UTF-8 check.
*/
module Meta {
  import opened Bytes
  import opened Wire

  datatype Request = Request(intMethod: uint64, strMethod: ByteString, expectResponse: bool,
                             sequenceId: uint64, timeout: uint64)

  datatype Response = Response(sequenceId: uint64, failed: bool, errorCode: int32,
                               reason: ByteString, timeout: bool)

  /** The map field of a message: texts by name. */
  type Annotations = map<ByteString, ByteString>

  /** Enumerations are open: any 32-bit value may arrive. */
  datatype RpcMeta = RpcMeta(typ: int32, serviceId: uint32, encoding: int32,
                             requestInfo: Option<Request>, responseInfo: Option<Response>,
                             metaData: Annotations)

  const REQUEST: int32 := 0
  const RESPONSE: int32 := 1
  const BINARY: int32 := 0
  const JSON: int32 := 1

  const NO_REQUEST := Request(0, [], false, 0, 0)
  const NO_RESPONSE := Response(0, false, 0, [], false)
  const NO_META := RpcMeta(0, 0, 0, None, None, map[])

  type TextCheck = ByteString -> bool

  /** Reading an absent sub-message gives the default one. */
  function RequestOf(m: RpcMeta): Request {
    if m.requestInfo.Some? then m.requestInfo.value else NO_REQUEST
  }

  function ResponseOf(m: RpcMeta): Response {
    if m.responseInfo.Some? then m.responseInfo.value else NO_RESPONSE
  }

  /** The meta of a request as the calling side builds it. */
  function RequestMeta(id: uint64, serviceId: uint32, msgId: uint64, encoding: int32, expectResponse: bool,
                       timeout: uint64): RpcMeta
  {
    RpcMeta(REQUEST, serviceId, encoding, Some(Request(msgId, [], expectResponse, id, timeout)), None, map[])
  }

  // ---------------------------------------------------------------- scalars

  function Bit(b: bool): uint64 {
    if b then 1 else 0
  }

  /** A negative 32-bit number goes on the wire sign-extended to 64 bits. */
  function SignExtend(v: int32): uint64 {
    if v < 0 then v + TWO64 else v
  }

  function Truncate32(v: uint64): int32 {
    var low := v % TWO32;
    if low >= TWO31 then low - TWO32 else low
  }

  lemma TruncateSignExtend(v: int32)
    ensures Truncate32(SignExtend(v)) == v
    ensures SignExtend(v) == 0 <==> v == 0
  {}

  /** The number on the wire is the sign-extended one, and its low 32 bits are those of the number cut from it. */
  lemma SameBits(v: int32, w: uint64)
    ensures (SignExtend(v) - v) % TWO64 == 0
    ensures (Truncate32(w) - w) % TWO32 == 0
  {}

  /** A 64-bit number as a signed one. */
  function Signed(u: uint64): int64 {
    if u >= TWO63 then u - TWO64 else u
  }

  lemma {:induction false} Pow128Grows(a: nat, b: nat)
    ensures a <= b ==> Pow128(a) <= Pow128(b)
    decreases b
  {
    if a < b {
      Pow128Grows(a, b - 1);
    }
  }

  lemma TenBytes(u: uint64)
    requires u >= TWO63
    ensures |Varint(u)| == 10
  {
    VarintLength(u);
    assert Pow128(9) == TWO63 by {
      assert Pow128(5) == 0x8_0000_0000;
      assert Pow128(9) == 128 * (128 * (128 * (128 * Pow128(5))));
    }
    Pow128Grows(|Varint(u)|, 9);
    Pow128Grows(10, |Varint(u)| - 1);
    assert Pow128(10) == 128 * Pow128(9);
  }

  /** A negative number takes ten bytes after its tag, and read back as a signed 64-bit number it is itself. */
  lemma NegativeTakesTenBytes(num: nat, v: int32, more: ByteString)
    requires 0 < num < 16
    ensures v < 0 ==> |EncodeField(VarintField(num, SignExtend(v)))| == 1 + 10
    ensures var read := ReadVarint(Varint(SignExtend(v)) + more);
            read.Some? && read.value.1 == more && Signed(read.value.0) == v
  {
    hide ReadVarint, Varint;
    VarintRoundTrip(SignExtend(v), more);
    if v < 0 {
      TenBytes(SignExtend(v));
    }
  }

  function VarintUnlessZero(num: nat, v: uint64): seq<Field> {
    if v != 0 then [VarintField(num, v)] else []
  }

  function RecordUnlessEmpty(num: nat, b: ByteString): seq<Field> {
    if b != [] then [RecordField(num, b)] else []
  }

  // ---------------------------------------------------------------- fields in wire order

  function RequestFields(r: Request): (fs: seq<Field>)
    ensures AllTagged(fs)
  {
    VarintUnlessZero(1, r.intMethod) + RecordUnlessEmpty(2, r.strMethod)
    + VarintUnlessZero(3, Bit(r.expectResponse)) + VarintUnlessZero(4, r.sequenceId)
    + VarintUnlessZero(5, r.timeout)
  }

  function ResponseFields(r: Response): (fs: seq<Field>)
    ensures AllTagged(fs)
  {
    VarintUnlessZero(1, r.sequenceId) + VarintUnlessZero(2, Bit(r.failed))
    + VarintUnlessZero(3, SignExtend(r.errorCode)) + RecordUnlessEmpty(4, r.reason)
    + VarintUnlessZero(5, Bit(r.timeout))
  }

  function SerializeRequest(r: Request): ByteString {
    EncodeFields(RequestFields(r))
  }

  function RequestRecord(m: RpcMeta): (fs: seq<Field>)
    ensures AllTagged(fs)
  {
    if m.requestInfo.Some? then [RecordField(4, SerializeRequest(m.requestInfo.value))] else []
  }

  function SerializeResponse(r: Response): ByteString {
    EncodeFields(ResponseFields(r))
  }

  function ResponseRecord(m: RpcMeta): (fs: seq<Field>)
    ensures AllTagged(fs)
  {
    if m.responseInfo.Some? then [RecordField(5, SerializeResponse(m.responseInfo.value))] else []
  }

  /** One annotation; on the wire a message of its own, with the key as field 1 and the value as field 2. */
  datatype Entry = Entry(key: ByteString, value: ByteString)

  function EntryFields(e: Entry): (fs: seq<Field>)
    ensures AllTagged(fs)
  {
    [RecordField(1, e.key), RecordField(2, e.value)]
  }

  function SerializeEntry(e: Entry): ByteString {
    EncodeFields(EntryFields(e))
  }

  predicate Distinct(order: seq<ByteString>) {
    forall i, j :: 0 <= i < j < |order| ==> order[i] != order[j]
  }

  /** `order` visits every entry of the map once. The serializer may use any order. */
  predicate Lists(order: seq<ByteString>, data: Annotations) {
    Distinct(order) && data.Keys == set k | k in order
  }

  function EntryAt(data: Annotations, key: ByteString): Entry {
    Entry(key, if key in data then data[key] else [])
  }

  function EntryRecords(order: seq<ByteString>, data: Annotations): (fs: seq<Field>)
    ensures AllTagged(fs)
  {
    if order == [] then []
    else [RecordField(6, SerializeEntry(EntryAt(data, order[0])))] + EntryRecords(order[1..], data)
  }

  function ScalarFields(m: RpcMeta): (fs: seq<Field>)
    ensures AllTagged(fs)
  {
    VarintUnlessZero(1, SignExtend(m.typ)) + VarintUnlessZero(2, m.serviceId)
    + VarintUnlessZero(3, SignExtend(m.encoding))
  }

  function FixedFields(m: RpcMeta): (fs: seq<Field>)
    ensures AllTagged(fs)
  {
    ScalarFields(m) + RequestRecord(m) + ResponseRecord(m)
  }

  function MetaFields(m: RpcMeta, order: seq<ByteString>): (fs: seq<Field>)
    ensures AllTagged(fs)
  {
    FixedFields(m) + EntryRecords(order, m.metaData)
  }

  /** The serialization that visits the annotations in this order. */
  function Serialize(m: RpcMeta, order: seq<ByteString>): ByteString {
    EncodeFields(MetaFields(m, order))
  }

  // ---------------------------------------------------------------- the bytes written

  /** A varint field with this tag byte, left out when zero. */
  function TaggedNumber(tag: Byte, v: uint64): ByteString {
    if v == 0 then [] else [tag] + Varint(v)
  }

  function TaggedBytes(tag: Byte, b: ByteString): ByteString {
    [tag] + Varint(|b|) + b
  }

  lemma OneField(f: Field)
    requires Tagged(f)
    ensures EncodeFields([f]) == EncodeField(f)
  {
    assert [f][1..] == [];
  }

  lemma NumberBytes(num: nat, v: uint64)
    requires 0 < num < 16
    ensures AllTagged(VarintUnlessZero(num, v)) && EncodeFields(VarintUnlessZero(num, v)) == TaggedNumber(8 * num, v)
  {
    if v != 0 {
      OneField(VarintField(num, v));
    }
  }

  lemma RecordFieldBytes(num: nat, b: ByteString)
    requires 0 < num < 16
    ensures EncodeFields([RecordField(num, b)]) == TaggedBytes(8 * num + 2, b)
  {
    OneField(RecordField(num, b));
  }

  lemma TextBytes(num: nat, b: ByteString)
    requires 0 < num < 16
    ensures AllTagged(RecordUnlessEmpty(num, b))
    ensures EncodeFields(RecordUnlessEmpty(num, b)) == if b == [] then [] else TaggedBytes(8 * num + 2, b)
    ensures EncodeFields([RecordField(num, b)]) == TaggedBytes(8 * num + 2, b)
  {
    hide TaggedBytes, EncodeField;
    RecordFieldBytes(num, b);
  }

  lemma FiveParts(a: seq<Field>, b: seq<Field>, c: seq<Field>, d: seq<Field>, e: seq<Field>)
    requires AllTagged(a) && AllTagged(b) && AllTagged(c) && AllTagged(d) && AllTagged(e)
    ensures AllTagged(a + b + c + d + e)
    ensures EncodeFields(a + b + c + d + e)
         == EncodeFields(a) + EncodeFields(b) + EncodeFields(c) + EncodeFields(d) + EncodeFields(e)
  {
    hide EncodeFields;
    EncodeFieldsAppend(a, b);
    EncodeFieldsAppend(a + b, c);
    EncodeFieldsAppend(a + b + c, d);
    EncodeFieldsAppend(a + b + c + d, e);
  }

  /** A request, byte by byte. */
  lemma RequestBytes(r: Request)
    ensures SerializeRequest(r)
         == TaggedNumber(0x08, r.intMethod)
            + (if r.strMethod == [] then [] else TaggedBytes(0x12, r.strMethod))
            + TaggedNumber(0x18, if r.expectResponse then 1 else 0)
            + TaggedNumber(0x20, r.sequenceId)
            + TaggedNumber(0x28, r.timeout)
  {
    hide EncodeFields, VarintUnlessZero, RecordUnlessEmpty, TaggedNumber, TaggedBytes;
    NumberBytes(1, r.intMethod);
    TextBytes(2, r.strMethod);
    NumberBytes(3, Bit(r.expectResponse));
    NumberBytes(4, r.sequenceId);
    NumberBytes(5, r.timeout);
    FiveParts(VarintUnlessZero(1, r.intMethod), RecordUnlessEmpty(2, r.strMethod),
              VarintUnlessZero(3, Bit(r.expectResponse)), VarintUnlessZero(4, r.sequenceId),
              VarintUnlessZero(5, r.timeout));
  }

  lemma ResponseBytes(r: Response)
    ensures SerializeResponse(r)
         == TaggedNumber(0x08, r.sequenceId)
            + TaggedNumber(0x10, if r.failed then 1 else 0)
            + TaggedNumber(0x18, SignExtend(r.errorCode))
            + (if r.reason == [] then [] else TaggedBytes(0x22, r.reason))
            + TaggedNumber(0x28, if r.timeout then 1 else 0)
  {
    hide EncodeFields, VarintUnlessZero, RecordUnlessEmpty, TaggedNumber, TaggedBytes;
    NumberBytes(1, r.sequenceId);
    NumberBytes(2, Bit(r.failed));
    NumberBytes(3, SignExtend(r.errorCode));
    TextBytes(4, r.reason);
    NumberBytes(5, Bit(r.timeout));
    FiveParts(VarintUnlessZero(1, r.sequenceId), VarintUnlessZero(2, Bit(r.failed)),
              VarintUnlessZero(3, SignExtend(r.errorCode)), RecordUnlessEmpty(4, r.reason),
              VarintUnlessZero(5, Bit(r.timeout)));
  }

  /** The annotations, each with its key and its value. */
  function EntryBytes(order: seq<ByteString>, data: Annotations): ByteString {
    if order == [] then []
    else
      var e := EntryAt(data, order[0]);
      TaggedBytes(0x32, TaggedBytes(0x0A, e.key) + TaggedBytes(0x12, e.value)) + EntryBytes(order[1..], data)
  }

  lemma OneEntry(e: Entry)
    ensures SerializeEntry(e) == TaggedBytes(0x0A, e.key) + TaggedBytes(0x12, e.value)
  {
    hide EncodeFields;
    TextBytes(1, e.key);
    TextBytes(2, e.value);
    assert EntryFields(e) == [RecordField(1, e.key)] + [RecordField(2, e.value)];
    EncodeFieldsAppend([RecordField(1, e.key)], [RecordField(2, e.value)]);
  }

  lemma {:induction false} EntriesBytes(order: seq<ByteString>, data: Annotations)
    ensures EncodeFields(EntryRecords(order, data)) == EntryBytes(order, data)
    decreases |order|
  {
    hide SerializeEntry, EncodeField, TaggedBytes;
    if order != [] {
      var e := EntryAt(data, order[0]);
      OneEntry(e);
      TextBytes(6, SerializeEntry(e));
      EntriesBytes(order[1..], data);
      EncodeFieldsAppend([RecordField(6, SerializeEntry(e))], EntryRecords(order[1..], data));
    }
  }

  lemma RecordBytes(m: RpcMeta)
    ensures EncodeFields(RequestRecord(m))
         == if m.requestInfo.Some? then TaggedBytes(0x22, SerializeRequest(m.requestInfo.value)) else []
    ensures EncodeFields(ResponseRecord(m))
         == if m.responseInfo.Some? then TaggedBytes(0x2A, SerializeResponse(m.responseInfo.value)) else []
  {
    hide SerializeRequest, SerializeResponse, TaggedBytes;
    if m.requestInfo.Some? {
      TextBytes(4, SerializeRequest(m.requestInfo.value));
    }
    if m.responseInfo.Some? {
      TextBytes(5, SerializeResponse(m.responseInfo.value));
    }
  }

  /** A whole message: type, service, encoding, the two sub-messages, the annotations. */
  lemma MetaBytes(m: RpcMeta, order: seq<ByteString>)
    ensures Serialize(m, order)
         == TaggedNumber(0x08, SignExtend(m.typ))
            + TaggedNumber(0x10, m.serviceId)
            + TaggedNumber(0x18, SignExtend(m.encoding))
            + (if m.requestInfo.Some? then TaggedBytes(0x22, SerializeRequest(m.requestInfo.value)) else [])
            + (if m.responseInfo.Some? then TaggedBytes(0x2A, SerializeResponse(m.responseInfo.value)) else [])
            + EntryBytes(order, m.metaData)
  {
    hide EncodeFields, VarintUnlessZero, TaggedNumber, TaggedBytes, SerializeRequest, SerializeResponse, EntryBytes,
         EntryRecords, SignExtend;
    NumberBytes(1, SignExtend(m.typ));
    NumberBytes(2, m.serviceId);
    NumberBytes(3, SignExtend(m.encoding));
    RecordBytes(m);
    FiveParts(VarintUnlessZero(1, SignExtend(m.typ)), VarintUnlessZero(2, m.serviceId),
              VarintUnlessZero(3, SignExtend(m.encoding)), RequestRecord(m), ResponseRecord(m));
    EntriesBytes(order, m.metaData);
    EncodeFieldsAppend(FixedFields(m), EntryRecords(order, m.metaData));
  }

  // ---------------------------------------------------------------- parsing

  function ApplyRequest(valid: TextCheck, r: Request, f: Field): Option<Request> {
    match f
    case VarintField(1, v) => Some(r.(intMethod := v))
    case RecordField(2, b) => if valid(b) then Some(r.(strMethod := b)) else None
    case VarintField(3, v) => Some(r.(expectResponse := v != 0))
    case VarintField(4, v) => Some(r.(sequenceId := v))
    case VarintField(5, v) => Some(r.(timeout := v))
    case _ => Some(r)
  }

  function ApplyResponse(valid: TextCheck, r: Response, f: Field): Option<Response> {
    match f
    case VarintField(1, v) => Some(r.(sequenceId := v))
    case VarintField(2, v) => Some(r.(failed := v != 0))
    case VarintField(3, v) => Some(r.(errorCode := Truncate32(v)))
    case RecordField(4, b) => if valid(b) then Some(r.(reason := b)) else None
    case VarintField(5, v) => Some(r.(timeout := v != 0))
    case _ => Some(r)
  }

  function ApplyEntry(valid: TextCheck, e: Entry, f: Field): Option<Entry> {
    match f
    case RecordField(1, b) => if valid(b) then Some(e.(key := b)) else None
    case RecordField(2, b) => if valid(b) then Some(e.(value := b)) else None
    case _ => Some(e)
  }

  function EntryRule(valid: TextCheck): (Entry, Field) -> Option<Entry> {
    (e, f) => ApplyEntry(valid, e, f)
  }

  /** An entry whose key or value is missing has the empty one. */
  function ParseEntry(valid: TextCheck, b: ByteString): Option<Entry> {
    Parse(EntryRule(valid), Entry([], []), b)
  }

  function RequestRule(valid: TextCheck): (Request, Field) -> Option<Request> {
    (r, f) => ApplyRequest(valid, r, f)
  }

  function ResponseRule(valid: TextCheck): (Response, Field) -> Option<Response> {
    (r, f) => ApplyResponse(valid, r, f)
  }

  function ParseRequest(valid: TextCheck, r: Request, b: ByteString): Option<Request> {
    Parse(RequestRule(valid), r, b)
  }

  function ParseResponse(valid: TextCheck, r: Response, b: ByteString): Option<Response> {
    Parse(ResponseRule(valid), r, b)
  }

  function ApplyMeta(valid: TextCheck, m: RpcMeta, f: Field): Option<RpcMeta> {
    match f
    case VarintField(1, v) => Some(m.(typ := Truncate32(v)))
    case VarintField(2, v) => Some(m.(serviceId := v % TWO32))
    case VarintField(3, v) => Some(m.(encoding := Truncate32(v)))
    case RecordField(4, b) =>
      (match ParseRequest(valid, RequestOf(m), b)
       case None => None
       case Some(r) => Some(m.(requestInfo := Some(r))))
    case RecordField(5, b) =>
      (match ParseResponse(valid, ResponseOf(m), b)
       case None => None
       case Some(r) => Some(m.(responseInfo := Some(r))))
    case RecordField(6, b) =>
      (match ParseEntry(valid, b)
       case None => None
       case Some(e) => Some(m.(metaData := m.metaData[e.key := e.value])))
    case _ => Some(m)
  }

  function MetaRule(valid: TextCheck): (RpcMeta, Field) -> Option<RpcMeta> {
    (m, f) => ApplyMeta(valid, m, f)
  }

  /** What the parser makes of `b`, starting from the message `m`; None when it refuses the bytes. */
  function ParseMeta(valid: TextCheck, m: RpcMeta, b: ByteString): Option<RpcMeta> {
    Parse(MetaRule(valid), m, b)
  }

  // ---------------------------------------------------------------- merging

  /** A field of `from` that is zero or empty leaves the field of `to` as it is. */
  function MergeRequest(to: Request, from: Request): Request {
    Request(if from.intMethod != 0 then from.intMethod else to.intMethod,
            if from.strMethod != [] then from.strMethod else to.strMethod,
            from.expectResponse || to.expectResponse,
            if from.sequenceId != 0 then from.sequenceId else to.sequenceId,
            if from.timeout != 0 then from.timeout else to.timeout)
  }

  function MergeResponse(to: Response, from: Response): Response {
    Response(if from.sequenceId != 0 then from.sequenceId else to.sequenceId,
             from.failed || to.failed,
             if from.errorCode != 0 then from.errorCode else to.errorCode,
             if from.reason != [] then from.reason else to.reason,
             from.timeout || to.timeout)
  }

  function Merge(to: RpcMeta, from: RpcMeta): RpcMeta {
    RpcMeta(if from.typ != 0 then from.typ else to.typ,
            if from.serviceId != 0 then from.serviceId else to.serviceId,
            if from.encoding != 0 then from.encoding else to.encoding,
            if from.requestInfo.Some? then Some(MergeRequest(RequestOf(to), from.requestInfo.value))
            else to.requestInfo,
            if from.responseInfo.Some? then Some(MergeResponse(ResponseOf(to), from.responseInfo.value))
            else to.responseInfo,
            to.metaData + from.metaData)
  }

  // ---------------------------------------------------------------- theorems

  predicate RequestText(valid: TextCheck, r: Request) {
    r.strMethod == [] || valid(r.strMethod)
  }

  predicate ResponseText(valid: TextCheck, r: Response) {
    r.reason == [] || valid(r.reason)
  }

  /** Keys and values are checked even when they are empty, because both are always written. */
  predicate EntryTexts(valid: TextCheck, data: Annotations) {
    forall k :: k in data ==> valid(k) && valid(data[k])
  }

  /** Every text of the message passes the library's check. */
  predicate TextOk(valid: TextCheck, m: RpcMeta) {
    && (m.requestInfo.Some? ==> RequestText(valid, m.requestInfo.value))
    && (m.responseInfo.Some? ==> ResponseText(valid, m.responseInfo.value))
    && EntryTexts(valid, m.metaData)
  }

  lemma {:induction false} SmallIsWritable(fs: seq<Field>)
    requires AllTagged(fs) && |EncodeFields(fs)| < TWO31
    ensures AllWritable(fs)
  {
    if fs != [] {
      SmallIsWritable(fs[1..]);
      assert Writable(fs[0]);
      forall i | 0 <= i < |fs| ensures Writable(fs[i]) {
        assert i > 0 ==> fs[i] == fs[1..][i - 1];
      }
    }
  }

  function Then<M>(apply: (M, Field) -> Option<M>, r: Option<M>, fs: seq<Field>): Option<M> {
    match r case None => None case Some(m) => ApplyAll(apply, m, fs)
  }

  lemma ApplyFive<M>(apply: (M, Field) -> Option<M>, m: M,
                     a: seq<Field>, b: seq<Field>, c: seq<Field>, d: seq<Field>, e: seq<Field>)
    ensures ApplyAll(apply, m, a + b + c + d + e)
         == Then(apply, Then(apply, Then(apply, Then(apply, ApplyAll(apply, m, a), b), c), d), e)
  {
    hide ApplyAll;
    ApplyAllAppend(apply, m, a + b + c + d, e);
    ApplyAllAppend(apply, m, a + b + c, d);
    ApplyAllAppend(apply, m, a + b, c);
    ApplyAllAppend(apply, m, a, b);
  }

  lemma ApplyVarint<M>(apply: (M, Field) -> Option<M>, m: M, num: nat, v: uint64)
    ensures ApplyAll(apply, m, VarintUnlessZero(num, v)) == if v != 0 then apply(m, VarintField(num, v)) else Some(m)
  {}

  lemma ApplyRecord<M>(apply: (M, Field) -> Option<M>, m: M, num: nat, b: ByteString)
    ensures ApplyAll(apply, m, RecordUnlessEmpty(num, b)) == if b != [] then apply(m, RecordField(num, b)) else Some(m)
  {}

  lemma ApplyRequestFields(valid: TextCheck, to: Request, from: Request)
    ensures ApplyAll(RequestRule(valid), to, RequestFields(from))
         == if RequestText(valid, from) then Some(MergeRequest(to, from)) else None
  {
    hide ApplyAll, VarintUnlessZero, RecordUnlessEmpty;
    var rule, goal := RequestRule(valid), MergeRequest(to, from);
    ApplyFive(rule, to, VarintUnlessZero(1, from.intMethod), RecordUnlessEmpty(2, from.strMethod),
              VarintUnlessZero(3, Bit(from.expectResponse)), VarintUnlessZero(4, from.sequenceId),
              VarintUnlessZero(5, from.timeout));
    var m1 := to.(intMethod := goal.intMethod);
    var m2 := m1.(strMethod := goal.strMethod);
    var m3 := m2.(expectResponse := goal.expectResponse);
    var m4 := m3.(sequenceId := goal.sequenceId);
    ApplyVarint(rule, to, 1, from.intMethod);
    ApplyRecord(rule, m1, 2, from.strMethod);
    ApplyVarint(rule, m2, 3, Bit(from.expectResponse));
    ApplyVarint(rule, m3, 4, from.sequenceId);
    ApplyVarint(rule, m4, 5, from.timeout);
  }

  lemma ApplyResponseFields(valid: TextCheck, to: Response, from: Response)
    ensures ApplyAll(ResponseRule(valid), to, ResponseFields(from))
         == if ResponseText(valid, from) then Some(MergeResponse(to, from)) else None
  {
    hide ApplyAll, VarintUnlessZero, RecordUnlessEmpty, SignExtend, Truncate32;
    var rule, goal := ResponseRule(valid), MergeResponse(to, from);
    TruncateSignExtend(from.errorCode);
    ApplyFive(rule, to, VarintUnlessZero(1, from.sequenceId), VarintUnlessZero(2, Bit(from.failed)),
              VarintUnlessZero(3, SignExtend(from.errorCode)), RecordUnlessEmpty(4, from.reason),
              VarintUnlessZero(5, Bit(from.timeout)));
    var m1 := to.(sequenceId := goal.sequenceId);
    var m2 := m1.(failed := goal.failed);
    var m3 := m2.(errorCode := goal.errorCode);
    var m4 := m3.(reason := goal.reason);
    ApplyVarint(rule, to, 1, from.sequenceId);
    ApplyVarint(rule, m1, 2, Bit(from.failed));
    ApplyVarint(rule, m2, 3, SignExtend(from.errorCode));
    ApplyRecord(rule, m3, 4, from.reason);
    ApplyVarint(rule, m4, 5, Bit(from.timeout));
  }

  lemma ParseRequestMerges(valid: TextCheck, to: Request, from: Request)
    requires |SerializeRequest(from)| < TWO31
    ensures ParseRequest(valid, to, SerializeRequest(from))
         == if RequestText(valid, from) then Some(MergeRequest(to, from)) else None
  {
    SmallIsWritable(RequestFields(from));
    ParseEncoded(RequestRule(valid), to, RequestFields(from));
    ApplyRequestFields(valid, to, from);
  }

  lemma ParseResponseMerges(valid: TextCheck, to: Response, from: Response)
    requires |SerializeResponse(from)| < TWO31
    ensures ParseResponse(valid, to, SerializeResponse(from))
         == if ResponseText(valid, from) then Some(MergeResponse(to, from)) else None
  {
    SmallIsWritable(ResponseFields(from));
    ParseEncoded(ResponseRule(valid), to, ResponseFields(from));
    ApplyResponseFields(valid, to, from);
  }

  lemma ApplyRequestRecord(valid: TextCheck, to: RpcMeta, from: RpcMeta)
    requires AllWritable(RequestRecord(from))
    ensures ApplyAll(MetaRule(valid), to, RequestRecord(from))
         == if from.requestInfo.Some? && !RequestText(valid, from.requestInfo.value) then None
            else Some(to.(requestInfo := Merge(to, from).requestInfo))
  {
    hide SerializeRequest, ParseRequest;
    if from.requestInfo.Some? {
      assert Writable(RequestRecord(from)[0]);
      ParseRequestMerges(valid, RequestOf(to), from.requestInfo.value);
    }
  }

  lemma ApplyResponseRecord(valid: TextCheck, to: RpcMeta, from: RpcMeta)
    requires AllWritable(ResponseRecord(from))
    ensures ApplyAll(MetaRule(valid), to, ResponseRecord(from))
         == if from.responseInfo.Some? && !ResponseText(valid, from.responseInfo.value) then None
            else Some(to.(responseInfo := Merge(to, from).responseInfo))
  {
    hide SerializeResponse, ParseResponse;
    if from.responseInfo.Some? {
      assert Writable(ResponseRecord(from)[0]);
      ParseResponseMerges(valid, ResponseOf(to), from.responseInfo.value);
    }
  }

  lemma WritableParts(a: seq<Field>, b: seq<Field>)
    requires AllWritable(a + b)
    ensures AllWritable(a) && AllWritable(b)
  {
    assert forall i :: 0 <= i < |a| ==> a[i] == (a + b)[i];
    assert forall i :: 0 <= i < |b| ==> b[i] == (a + b)[|a| + i];
  }

  lemma ApplyOne<M>(apply: (M, Field) -> Option<M>, m: M, f: Field)
    ensures ApplyAll(apply, m, [f]) == apply(m, f)
  {}

  lemma EntryRoundTrip(valid: TextCheck, e: Entry)
    requires |SerializeEntry(e)| < TWO31
    ensures ParseEntry(valid, SerializeEntry(e)) == if valid(e.key) && valid(e.value) then Some(e) else None
  {
    hide Parse, EncodeFields, ApplyAll;
    var rule, none, key, value := EntryRule(valid), Entry([], []), RecordField(1, e.key), RecordField(2, e.value);
    SmallIsWritable(EntryFields(e));
    ParseEncoded(rule, none, EntryFields(e));
    assert EntryFields(e) == [key] + [value];
    ApplyAllAppend(rule, none, [key], [value]);
    ApplyOne(rule, none, key);
    ApplyOne(rule, Entry(e.key, []), value);
  }

  /** The entries that an order visits. */
  function Visited(order: seq<ByteString>, data: Annotations): Annotations {
    map k | k in order && k in data :: data[k]
  }

  lemma NothingVisited(valid: TextCheck, data: Annotations)
    ensures Visited([], data) == map[] && EntryTexts(valid, map[])
  {}

  lemma VisitOne(valid: TextCheck, to: Annotations, order: seq<ByteString>, data: Annotations)
    requires order != [] && order[0] in data
    ensures to[order[0] := data[order[0]]] + Visited(order[1..], data) == to + Visited(order, data)
    ensures EntryTexts(valid, Visited(order, data)) <==>
              valid(order[0]) && valid(data[order[0]]) && EntryTexts(valid, Visited(order[1..], data))
  {
    var all, rest := Visited(order, data), Visited(order[1..], data);
    assert order == [order[0]] + order[1..];
    forall k ensures k in all <==> k == order[0] || k in rest {}
    assert all == rest[order[0] := data[order[0]]];
    hide Visited;
    if EntryTexts(valid, all) {
      assert valid(order[0]) && valid(all[order[0]]);
      forall k | k in rest ensures valid(k) && valid(rest[k]) {
        assert k in all && all[k] == rest[k];
      }
    }
    if valid(order[0]) && valid(data[order[0]]) && EntryTexts(valid, rest) {
      forall k | k in all ensures valid(k) && valid(all[k]) {
        assert k == order[0] || (k in rest && all[k] == rest[k]);
      }
    }
  }

  lemma {:induction false} ApplyEntryRecords(valid: TextCheck, to: RpcMeta, order: seq<ByteString>, data: Annotations)
    requires AllWritable(EntryRecords(order, data)) && forall k :: k in order ==> k in data
    ensures ApplyAll(MetaRule(valid), to, EntryRecords(order, data))
         == if EntryTexts(valid, Visited(order, data)) then Some(to.(metaData := to.metaData + Visited(order, data)))
            else None
    decreases |order|
  {
    hide SerializeEntry, ParseEntry, EntryTexts, Visited;
    if order == [] {
      assert Visited(order, data) == map[] && EntryTexts(valid, map[]) by { NothingVisited(valid, data); }
      assert to.metaData + map[] == to.metaData;
    } else {
      var k, tail := order[0], EntryRecords(order[1..], data);
      var record := RecordField(6, SerializeEntry(Entry(k, data[k])));
      assert EntryRecords(order, data) == [record] + tail && Writable(EntryRecords(order, data)[0]);
      WritableParts([record], tail);
      EntryRoundTrip(valid, Entry(k, data[k]));
      VisitOne(valid, to.metaData, order, data);
      assert ([record] + tail)[1..] == tail;
      if valid(k) && valid(data[k]) {
        ApplyEntryRecords(valid, to.(metaData := to.metaData[k := data[k]]), order[1..], data);
      }
    }
  }

  lemma AllVisited(order: seq<ByteString>, data: Annotations)
    requires Lists(order, data)
    ensures Visited(order, data) == data && forall k :: k in order ==> k in data
  {}

  lemma ApplyScalars(valid: TextCheck, to: RpcMeta, from: RpcMeta)
    ensures ApplyAll(MetaRule(valid), to, ScalarFields(from))
         == Some(to.(typ := Merge(to, from).typ, serviceId := Merge(to, from).serviceId,
                     encoding := Merge(to, from).encoding))
  {
    hide ApplyAll, VarintUnlessZero, SignExtend, Truncate32, ParseRequest, ParseResponse, ParseEntry;
    var rule, goal := MetaRule(valid), Merge(to, from);
    TruncateSignExtend(from.typ);
    TruncateSignExtend(from.encoding);
    var a, b, c := VarintUnlessZero(1, SignExtend(from.typ)), VarintUnlessZero(2, from.serviceId),
                   VarintUnlessZero(3, SignExtend(from.encoding));
    ApplyAllAppend(rule, to, a + b, c);
    ApplyAllAppend(rule, to, a, b);
    var m1 := to.(typ := goal.typ);
    var m2 := m1.(serviceId := goal.serviceId);
    ApplyVarint(rule, to, 1, SignExtend(from.typ));
    ApplyVarint(rule, m1, 2, from.serviceId);
    ApplyVarint(rule, m2, 3, SignExtend(from.encoding));
  }

  lemma ApplyFixedFields(valid: TextCheck, to: RpcMeta, from: RpcMeta)
    requires AllWritable(FixedFields(from))
    ensures ApplyAll(MetaRule(valid), to, FixedFields(from))
         == if TextOk(valid, from.(metaData := map[])) then Some(Merge(to, from).(metaData := to.metaData)) else None
  {
    hide ApplyAll, AllWritable, ScalarFields, RequestRecord, ResponseRecord, MetaRule, MergeRequest, MergeResponse,
         RequestText, ResponseText;
    var rule, goal := MetaRule(valid), Merge(to, from);
    WritableParts(ScalarFields(from) + RequestRecord(from), ResponseRecord(from));
    WritableParts(ScalarFields(from), RequestRecord(from));
    ApplyAllAppend(rule, to, ScalarFields(from) + RequestRecord(from), ResponseRecord(from));
    ApplyAllAppend(rule, to, ScalarFields(from), RequestRecord(from));
    ApplyScalars(valid, to, from);
    var m3 := to.(typ := goal.typ, serviceId := goal.serviceId, encoding := goal.encoding);
    ApplyRequestRecord(valid, m3, from);
    ApplyResponseRecord(valid, m3.(requestInfo := goal.requestInfo), from);
  }

  lemma ApplyMetaFields(valid: TextCheck, to: RpcMeta, from: RpcMeta, order: seq<ByteString>)
    requires AllWritable(MetaFields(from, order)) && Lists(order, from.metaData)
    ensures ApplyAll(MetaRule(valid), to, MetaFields(from, order))
         == if TextOk(valid, from) then Some(Merge(to, from)) else None
  {
    hide ApplyAll, AllWritable, FixedFields, EntryRecords, MetaRule, Visited, Lists;
    WritableParts(FixedFields(from), EntryRecords(order, from.metaData));
    ApplyAllAppend(MetaRule(valid), to, FixedFields(from), EntryRecords(order, from.metaData));
    ApplyFixedFields(valid, to, from);
    AllVisited(order, from.metaData);
    if TextOk(valid, from.(metaData := map[])) {
      ApplyEntryRecords(valid, Merge(to, from).(metaData := to.metaData), order, from.metaData);
    }
  }

  /**
    Parsing the serialization of one message on top of another merges it in, and is refused exactly
    when one of its texts is.
  */
  lemma ParseMerges(valid: TextCheck, to: RpcMeta, from: RpcMeta, order: seq<ByteString>)
    requires |Serialize(from, order)| < TWO31 && Lists(order, from.metaData)
    ensures ParseMeta(valid, to, Serialize(from, order)) == if TextOk(valid, from) then Some(Merge(to, from)) else None
  {
    hide Parse, ApplyAll, EncodeFields, MetaFields, Lists, TextOk;
    SmallIsWritable(MetaFields(from, order));
    ParseEncoded(MetaRule(valid), to, MetaFields(from, order));
    ApplyMetaFields(valid, to, from, order);
  }

  /**
    Round trip, in whatever order the annotations are written: exactly the messages with acceptable
    texts come back, and they come back unchanged.
  */
  lemma SerializeParse(valid: TextCheck, m: RpcMeta, order: seq<ByteString>)
    requires |Serialize(m, order)| < TWO31 && Lists(order, m.metaData)
    ensures ParseMeta(valid, NO_META, Serialize(m, order)) == if TextOk(valid, m) then Some(m) else None
  {
    ParseMerges(valid, NO_META, m, order);
    assert map[] + m.metaData == m.metaData;
  }

  lemma WritableJoin(a: seq<Field>, b: seq<Field>)
    requires AllWritable(a) && AllWritable(b)
    ensures AllWritable(a + b)
  {}

  /**
    'Last One Wins': parsing two serializations end to end is merging the second message into the
    first, and is refused exactly when a text of either is.
  */
  lemma ConcatenationMerges(valid: TextCheck, a: RpcMeta, orderA: seq<ByteString>, b: RpcMeta, orderB: seq<ByteString>)
    requires |Serialize(a, orderA)| < TWO31 && Lists(orderA, a.metaData)
    requires |Serialize(b, orderB)| < TWO31 && Lists(orderB, b.metaData)
    ensures ParseMeta(valid, NO_META, Serialize(a, orderA) + Serialize(b, orderB))
         == if TextOk(valid, a) && TextOk(valid, b) then Some(Merge(a, b)) else None
  {
    hide Parse, ApplyAll, EncodeFields, MetaFields, AllWritable, Lists, TextOk;
    var rule, fa, fb := MetaRule(valid), MetaFields(a, orderA), MetaFields(b, orderB);
    SmallIsWritable(fa);
    SmallIsWritable(fb);
    WritableJoin(fa, fb);
    EncodeFieldsAppend(fa, fb);
    ParseEncoded(rule, NO_META, fa + fb);
    ApplyAllAppend(rule, NO_META, fa, fb);
    ApplyMetaFields(valid, NO_META, a, orderA);
    ApplyMetaFields(valid, a, b, orderB);
    assert map[] + a.metaData == a.metaData;
    assert Merge(NO_META, a) == a;
  }

  /**
    The same for arbitrary bytes: when a byte string parses, parsing it with more bytes behind it is
    parsing these on top of its result.
  */
  lemma ParseConcatenation(valid: TextCheck, m: RpcMeta, a: ByteString, b: ByteString)
    requires ParseMeta(valid, m, a).Some?
    ensures ParseMeta(valid, m, a + b) == ParseMeta(valid, ParseMeta(valid, m, a).value, b)
  {
    ParseAppend(MetaRule(valid), m, a, b);
  }

  // ---------------------------------------------------------------- the field that comes last

  lemma NumberField(num: nat, v: uint64)
    requires 0 < num < 16
    ensures Writable(VarintField(num, v)) && EncodeField(VarintField(num, v)) == [8 * num] + Varint(v)
  {}

  lemma TextField(num: nat, t: ByteString)
    requires 0 < num < 16 && |t| < TWO31
    ensures Writable(RecordField(num, t)) && EncodeField(RecordField(num, t)) == TaggedBytes(8 * num + 2, t)
  {}

  lemma RequestOneMore(valid: TextCheck, r: Request, b: ByteString, num: nat, v: uint64)
    requires ParseRequest(valid, r, b).Some? && 0 < num < 16
    ensures ParseRequest(valid, r, b + ([8 * num] + Varint(v)))
         == ApplyRequest(valid, ParseRequest(valid, r, b).value, VarintField(num, v))
  {
    hide Parse, EncodeField, Varint;
    NumberField(num, v);
    ParseOneMore(RequestRule(valid), r, b, VarintField(num, v));
  }

  /** Behind any bytes that parse, one more number decides its field, also when it is 0; other numbers decide none. */
  lemma RequestNumberWins(valid: TextCheck, r: Request, b: ByteString, v: uint64, other: nat)
    requires ParseRequest(valid, r, b).Some? && 5 < other < 16
    ensures var m := ParseRequest(valid, r, b).value;
            && ParseRequest(valid, r, b + ([0x08] + Varint(v))) == Some(m.(intMethod := v))
            && ParseRequest(valid, r, b + ([0x18] + Varint(v))) == Some(m.(expectResponse := v != 0))
            && ParseRequest(valid, r, b + ([0x20] + Varint(v))) == Some(m.(sequenceId := v))
            && ParseRequest(valid, r, b + ([0x28] + Varint(v))) == Some(m.(timeout := v))
            && ParseRequest(valid, r, b + ([0x10] + Varint(v))) == Some(m)
            && ParseRequest(valid, r, b + ([8 * other] + Varint(v))) == Some(m)
  {
    hide Parse, Varint;
    RequestOneMore(valid, r, b, 1, v);
    RequestOneMore(valid, r, b, 2, v);
    RequestOneMore(valid, r, b, 3, v);
    RequestOneMore(valid, r, b, 4, v);
    RequestOneMore(valid, r, b, 5, v);
    RequestOneMore(valid, r, b, other, v);
  }

  lemma RequestTextWins(valid: TextCheck, r: Request, b: ByteString, t: ByteString)
    requires ParseRequest(valid, r, b).Some? && |t| < TWO31
    ensures ParseRequest(valid, r, b + TaggedBytes(0x12, t))
         == if valid(t) then Some(ParseRequest(valid, r, b).value.(strMethod := t)) else None
  {
    hide Parse, EncodeField, TaggedBytes;
    TextField(2, t);
    ParseOneMore(RequestRule(valid), r, b, RecordField(2, t));
  }

  lemma ResponseOneMore(valid: TextCheck, r: Response, b: ByteString, num: nat, v: uint64)
    requires ParseResponse(valid, r, b).Some? && 0 < num < 16
    ensures ParseResponse(valid, r, b + ([8 * num] + Varint(v)))
         == ApplyResponse(valid, ParseResponse(valid, r, b).value, VarintField(num, v))
  {
    hide Parse, EncodeField, Varint;
    NumberField(num, v);
    ParseOneMore(ResponseRule(valid), r, b, VarintField(num, v));
  }

  lemma ResponseNumberWins(valid: TextCheck, r: Response, b: ByteString, v: uint64, other: nat)
    requires ParseResponse(valid, r, b).Some? && 5 < other < 16
    ensures var m := ParseResponse(valid, r, b).value;
            && ParseResponse(valid, r, b + ([0x08] + Varint(v))) == Some(m.(sequenceId := v))
            && ParseResponse(valid, r, b + ([0x10] + Varint(v))) == Some(m.(failed := v != 0))
            && ParseResponse(valid, r, b + ([0x18] + Varint(v))) == Some(m.(errorCode := Truncate32(v)))
            && ParseResponse(valid, r, b + ([0x28] + Varint(v))) == Some(m.(timeout := v != 0))
            && ParseResponse(valid, r, b + ([0x20] + Varint(v))) == Some(m)
            && ParseResponse(valid, r, b + ([8 * other] + Varint(v))) == Some(m)
  {
    hide Parse, Varint, Truncate32;
    ResponseOneMore(valid, r, b, 1, v);
    ResponseOneMore(valid, r, b, 2, v);
    ResponseOneMore(valid, r, b, 3, v);
    ResponseOneMore(valid, r, b, 4, v);
    ResponseOneMore(valid, r, b, 5, v);
    ResponseOneMore(valid, r, b, other, v);
  }

  lemma ResponseTextWins(valid: TextCheck, r: Response, b: ByteString, t: ByteString)
    requires ParseResponse(valid, r, b).Some? && |t| < TWO31
    ensures ParseResponse(valid, r, b + TaggedBytes(0x22, t))
         == if valid(t) then Some(ParseResponse(valid, r, b).value.(reason := t)) else None
  {
    hide Parse, EncodeField, TaggedBytes;
    TextField(4, t);
    ParseOneMore(ResponseRule(valid), r, b, RecordField(4, t));
  }

  lemma MetaOneMore(valid: TextCheck, r: RpcMeta, b: ByteString, num: nat, v: uint64)
    requires ParseMeta(valid, r, b).Some? && 0 < num < 16
    ensures ParseMeta(valid, r, b + ([8 * num] + Varint(v)))
         == ApplyMeta(valid, ParseMeta(valid, r, b).value, VarintField(num, v))
  {
    hide Parse, EncodeField, Varint;
    NumberField(num, v);
    ParseOneMore(MetaRule(valid), r, b, VarintField(num, v));
  }

  lemma MetaNumberWins(valid: TextCheck, r: RpcMeta, b: ByteString, v: uint64, other: nat)
    requires ParseMeta(valid, r, b).Some? && 3 < other < 16
    ensures var m := ParseMeta(valid, r, b).value;
            && ParseMeta(valid, r, b + ([0x08] + Varint(v))) == Some(m.(typ := Truncate32(v)))
            && ParseMeta(valid, r, b + ([0x10] + Varint(v))) == Some(m.(serviceId := v % TWO32))
            && ParseMeta(valid, r, b + ([0x18] + Varint(v))) == Some(m.(encoding := Truncate32(v)))
            && ParseMeta(valid, r, b + ([8 * other] + Varint(v))) == Some(m)
  {
    hide Parse, Varint, Truncate32;
    MetaOneMore(valid, r, b, 1, v);
    MetaOneMore(valid, r, b, 2, v);
    MetaOneMore(valid, r, b, 3, v);
    MetaOneMore(valid, r, b, other, v);
  }

  /** Key and value of an annotation may come in any order, may be missing, and may be repeated. */
  lemma EntryPartWins(valid: TextCheck, b: ByteString, t: ByteString)
    requires ParseEntry(valid, b).Some? && |t| < TWO31
    ensures ParseEntry(valid, []) == Some(Entry([], []))
    ensures ParseEntry(valid, b + TaggedBytes(0x0A, t))
         == if valid(t) then Some(ParseEntry(valid, b).value.(key := t)) else None
    ensures ParseEntry(valid, b + TaggedBytes(0x12, t))
         == if valid(t) then Some(ParseEntry(valid, b).value.(value := t)) else None
    ensures ParseEntry(valid, b + TaggedBytes(0x1A, t)) == ParseEntry(valid, b)
  {
    hide EncodeField, TaggedBytes, ReadField;
    TextField(1, t);
    TextField(2, t);
    TextField(3, t);
    ParseOneMore(EntryRule(valid), Entry([], []), b, RecordField(1, t));
    ParseOneMore(EntryRule(valid), Entry([], []), b, RecordField(2, t));
    ParseOneMore(EntryRule(valid), Entry([], []), b, RecordField(3, t));
  }

  lemma MetaOneMoreRecord(valid: TextCheck, r: RpcMeta, b: ByteString, num: nat, t: ByteString)
    requires ParseMeta(valid, r, b).Some? && 0 < num < 16 && |t| < TWO31
    ensures ParseMeta(valid, r, b + TaggedBytes(8 * num + 2, t))
         == ApplyMeta(valid, ParseMeta(valid, r, b).value, RecordField(num, t))
  {
    hide Parse, EncodeField, TaggedBytes;
    TextField(num, t);
    ParseOneMore(MetaRule(valid), r, b, RecordField(num, t));
  }

  /** Sub-messages are parsed on top of those already there; an annotation replaces one with its key. */
  lemma MetaRecordWins(valid: TextCheck, r: RpcMeta, b: ByteString, t: ByteString)
    requires ParseMeta(valid, r, b).Some? && |t| < TWO31
    ensures var m := ParseMeta(valid, r, b).value;
            && ParseMeta(valid, r, b + TaggedBytes(0x22, t))
               == (match ParseRequest(valid, RequestOf(m), t)
                   case None => None case Some(q) => Some(m.(requestInfo := Some(q))))
            && ParseMeta(valid, r, b + TaggedBytes(0x2A, t))
               == (match ParseResponse(valid, ResponseOf(m), t)
                   case None => None case Some(q) => Some(m.(responseInfo := Some(q))))
            && ParseMeta(valid, r, b + TaggedBytes(0x32, t))
               == (match ParseEntry(valid, t)
                   case None => None case Some(e) => Some(m.(metaData := m.metaData[e.key := e.value])))
  {
    hide Parse, TaggedBytes, ParseRequest, ParseResponse, ParseEntry;
    MetaOneMoreRecord(valid, r, b, 4, t);
    MetaOneMoreRecord(valid, r, b, 5, t);
    MetaOneMoreRecord(valid, r, b, 6, t);
  }

  // ---------------------------------------------------------------- the size does not depend on the order

  function SizeInOrder(order: seq<ByteString>, data: Annotations): nat {
    |EncodeFields(EntryRecords(order, data))|
  }

  function SizeOfEntry(data: Annotations, key: ByteString): nat {
    |EncodeFields([RecordField(6, SerializeEntry(EntryAt(data, key)))])|
  }

  lemma SizeOfMore(order: seq<ByteString>, key: ByteString, data: Annotations)
    ensures SizeInOrder([key] + order, data) == SizeOfEntry(data, key) + SizeInOrder(order, data)
  {
    hide SerializeEntry, EncodeFields;
    assert ([key] + order)[1..] == order;
    EncodeFieldsAppend([RecordField(6, SerializeEntry(EntryAt(data, key)))], EntryRecords(order, data));
  }

  /** An entry adds its size wherever it is visited. */
  lemma {:induction false} SizeInside(before: seq<ByteString>, key: ByteString, behind: seq<ByteString>,
                                      data: Annotations)
    ensures SizeInOrder(before + [key] + behind, data) == SizeOfEntry(data, key) + SizeInOrder(before + behind, data)
    decreases |before|
  {
    hide SizeInOrder, SizeOfEntry;
    if before == [] {
      assert before + [key] + behind == [key] + behind && before + behind == behind;
      SizeOfMore(behind, key, data);
    } else {
      var rest := before[1..];
      assert before + [key] + behind == [before[0]] + (rest + [key] + behind);
      assert before + behind == [before[0]] + (rest + behind);
      SizeOfMore(rest + [key] + behind, before[0], data);
      SizeOfMore(rest + behind, before[0], data);
      SizeInside(rest, key, behind, data);
    }
  }

  lemma SomeKey(order: seq<ByteString>)
    requires order != []
    ensures exists k :: k in order
  {
    assert order[0] in order;
  }

  lemma SameKeys(a: seq<ByteString>, b: seq<ByteString>, i: nat)
    requires Distinct(a) && Distinct(b) && forall k :: k in a <==> k in b
    requires a != [] && i < |b| && b[i] == a[0]
    ensures var rest, others := a[1..], b[..i] + b[i + 1..];
            Distinct(rest) && Distinct(others) && forall k :: k in rest <==> k in others
  {
    var rest, others := a[1..], b[..i] + b[i + 1..];
    forall k ensures k in rest <==> k in b && k != a[0] {
      if k in b && k != a[0] {
        var j :| 0 <= j < |a| && a[j] == k;
        assert rest[j - 1] == k;
      }
    }
    forall k ensures k in others <==> k in b && k != b[i] {
      if k in b && k != b[i] {
        var j :| 0 <= j < |b| && b[j] == k;
        assert others[if j < i then j else j - 1] == k;
      }
      if k in others {
        var j :| 0 <= j < |others| && others[j] == k;
        assert b[if j < i then j else j + 1] == k;
      }
    }
  }

  lemma {:induction false} SameSize(a: seq<ByteString>, b: seq<ByteString>, data: Annotations)
    requires Distinct(a) && Distinct(b) && forall k :: k in a <==> k in b
    ensures SizeInOrder(a, data) == SizeInOrder(b, data)
    decreases |a|
  {
    hide SizeInOrder, SizeOfEntry;
    if a == [] {
      if b != [] {
        SomeKey(b);
      }
    } else {
      var key, rest := a[0], a[1..];
      assert key in b;
      var i :| 0 <= i < |b| && b[i] == key;
      var others := b[..i] + b[i + 1..];
      assert a == [key] + rest && b == b[..i] + [key] + b[i + 1..];
      SameKeys(a, b, i);
      SameSize(rest, others, data);
      SizeOfMore(rest, key, data);
      SizeInside(b[..i], key, b[i + 1..], data);
    }
  }
}
