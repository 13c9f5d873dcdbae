/**
  The protobuf wire format as the generated parsers use it: base-128 varints, tagged fields,
  length-delimited records, and fields that a parser does not know and skips.
*/
module Wire {
  import opened Bytes

  // ---------------------------------------------------------------- varints

  function Varint(v: nat): (b: ByteString)
    ensures b != []
  {
    if v < 128 then [v] else [128 + v % 128] + Varint(v / 128)
  }

  /** Number of bytes of a varint, as the size computations count them. */
  function VarintSize(v: nat): (n: nat)
  {
    if v < 128 then 1 else 1 + VarintSize(v / 128)
  }

  /** Reads a varint of at most `max` bytes; the value is not yet cut to its register width. */
  function ReadBase128(b: ByteString, max: nat): (r: Option<(nat, ByteString)>)
    ensures r.Some? ==> |r.value.1| < |b|
    decreases max
  {
    if b == [] || max == 0 then
      None
    else if b[0] < 128 then
      Some((b[0], b[1..]))
    else match ReadBase128(b[1..], max - 1)
         case None => None
         case Some((high, rest)) => Some((b[0] - 128 + 128 * high, rest))
  }

  function ReadVarint(b: ByteString): (r: Option<(uint64, ByteString)>)
    ensures r.Some? ==> |r.value.1| < |b|
  {
    match ReadBase128(b, 10)
    case None => None
    case Some((v, rest)) => Some((v % TWO64, rest))
  }

  function ReadTag(b: ByteString): (r: Option<(uint32, ByteString)>)
    ensures r.Some? ==> |r.value.1| < |b|
  {
    match ReadBase128(b, 5)
    case None => None
    case Some((v, rest)) => Some((v % TWO32, rest))
  }

  lemma {:induction false} VarintSizeIsLength(v: nat)
    ensures VarintSize(v) == |Varint(v)|
  {
    if v >= 128 {
      VarintSizeIsLength(v / 128);
    }
  }

  function Pow128(k: nat): (r: nat)
    ensures r > 0
  {
    if k == 0 then 1 else 128 * Pow128(k - 1)
  }

  /** Seven bits of the number in every byte, the low-order ones first. */
  lemma {:induction false} VarintDigits(v: nat, i: nat)
    requires i < |Varint(v)|
    ensures Varint(v)[i] % 128 == v / Pow128(i) % 128
  {
    if v >= 128 {
      assert Varint(v) == [128 + v % 128] + Varint(v / 128);
      if i > 0 {
        VarintDigits(v / 128, i - 1);
        DivideTwice(v, 128, Pow128(i - 1));
      }
    }
  }

  /** All bytes but the last are marked. */
  lemma {:induction false} VarintMarks(v: nat, i: nat)
    requires i < |Varint(v)|
    ensures Varint(v)[i] >= 128 <==> i < |Varint(v)| - 1
  {
    if v >= 128 {
      assert Varint(v) == [128 + v % 128] + Varint(v / 128);
      if i > 0 {
        VarintMarks(v / 128, i - 1);
      }
    }
  }

  /** There are as many bytes as the number needs. */
  lemma {:induction false} VarintLength(v: nat)
    ensures var k := |Varint(v)|; v < Pow128(k) && (k > 1 ==> Pow128(k - 1) <= v)
  {
    if v >= 128 {
      VarintLength(v / 128);
    }
  }

  /** Which bytes are read as a number of at most `max` bytes: those with an unmarked byte among the first `max`. */
  lemma {:induction false} ReadBase128Accepts(b: ByteString, max: nat)
    ensures ReadBase128(b, max).None? <==> forall j :: 0 <= j < |b| && j < max ==> b[j] >= 128
    decreases max
  {
    if b != [] && max > 0 && b[0] >= 128 {
      ReadBase128Accepts(b[1..], max - 1);
      assert forall j :: 0 < j < |b| ==> b[j] == b[1..][j - 1];
    }
  }

  /** Numbers of more than ten bytes and tags of more than five are refused. */
  lemma LongNumbersRefused(b: ByteString)
    ensures ReadVarint(b).None? <==> forall j :: 0 <= j < |b| && j < 10 ==> b[j] >= 128
    ensures ReadTag(b).None? <==> forall j :: 0 <= j < |b| && j < 5 ==> b[j] >= 128
  {
    ReadBase128Accepts(b, 10);
    ReadBase128Accepts(b, 5);
  }

  lemma {:induction false} ReadBase128Inverse(v: nat, max: nat, more: ByteString)
    requires max > 0 && v < Pow128(max)
    ensures ReadBase128(Varint(v) + more, max) == Some((v, more))
  {
    var b := Varint(v) + more;
    if v < 128 {
      assert b[1..] == more;
    } else {
      assert v / 128 < Pow128(max - 1);
      assert max - 1 > 0;
      assert b[1..] == Varint(v / 128) + more;
      ReadBase128Inverse(v / 128, max - 1, more);
    }
  }

  lemma VarintRoundTrip(v: uint64, more: ByteString)
    ensures ReadVarint(Varint(v) + more) == Some((v, more))
  {
    assert Pow128(10) > TWO64 by {
      assert Pow128(5) == 0x8_0000_0000;
      assert Pow128(10) == 128 * (128 * (128 * (128 * (128 * Pow128(5)))));
    }
    ReadBase128Inverse(v, 10, more);
  }

  lemma {:induction false} ReadBase128Local(b: ByteString, max: nat, more: ByteString)
    requires ReadBase128(b, max).Some?
    ensures var (v, rest) := ReadBase128(b, max).value;
            ReadBase128(b + more, max) == Some((v, rest + more))
    decreases max
  {
    assert (b + more)[1..] == b[1..] + more;
    if b[0] >= 128 {
      ReadBase128Local(b[1..], max - 1, more);
    }
  }

  // ---------------------------------------------------------------- fields

  /**
    A field as read from the wire. `Skipped` stands for the wire types no known field here has
    (fixed 64, fixed 32 and groups).
  */
  datatype Field =
    | VarintField(num: nat, value: uint64)
    | RecordField(num: nat, bytes: ByteString)
    | Skipped(num: nat)

  const WIRE_VARINT := 0
  const WIRE_FIXED64 := 1
  const WIRE_RECORD := 2
  const WIRE_GROUP := 3
  const WIRE_END_GROUP := 4
  const WIRE_FIXED32 := 5

  function Drop(b: ByteString, n: nat): (r: Option<ByteString>)
    ensures r.Some? ==> |r.value| <= |b|
  {
    if n <= |b| then Some(b[n..]) else None
  }

  /** A length prefix and that many bytes; records of 2 GiB and more are refused. */
  function ReadRecord(b: ByteString): (r: Option<(ByteString, ByteString)>)
    ensures r.Some? ==> |r.value.1| < |b|
    ensures r.Some? ==> |r.value.0| < |b|
  {
    match ReadVarint(b)
    case None => None
    case Some((n, rest)) => if n < TWO31 && n <= |rest| then Some((rest[..n], rest[n..])) else None
  }

  /** What follows the tag of field `num` with the given wire type. */
  function ReadPayload(num: nat, wireType: nat, b: ByteString): (r: Option<(Field, ByteString)>)
    ensures r.Some? ==> |r.value.1| <= |b|
    decreases |b|, 1
  {
    if num == 0 then
      None
    else if wireType == WIRE_VARINT then
      match ReadVarint(b)
      case None => None
      case Some((v, rest)) => Some((VarintField(num, v), rest))
    else if wireType == WIRE_RECORD then
      match ReadRecord(b)
      case None => None
      case Some((bytes, rest)) => Some((RecordField(num, bytes), rest))
    else
      var rest := if wireType == WIRE_FIXED64 then Drop(b, 8)
                  else if wireType == WIRE_FIXED32 then Drop(b, 4)
                  else if wireType == WIRE_GROUP then SkipGroup(num, b)
                  else None;
      match rest
      case None => None
      case Some(r) => Some((Skipped(num), r))
  }

  /** The bytes after the end of group `num`, whose start was just read. */
  function SkipGroup(num: nat, b: ByteString): (r: Option<ByteString>)
    ensures r.Some? ==> |r.value| <= |b|
    decreases |b|, 0
  {
    match ReadTag(b)
    case None => None
    case Some((tag, rest)) =>
      if tag == 8 * num + WIRE_END_GROUP then
        Some(rest)
      else match ReadPayload(tag / 8, tag % 8, rest)
           case None => None
           case Some((_, after)) => SkipGroup(num, after)
  }

  function ReadField(b: ByteString): (r: Option<(Field, ByteString)>)
    ensures r.Some? ==> |r.value.1| < |b|
  {
    match ReadTag(b)
    case None => None
    case Some((tag, rest)) => ReadPayload(tag / 8, tag % 8, rest)
  }

  lemma ReadVarintLocal(b: ByteString, more: ByteString)
    requires ReadVarint(b).Some?
    ensures ReadVarint(b + more) == Some((ReadVarint(b).value.0, ReadVarint(b).value.1 + more))
  {
    ReadBase128Local(b, 10, more);
  }

  lemma ReadRecordLocal(b: ByteString, more: ByteString)
    requires ReadRecord(b).Some?
    ensures ReadRecord(b + more) == Some((ReadRecord(b).value.0, ReadRecord(b).value.1 + more))
  {
    hide ReadVarint;
    ReadVarintLocal(b, more);
    var (n, rest) := ReadVarint(b).value;
    assert (rest + more)[..n] == rest[..n] && (rest + more)[n..] == rest[n..] + more;
  }

  lemma {:induction false} ReadPayloadLocal(num: nat, wireType: nat, b: ByteString, more: ByteString)
    requires ReadPayload(num, wireType, b).Some?
    ensures var (f, rest) := ReadPayload(num, wireType, b).value;
            ReadPayload(num, wireType, b + more) == Some((f, rest + more))
    decreases |b|, 1
  {
    hide ReadVarint, ReadRecord, ReadTag, SkipGroup;
    if wireType == WIRE_VARINT {
      ReadVarintLocal(b, more);
    } else if wireType == WIRE_RECORD {
      ReadRecordLocal(b, more);
    } else if wireType == WIRE_GROUP {
      SkipGroupLocal(num, b, more);
    } else if wireType == WIRE_FIXED64 {
      assert (b + more)[8..] == b[8..] + more;
    } else {
      assert (b + more)[4..] == b[4..] + more;
    }
  }

  lemma {:induction false} SkipGroupLocal(num: nat, b: ByteString, more: ByteString)
    requires SkipGroup(num, b).Some?
    ensures SkipGroup(num, b + more) == Some(SkipGroup(num, b).value + more)
    decreases |b|, 0
  {
    hide ReadPayload;
    ReadBase128Local(b, 5, more);
    var (tag, rest) := ReadTag(b).value;
    if tag != 8 * num + WIRE_END_GROUP {
      ReadPayloadLocal(tag / 8, tag % 8, rest, more);
      SkipGroupLocal(num, ReadPayload(tag / 8, tag % 8, rest).value.1, more);
    }
  }

  /** A complete field is read the same whatever follows it. */
  lemma ReadFieldLocal(b: ByteString, more: ByteString)
    requires ReadField(b).Some?
    ensures var (f, rest) := ReadField(b).value; ReadField(b + more) == Some((f, rest + more))
  {
    hide ReadPayload;
    ReadBase128Local(b, 5, more);
    var (tag, rest) := ReadTag(b).value;
    ReadPayloadLocal(tag / 8, tag % 8, rest, more);
  }

  // ---------------------------------------------------------------- writing

  /** Fields of the messages modelled here: numbers below 16, so that every tag is one byte. */
  predicate Tagged(f: Field) {
    !f.Skipped? && 0 < f.num < 16
  }

  predicate Writable(f: Field) {
    Tagged(f) && (f.RecordField? ==> |f.bytes| < TWO31)
  }

  predicate AllTagged(fs: seq<Field>) {
    forall i :: 0 <= i < |fs| ==> Tagged(fs[i])
  }

  predicate AllWritable(fs: seq<Field>) {
    forall i :: 0 <= i < |fs| ==> Writable(fs[i])
  }

  function EncodeField(f: Field): (b: ByteString)
    requires Tagged(f)
    ensures b != []
  {
    match f
    case VarintField(num, v) => [8 * num + WIRE_VARINT] + Varint(v)
    case RecordField(num, bytes) => [8 * num + WIRE_RECORD] + Varint(|bytes|) + bytes
  }

  /** A one-byte tag is read as itself. */
  lemma ReadTagByte(tag: Byte, more: ByteString)
    requires tag < 128
    ensures ReadTag([tag] + more) == Some((tag, more))
  {}

  lemma ReadRecordInverse(bytes: ByteString, more: ByteString)
    requires |bytes| < TWO31
    ensures ReadRecord(Varint(|bytes|) + bytes + more) == Some((bytes, more))
  {
    hide ReadVarint, Varint;
    Regroup(Varint(|bytes|), bytes, more);
    VarintRoundTrip(|bytes|, bytes + more);
    TakeDrop(bytes, more);
  }

  lemma ReadFieldInverse(f: Field, more: ByteString)
    requires Writable(f)
    ensures ReadField(EncodeField(f) + more) == Some((f, more))
  {
    hide ReadVarint, ReadRecord, ReadTag, Varint;
    match f
    case VarintField(num, v) =>
      assert EncodeField(f) + more == [8 * num] + (Varint(v) + more);
      ReadTagByte(8 * num, Varint(v) + more);
      VarintRoundTrip(v, more);
    case RecordField(num, bytes) =>
      assert EncodeField(f) + more == [8 * num + 2] + (Varint(|bytes|) + bytes + more);
      ReadTagByte(8 * num + 2, Varint(|bytes|) + bytes + more);
      ReadRecordInverse(bytes, more);
  }

  function EncodeFields(fs: seq<Field>): ByteString
    requires AllTagged(fs)
  {
    if fs == [] then [] else EncodeField(fs[0]) + EncodeFields(fs[1..])
  }

  lemma {:induction false} EncodeFieldsAppend(a: seq<Field>, b: seq<Field>)
    requires AllTagged(a) && AllTagged(b)
    ensures AllTagged(a + b) && EncodeFields(a + b) == EncodeFields(a) + EncodeFields(b)
  {
    hide EncodeField;
    if a == [] {
      assert a + b == b;
    } else {
      assert (a + b)[1..] == a[1..] + b;
      EncodeFieldsAppend(a[1..], b);
    }
  }

  /** Numbers are cut to the width of their register. */
  lemma NumbersAreCut(v: nat, more: ByteString)
    ensures v < Pow128(10) ==> ReadVarint(Varint(v) + more) == Some((v % TWO64, more))
    ensures v < Pow128(5) ==> ReadTag(Varint(v) + more) == Some((v % TWO32, more))
  {
    hide Pow128;
    if v < Pow128(10) {
      ReadBase128Inverse(v, 10, more);
    }
    if v < Pow128(5) {
      ReadBase128Inverse(v, 5, more);
    }
  }

  /** Records of 2 GiB and more, and records longer than what is left, are refused. */
  lemma RecordsRefused(n: uint64, more: ByteString)
    ensures ReadRecord(Varint(n) + more).None? <==> n >= 0x8000_0000 || n > |more|
  {
    hide ReadVarint, Varint;
    VarintRoundTrip(n, more);
  }

  /** Fixed-size fields are skipped with their bytes; an end of group on its own and field number 0 are refused. */
  lemma SkippedFields(num: nat, eight: ByteString, four: ByteString, more: ByteString)
    requires 0 < num < 16 && |eight| == 8 && |four| == 4
    ensures ReadField([8 * num + 1] + eight + more) == Some((Skipped(num), more))
    ensures ReadField([8 * num + 5] + four + more) == Some((Skipped(num), more))
    ensures ReadField([8 * num + 4] + more) == None
    ensures forall t: Byte :: t < 8 ==> ReadField([t] + more) == None
  {
    hide ReadTag, ReadVarint, ReadRecord, SkipGroup;
    assert [8 * num + 1] + eight + more == [8 * num + 1] + (eight + more);
    assert [8 * num + 5] + four + more == [8 * num + 5] + (four + more);
    ReadTagByte(8 * num + 1, eight + more);
    ReadTagByte(8 * num + 5, four + more);
    ReadTagByte(8 * num + 4, more);
    TakeDrop(eight, more);
    TakeDrop(four, more);
    forall t: Byte | t < 8 ensures ReadField([t] + more) == None {
      ReadTagByte(t, more);
    }
  }

  lemma FieldIsNoEnd(num: nat, f: Field, rest: ByteString)
    requires 0 < num && Writable(f)
    ensures ReadTag(EncodeField(f) + rest).Some? && ReadTag(EncodeField(f) + rest).value.0 != 8 * num + 4
  {
    var tag := if f.VarintField? then 8 * f.num else 8 * f.num + 2;
    assert EncodeField(f) + rest == [tag] + (EncodeField(f) + rest)[1..];
    ReadTagByte(tag, (EncodeField(f) + rest)[1..]);
  }

  lemma SkipOne(num: nat, f: Field, rest: ByteString)
    requires 0 < num && Writable(f)
    ensures SkipGroup(num, EncodeField(f) + rest) == SkipGroup(num, rest)
  {
    hide ReadTag, EncodeField, ReadPayload;
    ReadFieldInverse(f, rest);
    FieldIsNoEnd(num, f, rest);
  }

  lemma EndEnds(num: nat, b: ByteString, more: ByteString)
    requires ReadTag(b) == Some((8 * num + 4, more))
    ensures SkipGroup(num, b) == Some(more)
  {}

  lemma {:induction false} SkipAll(num: nat, fs: seq<Field>, more: ByteString)
    requires 0 < num < 16 && AllWritable(fs)
    ensures AllTagged(fs) && SkipGroup(num, EncodeFields(fs) + ([8 * num + 4] + more)) == Some(more)
    decreases |fs|
  {
    hide ReadTag, EncodeField, SkipGroup;
    var end := [8 * num + 4] + more;
    if fs == [] {
      assert EncodeFields(fs) + end == end;
      ReadTagByte(8 * num + 4, more);
      EndEnds(num, end, more);
    } else {
      assert EncodeFields(fs) + end == EncodeField(fs[0]) + (EncodeFields(fs[1..]) + end);
      SkipOne(num, fs[0], EncodeFields(fs[1..]) + end);
      SkipAll(num, fs[1..], more);
    }
  }

  /** A group is skipped with everything in it up to the end of the same group. */
  lemma SkippedGroup(num: nat, fs: seq<Field>, more: ByteString)
    requires 0 < num < 16 && AllWritable(fs)
    ensures AllTagged(fs)
    ensures ReadField([8 * num + 3] + EncodeFields(fs) + ([8 * num + 4] + more)) == Some((Skipped(num), more))
  {
    hide ReadTag, EncodeFields, SkipGroup;
    var inside := EncodeFields(fs) + ([8 * num + 4] + more);
    assert [8 * num + 3] + EncodeFields(fs) + ([8 * num + 4] + more) == [8 * num + 3] + inside;
    ReadTagByte(8 * num + 3, inside);
    SkipAll(num, fs, more);
  }

  // ---------------------------------------------------------------- message parsers

  /**
    The shape of every generated parse loop: read a field, apply it to the message, go on until the
    bytes are used up. `apply` refuses a field by answering None.
  */
  function Parse<M>(apply: (M, Field) -> Option<M>, m: M, b: ByteString): Option<M>
    decreases |b|
  {
    if b == [] then
      Some(m)
    else match ReadField(b)
         case None => None
         case Some((f, rest)) =>
           match apply(m, f)
           case None => None
           case Some(m') => Parse(apply, m', rest)
  }

  /** Applying fields already read, in order. */
  function ApplyAll<M>(apply: (M, Field) -> Option<M>, m: M, fs: seq<Field>): Option<M> {
    if fs == [] then
      Some(m)
    else match apply(m, fs[0])
         case None => None
         case Some(m') => ApplyAll(apply, m', fs[1..])
  }

  /** Parsing more bytes continues from the message parsed so far, for all byte strings. */
  lemma {:induction false} ParseAppend<M>(apply: (M, Field) -> Option<M>, m: M, a: ByteString, b: ByteString)
    requires Parse(apply, m, a).Some?
    ensures Parse(apply, m, a + b) == Parse(apply, Parse(apply, m, a).value, b)
    decreases |a|
  {
    hide ReadField;
    if a == [] {
      assert a + b == b;
    } else {
      ReadFieldLocal(a, b);
      var (f, rest) := ReadField(a).value;
      ParseAppend(apply, apply(m, f).value, rest, b);
    }
  }

  /** One more field behind bytes that parse is applied to their result. */
  lemma ParseOneMore<M>(apply: (M, Field) -> Option<M>, m: M, b: ByteString, f: Field)
    requires Parse(apply, m, b).Some? && Writable(f)
    ensures Parse(apply, m, b + EncodeField(f)) == apply(Parse(apply, m, b).value, f)
  {
    hide ReadField, EncodeField;
    ParseAppend(apply, m, b, EncodeField(f));
    ReadFieldInverse(f, []);
    assert EncodeField(f) + [] == EncodeField(f);
  }

  /** Parsing written fields applies exactly these fields. */
  lemma {:induction false} ParseEncoded<M>(apply: (M, Field) -> Option<M>, m: M, fs: seq<Field>)
    requires AllWritable(fs)
    ensures AllTagged(fs)
    ensures Parse(apply, m, EncodeFields(fs)) == ApplyAll(apply, m, fs)
    decreases |fs|
  {
    hide ReadField, EncodeField;
    if fs != [] {
      ReadFieldInverse(fs[0], EncodeFields(fs[1..]));
      match apply(m, fs[0]) {
        case None =>
        case Some(m') => ParseEncoded(apply, m', fs[1..]);
      }
    }
  }

  lemma {:induction false} ApplyAllAppend<M>(apply: (M, Field) -> Option<M>, m: M, a: seq<Field>, b: seq<Field>)
    ensures ApplyAll(apply, m, a + b) ==
            match ApplyAll(apply, m, a) case None => None case Some(m') => ApplyAll(apply, m', b)
    decreases |a|
  {
    if a == [] {
      assert a + b == b;
    } else {
      assert (a + b)[1..] == a[1..] + b;
      match apply(m, a[0]) {
        case None =>
        case Some(m') => ApplyAllAppend(apply, m', a[1..], b);
      }
    }
  }
}
