/**
  The generated message classes: fields changed in place by parsing, merging and clearing, and read
  by the serializers and the size computations. Each method is tied to the values of module Meta.
*/
module Messages {
  import opened Bytes
  import opened Wire
  import opened Meta

  // ---------------------------------------------------------------- pieces of a serialization

  lemma AppendFields(target: ByteString, done: seq<Field>, next: seq<Field>)
    requires AllTagged(done) && AllTagged(next)
    ensures AllTagged(done + next)
    ensures target + EncodeFields(done) + EncodeFields(next) == target + EncodeFields(done + next)
  {
    EncodeFieldsAppend(done, next);
  }

  lemma SizeOfVarint(num: nat, v: uint64)
    requires 0 < num < 16
    ensures AllTagged(VarintUnlessZero(num, v))
    ensures |EncodeFields(VarintUnlessZero(num, v))| == if v != 0 then 1 + VarintSize(v) else 0
  {
    VarintSizeIsLength(v);
  }

  lemma SizeOfRecord(num: nat, b: ByteString)
    requires 0 < num < 16
    ensures |EncodeFields([RecordField(num, b)])| == 1 + VarintSize(|b|) + |b|
  {
    VarintSizeIsLength(|b|);
  }

  lemma NothingWritten(target: ByteString)
    ensures EncodeFields([]) == [] && target + EncodeFields([]) == target
  {}

  lemma OneByteBool()
    ensures VarintSize(1) == 1
  {}

  lemma SizeOfFive(a: seq<Field>, b: seq<Field>, c: seq<Field>, d: seq<Field>, e: seq<Field>)
    requires AllTagged(a) && AllTagged(b) && AllTagged(c) && AllTagged(d) && AllTagged(e)
    ensures AllTagged(a + b + c + d + e)
    ensures |EncodeFields(a + b + c + d + e)|
         == |EncodeFields(a)| + |EncodeFields(b)| + |EncodeFields(c)| + |EncodeFields(d)| + |EncodeFields(e)|
  {
    hide EncodeFields;
    FiveParts(a, b, c, d, e);
  }

  function WriteVarint(num: nat, v: uint64, target: ByteString): (out: ByteString)
    requires 0 < num < 16
    ensures v != 0 ==> out == target + EncodeFields(VarintUnlessZero(num, v))
  {
    OneField(VarintField(num, v));
    target + EncodeField(VarintField(num, v))
  }

  function WriteRecord(num: nat, b: ByteString, target: ByteString): (out: ByteString)
    requires 0 < num < 16
    ensures out == target + EncodeFields([RecordField(num, b)])
  {
    OneField(RecordField(num, b));
    target + EncodeField(RecordField(num, b))
  }

  function AsVarint(num: nat, r: Option<(uint64, ByteString)>): Option<(Field, ByteString)> {
    match r case None => None case Some((v, rest)) => Some((VarintField(num, v), rest))
  }

  function AsRecord(num: nat, r: Option<(ByteString, ByteString)>): Option<(Field, ByteString)> {
    match r case None => None case Some((b, rest)) => Some((RecordField(num, b), rest))
  }

  /** How the tag decides what is read after it. */
  lemma ReadFieldByTag(b: ByteString)
    ensures ReadTag(b).None? ==> ReadField(b) == None
    ensures ReadTag(b).Some? ==>
              var (tag, after) := ReadTag(b).value;
              && ReadField(b) == ReadPayload(tag / 8, tag % 8, after)
              && (tag / 8 > 0 && tag % 8 == WIRE_VARINT ==> ReadField(b) == AsVarint(tag / 8, ReadVarint(after)))
              && (tag / 8 > 0 && tag % 8 == WIRE_RECORD ==> ReadField(b) == AsRecord(tag / 8, ReadRecord(after)))
              && (tag % 8 == WIRE_END_GROUP || tag == 0 ==> ReadField(b) == None)
    ensures ReadTag(b).Some? && ReadField(b).Some? ==>
              var (tag, f) := (ReadTag(b).value.0, ReadField(b).value.0);
              && f.num == tag / 8
              && f.VarintField? == (tag % 8 == WIRE_VARINT) && f.RecordField? == (tag % 8 == WIRE_RECORD)
  {}

  lemma ParseRequestStep(valid: TextCheck, m: Request, b: ByteString)
    ensures b == [] ==> ParseRequest(valid, m, b) == Some(m)
    ensures b != [] && ReadField(b).None? ==> ParseRequest(valid, m, b) == None
    ensures b != [] && ReadField(b).Some? ==>
              var (f, rest) := ReadField(b).value;
              ParseRequest(valid, m, b) == match ApplyRequest(valid, m, f)
                                        case None => None
                                        case Some(m') => ParseRequest(valid, m', rest)
  {}

  lemma ParseResponseStep(valid: TextCheck, m: Response, b: ByteString)
    ensures b == [] ==> ParseResponse(valid, m, b) == Some(m)
    ensures b != [] && ReadField(b).None? ==> ParseResponse(valid, m, b) == None
    ensures b != [] && ReadField(b).Some? ==>
              var (f, rest) := ReadField(b).value;
              ParseResponse(valid, m, b) == match ApplyResponse(valid, m, f)
                                        case None => None
                                        case Some(m') => ParseResponse(valid, m', rest)
  {}

  lemma ParseMetaStep(valid: TextCheck, m: RpcMeta, b: ByteString)
    ensures b == [] ==> ParseMeta(valid, m, b) == Some(m)
    ensures b != [] && ReadField(b).None? ==> ParseMeta(valid, m, b) == None
    ensures b != [] && ReadField(b).Some? ==>
              var (f, rest) := ReadField(b).value;
              ParseMeta(valid, m, b) == match ApplyMeta(valid, m, f)
                                        case None => None
                                        case Some(m') => ParseMeta(valid, m', rest)
  {}

  class RequestMessage {
    var intMethod: uint64
    var strMethod: ByteString
    var expectResponse: bool
    var sequenceId: uint64
    var timeout: uint64

    ghost function Value(): Request
      reads this
    {
      Request(intMethod, strMethod, expectResponse, sequenceId, timeout)
    }

    constructor ()
      ensures Value() == NO_REQUEST
    {
      intMethod, strMethod, expectResponse, sequenceId, timeout := 0, [], false, 0, 0;
    }

    method Clear()
      modifies this
      ensures Value() == NO_REQUEST
    {
      strMethod := [];
      intMethod, sequenceId, timeout, expectResponse := 0, 0, 0, false;
    }

    method MergeFrom(from: RequestMessage)
      requires from != this
      modifies this
      ensures Value() == MergeRequest(old(Value()), from.Value())
    {
      if |from.strMethod| > 0 {
        strMethod := from.strMethod;
      }
      if from.intMethod != 0 {
        intMethod := from.intMethod;
      }
      if from.sequenceId != 0 {
        sequenceId := from.sequenceId;
      }
      if from.timeout != 0 {
        timeout := from.timeout;
      }
      if from.expectResponse {
        expectResponse := from.expectResponse;
      }
    }

    method InternalSerialize(target: ByteString) returns (out: ByteString)
      ensures out == target + SerializeRequest(Value())
    {
      hide EncodeFields, WriteVarint, WriteRecord;
      ghost var a, b, c := VarintUnlessZero(1, intMethod), RecordUnlessEmpty(2, strMethod),
                           VarintUnlessZero(3, Bit(expectResponse));
      ghost var d, e := VarintUnlessZero(4, sequenceId), VarintUnlessZero(5, timeout);
      NothingWritten(target);
      out := target;
      if intMethod != 0 {
        out := WriteVarint(1, intMethod, out);
      }
      if |strMethod| > 0 {
        out := WriteRecord(2, strMethod, out);
      }
      assert out == target + EncodeFields(a) + EncodeFields(b);
      AppendFields(target, a, b);
      if expectResponse {
        out := WriteVarint(3, Bit(expectResponse), out);
      }
      assert out == target + EncodeFields(a + b) + EncodeFields(c);
      AppendFields(target, a + b, c);
      if sequenceId != 0 {
        out := WriteVarint(4, sequenceId, out);
      }
      assert out == target + EncodeFields(a + b + c) + EncodeFields(d);
      AppendFields(target, a + b + c, d);
      if timeout != 0 {
        out := WriteVarint(5, timeout, out);
      }
      assert out == target + EncodeFields(a + b + c + d) + EncodeFields(e);
      AppendFields(target, a + b + c + d, e);
    }

    /** The size is added up in another order than the fields are written in. */
    method ByteSizeLong() returns (total: nat)
      ensures total == |SerializeRequest(Value())|
    {
      hide EncodeFields, VarintSize;
      total := 0;
      if |strMethod| > 0 {
        total := total + 1 + VarintSize(|strMethod|) + |strMethod|;
      }
      if intMethod != 0 {
        total := total + 1 + VarintSize(intMethod);
      }
      if sequenceId != 0 {
        total := total + 1 + VarintSize(sequenceId);
      }
      if timeout != 0 {
        total := total + 1 + VarintSize(timeout);
      }
      if expectResponse {
        total := total + 1 + 1;
      }
      OneByteBool();
      NothingWritten([]);
      SizeOfVarint(1, intMethod);
      SizeOfRecord(2, strMethod);
      SizeOfVarint(3, Bit(expectResponse));
      SizeOfVarint(4, sequenceId);
      SizeOfVarint(5, timeout);
      SizeOfFive(VarintUnlessZero(1, intMethod), RecordUnlessEmpty(2, strMethod),
                 VarintUnlessZero(3, Bit(expectResponse)), VarintUnlessZero(4, sequenceId),
                 VarintUnlessZero(5, timeout));
    }

    /** The parse loop; on success the fields hold what the reference parser gives. */
    method InternalParse(valid: TextCheck, input: ByteString) returns (ok: bool)
      modifies this
      ensures ok == ParseRequest(valid, old(Value()), input).Some?
      ensures ok ==> Value() == ParseRequest(valid, old(Value()), input).value
    {
      hide ReadTag, ReadVarint, ReadRecord, ReadField, ReadPayload, ParseRequest;
      var rest := input;
      while rest != []
        invariant ParseRequest(valid, old(Value()), input) == ParseRequest(valid, Value(), rest)
        decreases |rest|
      {
        ReadFieldByTag(rest);
        ParseRequestStep(valid, Value(), rest);
        var tagged := ReadTag(rest);
        if tagged.None? {
          return false;
        }
        var (tag, after) := tagged.value;
        if tag / 8 == 1 && tag % 256 == 8 {
          var v := ReadVarint(after);
          if v.None? { return false; }
          intMethod, rest := v.value.0, v.value.1;
        } else if tag / 8 == 2 && tag % 256 == 18 {
          var v := ReadRecord(after);
          if v.None? || !valid(v.value.0) { return false; }
          strMethod, rest := v.value.0, v.value.1;
        } else if tag / 8 == 3 && tag % 256 == 24 {
          var v := ReadVarint(after);
          if v.None? { return false; }
          expectResponse, rest := v.value.0 != 0, v.value.1;
        } else if tag / 8 == 4 && tag % 256 == 32 {
          var v := ReadVarint(after);
          if v.None? { return false; }
          sequenceId, rest := v.value.0, v.value.1;
        } else if tag / 8 == 5 && tag % 256 == 40 {
          var v := ReadVarint(after);
          if v.None? { return false; }
          timeout, rest := v.value.0, v.value.1;
        } else {
          if tag % 8 == WIRE_END_GROUP || tag == 0 {
            return false;
          }
          var u := ReadPayload(tag / 8, tag % 8, after);
          if u.None? { return false; }
          rest := u.value.1;
        }
      }
      ParseRequestStep(valid, Value(), rest);
      return true;
    }
  }

  class ResponseMessage {
    var sequenceId: uint64
    var failed: bool
    var errorCode: int32
    var reason: ByteString
    var timeout: bool

    ghost function Value(): Response
      reads this
    {
      Response(sequenceId, failed, errorCode, reason, timeout)
    }

    constructor ()
      ensures Value() == NO_RESPONSE
    {
      sequenceId, failed, errorCode, reason, timeout := 0, false, 0, [], false;
    }

    method Clear()
      modifies this
      ensures Value() == NO_RESPONSE
    {
      reason := [];
      sequenceId, errorCode, failed, timeout := 0, 0, false, false;
    }

    method MergeFrom(from: ResponseMessage)
      requires from != this
      modifies this
      ensures Value() == MergeResponse(old(Value()), from.Value())
    {
      if |from.reason| > 0 {
        reason := from.reason;
      }
      if from.sequenceId != 0 {
        sequenceId := from.sequenceId;
      }
      if from.errorCode != 0 {
        errorCode := from.errorCode;
      }
      if from.failed {
        failed := from.failed;
      }
      if from.timeout {
        timeout := from.timeout;
      }
    }

    method InternalSerialize(target: ByteString) returns (out: ByteString)
      ensures out == target + SerializeResponse(Value())
    {
      hide EncodeFields, WriteVarint, WriteRecord, SignExtend;
      ghost var a, b, c := VarintUnlessZero(1, sequenceId), VarintUnlessZero(2, Bit(failed)),
                           VarintUnlessZero(3, SignExtend(errorCode));
      ghost var d, e := RecordUnlessEmpty(4, reason), VarintUnlessZero(5, Bit(timeout));
      NothingWritten(target);
      TruncateSignExtend(errorCode);
      out := target;
      if sequenceId != 0 {
        out := WriteVarint(1, sequenceId, out);
      }
      if failed {
        out := WriteVarint(2, Bit(failed), out);
      }
      assert out == target + EncodeFields(a) + EncodeFields(b);
      AppendFields(target, a, b);
      if errorCode != 0 {
        out := WriteVarint(3, SignExtend(errorCode), out);
      }
      assert out == target + EncodeFields(a + b) + EncodeFields(c);
      AppendFields(target, a + b, c);
      if |reason| > 0 {
        out := WriteRecord(4, reason, out);
      }
      assert out == target + EncodeFields(a + b + c) + EncodeFields(d);
      AppendFields(target, a + b + c, d);
      if timeout {
        out := WriteVarint(5, Bit(timeout), out);
      }
      assert out == target + EncodeFields(a + b + c + d) + EncodeFields(e);
      AppendFields(target, a + b + c + d, e);
    }

    method ByteSizeLong() returns (total: nat)
      ensures total == |SerializeResponse(Value())|
    {
      hide EncodeFields, VarintSize, SignExtend;
      total := 0;
      if |reason| > 0 {
        total := total + 1 + VarintSize(|reason|) + |reason|;
      }
      if sequenceId != 0 {
        total := total + 1 + VarintSize(sequenceId);
      }
      if errorCode != 0 {
        total := total + 1 + VarintSize(SignExtend(errorCode));
      }
      if failed {
        total := total + 1 + 1;
      }
      if timeout {
        total := total + 1 + 1;
      }
      OneByteBool();
      NothingWritten([]);
      TruncateSignExtend(errorCode);
      SizeOfVarint(1, sequenceId);
      SizeOfVarint(2, Bit(failed));
      SizeOfVarint(3, SignExtend(errorCode));
      SizeOfRecord(4, reason);
      SizeOfVarint(5, Bit(timeout));
      SizeOfFive(VarintUnlessZero(1, sequenceId), VarintUnlessZero(2, Bit(failed)),
                 VarintUnlessZero(3, SignExtend(errorCode)), RecordUnlessEmpty(4, reason),
                 VarintUnlessZero(5, Bit(timeout)));
    }

    method InternalParse(valid: TextCheck, input: ByteString) returns (ok: bool)
      modifies this
      ensures ok == ParseResponse(valid, old(Value()), input).Some?
      ensures ok ==> Value() == ParseResponse(valid, old(Value()), input).value
    {
      hide ReadTag, ReadVarint, ReadRecord, ReadField, ReadPayload, Truncate32, ParseResponse;
      var rest := input;
      while rest != []
        invariant ParseResponse(valid, old(Value()), input) == ParseResponse(valid, Value(), rest)
        decreases |rest|
      {
        ReadFieldByTag(rest);
        ParseResponseStep(valid, Value(), rest);
        var tagged := ReadTag(rest);
        if tagged.None? {
          return false;
        }
        var (tag, after) := tagged.value;
        if tag / 8 == 1 && tag % 256 == 8 {
          var v := ReadVarint(after);
          if v.None? { return false; }
          sequenceId, rest := v.value.0, v.value.1;
        } else if tag / 8 == 2 && tag % 256 == 16 {
          var v := ReadVarint(after);
          if v.None? { return false; }
          failed, rest := v.value.0 != 0, v.value.1;
        } else if tag / 8 == 3 && tag % 256 == 24 {
          var v := ReadVarint(after);
          if v.None? { return false; }
          errorCode, rest := Truncate32(v.value.0), v.value.1;
        } else if tag / 8 == 4 && tag % 256 == 34 {
          var v := ReadRecord(after);
          if v.None? || !valid(v.value.0) { return false; }
          reason, rest := v.value.0, v.value.1;
        } else if tag / 8 == 5 && tag % 256 == 40 {
          var v := ReadVarint(after);
          if v.None? { return false; }
          timeout, rest := v.value.0 != 0, v.value.1;
        } else {
          if tag % 8 == WIRE_END_GROUP || tag == 0 {
            return false;
          }
          var u := ReadPayload(tag / 8, tag % 8, after);
          if u.None? { return false; }
          rest := u.value.1;
        }
      }
      ParseResponseStep(valid, Value(), rest);
      return true;
    }
  }

  // ---------------------------------------------------------------- annotations

  lemma NothingListed(data: Annotations)
    ensures EntryRecords([], data) == [] && SizeInOrder([], data) == 0
  {}

  /** The iterator has visited `order` and has `left` in front of it. */
  ghost predicate Visiting(order: seq<ByteString>, left: set<ByteString>, data: Annotations) {
    && Distinct(order)
    && (forall k :: k in data <==> k in order || k in left)
    && (forall k :: k in order ==> k !in left)
  }

  lemma VisitNone(data: Annotations)
    ensures Visiting([], data.Keys, data)
  {}

  lemma VisitNext(order: seq<ByteString>, left: set<ByteString>, key: ByteString, data: Annotations)
    requires Visiting(order, left, data) && key in left
    ensures key in data && Visiting(order + [key], left - {key}, data)
  {}

  lemma VisitedAll(order: seq<ByteString>, data: Annotations)
    requires Visiting(order, {}, data)
    ensures Lists(order, data)
  {}

  lemma Regroup3(a: seq<Field>, b: seq<Field>, c: seq<Field>)
    ensures a + b + c == a + (b + c)
  {}

  lemma {:induction false} ListedNext(order: seq<ByteString>, key: ByteString, data: Annotations)
    requires key in data
    ensures EntryRecords(order + [key], data) ==
              EntryRecords(order, data) + [RecordField(6, SerializeEntry(Entry(key, data[key])))]
  {
    hide SerializeEntry;
    if order == [] {
      assert order + [key] == [key] && [key][1..] == [];
    } else {
      assert (order + [key])[1..] == order[1..] + [key];
      ListedNext(order[1..], key, data);
    }
  }

  /** The length of one entry as it is counted: the two texts, their tags and lengths, and the entry's own. */
  lemma EntrySize(data: Annotations, key: ByteString)
    requires key in data
    ensures var value := data[key];
            var inner := 2 + VarintSize(|key|) + |key| + VarintSize(|value|) + |value|;
            SizeOfEntry(data, key) == 1 + VarintSize(inner) + inner
  {
    hide EncodeFields, VarintSize;
    var value := data[key];
    SizeOfRecord(1, key);
    SizeOfRecord(2, value);
    assert EntryFields(Entry(key, value)) == [RecordField(1, key)] + [RecordField(2, value)];
    EncodeFieldsAppend([RecordField(1, key)], [RecordField(2, value)]);
    SizeOfRecord(6, SerializeEntry(Entry(key, value)));
  }

  lemma ListsAgree(a: seq<ByteString>, b: seq<ByteString>, data: Annotations)
    requires Lists(a, data) && Lists(b, data)
    ensures Distinct(a) && Distinct(b) && forall k :: k in a <==> k in b
  {
    forall k ensures k in a <==> k in b {
      assert k in data.Keys <==> k in a;
      assert k in data.Keys <==> k in b;
    }
  }

  class RpcMetaMessage {
    var typ: int32
    var serviceId: uint32
    var encoding: int32
    var requestInfo: RequestMessage?
    var responseInfo: ResponseMessage?
    var metaData: Annotations

    ghost function Value(): RpcMeta
      reads this, requestInfo, responseInfo
    {
      RpcMeta(typ, serviceId, encoding,
              if requestInfo == null then None else Some(requestInfo.Value()),
              if responseInfo == null then None else Some(responseInfo.Value()),
              metaData)
    }

    constructor ()
      ensures Value() == NO_META
      ensures requestInfo == null && responseInfo == null
    {
      typ, serviceId, encoding := 0, 0, 0;
      requestInfo, responseInfo, metaData := null, null, map[];
    }

    method Clear()
      modifies this
      ensures Value() == NO_META
      ensures requestInfo == null && responseInfo == null
    {
      metaData := map[];
      requestInfo, responseInfo := null, null;
      typ, serviceId, encoding := 0, 0, 0;
    }

    /** The sub-message, created when absent. */
    method MutableRequestInfo() returns (r: RequestMessage)
      modifies this`requestInfo
      ensures requestInfo == r
      ensures old(requestInfo) != null ==> r == old(requestInfo)
      ensures old(requestInfo) == null ==> fresh(r)
      ensures r.Value() == RequestOf(old(Value()))
    {
      if requestInfo == null {
        requestInfo := new RequestMessage();
      }
      r := requestInfo;
    }

    method MutableResponseInfo() returns (r: ResponseMessage)
      modifies this`responseInfo
      ensures responseInfo == r
      ensures old(responseInfo) != null ==> r == old(responseInfo)
      ensures old(responseInfo) == null ==> fresh(r)
      ensures r.Value() == ResponseOf(old(Value()))
    {
      if responseInfo == null {
        responseInfo := new ResponseMessage();
      }
      r := responseInfo;
    }

    method MergeRequestInfo(from: RequestMessage)
      requires requestInfo != from
      modifies this`requestInfo, requestInfo
      ensures requestInfo == old(requestInfo) || fresh(requestInfo)
      ensures Value() == old(Value()).(requestInfo := Some(MergeRequest(RequestOf(old(Value())), from.Value())))
    {
      hide MergeRequest;
      var r := MutableRequestInfo();
      r.MergeFrom(from);
    }

    method MergeResponseInfo(from: ResponseMessage)
      requires responseInfo != from
      modifies this`responseInfo, responseInfo
      ensures responseInfo == old(responseInfo) || fresh(responseInfo)
      ensures Value() == old(Value()).(responseInfo := Some(MergeResponse(ResponseOf(old(Value())), from.Value())))
    {
      hide MergeResponse;
      var r := MutableResponseInfo();
      r.MergeFrom(from);
    }

    method MergeSubMessages(from: RpcMetaMessage)
      requires from != this
      requires requestInfo == null || requestInfo != from.requestInfo
      requires responseInfo == null || responseInfo != from.responseInfo
      modifies this`requestInfo, this`responseInfo, requestInfo, responseInfo
      ensures var to, merged := old(Value()), Merge(old(Value()), from.Value());
              Value() == to.(requestInfo := merged.requestInfo, responseInfo := merged.responseInfo)
      ensures from.Value() == old(from.Value())
    {
      hide MergeRequest, MergeResponse;
      ghost var to, f := Value(), from.Value();
      if from.requestInfo != null {
        MergeRequestInfo(from.requestInfo);
      }
      assert from.Value() == f && Value() == to.(requestInfo := Merge(to, f).requestInfo);
      if from.responseInfo != null {
        MergeResponseInfo(from.responseInfo);
      }
    }

    method MergeScalars(typ: int32, serviceId: uint32, encoding: int32)
      modifies this`typ, this`serviceId, this`encoding
      ensures this.typ == if typ != 0 then typ else old(this.typ)
      ensures this.serviceId == if serviceId != 0 then serviceId else old(this.serviceId)
      ensures this.encoding == if encoding != 0 then encoding else old(this.encoding)
    {
      if typ != 0 {
        this.typ := typ;
      }
      if serviceId != 0 {
        this.serviceId := serviceId;
      }
      if encoding != 0 {
        this.encoding := encoding;
      }
    }

    /** Messages own their sub-messages: `from` shares none with this one. */
    method MergeFrom(from: RpcMetaMessage)
      requires from != this
      requires requestInfo == null || requestInfo != from.requestInfo
      requires responseInfo == null || responseInfo != from.responseInfo
      modifies this, requestInfo, responseInfo
      ensures Value() == Merge(old(Value()), from.Value())
      ensures from.Value() == old(from.Value())
    {
      hide MergeRequest, MergeResponse;
      metaData := metaData + from.metaData;
      MergeSubMessages(from);
      MergeScalars(from.typ, from.serviceId, from.encoding);
    }

    /** Clear and merge: the copy equals the original, and the original is untouched. */
    method CopyFrom(from: RpcMetaMessage)
      requires requestInfo == null || from == this || requestInfo != from.requestInfo
      requires responseInfo == null || from == this || responseInfo != from.responseInfo
      modifies this
      ensures Value() == old(from.Value()) == from.Value()
    {
      if from == this {
        return;
      }
      Clear();
      MergeFrom(from);
    }

    /** Everything but the annotations, in wire order. */
    method SerializeFixed(target: ByteString) returns (out: ByteString)
      ensures out == target + EncodeFields(FixedFields(Value()))
    {
      hide EncodeFields, WriteVarint, WriteRecord, SignExtend, SerializeRequest, SerializeResponse;
      ghost var a, b, c := VarintUnlessZero(1, SignExtend(typ)), VarintUnlessZero(2, serviceId),
                           VarintUnlessZero(3, SignExtend(encoding));
      ghost var d, e := RequestRecord(Value()), ResponseRecord(Value());
      NothingWritten(target);
      TruncateSignExtend(typ);
      TruncateSignExtend(encoding);
      out := target;
      if typ != 0 {
        out := WriteVarint(1, SignExtend(typ), out);
      }
      if serviceId != 0 {
        out := WriteVarint(2, serviceId, out);
      }
      assert out == target + EncodeFields(a) + EncodeFields(b);
      AppendFields(target, a, b);
      if encoding != 0 {
        out := WriteVarint(3, SignExtend(encoding), out);
      }
      assert out == target + EncodeFields(a + b) + EncodeFields(c);
      AppendFields(target, a + b, c);
      if requestInfo != null {
        var bytes := requestInfo.InternalSerialize([]);
        assert bytes == SerializeRequest(requestInfo.Value());
        out := WriteRecord(4, bytes, out);
      }
      assert out == target + EncodeFields(a + b + c) + EncodeFields(d);
      AppendFields(target, a + b + c, d);
      if responseInfo != null {
        var bytes := responseInfo.InternalSerialize([]);
        assert bytes == SerializeResponse(responseInfo.Value());
        out := WriteRecord(5, bytes, out);
      }
      assert out == target + EncodeFields(a + b + c + d) + EncodeFields(e);
      AppendFields(target, a + b + c + d, e);
    }

    /** The annotations come last, in an order that the map's iterator chooses. */
    method InternalSerialize(target: ByteString) returns (out: ByteString, order: seq<ByteString>)
      ensures Lists(order, metaData)
      ensures out == target + Serialize(Value(), order)
    {
      hide EncodeFields, WriteRecord, SerializeEntry, FixedFields, EntryRecords, Lists, Visiting;
      out := SerializeFixed(target);
      ghost var fixed := FixedFields(Value());
      order := [];
      NothingListed(metaData);
      VisitNone(metaData);
      assert fixed + [] == fixed;
      var left := metaData.Keys;
      while left != {}
        invariant Visiting(order, left, metaData)
        invariant out == target + EncodeFields(fixed + EntryRecords(order, metaData))
      {
        var key :| key in left;
        assert key in metaData by { VisitNext(order, left, key, metaData); }
        var bytes := SerializeEntry(Entry(key, metaData[key]));
        out := WriteRecord(6, bytes, out);
        AppendFields(target, fixed + EntryRecords(order, metaData), [RecordField(6, bytes)]);
        ListedNext(order, key, metaData);
        Regroup3(fixed, EntryRecords(order, metaData), [RecordField(6, bytes)]);
        VisitNext(order, left, key, metaData);
        order := order + [key];
        left := left - {key};
      }
      VisitedAll(order, metaData);
    }

    method FixedSize() returns (total: nat)
      ensures total == |EncodeFields(FixedFields(Value()))|
    {
      hide EncodeFields, VarintSize, SignExtend, SerializeRequest, SerializeResponse;
      NothingWritten([]);
      total := 0;
      if requestInfo != null {
        var size := requestInfo.ByteSizeLong();
        total := total + 1 + VarintSize(size) + size;
        SizeOfRecord(4, SerializeRequest(requestInfo.Value()));
      }
      if responseInfo != null {
        var size := responseInfo.ByteSizeLong();
        total := total + 1 + VarintSize(size) + size;
        SizeOfRecord(5, SerializeResponse(responseInfo.Value()));
      }
      if typ != 0 {
        total := total + 1 + VarintSize(SignExtend(typ));
      }
      if serviceId != 0 {
        total := total + 1 + VarintSize(serviceId);
      }
      if encoding != 0 {
        total := total + 1 + VarintSize(SignExtend(encoding));
      }
      TruncateSignExtend(typ);
      TruncateSignExtend(encoding);
      SizeOfVarint(1, SignExtend(typ));
      SizeOfVarint(2, serviceId);
      SizeOfVarint(3, SignExtend(encoding));
      SizeOfFive(VarintUnlessZero(1, SignExtend(typ)), VarintUnlessZero(2, serviceId),
                 VarintUnlessZero(3, SignExtend(encoding)), RequestRecord(Value()), ResponseRecord(Value()));
    }

    method EntriesSize() returns (total: nat, order: seq<ByteString>)
      ensures Lists(order, metaData) && total == SizeInOrder(order, metaData)
    {
      hide EncodeFields, EntryRecords, SizeInOrder, SizeOfEntry, VarintSize, Lists, Visiting;
      var left := metaData.Keys;
      total := 1 * |left|;
      order := [];
      NothingListed(metaData);
      VisitNone(metaData);
      while left != {}
        invariant Visiting(order, left, metaData)
        invariant total == SizeInOrder(order, metaData) + |left|
      {
        var key :| key in left;
        assert key in metaData by { VisitNext(order, left, key, metaData); }
        var value := metaData[key];
        var inner := 2 + VarintSize(|key|) + |key| + VarintSize(|value|) + |value|;
        total := total + inner + VarintSize(inner);
        EntrySize(metaData, key);
        ListedNext(order, key, metaData);
        SizeInside(order, key, [], metaData);
        assert order + [key] + [] == order + [key] && order + [] == order;
        VisitNext(order, left, key, metaData);
        order := order + [key];
        left := left - {key};
      }
      VisitedAll(order, metaData);
    }

    /** The annotations are counted first, and the size is that of a serialization in any order. */
    method ByteSizeLong() returns (total: nat)
      ensures forall order :: Lists(order, metaData) ==> total == |Serialize(Value(), order)|
    {
      hide EncodeFields, FixedFields, EntryRecords, SerializeEntry, Lists, Distinct;
      var entries, order := EntriesSize();
      var fixed := FixedSize();
      forall other | Lists(other, metaData) ensures entries + fixed == |Serialize(Value(), other)| {
        EncodeFieldsAppend(FixedFields(Value()), EntryRecords(other, metaData));
        ListsAgree(order, other, metaData);
        SameSize(order, other, metaData);
      }
      return entries + fixed;
    }

    /** A repeated sub-message is parsed on top of the one already there. */
    method ParseRequestInfo(valid: TextCheck, bytes: ByteString) returns (ok: bool)
      modifies this`requestInfo, requestInfo
      ensures requestInfo == old(requestInfo) || fresh(requestInfo)
      ensures var r := ParseRequest(valid, RequestOf(old(Value())), bytes);
              ok == r.Some? && (ok ==> Value() == old(Value()).(requestInfo := r))
    {
      var r := MutableRequestInfo();
      ok := r.InternalParse(valid, bytes);
    }

    method ParseResponseInfo(valid: TextCheck, bytes: ByteString) returns (ok: bool)
      modifies this`responseInfo, responseInfo
      ensures responseInfo == old(responseInfo) || fresh(responseInfo)
      ensures var r := ParseResponse(valid, ResponseOf(old(Value())), bytes);
              ok == r.Some? && (ok ==> Value() == old(Value()).(responseInfo := r))
    {
      var r := MutableResponseInfo();
      ok := r.InternalParse(valid, bytes);
    }

    /** One turn of the loop: the tag selects the case; None when the bytes are refused. */
    method ParseOneField(valid: TextCheck, b: ByteString) returns (after: Option<ByteString>)
      modifies this, requestInfo, responseInfo
      ensures requestInfo == old(requestInfo) || fresh(requestInfo)
      ensures responseInfo == old(responseInfo) || fresh(responseInfo)
      ensures ReadField(b).None? ==> after == None
      ensures ReadField(b).Some? ==>
                var (f, rest) := ReadField(b).value;
                match ApplyMeta(valid, old(Value()), f)
                case None => after == None
                case Some(m) => after == Some(rest) && Value() == m
    {
      hide ReadTag, ReadVarint, ReadRecord, ReadField, ReadPayload, Truncate32, ParseRequest, ParseResponse, ParseEntry;
      ReadFieldByTag(b);
      var tagged := ReadTag(b);
      if tagged.None? {
        return None;
      }
      var (tag, payload) := tagged.value;
      if tag / 8 == 1 && tag % 256 == 8 {
        var v := ReadVarint(payload);
        if v.None? { return None; }
        typ := Truncate32(v.value.0);
        return Some(v.value.1);
      } else if tag / 8 == 2 && tag % 256 == 16 {
        var v := ReadVarint(payload);
        if v.None? { return None; }
        serviceId := v.value.0 % TWO32;
        return Some(v.value.1);
      } else if tag / 8 == 3 && tag % 256 == 24 {
        var v := ReadVarint(payload);
        if v.None? { return None; }
        encoding := Truncate32(v.value.0);
        return Some(v.value.1);
      } else if tag / 8 == 4 && tag % 256 == 34 {
        var v := ReadRecord(payload);
        if v.None? { return None; }
        var ok := ParseRequestInfo(valid, v.value.0);
        return if ok then Some(v.value.1) else None;
      } else if tag / 8 == 5 && tag % 256 == 42 {
        var v := ReadRecord(payload);
        if v.None? { return None; }
        var ok := ParseResponseInfo(valid, v.value.0);
        return if ok then Some(v.value.1) else None;
      } else if tag / 8 == 6 && tag % 256 == 50 {
        var v := ReadRecord(payload);
        if v.None? { return None; }
        var e := ParseEntry(valid, v.value.0);
        if e.None? { return None; }
        metaData := metaData[e.value.key := e.value.value];
        return Some(v.value.1);
      }
      if tag % 8 == WIRE_END_GROUP || tag == 0 {
        return None;
      }
      var u := ReadPayload(tag / 8, tag % 8, payload);
      return if u.None? then None else Some(u.value.1);
    }

    method InternalParse(valid: TextCheck, input: ByteString) returns (ok: bool)
      modifies this, requestInfo, responseInfo
      ensures ok == ParseMeta(valid, old(Value()), input).Some?
      ensures ok ==> Value() == ParseMeta(valid, old(Value()), input).value
    {
      hide ReadField, ParseMeta, ApplyMeta;
      var rest := input;
      while rest != []
        invariant requestInfo == old(requestInfo) || fresh(requestInfo)
        invariant responseInfo == old(responseInfo) || fresh(responseInfo)
        invariant ParseMeta(valid, old(Value()), input) == ParseMeta(valid, Value(), rest)
        decreases |rest|
      {
        ParseMetaStep(valid, Value(), rest);
        var after := ParseOneField(valid, rest);
        if after.None? {
          return false;
        }
        rest := after.value;
      }
      ParseMetaStep(valid, Value(), rest);
      return true;
    }
  }
}
