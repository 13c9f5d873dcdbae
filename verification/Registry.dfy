/**
  The two-level registry of message handlers, by message type and by service id, and the way local
  timeout notices reach a client through it.
*/
module Registry {
  import opened Bytes
  import opened Meta

  /** Names a registered handler. */
  type Handler = nat

  type Nested = map<int32, map<uint32, Handler>>
  type Flat = map<(int32, uint32), Handler>

  /** What dispatching a message does: call one handler, or throw. */
  datatype Dispatch = Call(handler: Handler) | UnknownType | UnknownService

  /** The registry as one table. */
  function Flatten(n: Nested): Flat {
    map t, s | t in n && s in n[t] :: (t, s) := n[t][s]
  }

  /** No inner table is kept empty. */
  predicate Tidy(n: Nested) {
    forall t :: t in n ==> n[t] != map[]
  }

  datatype Op =
    | Register(typ: int32, serviceId: uint32, handler: Handler)
    | Remove(typ: int32, serviceId: uint32)
    | RemoveAll

  function ApplyFlat(f: Flat, op: Op): (r: (Flat, bool)) {
    match op
    case Register(t, s, h) => if (t, s) in f then (f, false) else (f[(t, s) := h], true)
    case Remove(t, s) => (f - {(t, s)}, true)
    case RemoveAll => (map[], true)
  }

  function ApplyNested(n: Nested, op: Op): (r: (Nested, bool)) {
    match op
    case Register(t, s, h) =>
      var inner := if t in n then n[t] else map[];
      if s in inner then (n, false) else (n[t := inner[s := h]], true)
    case Remove(t, s) =>
      if t !in n then (n, true)
      else
        var inner := n[t] - {s};
        (if inner == map[] then n - {t} else n[t := inner], true)
    case RemoveAll => (map[], true)
  }

  function Look(n: Nested, m: RpcMeta): Dispatch {
    if m.typ !in n then UnknownType
    else if m.serviceId !in n[m.typ] then UnknownService
    else Call(n[m.typ][m.serviceId])
  }

  predicate Has(n: Nested, t: int32, s: uint32) {
    t in n && s in n[t]
  }

  lemma FlattenHas(n: Nested, t: int32, s: uint32)
    ensures (t, s) in Flatten(n) <==> Has(n, t, s)
    ensures Has(n, t, s) ==> Flatten(n)[(t, s)] == n[t][s]
  {}

  /** Two registries that agree on every key have the same flat table. */
  lemma FlattenIs(n: Nested, f: Flat)
    requires forall t: int32, s: uint32 :: Has(n, t, s) <==> (t, s) in f
    requires forall t: int32, s: uint32 :: Has(n, t, s) ==> f[(t, s)] == n[t][s]
    ensures Flatten(n) == f
  {
    forall k: (int32, uint32) ensures k in f <==> k in Flatten(n) {
      assert k == (k.0, k.1);
      assert Has(n, k.0, k.1) <==> k in f;
    }
    forall k: (int32, uint32) | k in f ensures f[k] == Flatten(n)[k] {
      assert k == (k.0, k.1);
      assert Has(n, k.0, k.1);
    }
  }

  lemma RegisterRefines(n: Nested, t: int32, s: uint32, h: Handler)
    requires Tidy(n)
    ensures var (n', ok) := ApplyNested(n, Register(t, s, h));
            Tidy(n') && (Flatten(n'), ok) == ApplyFlat(Flatten(n), Register(t, s, h))
  {
    hide Flatten;
    forall t', s' { FlattenHas(n, t', s'); }
    if !Has(n, t, s) {
      var n' := ApplyNested(n, Register(t, s, h)).0;
      assert s in n'[t];
      FlattenIs(n', Flatten(n)[(t, s) := h]);
    }
  }

  lemma RemoveRefines(n: Nested, t: int32, s: uint32)
    requires Tidy(n)
    ensures var n' := ApplyNested(n, Remove(t, s)).0;
            Tidy(n') && Flatten(n') == Flatten(n) - {(t, s)}
  {
    hide Flatten;
    forall t', s' { FlattenHas(n, t', s'); }
    var n' := ApplyNested(n, Remove(t, s)).0;
    forall t', s' ensures Has(n', t', s') <==> Has(n, t', s') && (t', s') != (t, s) {
      if t' == t && t in n && n[t] - {s} == map[] {
        assert s' !in n[t] - {s};
      }
    }
    FlattenIs(n', Flatten(n) - {(t, s)});
  }

  /** One operation on the nested tables is the same operation on the flat one, with the same answer. */
  lemma StepRefines(n: Nested, op: Op)
    requires Tidy(n)
    ensures Tidy(ApplyNested(n, op).0)
    ensures Flatten(ApplyNested(n, op).0) == ApplyFlat(Flatten(n), op).0
    ensures ApplyNested(n, op).1 == ApplyFlat(Flatten(n), op).1
  {
    match op
    case Register(t, s, h) => RegisterRefines(n, t, s, h);
    case Remove(t, s) => RemoveRefines(n, t, s);
    case RemoveAll =>
  }

  function RunFlat(f: Flat, ops: seq<Op>): (Flat, seq<bool>)
    decreases |ops|
  {
    if ops == [] then (f, [])
    else
      var (f', ok) := ApplyFlat(f, ops[0]);
      var (f'', oks) := RunFlat(f', ops[1..]);
      (f'', [ok] + oks)
  }

  function RunNested(n: Nested, ops: seq<Op>): (Nested, seq<bool>)
    decreases |ops|
  {
    if ops == [] then (n, [])
    else
      var (n', ok) := ApplyNested(n, ops[0]);
      var (n'', oks) := RunNested(n', ops[1..]);
      (n'', [ok] + oks)
  }

  /** Any sequence of operations keeps the two in step, answers included, and leaves no empty inner table. */
  lemma {:induction false} RunRefines(n: Nested, ops: seq<Op>)
    requires Tidy(n)
    ensures Tidy(RunNested(n, ops).0)
    ensures Flatten(RunNested(n, ops).0) == RunFlat(Flatten(n), ops).0
    ensures RunNested(n, ops).1 == RunFlat(Flatten(n), ops).1
    decreases |ops|
  {
    hide ApplyNested, ApplyFlat, Flatten, Tidy;
    if ops != [] {
      StepRefines(n, ops[0]);
      RunRefines(ApplyNested(n, ops[0]).0, ops[1..]);
    }
  }

  /** Dispatch calls the handler of the flat table, and throws exactly when that table has none. */
  lemma DispatchIsFlat(n: Nested, m: RpcMeta)
    requires Tidy(n)
    ensures forall h :: Look(n, m) == Call(h) <==>
                          (m.typ, m.serviceId) in Flatten(n) && Flatten(n)[(m.typ, m.serviceId)] == h
    ensures Look(n, m) == UnknownType <==> forall s :: (m.typ, s) !in Flatten(n)
  {
    if m.typ in n {
      var s :| s in n[m.typ];
      assert (m.typ, s) in Flatten(n);
    }
  }

  /** The message a scheduled timeout sends into the registry: its service id is left at the default. */
  function TimeoutNotice(id: uint64): RpcMeta {
    NO_META.(typ := RESPONSE, responseInfo := Some(NO_RESPONSE.(timeout := true, sequenceId := id)))
  }

  /**
    A scheduled timeout reaches the response handler of the service it was armed for, whatever the
    registry holds, exactly when that service has id 0.
  */
  lemma TimeoutNoticeReachesServiceZero(service: uint32, id: uint64)
    ensures (forall n: Nested :: Tidy(n) && (RESPONSE, service) in Flatten(n) ==>
               Look(n, TimeoutNotice(id)) == Call(Flatten(n)[(RESPONSE, service)]))
            <==> service == 0
  {
    hide Flatten;
    if service == 0 {
      forall n: Nested | Tidy(n) && (RESPONSE, service) in Flatten(n)
        ensures Look(n, TimeoutNotice(id)) == Call(Flatten(n)[(RESPONSE, service)])
      {
        FlattenHas(n, RESPONSE, service);
      }
    } else {
      var n: Nested := map[RESPONSE := map[service := 7]];
      FlattenHas(n, RESPONSE, service);
      assert Look(n, TimeoutNotice(id)) == UnknownService;
    }
  }

  class RpcTypeHandleManager {
    var mTypeHandlers: Nested

    ghost predicate Valid()
      reads this
    {
      Tidy(mTypeHandlers)
    }

    constructor ()
      ensures Valid() && Flatten(mTypeHandlers) == map[]
    {
      mTypeHandlers := map[];
    }

    method RegisterTypeHandle(typ: int32, handler: Handler, serviceId: uint32) returns (ok: bool)
      requires Valid()
      modifies this
      ensures Valid()
      ensures ok <==> (typ, serviceId) !in old(Flatten(mTypeHandlers))
      ensures ok ==> Flatten(mTypeHandlers) == old(Flatten(mTypeHandlers))[(typ, serviceId) := handler]
      ensures !ok ==> mTypeHandlers == old(mTypeHandlers)
    {
      hide Flatten;
      RegisterRefines(mTypeHandlers, typ, serviceId, handler);
      FlattenHas(mTypeHandlers, typ, serviceId);
      var before := mTypeHandlers;
      // operator[] creates the inner table before the lookup
      if typ !in mTypeHandlers {
        mTypeHandlers := mTypeHandlers[typ := map[]];
      }
      if serviceId in mTypeHandlers[typ] {
        return false;
      }
      var serviceMap: map<uint32, Handler> := mTypeHandlers[typ];
      mTypeHandlers := mTypeHandlers[typ := serviceMap[serviceId := handler]];
      assert mTypeHandlers == ApplyNested(before, Register(typ, serviceId, handler)).0;
      return true;
    }

    method RemoveTypeHandle(typ: int32, serviceId: uint32)
      requires Valid()
      modifies this
      ensures Valid()
      ensures Flatten(mTypeHandlers) == old(Flatten(mTypeHandlers)) - {(typ, serviceId)}
    {
      hide Flatten;
      RemoveRefines(mTypeHandlers, typ, serviceId);
      FlattenHas(mTypeHandlers, typ, serviceId);
      var before := mTypeHandlers;
      if typ !in mTypeHandlers {
        return;
      }
      mTypeHandlers := mTypeHandlers[typ := mTypeHandlers[typ] - {serviceId}];
      if mTypeHandlers[typ] == map[] {
        mTypeHandlers := mTypeHandlers - {typ};
      }
      assert mTypeHandlers == ApplyNested(before, Remove(typ, serviceId)).0;
    }

    method RemoveAll()
      modifies this
      ensures Valid()
      ensures Flatten(mTypeHandlers) == map[]
    {
      mTypeHandlers := map[];
    }

    method HandleRpcMsg(m: RpcMeta) returns (d: Dispatch)
      ensures d == Look(mTypeHandlers, m)
    {
      if m.typ !in mTypeHandlers {
        return UnknownType;
      }
      var serviceMap := mTypeHandlers[m.typ];
      if m.serviceId !in serviceMap {
        return UnknownService;
      }
      return Call(serviceMap[m.serviceId]);
    }
  }
}
