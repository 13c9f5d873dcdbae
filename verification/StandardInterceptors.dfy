/** Interceptors the library offers, as links of a chain. */
module StandardInterceptors {
  import opened Bytes
  import opened Meta
  import opened Interceptors
  import opened Service

  function Caught<S>(r: Future, s: S): (Future, S) {
    (if r.Threw? then Ready(Some(r.text)) else r, s)
  }

  /** Turns an exception of anything behind it into an error result. */
  function ProtectedCall<M, S>(): Interceptor<M, S, Future> {
    (m: M, s: S) => Next(m, s, (r: Future, s': S) => Caught(r, s'))
  }

  /** Behind a protected call nothing throws, and what does not throw is unchanged. */
  lemma ProtectedCallCatches<M, S>(list: seq<Interceptor<M, S, Future>>, final: Handler<M, S, Future>, m: M, s: S)
    ensures var inner, all := Run(list, final, m, s), Run([ProtectedCall<M, S>()] + list, final, m, s);
            && all.0 == (if inner.0.Threw? then Ready(Some(inner.0.text)) else inner.0)
            && all.1 == inner.1
  {}

  /**
    The hop to an event loop: on another thread than the loop's own, the rest of the chain runs later
    with the meta taken along. Only results come back from there, exceptions of either kind do not.
  */
  function EventLoop(inLoopThread: bool): Link {
    (m: RpcMeta, s: Custody) =>
      Next(m, if inLoopThread then s else s.(moved := s.moved || s.own),
           (r: Future, s': Custody) => (if inLoopThread || r.Ready? then r else Lost, s'))
  }

  /** Timers of the event loop: after how many seconds, for which id. */
  type Schedule = seq<(uint64, uint64)>

  function Armed(m: RpcMeta): Schedule {
    if m.requestInfo.Some? && RequestOf(m).timeout > 0 then [(RequestOf(m).timeout, RequestOf(m).sequenceId)] else []
  }

  function TimeoutCheck(): Interceptor<RpcMeta, Schedule, Future> {
    (m: RpcMeta, s: Schedule) => Next(m, s + Armed(m), (r: Future, s': Schedule) => (r, s'))
  }

  /**
    In front of a chain the timeout check only schedules: one notice for a request with a positive
    timeout, nothing for other requests and for responses.
  */
  lemma TimeoutCheckOnlySchedules(list: seq<Interceptor<RpcMeta, Schedule, Future>>,
                                  final: Handler<RpcMeta, Schedule, Future>, m: RpcMeta, s: Schedule)
    ensures Run([TimeoutCheck()] + list, final, m, s) == Run(list, final, m, s + Armed(m))
    ensures forall n :: n in Armed(m) <==>
              m.requestInfo.Some? && n == (m.requestInfo.value.timeout, m.requestInfo.value.sequenceId) && n.0 > 0
  {}
}
