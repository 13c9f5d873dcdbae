/**
  The promise behind a synchronous call, in the runs of two endpoints: what is written to it stands for
  a timeout, or is the answer the peer gave to the very request of that call.
*/
module SyncCalls {
  import opened Bytes
  import opened Meta
  import opened Service
  import opened InboundChains
  import opened Protocol
  import C = Client
  import R = ClientRuns

  /** The messages among `sent` that come to the handler taken for them, in a client with this inbound chain. */
  function PassingOf(codec: Codec, list: seq<ResponseLink>, sent: seq<Envelope>): R.Passing {
    i => 0 <= i < |sent| && PassedOn(codec, list, sent[i].packet)
  }

  /** What is written to the promise for a call that was taken in this way. */
  function Written(how: R.How, sent: seq<Envelope>): Arguments {
    if how.ByResponse? && how.msg < |sent| then HandlerArguments(sent[how.msg].packet) else TimeoutArguments()
  }

  /** Message `i` of the peer carries the answer `a`, which the peer gave to the request of call `n`. */
  predicate OwnAnswer(e: Endpoint, p: Endpoint, n: nat, i: nat, a: Answer) {
    && i < |p.sent|
    && AnswersRequest(p.sent[i], p, e.sent)
    && RequestId(RequestAt(p, p.sent[i].delivery, e.sent)) == n
    && a in AnswersOf(p, p.sent[i].delivery)
    && Written(R.ByResponse(i), p.sent) == ArgumentsOf(a)
  }

  /**
    What is written for message `i` is the peer's answer to the call's own request, and it looks like a
    timeout exactly when this answer is the error with code 0 and no reason.
  */
  ghost predicate TellsAnswer(e: Endpoint, p: Endpoint, n: nat, i: nat) {
    exists a :: OwnAnswer(e, p, n, i, a)
                && (Written(R.ByResponse(i), p.sent) == TimeoutArguments() <==> a == Error(0, []))
  }

  /**
    Call `n` of `e` as a synchronous one: its promise is written at most once; for a timeout exactly
    when an event of its client timed the call out and came to its callback; for a message exactly when
    the message took the call and is passed on, and then with the peer's answer to the call's own request.
  */
  ghost predicate PromiseKept(e: Endpoint, p: Endpoint, events: seq<R.Event>, n: uint64, passing: R.Passing) {
    var writes := R.Writes(e.sys.log, n, passing);
    && |writes| <= 1
    && (writes == [R.ByTimeout] <==>
          exists k :: 0 <= k < |events| && R.TimesOut(R.Exec(R.INIT, events[..k]), events[k], n))
    && (forall i :: writes == [R.ByResponse(i)] <==> R.Taken(n, R.ByResponse(i)) in e.sys.log && passing(i))
    && (forall i :: writes == [R.ByResponse(i)] ==> TellsAnswer(e, p, n, i))
  }

  lemma EntryIsOwnAnswer(e: Endpoint, p: Endpoint, n: nat, i: nat)
    requires Matched(e, p) && R.Taken(n, R.ByResponse(i)) in e.sys.log
    ensures TellsAnswer(e, p, n, i)
  {
    var k :| 0 <= k < |e.sys.log| && e.sys.log[k] == R.Taken(n, R.ByResponse(i));
    assert MatchedEntry(e.sys.log[k], e, p);
    var request := RequestAt(p, p.sent[i].delivery, e.sent).packet.meta;
    var a :| a in AnswersOf(p, p.sent[i].delivery) && p.sent[i].packet == PacketOf(request, a);
    AnswerArrives(request, a);
    TimeoutLooksLike(a);
    assert OwnAnswer(e, p, n, i, a);
  }

  lemma MatchedKeepsPromise(e: Endpoint, p: Endpoint, events: seq<R.Event>, n: uint64, passing: R.Passing)
    requires Matched(e, p) && e.sys == R.Exec(R.INIT, events) && e.sys.issued <= TWO64
    ensures PromiseKept(e, p, events, n, passing)
  {
    hide Matched, TellsAnswer, R.Writes, R.Exec, R.TimesOut;
    R.SyncPromiseSetOnce(events, n, passing);
    var writes := R.Writes(e.sys.log, n, passing);
    forall i | writes == [R.ByResponse(i)] ensures TellsAnswer(e, p, n, i) {
      EntryIsOwnAnswer(e, p, n, i);
    }
  }

  /** In every run whose chains let no error report go astray, at either end, whatever the client's inbound chain is. */
  lemma SyncCallGetsItsAnswer(service: uint32, moves: seq<Move>, policy: Policy, end: End, n: uint64,
                              codec: Codec, list: seq<ResponseLink>)
    requires Sound(policy, service)
    requires Follows(Start(service), moves, policy) && WithinCounters(Play(Start(service), moves))
    ensures var w := Play(Start(service), moves);
            var e, p := At(w, end), At(w, Other(end));
            PromiseKept(e, p, EventsAt(end, Start(service), moves), n, PassingOf(codec, list, p.sent))
  {
    hide Play, Follows, Matched, PromiseKept, Sound, EventsAt, R.Exec;
    SoundMatches(service, moves, policy);
    PlayIsRun(end, Start(service), moves);
    var w := Play(Start(service), moves);
    MatchedKeepsPromise(At(w, end), At(w, Other(end)), EventsAt(end, Start(service), moves), n,
                        PassingOf(codec, list, At(w, Other(end)).sent));
  }

  // ---------------------------------------------------------------- an answer that looks like a timeout

  /** A makes a timed call, B answers it with this error, and A gets the answer. */
  function Answered(answer: Answer): seq<Move> {
    CallMoves(R.Timed(1, C.Returns), ECHO_ID, [])
    + ([MoveB(Receive(0, Finished(true, true, None)))]
       + ([MoveB(Respond(0, answer))] + [MoveA(Receive(0, Thrown(false)))]))
  }

  lemma AnswerPlain(request: RpcMeta, a: Answer)
    ensures var p := PacketOf(request, a);
            p.body == ArgumentsOf(a).0 && p.meta.encoding == BINARY && p.meta.typ == RESPONSE
  {}

  lemma StartBegun(service: uint32)
    ensures Begun(Start(service), 0)
  {}

  lemma OneWaiting(w: World)
    requires Begun(w, 1)
    ensures w.b == Idle(w.a.service) && w.a.sys.log == [] && |w.a.sent| == 1 && w.a.sys.issued == 1
  {}

  lemma PolitePlay(w: World, moves: seq<Move>)
    requires w == Start(w.a.service) && Follows(w, moves, Polite()) && WithinCounters(Play(w, moves))
    ensures GoodWorld(Play(w, moves))
  {
    hide Play, Follows, Good;
    StartGood(w.a.service);
    PlayKeeps(w, moves, Polite());
  }

  lemma AnsweredRun(service: uint32, answer: Answer)
    ensures Follows(Start(service), Answered(answer), Polite())
    ensures var w := Play(Start(service), Answered(answer));
            && WithinCounters(w) && w.a.sys.log == [R.Taken(0, R.ByResponse(0))]
            && |w.b.sent| == 1 && HandlerArguments(w.b.sent[0].packet) == ArgumentsOf(answer)
            && w.b.sent[0].packet.body == ArgumentsOf(answer).0 && w.b.sent[0].packet.meta.encoding == BINARY
  {
    hide Play, Follows, CallMoves, SelectMethod, NotFoundReason, PacketOf, Good, Begun;
    var w0, kind := Start(service), R.Timed(1, C.Returns);
    OneCall(w0, 0, kind, ECHO_ID, [], Polite()) by { StartBegun(service); }
    var w1 := Play(w0, CallMoves(kind, ECHO_ID, []));
    OneWaiting(w1);
    PolitePlay(w0, CallMoves(kind, ECHO_ID, []));
    var m, n := MoveB(Receive(0, Finished(true, true, None))), MoveB(Respond(0, answer));
    var o := MoveA(Receive(0, Thrown(false)));
    PlayAppend(w0, CallMoves(kind, ECHO_ID, []), [m] + ([n] + [o]), Polite());
    PlayAppend(w1, [m], [n] + [o], Polite());
    PlayOne(w1, m, Polite());
    var w2 := Next(w1, m);
    PlayAppend(w2, [n], [o], Polite());
    PlayOne(w2, n, Polite());
    var w3 := Next(w2, n);
    PlayOne(w3, o, Polite());
    SelectsExactly(RequestOf(w1.a.sent[0].packet.meta), Echo);
    CallCompletes(w1.a, w1.b, 0, answer, Thrown(false));
    AnswerArrives(w1.a.sent[0].packet.meta, answer);
    AnswerPlain(w1.a.sent[0].packet.meta, answer);
  }

  /**
    The promise of a call whose service answers with code 0 and no reason is set by this answer, to what
    a timeout would have set it to.
  */
  lemma LooksLikeTimeout(service: uint32, codec: Codec)
    requires codec.binary([])
    ensures var w := Play(Start(service), Answered(Error(0, [])));
            && Follows(Start(service), Answered(Error(0, [])), Polite())
            && R.Writes(w.a.sys.log, 0, PassingOf(codec, [], w.b.sent)) == [R.ByResponse(0)]
            && Written(R.ByResponse(0), w.b.sent) == TimeoutArguments()
  {
    hide Play, Follows, Answered;
    AnsweredRun(service, Error(0, []));
    TimeoutLooksLike(Error(0, []));
    var w := Play(Start(service), Answered(Error(0, [])));
    assert PassedOn(codec, [], w.b.sent[0].packet);
    assert w.a.sys.log[1..] == [];
  }
}
