/**
  What the interceptors installed in front of a service or of a response handler decide: which lists
  let the stub report errors after the meta was moved on, and which responses come to their handler.
*/
module InboundChains {
  import opened Bytes
  import opened Meta
  import opened Interceptors
  import opened StandardInterceptors
  import opened Service

  // ---------------------------------------------------------------- links and the meta

  predicate Later(s: Custody, t: Custody) {
    t.replyBuilt == s.replyBuilt && (s.moved ==> t.moved)
  }

  /** Who has only a copy in hand cannot move the stub's own meta. */
  predicate Moves(own: bool, s: Custody, t: Custody) {
    Later(s, t) && (!own ==> t.moved == s.moved)
  }

  ghost predicate Keeps(after: Treatment<Custody, Future>, own: bool) {
    forall r, s :: Moves(own, s, after(r, s).1)
  }

  /**
    A link hands on the meta it has in hand or a copy of it, unchanged. It may move it away, never puts
    it back, and builds no reply object.
  */
  ghost predicate Respectful(link: Link) {
    forall m, s :: match link(m, s)
                   case Stop(_, s') => Moves(s.own, s, s')
                   case Next(m', s', after) =>
                     m' == m && Moves(s.own, s, s') && (s'.own ==> s.own) && Keeps(after, s.own)
  }

  ghost predicate AllRespectful(list: seq<Link>) {
    forall i :: 0 <= i < |list| ==> Respectful(list[i])
  }

  ghost predicate AllKeep(back: seq<Treatment<Custody, Future>>, own: bool) {
    forall i :: 0 <= i < |back| ==> Keeps(back[i], own)
  }

  lemma KeepsMore(after: Treatment<Custody, Future>, own: bool)
    requires Keeps(after, own)
    ensures Keeps(after, true)
  {}

  lemma {:induction false} DescendKeeps(list: seq<Link>, m: RpcMeta, s: Custody)
    requires AllRespectful(list)
    ensures var d := Descend(list, m, s);
            Moves(s.own, s, d.state) && (d.state.own ==> d.Stopped? || s.own) && AllKeep(d.back, s.own)
            && (d.Reached? ==> d.message == m)
    decreases |list|
  {
    hide Keeps;
    if list != [] {
      assert Respectful(list[0]);
      match list[0](m, s)
      case Stop(_, _) =>
      case Next(_, s', after) =>
        DescendKeeps(list[1..], m, s');
        var rest := Descend(list[1..], m, s').back;
        forall i | 0 <= i < |rest| ensures Keeps(rest[i], s.own) {
          if s.own {
            KeepsMore(rest[i], s'.own);
          }
        }
    }
  }

  lemma {:induction false} BackKeeps(back: seq<Treatment<Custody, Future>>, own: bool, r: Future, s: Custody)
    requires AllKeep(back, own)
    ensures Moves(own, s, Back(back, r, s).1)
    decreases |back|
  {
    if back != [] {
      BackKeeps(back[1..], own, r, s);
      assert Keeps(back[0], own);
    }
  }

  /** What a request in front of the list leads to, by the way down and the way back. */
  lemma ChainIsDownAndBack(list: seq<Link>, impl: Implementation, meta: RpcMeta, body: ByteString)
    requires AllRespectful(list) && SelectMethod(RequestOf(meta)).Some?
    requires Parses(impl.codec(SelectMethod(RequestOf(meta)).value), meta.encoding, body)
    ensures var target, d := SelectMethod(RequestOf(meta)).value, Descend(list, meta, UNTOUCHED);
            var (r, s) := match d
                          case Reached(_, s', back) =>
                            Back(back, Outcome(impl.code(target, meta, body)), HandedOver(s'))
                          case Stopped(r, s', back) => Back(back, r, s');
            && ChainOf(list, impl, meta, body) == ChainResultOf(r, s)
            && s.replyBuilt == d.Reached? && (d.Reached? && d.state.own ==> s.moved)
  {
    hide SelectMethod, Parses;
    var target := SelectMethod(RequestOf(meta)).value;
    RunIsDownAndBack(list, CallService(impl, target, body), meta, UNTOUCHED);
    DescendKeeps(list, meta, UNTOUCHED);
    match Descend(list, meta, UNTOUCHED)
    case Reached(_, s, back) => BackKeeps(back, true, Outcome(impl.code(target, meta, body)), HandedOver(s));
    case Stopped(r, s, back) => BackKeeps(back, true, r, s);
  }

  /**
    A reply object is built exactly for the requests whose body parses and that no link stops; it takes
    the stub's own meta unless a link passed a copy on.
  */
  lemma ReplyBuiltExactly(list: seq<Link>, impl: Implementation, meta: RpcMeta, body: ByteString)
    requires AllRespectful(list) && SelectMethod(RequestOf(meta)).Some?
    ensures var c, d := ChainOf(list, impl, meta, body), Descend(list, meta, UNTOUCHED);
            var codec := impl.codec(SelectMethod(RequestOf(meta)).value);
            && (c.replyBuilt <==>
                  && d.Reached?
                  && ((meta.encoding == 0 && codec.binary(body)) || (meta.encoding == 1 && codec.json(body))))
            && (c.Finished? && c.replyBuilt && d.state.own ==> c.metaMoved)
  {
    hide SelectMethod, Back, Descend;
    if Parses(impl.codec(SelectMethod(RequestOf(meta)).value), meta.encoding, body) {
      ChainIsDownAndBack(list, impl, meta, body);
    }
  }

  // ---------------------------------------------------------------- which lists report errors in time

  /** The stub sends an error for this result. */
  predicate Reports(r: Future) {
    r.Broken? || (r.Ready? && r.err.Some?)
  }

  /** What the handler in front of a service gives back: no error, or an exception. */
  predicate FromService(r: Future) {
    r == Ready(None) || r.Threw?
  }

  /** An error comes back only with the meta still in its place. */
  predicate InTime(out: (Future, Custody)) {
    Reports(out.0) ==> !out.1.moved
  }

  /**
    For a request with this meta: whether the links let it through, and whatever the service gives back
    then, or one of them stops it, what comes back at the end is in time.
  */
  ghost predicate SafeAt(list: seq<Link>, meta: RpcMeta) {
    match Descend(list, meta, UNTOUCHED)
    case Reached(_, s, back) => forall r :: FromService(r) ==> InTime(Back(back, r, HandedOver(s)))
    case Stopped(r, s, back) => InTime(Back(back, r, s))
  }

  /** The code of a service that parses every body and throws `text`, if there is one. */
  function Always(text: Option<ByteString>): Implementation {
    Implementation(_ => Codec(_ => true, _ => true), (_, _, _) => text)
  }

  /** Errors are reported in time, whatever the service does, exactly for the lists that are safe. */
  lemma SafeExactly(list: seq<Link>, meta: RpcMeta, body: ByteString)
    requires AllRespectful(list) && SelectMethod(RequestOf(meta)).Some?
    ensures (forall impl :: ErrorBeforeNext(ChainOf(list, impl, meta, body)))
            <==> (meta.encoding in {BINARY, JSON} ==> SafeAt(list, meta))
  {
    hide SelectMethod, Back, Descend;
    if meta.encoding in {BINARY, JSON} {
      if SafeAt(list, meta) {
        forall impl ensures ErrorBeforeNext(ChainOf(list, impl, meta, body)) {
          if Parses(impl.codec(SelectMethod(RequestOf(meta)).value), meta.encoding, body) {
            ChainIsDownAndBack(list, impl, meta, body);
          }
        }
      } else {
        var d := Descend(list, meta, UNTOUCHED);
        var r := if d.Reached? then var r :| FromService(r) && !InTime(Back(d.back, r, HandedOver(d.state))); r
                 else d.result;
        var impl := Always(if r.Threw? then Some(r.text) else None);
        ChainIsDownAndBack(list, impl, meta, body);
        assert !ErrorBeforeNext(ChainOf(list, impl, meta, body));
      }
    }
  }

  // ---------------------------------------------------------------- links that leave the meta alone

  ghost predicate Prompt(after: Treatment<Custody, Future>) {
    forall r: Future, s: Custody :: !r.Lost? ==> !after(r, s).0.Lost?
  }

  /** A link that hands on the meta it has, never touches it itself, and always comes to a result. */
  ghost predicate Untouching(link: Link) {
    && LeavesState(link)
    && forall m, s :: match link(m, s) case Stop(r, _) => !r.Lost? case Next(m', _, after) => m' == m && Prompt(after)
  }

  ghost predicate Mutes(after: Treatment<Custody, Future>) {
    forall r :: FromService(r) ==> !Reports(after(r, HandedOver(UNTOUCHED)).0)
  }

  /** The way back of this link makes no error of a result without error, nor of an exception. */
  ghost predicate Quiet(link: Link) {
    forall m :: link(m, UNTOUCHED).Next? ==> Mutes(link(m, UNTOUCHED).after)
  }

  ghost predicate QuietWay(back: seq<Treatment<Custody, Future>>) {
    forall i :: 0 <= i < |back| ==> Mutes(back[i]) && ReturnsState(back[i]) && Prompt(back[i])
  }

  lemma {:induction false} QuietWayDown(list: seq<Link>, m: RpcMeta)
    requires forall i :: 0 <= i < |list| ==> Untouching(list[i]) && Quiet(list[i])
    ensures var d := Descend(list, m, UNTOUCHED);
            d.state == UNTOUCHED && QuietWay(d.back)
    decreases |list|
  {
    hide Mutes, ReturnsState, Prompt;
    if list != [] {
      assert Untouching(list[0]) && Quiet(list[0]);
      match list[0](m, UNTOUCHED)
      case Stop(_, _) =>
      case Next(_, _, after) =>
        assert Mutes(after);
        QuietWayDown(list[1..], m);
    }
  }

  lemma {:induction false} QuietWayBack(back: seq<Treatment<Custody, Future>>, r: Future)
    requires QuietWay(back) && FromService(r)
    ensures FromService(Back(back, r, HandedOver(UNTOUCHED)).0)
    decreases |back|
  {
    if back != [] {
      QuietWayBack(back[1..], r);
      BackLeaves(back[1..], r, HandedOver(UNTOUCHED));
      assert Mutes(back[0]) && Prompt(back[0]);
    }
  }

  lemma QuietListSafe(list: seq<Link>, m: RpcMeta)
    requires forall i :: 0 <= i < |list| ==> Untouching(list[i]) && Quiet(list[i])
    ensures SafeAt(list, m)
  {
    QuietWayDown(list, m);
    match Descend(list, m, UNTOUCHED)
    case Reached(_, s, back) =>
      forall r | FromService(r) ensures InTime(Back(back, r, HandedOver(s))) {
        QuietWayBack(back, r);
      }
    case Stopped(r, s, back) => BackLeaves(back, r, s);
  }

  /** One link on its own: the way back is its own treatment. */
  lemma SingleLink(link: Link, m: RpcMeta, r: Future)
    requires Untouching(link) && link(m, UNTOUCHED).Next?
    ensures var after, d := link(m, UNTOUCHED).after, Descend([link], m, UNTOUCHED);
            && d.Reached? && d.state == UNTOUCHED
            && Back(d.back, r, HandedOver(UNTOUCHED)) == (after(r, HandedOver(UNTOUCHED)).0, HandedOver(UNTOUCHED))
  {}

  lemma QuietAlone(link: Link)
    requires Untouching(link) && forall m :: SafeAt([link], m)
    ensures Quiet(link)
  {
    hide Untouching, Descend, Back;
    forall m, r | link(m, UNTOUCHED).Next? && FromService(r)
      ensures !Reports(link(m, UNTOUCHED).after(r, HandedOver(UNTOUCHED)).0)
    {
      SingleLink(link, m, r);
      assert SafeAt([link], m);
    }
  }

  function Selection(links: seq<Link>, picks: seq<nat>): seq<Link>
    requires forall i :: 0 <= i < |picks| ==> picks[i] < |links|
  {
    seq(|picks|, i requires 0 <= i < |picks| => links[picks[i]])
  }

  /**
    Of links that leave the meta alone, every selection in every order is safe for every request
    exactly when each single one makes no error of a result without error and of an exception.
  */
  lemma SelectionsSafeExactly(links: seq<Link>)
    requires forall i :: 0 <= i < |links| ==> Untouching(links[i])
    ensures (forall picks: seq<nat>, m: RpcMeta :: (forall i :: 0 <= i < |picks| ==> picks[i] < |links|)
               ==> SafeAt(Selection(links, picks), m))
            <==> (forall i :: 0 <= i < |links| ==> Quiet(links[i]))
  {
    hide SafeAt, Quiet, Untouching;
    if forall i :: 0 <= i < |links| ==> Quiet(links[i]) {
      forall picks: seq<nat>, m: RpcMeta | forall i :: 0 <= i < |picks| ==> picks[i] < |links|
        ensures SafeAt(Selection(links, picks), m)
      {
        QuietListSafe(Selection(links, picks), m);
      }
    }
    if forall picks: seq<nat>, m: RpcMeta :: (forall i :: 0 <= i < |picks| ==> picks[i] < |links|)
         ==> SafeAt(Selection(links, picks), m)
    {
      forall i | 0 <= i < |links| ensures Quiet(links[i]) {
        forall m: RpcMeta ensures SafeAt([links[i]], m) {
          assert Selection(links, [i]) == [links[i]];
          assert SafeAt(Selection(links, [i]), m);
        }
        QuietAlone(links[i]);
      }
    }
  }

  // ---------------------------------------------------------------- passing a copy

  /** A link that keeps the stub's own meta and passes a copy on. */
  function PassCopy(): Link {
    (m: RpcMeta, s: Custody) => Next(m, s.(own := false), (r: Future, s': Custody) => (r, s'))
  }

  /** Behind a link that passes a copy nothing can move the stub's meta: every list is safe for every request. */
  lemma CopyMakesSafe(rest: seq<Link>, m: RpcMeta)
    requires AllRespectful(rest)
    ensures AllRespectful([PassCopy()] + rest) && SafeAt([PassCopy()] + rest, m)
  {
    var list, s := [PassCopy()] + rest, UNTOUCHED.(own := false);
    assert Respectful(PassCopy());
    assert list[1..] == rest;
    DescendKeeps(rest, m, s);
    var inner, d := Descend(rest, m, s), Descend(list, m, UNTOUCHED);
    assert d.state == inner.state && d.back[1..] == inner.back;
    forall r ensures !Back(d.back, r, HandedOver(d.state)).1.moved || inner.Stopped? {
      BackKeeps(inner.back, false, r, HandedOver(d.state));
    }
    if inner.Stopped? {
      BackKeeps(inner.back, false, inner.result, inner.state);
    }
  }

  // ---------------------------------------------------------------- the library's own links

  /** The protected call is not quiet: behind it every exception of a service becomes a late error. */
  lemma ProtectedCallIsNotQuiet()
    ensures Untouching(ProtectedCall()) && Respectful(ProtectedCall()) && !Quiet(ProtectedCall())
  {
    var link: Link := ProtectedCall();
    var r := Threw([]);
    var m := NO_META;
    assert FromService(r) && Reports(link(m, UNTOUCHED).after(r, HandedOver(UNTOUCHED)).0);
    assert !Mutes(link(m, UNTOUCHED).after);
  }

  lemma ProtectedCallUnsafe(m: RpcMeta)
    ensures !SafeAt([ProtectedCall()], m)
  {
    var link: Link := ProtectedCall();
    ProtectedCallIsNotQuiet();
    SingleLink(link, m, Threw([]));
    assert FromService(Threw([]));
  }

  /**
    Alone in front of a service, it makes an error of what a method throws, with its text; the error is
    late exactly for the requests whose method throws.
  */
  lemma ProtectedCallReportsLate(impl: Implementation, meta: RpcMeta, body: ByteString)
    requires SelectMethod(RequestOf(meta)).Some?
    ensures var target, c := SelectMethod(RequestOf(meta)).value, ChainOf([ProtectedCall()], impl, meta, body);
            && (Parses(impl.codec(target), meta.encoding, body) ==>
                  c == Finished(true, true, impl.code(target, meta, body)))
            && (!Parses(impl.codec(target), meta.encoding, body) ==> c == Thrown(false))
            && (!ErrorBeforeNext(c) <==>
                  Parses(impl.codec(target), meta.encoding, body) && impl.code(target, meta, body).Some?)
  {
    hide SelectMethod, Parses;
    var target := SelectMethod(RequestOf(meta)).value;
    var list: seq<Link> := [ProtectedCall()];
    assert list[1..] == [];
    var final := CallService(impl, target, body);
    assert Run([], final, meta, UNTOUCHED) == final(meta, UNTOUCHED);
    assert Run(list, final, meta, UNTOUCHED) == Caught(final(meta, UNTOUCHED).0, HandedOver(UNTOUCHED));
  }

  /** A link that answers every request itself with an error. */
  function Refuse(text: ByteString): Link {
    AnswerWith(Ready(Some(text)))
  }

  /** Quiet links that move the meta are another matter: a refusal behind the hop to an event loop is a late error. */
  lemma RefusalBehindTheHop(text: ByteString, m: RpcMeta)
    ensures Respectful(EventLoop(false)) && Quiet(EventLoop(false)) && Untouching(Refuse(text)) && Quiet(Refuse(text))
    ensures SafeAt([EventLoop(true), Refuse(text)], m) && !SafeAt([EventLoop(false), Refuse(text)], m)
  {
    forall inLoop: bool
      ensures SafeAt([EventLoop(inLoop), Refuse(text)], m) <==> inLoop
    {
      var list := [EventLoop(inLoop), Refuse(text)];
      assert list[1..] == [Refuse(text)];
      var s := UNTOUCHED.(moved := !inLoop);
      assert Descend([Refuse(text)], m, s) == Stopped(Ready(Some(text)), s, []);
      var d := Descend(list, m, UNTOUCHED);
      assert d.Stopped? && d.result == Ready(Some(text)) && d.state == s && |d.back| == 1;
      assert d.back[1..] == [];
      assert Back([], d.result, s) == (d.result, s);
      assert Back(d.back, d.result, s) == d.back[0](d.result, s) == (d.result, s);
    }
  }

  /** Two links that let the request through: the second one treats the result first. */
  lemma TwoLinks(first: Link, second: Link, m: RpcMeta)
    requires first(m, UNTOUCHED).Next? && first(m, UNTOUCHED).message == m
    requires var s := first(m, UNTOUCHED).state; second(m, s).Next? && second(m, s).message == m
    ensures var s := first(m, UNTOUCHED).state;
            var d := Descend([first, second], m, UNTOUCHED);
            && d.Reached? && d.state == second(m, s).state
            && forall r, t :: var (r', t') := second(m, s).after(r, t);
                              Back(d.back, r, t) == first(m, UNTOUCHED).after(r', t')
  {
    var s := first(m, UNTOUCHED).state;
    var t, a, b := second(m, s).state, first(m, UNTOUCHED).after, second(m, s).after;
    var none: seq<Link> := [];
    assert [first, second][1..] == [second] && [second][1..] == none;
    assert Descend(none, m, t) == Reached(m, t, []);
    assert [b] + [] == [b] && [a] + [b] == [a, b];
    assert Descend([second], m, s) == Reached(m, t, [b]);
    assert [a, b][1..] == [b] && [b][1..] == [];
    forall r, u ensures Back([a, b], r, u) == a(b(r, u).0, b(r, u).1) {
      assert Back([], r, u) == (r, u);
      assert Back([b], r, u) == b(r, u);
    }
  }

  /** A protected call behind the hop turns an exception into a late error; in front of the hop it never sees one. */
  lemma OrderAroundTheHop(m: RpcMeta)
    ensures SafeAt([ProtectedCall(), EventLoop(false)], m) && !SafeAt([EventLoop(false), ProtectedCall()], m)
  {
    var protect: Link, hop: Link := ProtectedCall(), EventLoop(false);
    TwoLinks(protect, hop, m);
    TwoLinks(hop, protect, m);
    assert FromService(Threw([]));
  }

  // ---------------------------------------------------------------- responses on their way to the handler

  /** A link of the inbound chain of a client; the state lists what the handler was given. */
  type ResponseLink = Interceptor<RpcMeta, seq<Arguments>, Future>

  /** The handler a caller passed: none, which a call with a timeout allows, or one that may throw. */
  datatype ResponseHandler = Absent | Present(throws: Option<ByteString>)

  function CallHandler(args: Arguments, handler: ResponseHandler):
    Interceptors.Handler<RpcMeta, seq<Arguments>, Future>
  {
    (m: RpcMeta, given: seq<Arguments>) =>
      match handler
      case Absent => (Threw([]), given)
      case Present(throws) => (Outcome(throws), given + [args])
  }

  /** The calls of the handler taken for a response: the body must parse, and the chain must let it through. */
  function HandlerCalls(codec: Codec, list: seq<ResponseLink>, p: Packet, handler: ResponseHandler): seq<Arguments> {
    if !Parses(codec, p.meta.encoding, p.body) then []
    else Run(list, CallHandler(HandlerArguments(p), handler), p.meta, []).1
  }

  predicate PassedOn(codec: Codec, list: seq<ResponseLink>, p: Packet) {
    Parses(codec, p.meta.encoding, p.body) && Descend(list, p.meta, []).Reached?
  }

  /** The taken handler is called once, with the response's arguments, exactly for a response that is passed on. */
  lemma HandlerCalledExactly(codec: Codec, list: seq<ResponseLink>, p: Packet, handler: ResponseHandler)
    requires forall i :: 0 <= i < |list| ==> LeavesState(list[i])
    ensures HandlerCalls(codec, list, p, handler)
         == if handler.Present? && PassedOn(codec, list, p) then [HandlerArguments(p)] else []
    ensures var e := p.meta.encoding;
            PassedOn(codec, list, p) <==>
              && ((e == 0 && codec.binary(p.body)) || (e == 1 && codec.json(p.body)))
              && Descend(list, p.meta, []).Reached?
  {
    if Parses(codec, p.meta.encoding, p.body) {
      var final := CallHandler(HandlerArguments(p), handler);
      RunIsDownAndBack(list, final, p.meta, []);
      DescendLeaves(list, p.meta, []);
      match Descend(list, p.meta, [])
      case Reached(m, s, back) => BackLeaves(back, final(m, s).0, final(m, s).1);
      case Stopped(r, s, back) => BackLeaves(back, r, s);
    }
  }
}
