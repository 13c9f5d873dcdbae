/**
  Chains of interceptors. `M` is what travels down the chain (meta, message and context), `S` the
  state that interceptors may change, `R` the result that travels back.
*/
module Interceptors {
  /** The rest of a chain, as one step. */
  type Handler<!M, !S, R> = (M, S) -> (R, S)

  /** A chain, or a link of it, in the calling convention of the code. */
  type Combination<!M, !S, !R> = (M, Handler<M, S, R>, S) -> (R, S)

  /**
    What an interceptor does when it is entered: answer by itself, or call `next` once and treat what
    comes back. The continuation handed to it is used up by the first call.
  */
  datatype Decision<!M, !S, !R> =
    | Stop(result: R, state: S)
    | Next(message: M, state: S, after: (R, S) -> (R, S))

  type Interceptor<!M, !S, !R> = (M, S) -> Decision<M, S, R>

  /** Reference meaning of a list of interceptors in front of a final handler. */
  function Run<M, S, R>(list: seq<Interceptor<M, S, R>>, final: Handler<M, S, R>, m: M, s: S): (R, S) {
    if list == [] then
      final(m, s)
    else match list[0](m, s)
         case Stop(r, s') => (r, s')
         case Next(m', s', after) =>
           var (r, s'') := Run(list[1..], final, m', s');
           after(r, s'')
  }

  /** A list of interceptors with the handler behind it, as a handler. */
  function Behind<M, S, R>(list: seq<Interceptor<M, S, R>>, final: Handler<M, S, R>): Handler<M, S, R> {
    (m, s) => Run(list, final, m, s)
  }

  /** The first part of a list runs with the second part as its continuation. */
  lemma {:induction false} RunConcat<M, S, R>(a: seq<Interceptor<M, S, R>>, b: seq<Interceptor<M, S, R>>,
                                             final: Handler<M, S, R>, m: M, s: S)
    ensures Run(a + b, final, m, s) == Run(a, Behind(b, final), m, s)
    decreases |a|
  {
    if a == [] {
      assert a + b == b;
    } else {
      assert (a + b)[1..] == a[1..] + b;
      match a[0](m, s)
      case Stop(_, _) =>
      case Next(m', s', _) => RunConcat(a[1..], b, final, m', s');
    }
  }

  /** The continuation matters only through its answers. */
  lemma {:induction false} RunExtensional<M(!new), S(!new), R>(a: seq<Interceptor<M, S, R>>, f: Handler<M, S, R>,
                                                              g: Handler<M, S, R>, m: M, s: S)
    requires forall m', s' :: f(m', s') == g(m', s')
    ensures Run(a, f, m, s) == Run(a, g, m, s)
    decreases |a|
  {
    if a != [] {
      match a[0](m, s)
      case Stop(_, _) =>
      case Next(m', s', _) => RunExtensional(a[1..], f, g, m', s');
    }
  }

  /** An interceptor that never calls `next` cuts the list: neither what follows it nor the final handler is run. */
  lemma StopperCuts<M(!new), S(!new), R>(a: seq<Interceptor<M, S, R>>, stopper: Interceptor<M, S, R>,
                                        b: seq<Interceptor<M, S, R>>, f: Handler<M, S, R>, g: Handler<M, S, R>,
                                        m: M, s: S)
    requires forall m', s' :: stopper(m', s').Stop?
    ensures Run(a + [stopper] + b, f, m, s) == Run(a + [stopper], g, m, s)
  {
    assert a + [stopper] + b == a + ([stopper] + b);
    RunConcat(a, [stopper] + b, f, m, s);
    RunConcat(a, [stopper], g, m, s);
    forall m', s' ensures Behind([stopper] + b, f)(m', s') == Behind([stopper], g)(m', s') {
      assert stopper(m', s').Stop?;
    }
    RunExtensional(a, Behind([stopper] + b, f), Behind([stopper], g), m, s);
  }

  // ---------------------------------------------------------------- the way down and the way back

  /** What becomes of a result on its way back through one link. */
  type Treatment<!S, !R> = (R, S) -> (R, S)

  /**
    The way down a list: either the handler behind it is reached or some link stops; `back` holds what
    the links entered before will do with the result, outermost first.
  */
  datatype Descent<!M, !S, !R> =
    | Reached(message: M, state: S, back: seq<Treatment<S, R>>)
    | Stopped(result: R, state: S, back: seq<Treatment<S, R>>)

  function Descend<M, S, R>(list: seq<Interceptor<M, S, R>>, m: M, s: S): Descent<M, S, R> {
    if list == [] then
      Reached(m, s, [])
    else match list[0](m, s)
         case Stop(r, s') => Stopped(r, s', [])
         case Next(m', s', after) =>
           match Descend(list[1..], m', s')
           case Reached(m'', s'', back) => Reached(m'', s'', [after] + back)
           case Stopped(r, s'', back) => Stopped(r, s'', [after] + back)
  }

  /** The way back: the innermost treatment comes first. */
  function Back<S, R>(back: seq<Treatment<S, R>>, r: R, s: S): (R, S) {
    if back == [] then (r, s)
    else
      var (r', s') := Back(back[1..], r, s);
      back[0](r', s')
  }

  /** A run is a way down, the handler if it is reached, and the way back. */
  lemma {:induction false} RunIsDownAndBack<M, S, R>(list: seq<Interceptor<M, S, R>>, final: Handler<M, S, R>,
                                                    m: M, s: S)
    ensures Run(list, final, m, s) ==
            match Descend(list, m, s)
            case Reached(m', s', back) => var (r, s'') := final(m', s'); Back(back, r, s'')
            case Stopped(r, s', back) => Back(back, r, s')
    decreases |list|
  {
    if list != [] {
      match list[0](m, s)
      case Stop(_, _) =>
      case Next(m', s', after) =>
        RunIsDownAndBack(list[1..], final, m', s');
        var rest := Descend(list[1..], m', s').back;
        assert ([after] + rest)[1..] == rest;
    }
  }

  ghost predicate ReturnsState<S(!new), R(!new)>(after: Treatment<S, R>) {
    forall r, s :: after(r, s).1 == s
  }

  /** The link neither reads nor changes anything in the state but what it passes through. */
  ghost predicate LeavesState<M(!new), S(!new), R(!new)>(link: Interceptor<M, S, R>) {
    forall m, s :: match link(m, s)
                   case Stop(_, s') => s' == s
                   case Next(_, s', after) => s' == s && ReturnsState(after)
  }

  lemma {:induction false} DescendLeaves<M(!new), S(!new), R(!new)>(list: seq<Interceptor<M, S, R>>, m: M, s: S)
    requires forall i :: 0 <= i < |list| ==> LeavesState(list[i])
    ensures var d := Descend(list, m, s);
            d.state == s && forall i :: 0 <= i < |d.back| ==> ReturnsState(d.back[i])
    decreases |list|
  {
    hide ReturnsState;
    if list != [] {
      assert LeavesState(list[0]);
      match list[0](m, s)
      case Stop(_, _) =>
      case Next(m', s', after) => DescendLeaves(list[1..], m', s');
    }
  }

  lemma {:induction false} BackLeaves<S(!new), R(!new)>(back: seq<Treatment<S, R>>, r: R, s: S)
    requires forall i :: 0 <= i < |back| ==> ReturnsState(back[i])
    ensures Back(back, r, s).1 == s
    decreases |back|
  {
    if back != [] {
      BackLeaves(back[1..], r, s);
      assert ReturnsState(back[0]);
    }
  }

  // ---------------------------------------------------------------- order

  function Marking<M, L, R>(name: L): Interceptor<M, seq<L>, R> {
    (m, log) => Next(m, log + [name], (r, l) => (r, l))
  }

  /** Entering a list of pass-through interceptors leaves their marks in list order, then calls the handler. */
  function Marks<M, L, R>(names: seq<L>): seq<Interceptor<M, seq<L>, R>> {
    seq(|names|, i requires 0 <= i < |names| => Marking<M, L, R>(names[i]))
  }

  lemma {:induction false} MarksInListOrder<M, L, R>(names: seq<L>, final: Handler<M, seq<L>, R>, m: M, log: seq<L>)
    ensures Run(Marks<M, L, R>(names), final, m, log) == final(m, log + names)
    decreases |names|
  {
    var list := Marks<M, L, R>(names);
    if names == [] {
      assert log + names == log;
    } else {
      assert list[1..] == Marks<M, L, R>(names[1..]);
      assert log + names == (log + [names[0]]) + names[1..];
      MarksInListOrder(names[1..], final, m, log + [names[0]]);
    }
  }

  lemma OneLink<M, S, R>(link: Interceptor<M, S, R>, final: Handler<M, S, R>, m: M, s: S)
    ensures Run([link], final, m, s) ==
            match link(m, s)
            case Stop(r, s') => (r, s')
            case Next(m', s', after) => var (r, s'') := final(m', s'); after(r, s'')
  {
    var none: seq<Interceptor<M, S, R>> := [];
    assert [link][1..] == none;
    if link(m, s).Next? {
      var d := link(m, s);
      assert Run(none, final, d.message, d.state) == final(d.message, d.state);
    }
  }

  /**
    Behind others that pass through, a link is entered with their marks. It answers by itself, or the
    final handler gets what it passes on, and it treats what comes back.
  */
  lemma LinkBehindOthers<M(!new), L(!new), R>(names: seq<L>, link: Interceptor<M, seq<L>, R>,
                                              final: Handler<M, seq<L>, R>, m: M, log: seq<L>)
    ensures Run(Marks<M, L, R>(names) + [link], final, m, log) ==
            match link(m, log + names)
            case Stop(r, s) => (r, s)
            case Next(m', s, after) => var (r, s') := final(m', s); after(r, s')
  {
    RunConcat(Marks<M, L, R>(names), [link], final, m, log);
    MarksInListOrder(names, Behind([link], final), m, log);
    OneLink(link, final, m, log + names);
  }

  // ---------------------------------------------------------------- the code

  function PassThrough<M, S, R>(): Combination<M, S, R> {
    (m: M, next: Handler<M, S, R>, s: S) => next(m, s)
  }

  /** One turn of the loop: the interceptor gets a continuation that enters the combination built so far. */
  function Wrap<M, S, R>(user: Interceptor<M, S, R>, inner: Combination<M, S, R>): Combination<M, S, R> {
    (m: M, next: Handler<M, S, R>, s: S) =>
      match user(m, s)
      case Stop(r, s') => (r, s')
      case Next(m', s', after) =>
        var (r, s'') := inner(m', next, s');
        after(r, s'')
  }

  ghost predicate Means<M(!new), S(!new), R(!new)>(c: Combination<M, S, R>, list: seq<Interceptor<M, S, R>>) {
    forall m: M, next: Handler<M, S, R>, s: S :: c(m, next, s) == Run(list, next, m, s)
  }

  /** The chain is built from the last interceptor to the first. */
  method MakeInterceptor<M(!new), S(!new), R(!new)>(list: seq<Interceptor<M, S, R>>)
    returns (combination: Combination<M, S, R>)
    ensures Means(combination, list)
  {
    combination := PassThrough();
    var i := |list|;
    while i > 0
      invariant 0 <= i <= |list|
      invariant Means(combination, list[i..])
    {
      i := i - 1;
      assert list[i..][1..] == list[i + 1..];
      combination := Wrap(list[i], combination);
    }
    assert list[0..] == list;
  }
}
