/**
  Runs of one client used by many threads. A call is three steps of its thread: take an id, register
  the callbacks under the lock, send. Responses, timeout notices and polls come between them in any
  order. A run is any list of events; an event whose guard is false changes nothing.
*/
module ClientRuns {
  import opened Bytes
  import opened Client

  /** A call without a handler, with one, or with one and a timeout with its callback. */
  datatype Kind = OneWay | Plain | Timed(seconds: int64, callback: Behaviour)

  /** Where a thread is inside `call`. Tokens number the calls of a run from 0. */
  datatype Pc =
    | Allocated(id: uint64, token: Token, kind: Kind)
    | Ready(id: uint64, token: Token, kind: Kind)

  datatype How = ByResponse(msg: nat) | ByTimeout | Dropped

  /**
    A call leaving the maps: its handler taken by a message, its timeout callback called, or `Dropped`,
    erased without anything being run.
  */
  datatype Taken = Taken(token: Token, how: How)

  datatype Sys = Sys(
    client: State,
    threads: map<nat, Pc>,
    armed: set<uint64>,       // ids with a `causeTimeout` scheduled on the event loop
    issued: nat,              // history: calls begun
    expecting: set<Token>,    // history: calls begun that expect a response
    log: seq<Taken>)          // history: calls that left the maps, in order

  const INIT := Sys(FRESH, map[], {}, 0, {}, [])

  datatype Event =
    | Begin(thread: nat, kind: Kind)
    | Register(thread: nat, now: int)
    | Send(thread: nat)
    | Response(id: uint64, timeout: bool, msg: nat)
    | CauseTimeout(id: uint64)
    | Poll(now: int, fired: seq<Timer>, rest: multiset<Timer>)

  predicate Registering(s: Sys, thread: nat) {
    thread in s.threads && s.threads[thread].Allocated? && s.threads[thread].kind != OneWay
  }

  /** One of the asserts before the insertion into the maps fails. */
  predicate AssertFails(s: Sys, thread: nat) {
    && Registering(s, thread)
    && var pc := s.threads[thread];
       pc.id in s.client.stubs || (pc.kind.Timed? && pc.id in s.client.timeouts)
  }

  ghost predicate Enabled(s: Sys, e: Event) {
    match e
    case Begin(thread, _) => thread !in s.threads
    case Register(thread, _) => Registering(s, thread) && !AssertFails(s, thread)
    case Send(thread) => thread in s.threads && (s.threads[thread].Ready? || s.threads[thread].kind == OneWay)
    case Response(_, _, _) => true
    case CauseTimeout(id) => id in s.armed
    case Poll(now, fired, rest) =>
      PollFires(s.client, now, fired) && AllTimed(s.client, fired) && StillWaiting(s.client.timers, now, rest)
  }

  function AfterBegin(s: Sys, thread: nat, kind: Kind): Sys {
    s.(client := s.client.(next := (s.client.next + 1) % TWO64),
       threads := s.threads[thread := Allocated(s.client.next, s.issued, kind)],
       issued := s.issued + 1,
       expecting := if kind == OneWay then s.expecting else s.expecting + {s.issued})
  }

  /** The maps and the queue once the call of `pc` has registered its callbacks. */
  function WithCallbacks(c: State, pc: Pc, now: int): State {
    if pc.kind.Timed? then RegisteredTimed(c, pc.token, pc.kind.callback, Timer(now + pc.kind.seconds * NANOS, pc.id))
    else Registered(c, pc.id, pc.token)
  }

  function AfterRegister(s: Sys, thread: nat, now: int): Sys
    requires Registering(s, thread)
  {
    var pc := s.threads[thread];
    s.(client := WithCallbacks(s.client, pc, now), threads := s.threads[thread := Ready(pc.id, pc.token, pc.kind)])
  }

  function AfterSend(s: Sys, thread: nat): Sys
    requires thread in s.threads
  {
    var pc := s.threads[thread];
    s.(threads := s.threads - {thread},
       armed := if pc.kind.Timed? && Unsigned(pc.kind.seconds) > 0 then s.armed + {pc.id} else s.armed)
  }

  function LogOfResponse(s: State, id: uint64, timeout: bool, msg: nat): seq<Taken> {
    match ResponseOutcome(s, id, timeout)
    case RunHandler(token) => [Taken(token, ByResponse(msg))]
    case RunTimeout(token) => [Taken(token, ByTimeout)]
    case Silent => if id in s.stubs then [Taken(s.stubs[id], Dropped)] else []
    case _ => []
  }

  function AfterAnswer(s: Sys, id: uint64, timeout: bool, msg: nat): Sys {
    s.(client := AfterResponse(s.client, id), log := s.log + LogOfResponse(s.client, id, timeout, msg))
  }

  function LogOfPoll(s: State, fired: seq<Timer>): seq<Taken>
    requires AllTimed(s, fired)
  {
    var callbacks := Callbacks(s, fired);
    seq(|fired|, i requires 0 <= i < |fired| =>
      Taken(callbacks[i].token, if Called(callbacks, i) then ByTimeout else Dropped))
  }

  ghost function Apply(s: Sys, e: Event): Sys {
    if !Enabled(s, e) then s
    else match e
         case Begin(thread, kind) => AfterBegin(s, thread, kind)
         case Register(thread, now) => AfterRegister(s, thread, now)
         case Send(thread) => AfterSend(s, thread)
         case Response(id, timeout, msg) => AfterAnswer(s, id, timeout, msg)
         case CauseTimeout(id) => AfterAnswer(s, id, true, 0)
         case Poll(now, fired, rest) =>
           s.(client := AfterPoll(s.client, fired, rest), log := s.log + LogOfPoll(s.client, fired))
  }

  ghost function Exec(s: Sys, es: seq<Event>): Sys
    decreases |es|
  {
    if es == [] then s else Exec(Apply(s, es[0]), es[1..])
  }

  lemma {:induction false} ExecAppend(s: Sys, a: seq<Event>, b: seq<Event>)
    ensures Exec(s, a + b) == Exec(Exec(s, a), b)
    decreases |a|
  {
    if a == [] {
      assert a + b == b;
    } else {
      assert (a + b)[1..] == a[1..] + b;
      ExecAppend(Apply(s, a[0]), a[1..], b);
    }
  }

  // ---------------------------------------------------------------- the invariant

  /** Calls that took an id and have not registered their callbacks yet. */
  function Waiting(s: Sys): set<Token> {
    set t | Registering(s, t) && t in s.threads :: s.threads[t].token
  }

  /** Calls whose handler is in the stub map. */
  function Pending(s: Sys): set<Token> {
    s.client.stubs.Keys
  }

  function Tokens(log: seq<Taken>): set<Token> {
    set i | 0 <= i < |log| :: log[i].token
  }

  /** Calls whose callbacks have been taken. */
  function Settled(s: Sys): set<Token> {
    Tokens(s.log)
  }

  predicate DistinctTokens(log: seq<Taken>) {
    forall i, j :: 0 <= i < j < |log| ==> log[i].token != log[j].token
  }

  predicate InvCounter(s: Sys) {
    && s.issued <= TWO64
    && s.client.next == s.issued % TWO64
    && forall n :: n in s.expecting ==> n < s.issued
  }

  predicate InvThreads(s: Sys) {
    && (forall t :: t in s.threads ==> s.threads[t].id == s.threads[t].token < s.issued)
    && (forall t :: t in s.threads && s.threads[t].kind != OneWay ==> s.threads[t].token in s.expecting)
    && (forall t, u :: t in s.threads && u in s.threads && t != u ==> s.threads[t].token != s.threads[u].token)
    && (forall t :: t in s.threads && s.threads[t].Ready? && s.threads[t].kind.Timed? ==>
          s.threads[t].token in s.client.timeouts.Keys + Settled(s))
  }

  predicate InvMaps(c: State) {
    && c.timeouts.Keys <= c.stubs.Keys
    && (forall id :: id in c.stubs ==> c.stubs[id] == id)
    && (forall id :: id in c.timeouts ==> c.timeouts[id].token == id)
  }

  ghost predicate InvTimers(c: State, settled: set<Token>) {
    && (forall t: Timer :: c.timers[t] <= 1)
    && (forall t, u :: t in c.timers && u in c.timers && t.seqId == u.seqId ==> t == u)
    && (forall t :: t in c.timers ==> t.seqId in c.timeouts.Keys + settled)
    && (forall id :: id in c.timeouts ==> exists t :: t in c.timers && t.seqId == id)
  }

  /** Each call that expects a response has one fate: waiting, pending, or taken once. */
  predicate InvFates(s: Sys) {
    && s.expecting == Waiting(s) + Pending(s) + Settled(s)
    && Waiting(s) !! Pending(s)
    && Waiting(s) !! Settled(s)
    && Pending(s) !! Settled(s)
    && DistinctTokens(s.log)
  }

  predicate InvArmed(s: Sys) {
    s.armed <= s.client.timeouts.Keys + Settled(s)
  }

  ghost predicate Inv(s: Sys) {
    InvCounter(s) && InvThreads(s) && InvMaps(s.client) && InvTimers(s.client, Settled(s)) && InvFates(s) && InvArmed(s)
  }

  lemma TokensAppend(a: seq<Taken>, b: seq<Taken>)
    ensures Tokens(a + b) == Tokens(a) + Tokens(b)
    ensures DistinctTokens(a) && DistinctTokens(b) && Tokens(a) !! Tokens(b) ==> DistinctTokens(a + b)
  {
    forall n ensures n in Tokens(a + b) <==> n in Tokens(a) + Tokens(b) {
      if n in Tokens(a) {
        var i :| 0 <= i < |a| && a[i].token == n;
        assert (a + b)[i].token == n;
      } else if n in Tokens(b) {
        var i :| 0 <= i < |b| && b[i].token == n;
        assert (a + b)[|a| + i].token == n;
      }
    }
    if DistinctTokens(a) && DistinctTokens(b) && Tokens(a) !! Tokens(b) {
      forall i, j | 0 <= i < j < |a + b| ensures (a + b)[i].token != (a + b)[j].token {
        if i < |a| <= j {
          assert a[i].token in Tokens(a) && b[j - |a|].token in Tokens(b);
        }
      }
    }
  }

  lemma WaitingHas(s: Sys, thread: nat)
    requires Registering(s, thread)
    ensures s.threads[thread].token in Waiting(s)
  {}

  lemma WaitingAfterBegin(s: Sys, thread: nat, kind: Kind)
    requires thread !in s.threads
    ensures Waiting(AfterBegin(s, thread, kind)) == Waiting(s) + if kind == OneWay then {} else {s.issued}
  {
    var s' := AfterBegin(s, thread, kind);
    forall n ensures n in Waiting(s') <==> n in Waiting(s) || (kind != OneWay && n == s.issued) {
      if n in Waiting(s) {
        var t :| Registering(s, t) && s.threads[t].token == n;
        assert t != thread && s'.threads[t] == s.threads[t] && Registering(s', t);
      }
      if kind != OneWay && n == s.issued {
        assert Registering(s', thread) && s'.threads[thread].token == n;
      }
      if n in Waiting(s') {
        var t :| Registering(s', t) && s'.threads[t].token == n;
        assert t != thread ==> Registering(s, t);
      }
    }
  }

  lemma WaitingAfterRegister(s: Sys, thread: nat, now: int)
    requires InvThreads(s) && Registering(s, thread)
    ensures Waiting(AfterRegister(s, thread, now)) == Waiting(s) - {s.threads[thread].token}
  {
    var s', m := AfterRegister(s, thread, now), s.threads[thread].token;
    forall n ensures n in Waiting(s') <==> n in Waiting(s) && n != m {
      if n in Waiting(s) && n != m {
        var t :| Registering(s, t) && s.threads[t].token == n;
        assert t != thread && Registering(s', t) && s'.threads[t] == s.threads[t];
      }
      if n in Waiting(s') {
        var t :| Registering(s', t) && s'.threads[t].token == n;
        assert t != thread && Registering(s, t);
      }
    }
  }

  lemma WaitingAfterSend(s: Sys, thread: nat)
    requires Enabled(s, Send(thread))
    ensures Waiting(AfterSend(s, thread)) == Waiting(s)
  {
    var s' := AfterSend(s, thread);
    forall n ensures n in Waiting(s') <==> n in Waiting(s) {
      if n in Waiting(s) {
        var t :| Registering(s, t) && s.threads[t].token == n;
        assert t != thread && Registering(s', t) && s'.threads[t] == s.threads[t];
      }
      if n in Waiting(s') {
        var t :| Registering(s', t) && s'.threads[t].token == n;
        assert Registering(s, t);
      }
    }
  }

  lemma TimersSame(c: State, c': State, settled: set<Token>)
    requires InvTimers(c, settled) && c.timers == c'.timers && c.timeouts == c'.timeouts
    ensures InvTimers(c', settled)
  {}

  lemma ThreadsAfterBegin(s: Sys, thread: nat, kind: Kind)
    requires InvThreads(s) && thread !in s.threads && s.client.next == s.issued
    ensures InvThreads(AfterBegin(s, thread, kind))
  {}

  lemma BeginKeeps(s: Sys, thread: nat, kind: Kind)
    requires Inv(s) && thread !in s.threads && s.issued < TWO64
    ensures Inv(AfterBegin(s, thread, kind))
  {
    hide Waiting, Tokens, InvThreads, InvTimers, DistinctTokens;
    WaitingAfterBegin(s, thread, kind);
    ThreadsAfterBegin(s, thread, kind);
    TimersSame(s.client, AfterBegin(s, thread, kind).client, Settled(s));
    assert s.issued !in s.expecting;
  }

  lemma TimersAfterRegister(c: State, settled: set<Token>, token: Token, does: Behaviour, timer: Timer)
    requires InvTimers(c, settled)
    requires timer.seqId !in c.timeouts && timer.seqId !in settled
    ensures InvTimers(RegisteredTimed(c, token, does, timer), settled)
  {}

  /** A thread about to register holds an id that no other call uses. */
  lemma FreshId(s: Sys, thread: nat)
    requires Inv(s) && Registering(s, thread)
    ensures var pc := s.threads[thread];
            && pc.id == pc.token && pc.token in s.expecting
            && pc.id !in s.client.stubs && pc.id !in s.client.timeouts && pc.id !in Settled(s)
  {}

  lemma TimersAfter(c: State, settled: set<Token>, pc: Pc, now: int)
    requires InvTimers(c, settled) && pc.id !in c.timeouts && pc.id !in settled
    ensures InvTimers(WithCallbacks(c, pc, now), settled)
  {
    hide InvTimers;
    if pc.kind.Timed? {
      TimersAfterRegister(c, settled, pc.token, pc.kind.callback, Timer(now + pc.kind.seconds * NANOS, pc.id));
    } else {
      TimersSame(c, Registered(c, pc.id, pc.token), settled);
    }
  }

  lemma MapsAfter(c: State, pc: Pc, now: int)
    requires InvMaps(c) && pc.id == pc.token
    ensures var c' := WithCallbacks(c, pc, now);
            && InvMaps(c') && c'.next == c.next && c'.stubs.Keys == c.stubs.Keys + {pc.token}
            && c'.timeouts.Keys == if pc.kind.Timed? then c.timeouts.Keys + {pc.token} else c.timeouts.Keys
  {}

  lemma ThreadsAfterRegister(s: Sys, thread: nat, now: int)
    requires InvThreads(s) && Registering(s, thread)
    requires s.threads[thread].id == s.threads[thread].token
    ensures InvThreads(AfterRegister(s, thread, now))
  {}

  /** The asserts hold for a thread about to register, whatever the other threads did since it took its id. */
  lemma RegisterKeeps(s: Sys, thread: nat, now: int)
    requires Inv(s) && Registering(s, thread)
    ensures !AssertFails(s, thread)
    ensures Inv(AfterRegister(s, thread, now))
  {
    hide Waiting, Tokens, InvThreads, InvTimers, InvMaps, DistinctTokens, WithCallbacks;
    var pc := s.threads[thread];
    FreshId(s, thread);
    WaitingHas(s, thread);
    WaitingAfterRegister(s, thread, now);
    TimersAfter(s.client, Settled(s), pc, now);
    MapsAfter(s.client, pc, now);
    ThreadsAfterRegister(s, thread, now);
  }

  lemma SendKeeps(s: Sys, thread: nat)
    requires Inv(s) && Enabled(s, Send(thread))
    ensures Inv(AfterSend(s, thread))
  {
    hide Waiting, Tokens, InvTimers, InvMaps, DistinctTokens;
    WaitingAfterSend(s, thread);
  }

  /** What every taking of callbacks does: the calls move from pending to settled. */
  lemma TakeKeeps(s: Sys, c: State, more: seq<Taken>)
    requires Inv(s) && c.next == s.client.next
    requires Tokens(more) <= Pending(s) && DistinctTokens(more)
    requires c.stubs == s.client.stubs - Tokens(more) && c.timeouts == s.client.timeouts - Tokens(more)
    requires InvTimers(c, Settled(s) + Tokens(more))
    ensures Inv(s.(client := c, log := s.log + more))
  {
    hide Tokens, InvTimers, DistinctTokens;
    TokensAppend(s.log, more);
    assert Waiting(s.(client := c, log := s.log + more)) == Waiting(s);
    hide Waiting;
  }

  lemma LogOfResponseTokens(c: State, id: uint64, timeout: bool, msg: nat)
    requires InvMaps(c)
    ensures var more := LogOfResponse(c, id, timeout, msg);
            && more == (if id in c.stubs then [Taken(id, more[0].how)] else [])
            && Tokens(more) == (if id in c.stubs then {id} else {})
            && DistinctTokens(more)
  {}

  lemma TimersAfterResponse(c: State, settled: set<Token>, id: uint64)
    requires InvTimers(c, settled) && InvMaps(c)
    ensures InvTimers(AfterResponse(c, id), settled + if id in c.stubs then {id} else {})
  {}

  lemma AnswerKeeps(s: Sys, id: uint64, timeout: bool, msg: nat)
    requires Inv(s)
    ensures Inv(AfterAnswer(s, id, timeout, msg))
  {
    hide InvFates, InvThreads, InvTimers, Tokens, LogOfResponse;
    LogOfResponseTokens(s.client, id, timeout, msg);
    TimersAfterResponse(s.client, Settled(s), id);
    TakeKeeps(s, AfterResponse(s.client, id), LogOfResponse(s.client, id, timeout, msg));
  }

  /** What waits after a poll was waiting before, and no more often. */
  lemma WaitingBefore(timers: multiset<Timer>, now: int, rest: multiset<Timer>, t: Timer)
    requires StillWaiting(timers, now, rest)
    ensures rest[t] <= timers[t] && (t in rest ==> t in timers)
    ensures t in timers && t.endTime > now ==> t in rest
  {}

  /** A call that a poll leaves in the timeout map keeps its timer. */
  lemma TimerKept(c: State, now: int, fired: seq<Timer>, rest: multiset<Timer>, id: uint64)
    requires PollFires(c, now, fired) && StillWaiting(c.timers, now, rest)
    requires id in c.timeouts && id !in Ids(fired)
    requires exists t :: t in c.timers && t.seqId == id
    ensures exists t :: t in rest && t.seqId == id
  {}

  lemma TimersAfterPoll(c: State, settled: set<Token>, now: int, fired: seq<Timer>, rest: multiset<Timer>)
    requires InvTimers(c, settled)
    requires PollFires(c, now, fired) && StillWaiting(c.timers, now, rest)
    ensures InvTimers(AfterPoll(c, fired, rest), settled + Ids(fired))
  {
    hide Ids, StillWaiting, PollFires;
    forall t: Timer ensures rest[t] <= c.timers[t] && (t in rest ==> t in c.timers) {
      WaitingBefore(c.timers, now, rest, t);
    }
    forall id | id in c.timeouts && id !in Ids(fired) ensures exists t :: t in rest && t.seqId == id {
      TimerKept(c, now, fired, rest, id);
    }
  }

  lemma LogOfPollTokens(c: State, fired: seq<Timer>)
    requires AllTimed(c, fired) && DistinctIds(fired) && InvMaps(c)
    ensures Tokens(LogOfPoll(c, fired)) == Ids(fired) && DistinctTokens(LogOfPoll(c, fired))
  {
    var more := LogOfPoll(c, fired);
    assert forall i :: 0 <= i < |fired| ==> more[i].token == fired[i].seqId;
    forall n ensures n in Tokens(more) <==> n in Ids(fired) {
      if n in Ids(fired) {
        var i :| 0 <= i < |fired| && fired[i].seqId == n;
        assert more[i].token == n;
      }
    }
  }

  lemma PollKeeps(s: Sys, now: int, fired: seq<Timer>, rest: multiset<Timer>)
    requires Inv(s) && Enabled(s, Poll(now, fired, rest))
    ensures Inv(Apply(s, Poll(now, fired, rest)))
  {
    hide InvFates, InvThreads, InvTimers, Tokens;
    LogOfPollTokens(s.client, fired);
    TimersAfterPoll(s.client, Settled(s), now, fired, rest);
    TakeKeeps(s, AfterPoll(s.client, fired, rest), LogOfPoll(s.client, fired));
  }

  lemma ApplyKeeps(s: Sys, e: Event)
    requires Inv(s) && Apply(s, e).issued <= TWO64
    ensures Inv(Apply(s, e))
  {
    hide Inv, AfterRegister, AfterSend, AfterAnswer;
    if Enabled(s, e) {
      match e
      case Begin(thread, kind) => BeginKeeps(s, thread, kind);
      case Register(thread, now) => RegisterKeeps(s, thread, now);
      case Send(thread) => SendKeeps(s, thread);
      case Response(id, timeout, msg) => AnswerKeeps(s, id, timeout, msg);
      case CauseTimeout(id) => AnswerKeeps(s, id, true, 0);
      case Poll(now, fired, rest) => PollKeeps(s, now, fired, rest);
    }
  }

  // ---------------------------------------------------------------- whole runs

  lemma InitInv()
    ensures Inv(INIT)
  {}

  lemma {:induction false} IssuedGrows(s: Sys, es: seq<Event>)
    ensures s.issued <= Exec(s, es).issued
    decreases |es|
  {
    hide Enabled;
    if es != [] {
      IssuedGrows(Apply(s, es[0]), es[1..]);
    }
  }

  lemma {:induction false} RunKeeps(s: Sys, es: seq<Event>)
    requires Inv(s) && Exec(s, es).issued <= TWO64
    ensures Inv(Exec(s, es))
    decreases |es|
  {
    hide Inv, Apply;
    if es != [] {
      IssuedGrows(Apply(s, es[0]), es[1..]);
      ApplyKeeps(s, es[0]);
      RunKeeps(Apply(s, es[0]), es[1..]);
    }
  }

  lemma {:induction false} LogGrows(s: Sys, es: seq<Event>)
    ensures s.log <= Exec(s, es).log
    decreases |es|
  {
    hide Enabled, LogOfResponse, LogOfPoll;
    if es != [] {
      LogGrows(Apply(s, es[0]), es[1..]);
    }
  }

  /** The run has begun no more calls than there are ids. */
  ghost predicate WithinCounter(es: seq<Event>) {
    Exec(INIT, es).issued <= TWO64
  }

  /**
    In every reachable state: a call with a timeout callback has a handler; it has exactly one timer
    in the queue; ids taken but not registered are in neither map; all ids are below the counter.
  */
  lemma ReachableMaps(es: seq<Event>)
    requires WithinCounter(es)
    ensures var s := Exec(INIT, es);
            && s.client.timeouts.Keys <= s.client.stubs.Keys
            && (forall id :: id in s.client.timeouts ==> exists t :: s.client.timers[t] == 1 && t.seqId == id)
            && (forall t, u :: t in s.client.timers && u in s.client.timers && t.seqId == u.seqId ==> t == u)
            && (forall thread :: Registering(s, thread) ==>
                  s.threads[thread].id !in s.client.stubs.Keys + s.client.timeouts.Keys)
            && (forall id :: id in s.client.stubs ==> id < s.issued)
            && (forall t :: t in s.client.timers ==> t.seqId < s.issued)
  {
    InitInv();
    RunKeeps(INIT, es);
    var s := Exec(INIT, es);
    forall id | id in s.client.timeouts ensures exists t :: s.client.timers[t] == 1 && t.seqId == id {
      var t :| t in s.client.timers && t.seqId == id;
      assert s.client.timers[t] == 1;
    }
    forall thread | Registering(s, thread)
      ensures s.threads[thread].id !in s.client.stubs.Keys + s.client.timeouts.Keys
    {
      WaitingHas(s, thread);
    }
  }

  /** `k` calls without a handler, one after the other. */
  function OneWays(k: nat): seq<Event> {
    if k == 0 then [] else OneWays(k - 1) + [Begin(0, OneWay), Send(0)]
  }

  function Counted(s: Sys, k: nat): Sys {
    s.(client := s.client.(next := (s.client.next + k) % TWO64), issued := s.issued + k)
  }

  lemma OneWayCall(s: Sys)
    requires s.threads == map[]
    ensures Exec(s, [Begin(0, OneWay), Send(0)]) == Counted(s, 1)
  {}

  lemma CountedTwice(s: Sys, k: nat)
    requires k > 0
    ensures Counted(Counted(s, k - 1), 1) == Counted(s, k)
  {}

  lemma {:induction false} RunOneWays(s: Sys, k: nat)
    requires s.threads == map[] && s.client.next < TWO64
    ensures Exec(s, OneWays(k)) == Counted(s, k)
  {
    hide Apply;
    if k > 0 {
      RunOneWays(s, k - 1);
      ExecAppend(s, OneWays(k - 1), [Begin(0, OneWay), Send(0)]);
      OneWayCall(Counted(s, k - 1));
      CountedTwice(s, k);
    }
  }

  /** One call stays pending while the counter is used up; the next call gets the same id. */
  lemma LapFails()
    ensures exists es, thread :: Exec(INIT, es).issued == TWO64 + 1 && AssertFails(Exec(INIT, es), thread)
  {
    hide OneWays;
    var first := [Begin(0, Plain), Register(0, 0), Send(0)];
    var s1 := Apply(INIT, first[0]);
    var s2 := Apply(s1, first[1]);
    var s3 := Apply(s2, first[2]);
    assert first[1..] == [first[1], first[2]] && first[1..][1..] == [first[2]] && [first[2]][1..] == [];
    assert Exec(INIT, first) == s3;
    assert s3.threads == map[] && s3.client.next == 1 && s3.issued == 1 && 0 in s3.client.stubs;
    RunOneWays(s3, TWO64 - 1);
    var lap := OneWays(TWO64 - 1);
    var s4 := Exec(s3, lap);
    var last := Begin(0, Plain);
    assert Enabled(s4, last) && Exec(s4, [last]) == Exec(Apply(s4, last), []);
    ExecAppend(INIT, first, lap);
    ExecAppend(INIT, first + lap, [last]);
    assert AssertFails(Apply(s4, last), 0);
    assert Exec(INIT, first + lap + [last]) == Apply(s4, last);
  }

  lemma NotRegistering(s: Sys, thread: nat)
    requires !Registering(s, thread)
    ensures !AssertFails(s, thread)
  {}

  /**
    The freshness asserts hold in every run of at most `n` calls exactly when `n` calls do not lap the
    64-bit counter.
  */
  lemma FreshnessBudget(n: nat)
    ensures (forall es, thread :: Exec(INIT, es).issued <= n ==> !AssertFails(Exec(INIT, es), thread)) <==> n <= TWO64
  {
    hide AssertFails;
    if n <= TWO64 {
      forall es, thread | Exec(INIT, es).issued <= n ensures !AssertFails(Exec(INIT, es), thread) {
        InitInv();
        RunKeeps(INIT, es);
        var s := Exec(INIT, es);
        if Registering(s, thread) {
          RegisterKeeps(s, thread, 0);
        } else {
          NotRegistering(s, thread);
        }
      }
    } else {
      LapFails();
    }
  }

  /** Conservation: a call that expects a response is waiting, pending, or taken exactly once; no other call is. */
  lemma EveryCallHasOneFate(es: seq<Event>, n: Token)
    requires WithinCounter(es)
    ensures var s := Exec(INIT, es);
            && (n in s.expecting <==>
                  n in Waiting(s) || n in Pending(s) || exists i :: 0 <= i < |s.log| && s.log[i].token == n)
            && !(n in Waiting(s) && n in Pending(s))
            && (forall i :: 0 <= i < |s.log| && s.log[i].token == n ==> n !in Waiting(s) && n !in Pending(s))
            && (forall i, j :: 0 <= i < j < |s.log| ==> !(s.log[i].token == n == s.log[j].token))
  {
    InitInv();
    RunKeeps(INIT, es);
    var s := Exec(INIT, es);
    assert forall i :: 0 <= i < |s.log| ==> s.log[i].token in Settled(s);
  }

  // ---------------------------------------------------------------- handlers that are lost

  predicate NoneDropped(log: seq<Taken>) {
    forall i :: 0 <= i < |log| ==> log[i].how != Dropped
  }

  /** The call has a timeout callback that can be called. */
  predicate Callable(c: State, id: uint64) {
    id in c.timeouts && c.timeouts[id].does != Empty
  }

  /** A poll does not call all it collected: one callback is empty, or one throws in front of another. */
  predicate CutShort(callbacks: seq<TimeoutCallback>) {
    exists i :: 0 <= i < |callbacks|
                && (callbacks[i].does == Empty || (callbacks[i].does == Throws && i + 1 < |callbacks|))
  }

  /**
    Steps that lose a handler: a message of the peer with the timeout mark, or a scheduled notice, that
    names a pending call with nothing to call, and a poll that is cut short.
  */
  ghost predicate Drops(s: Sys, e: Event) {
    && Enabled(s, e)
    && match e
       case Response(id, timeout, _) => timeout && id in s.client.stubs && !Callable(s.client, id)
       case CauseTimeout(id) => id in s.client.timeouts && !Callable(s.client, id)
       case Poll(_, fired, _) => CutShort(Callbacks(s.client, fired))
       case _ => false
  }

  lemma PollDrops(callbacks: seq<TimeoutCallback>)
    ensures (forall i :: 0 <= i < |callbacks| ==> Called(callbacks, i)) <==> !CutShort(callbacks)
  {
    if i :| 0 <= i < |callbacks| && !Called(callbacks, i) {
      if callbacks[i].does != Empty {
        var j :| 0 <= j < i && callbacks[j].does != Returns;
        assert j + 1 < |callbacks|;
      }
    }
    if CutShort(callbacks) {
      var i :| 0 <= i < |callbacks|
               && (callbacks[i].does == Empty || (callbacks[i].does == Throws && i + 1 < |callbacks|));
      assert !Called(callbacks, if callbacks[i].does == Empty then i else i + 1);
    }
  }

  lemma NoneDroppedAppend(a: seq<Taken>, b: seq<Taken>)
    ensures NoneDropped(a + b) <==> NoneDropped(a) && NoneDropped(b)
  {
    assert forall i :: 0 <= i < |a| ==> (a + b)[i] == a[i];
    assert forall i :: 0 <= i < |b| ==> (a + b)[|a| + i] == b[i];
  }

  lemma DropsInPoll(s: State, fired: seq<Timer>)
    requires AllTimed(s, fired)
    ensures NoneDropped(LogOfPoll(s, fired)) <==> !CutShort(Callbacks(s, fired))
  {
    hide Called, CutShort;
    var callbacks, more := Callbacks(s, fired), LogOfPoll(s, fired);
    PollDrops(callbacks);
    assert forall i :: 0 <= i < |callbacks| ==> (Called(callbacks, i) <==> more[i].how != Dropped);
  }

  /** A step loses a handler without running anything exactly in these cases. */
  lemma DropsExactlyWhen(s: Sys, e: Event)
    requires Inv(s) && NoneDropped(s.log)
    ensures NoneDropped(Apply(s, e).log) <==> !Drops(s, e)
  {
    hide Waiting, InvTimers, CutShort, PollFires, StillWaiting;
    if Enabled(s, e) && (e.CauseTimeout? || e.Response?) {
      var more := LogOfResponse(s.client, e.id, e.CauseTimeout? || e.timeout, if e.Response? then e.msg else 0);
      assert Apply(s, e).log == s.log + more;
      if e.CauseTimeout? {
        assert e.id in s.client.timeouts.Keys + Settled(s);
      }
      assert |more| == 1 ==> Apply(s, e).log[|s.log|] == more[0];
    } else if Enabled(s, e) && e.Poll? {
      DropsInPoll(s.client, e.fired);
      NoneDroppedAppend(s.log, LogOfPoll(s.client, e.fired));
    }
  }

  lemma DroppedStays(log: seq<Taken>, later: seq<Taken>)
    requires log <= later && !NoneDropped(log)
    ensures !NoneDropped(later)
  {}

  /** Over whole runs: no handler is lost exactly when no step of the run is one of these. */
  lemma {:induction false} HandlersLostExactly(s: Sys, es: seq<Event>)
    requires Inv(s) && NoneDropped(s.log) && Exec(s, es).issued <= TWO64
    ensures NoneDropped(Exec(s, es).log) <==> forall k :: 0 <= k < |es| ==> !Drops(Exec(s, es[..k]), es[k])
    decreases |es|
  {
    hide Inv, Apply, NoneDropped, Drops;
    if es != [] {
      var s1, tail := Apply(s, es[0]), es[1..];
      IssuedGrows(s1, tail);
      ApplyKeeps(s, es[0]);
      DropsExactlyWhen(s, es[0]);
      assert Exec(s, es[..0]) == s;
      if Drops(s, es[0]) {
        LogGrows(s1, tail);
        DroppedStays(s1.log, Exec(s, es).log);
      } else {
        HandlersLostExactly(s1, tail);
        forall k | 0 <= k < |tail| ensures Exec(s1, tail[..k]) == Exec(s, es[..k + 1]) {
          assert es[..k + 1][1..] == tail[..k];
        }
        forall k | 0 <= k < |es| ensures !Drops(Exec(s, es[..k]), es[k]) <==>
                                         k == 0 || !Drops(Exec(s1, tail[..k - 1]), tail[k - 1]) {}
      }
    }
  }

  /** Responses of the peer never carry the timeout mark; only `causeTimeout` produces it. */
  predicate LocalTimeouts(es: seq<Event>) {
    forall i :: 0 <= i < |es| && es[i].Response? ==> !es[i].timeout
  }

  predicate ReturningKind(kind: Kind) {
    kind.Timed? ==> kind.callback == Returns
  }

  predicate ReturningBegin(e: Event) {
    e.Begin? ==> ReturningKind(e.kind)
  }

  /** All timeout callbacks of the client are there and return. */
  predicate AllReturn(s: Sys) {
    && (forall t :: t in s.threads ==> ReturningKind(s.threads[t].kind))
    && (forall id :: id in s.client.timeouts ==> s.client.timeouts[id].does == Returns)
  }

  lemma ReturnKeeps(s: Sys, e: Event)
    requires AllReturn(s) && ReturningBegin(e)
    ensures AllReturn(Apply(s, e))
  {}

  lemma ReturningDropsNothing(s: Sys, e: Event)
    requires AllReturn(s) && (e.Response? ==> !e.timeout)
    ensures !Drops(s, e)
  {}

  /**
    When timeout notices come only from the caller's own event loop, and all timeout callbacks are there
    and return, no handler is lost.
  */
  lemma {:induction false} NothingDropped(s: Sys, es: seq<Event>)
    requires Inv(s) && NoneDropped(s.log) && AllReturn(s)
    requires LocalTimeouts(es) && forall i :: 0 <= i < |es| ==> ReturningBegin(es[i])
    requires Exec(s, es).issued <= TWO64
    ensures NoneDropped(Exec(s, es).log)
    decreases |es|
  {
    hide Inv, Apply, NoneDropped, AllReturn, Drops, ReturningBegin;
    if es != [] {
      IssuedGrows(Apply(s, es[0]), es[1..]);
      ApplyKeeps(s, es[0]);
      ReturnKeeps(s, es[0]);
      ReturningDropsNothing(s, es[0]);
      DropsExactlyWhen(s, es[0]);
      assert forall i :: 0 <= i < |es[1..]| ==> es[1..][i] == es[i + 1];
      NothingDropped(Apply(s, es[0]), es[1..]);
    }
  }

  // ---------------------------------------------------------------- who takes a call

  /** A call whose callbacks were taken stays out of both maps, and no continuation takes anything for it again. */
  lemma SettledForever(s: Sys, n: Token, es: seq<Event>)
    requires Inv(s) && n in Settled(s)
    requires Exec(s, es).issued <= TWO64
    ensures var later := Exec(s, es);
            && n in Settled(later) && n !in later.client.stubs && n !in later.client.timeouts
            && (forall i :: |s.log| <= i < |later.log| ==> later.log[i].token != n)
  {
    RunKeeps(s, es);
    LogGrows(s, es);
    var later := Exec(s, es);
    var i :| 0 <= i < |s.log| && s.log[i].token == n;
    assert later.log[i] == s.log[i];
  }

  /** A timer left in the queue by an answered call is harmless for ever. */
  lemma LeftoverTimerIsHarmless(s: Sys, t: Timer, es: seq<Event>)
    requires Inv(s) && t in s.client.timers && t.seqId !in s.client.timeouts
    requires Exec(s, es).issued <= TWO64
    ensures var later := Exec(s, es);
            && t.seqId !in later.client.stubs && t.seqId !in later.client.timeouts
            && (forall i :: |s.log| <= i < |later.log| ==> later.log[i].token != t.seqId)
  {
    SettledForever(s, t.seqId, es);
  }

  /** Ways to take a pending timed call: its response, its scheduled notice, or a poll past its deadline. */
  ghost predicate Takes(s: Sys, n: uint64, e: Event) {
    && Enabled(s, e)
    && match e
       case Response(id, timeout, _) => id == n && !timeout
       case CauseTimeout(id) => id == n
       case Poll(now, _, _) => Expired(s.client, now, n)
       case _ => false
  }

  predicate Addresses(e: Event, n: uint64) {
    (e.Response? || e.CauseTimeout?) && e.id == n
  }

  /**
    The step takes a timed call by timeout and calls its callback: a notice, or a poll that collects no
    empty or throwing callback in front of it.
  */
  ghost predicate TimesOut(s: Sys, e: Event, n: uint64) {
    && Enabled(s, e) && Callable(s.client, n)
    && match e
       case Response(id, timeout, _) => id == n && timeout
       case CauseTimeout(id) => id == n
       case Poll(_, fired, _) =>
         exists i :: 0 <= i < |fired| && fired[i].seqId == n
                     && forall j :: 0 <= j < i ==> Callbacks(s.client, fired)[j].does == Returns
       case _ => false
  }

  /** How a step that takes a timed call takes it. */
  ghost function HowTaken(s: Sys, e: Event, n: uint64): How {
    if e.Response? && !e.timeout then ByResponse(e.msg) else if TimesOut(s, e, n) then ByTimeout else Dropped
  }

  /** What a poll records for the call of its i-th timer. */
  lemma PollEntry(s: Sys, e: Event, n: uint64, i: nat)
    requires InvMaps(s.client) && Enabled(s, e) && e.Poll? && DistinctIds(e.fired)
    requires i < |e.fired| && e.fired[i].seqId == n
    ensures LogOfPoll(s.client, e.fired)[i] == Taken(n, if TimesOut(s, e, n) then ByTimeout else Dropped)
  {}

  lemma PollLength(s: State, fired: seq<Timer>)
    requires AllTimed(s, fired)
    ensures |LogOfPoll(s, fired)| == |fired|
  {}

  lemma PollLogs(s: Sys, n: uint64, e: Event)
    requires InvMaps(s.client) && Enabled(s, e) && e.Poll?
    ensures var more := Apply(s, e).log[|s.log|..];
            && more == LogOfPoll(s.client, e.fired)
            && (n in Ids(e.fired) ==> Taken(n, HowTaken(s, e, n)) in more)
            && (Taken(n, ByTimeout) in more ==> TimesOut(s, e, n))
  {
    hide AfterPoll, StillWaiting, TimesOut, LogOfPoll, Ids;
    var more := LogOfPoll(s.client, e.fired);
    assert |more| == |e.fired| by { PollLength(s.client, e.fired); }
    if n in Ids(e.fired) {
      var i :| 0 <= i < |e.fired| && e.fired[i].seqId == n;
      PollEntry(s, e, n, i);
      assert more[i] in more;
    }
    if i :| 0 <= i < |more| && more[i] == Taken(n, ByTimeout) {
      PollEntry(s, e, e.fired[i].seqId, i);
    }
  }

  lemma TakesLogs(s: Sys, n: uint64, e: Event)
    requires Inv(s) && n in s.client.timeouts && Takes(s, n, e)
    ensures Taken(n, HowTaken(s, e, n)) in Apply(s, e).log[|s.log|..]
  {
    hide InvCounter, InvThreads, InvTimers, InvFates, InvArmed;
    if e.Poll? {
      assert n in Ids(e.fired) by { hide Ids; }
      PollLogs(s, n, e);
    } else {
      hide PollFires, StillWaiting, Expired;
      assert Apply(s, e).log[|s.log|..][0] == Taken(n, HowTaken(s, e, n));
    }
  }

  lemma LateChangesNothing(s: Sys, n: uint64, late: Event)
    requires n !in s.client.stubs && n !in s.client.timeouts && Addresses(late, n)
    ensures Apply(s, late).client == s.client && Apply(s, late).log == s.log
  {}

  /**
    Response, poll and scheduled notice race for a timed call: the first one decides the outcome, and
    whatever happens afterwards, any further message or notice for the call changes neither map and
    runs nothing, and no poll collects it.
  */
  lemma FirstTakerWins(s: Sys, n: uint64, first: Event, es: seq<Event>, late: Event)
    requires Inv(s) && n in s.client.timeouts && Takes(s, n, first)
    requires Exec(Apply(s, first), es).issued <= TWO64
    requires Addresses(late, n)
    ensures Taken(n, HowTaken(s, first, n)) in Apply(s, first).log
    ensures var after := Exec(Apply(s, first), es);
            && Apply(after, late).client == after.client && Apply(after, late).log == after.log
            && (forall now :: !Expired(after.client, now, n))
  {
    hide Apply, Inv, Takes, LogOfResponse, HowTaken;
    TakesLogs(s, n, first);
    var s1 := Apply(s, first);
    IssuedGrows(s1, es);
    ApplyKeeps(s, first);
    var i :| 0 <= i < |s1.log| && s1.log[i].token == n;
    assert n in Settled(s1);
    SettledForever(s1, n, es);
    LateChangesNothing(Exec(s1, es), n, late);
  }

  /**
    Which messages are passed on to the handler that was taken for them: those whose body parses and
    that the client's inbound chain lets through.
  */
  type Passing = nat -> bool

  /** Whether this way of taking a synchronous call leads to a write to its promise. */
  predicate Writing(how: How, passing: Passing) {
    how == ByTimeout || (how.ByResponse? && passing(how.msg))
  }

  /** The results written to the promise behind a synchronous call, in order. */
  function Writes(log: seq<Taken>, n: Token, passing: Passing): seq<How> {
    if log == [] then []
    else (if log[0].token == n && Writing(log[0].how, passing) then [log[0].how] else []) + Writes(log[1..], n, passing)
  }

  lemma {:induction false} WritesOfDistinct(log: seq<Taken>, n: Token, passing: Passing)
    requires DistinctTokens(log)
    ensures |Writes(log, n, passing)| <= 1
    ensures forall how :: how in Writes(log, n, passing) <==> Writing(how, passing) && Taken(n, how) in log
    ensures n !in Tokens(log) ==> Writes(log, n, passing) == []
  {
    hide Writing;
    if log != [] {
      assert log == [log[0]] + log[1..];
      WritesOfDistinct(log[1..], n, passing);
      if log[0].token == n {
        assert forall i :: 0 <= i < |log[1..]| ==> log[1..][i] == log[i + 1];
        assert n !in Tokens(log[1..]);
      }
      if n !in Tokens(log) {
        assert log[0].token in Tokens(log);
        assert forall i :: 0 <= i < |log[1..]| ==> log[1..][i] == log[i + 1] && log[i + 1].token in Tokens(log);
      }
    }
  }

  lemma SingleWrite(log: seq<Taken>, n: Token, passing: Passing)
    requires DistinctTokens(log)
    ensures |Writes(log, n, passing)| <= 1
    ensures forall how :: Writes(log, n, passing) == [how] <==> Writing(how, passing) && Taken(n, how) in log
  {
    hide Writes, Writing;
    WritesOfDistinct(log, n, passing);
    var w := Writes(log, n, passing);
    forall how ensures w == [how] <==> how in w {
      if how in w {
        assert w[0] == how;
      }
    }
  }

  lemma RunLogDistinct(es: seq<Event>)
    requires WithinCounter(es)
    ensures DistinctTokens(Exec(INIT, es).log)
  {
    hide Exec;
    InitInv();
    RunKeeps(INIT, es);
  }

  lemma TimesOutExactly(s: Sys, e: Event, n: uint64)
    requires Inv(s)
    ensures Taken(n, ByTimeout) in Apply(s, e).log <==> Taken(n, ByTimeout) in s.log || TimesOut(s, e, n)
  {
    hide InvCounter, InvThreads, InvTimers, InvFates, InvArmed, PollFires, StillWaiting;
    LogGrows(s, [e]);
    assert Exec(s, [e]) == Apply(s, e);
    var more := Apply(s, e).log[|s.log|..];
    assert Apply(s, e).log == s.log + more;
    if Enabled(s, e) && e.Poll? {
      PollLogs(s, n, e);
      if TimesOut(s, e, n) {
        assert n in Ids(e.fired);
      }
    }
  }

  /** The timeout callback of a call is called in a run exactly when some step of the run times it out. */
  lemma {:induction false} CalledExactly(s: Sys, es: seq<Event>, n: uint64)
    requires Inv(s) && Exec(s, es).issued <= TWO64
    ensures Taken(n, ByTimeout) in Exec(s, es).log <==>
              Taken(n, ByTimeout) in s.log || exists k :: 0 <= k < |es| && TimesOut(Exec(s, es[..k]), es[k], n)
    decreases |es|
  {
    hide Inv, Apply, TimesOut;
    if es != [] {
      var s1, tail := Apply(s, es[0]), es[1..];
      IssuedGrows(s1, tail);
      ApplyKeeps(s, es[0]);
      TimesOutExactly(s, es[0], n);
      CalledExactly(s1, tail, n);
      assert Exec(s, es[..0]) == s;
      forall k | 0 <= k < |tail| ensures Exec(s1, tail[..k]) == Exec(s, es[..k + 1]) {
        assert es[..k + 1][1..] == tail[..k];
      }
      if k :| 0 <= k < |tail| && TimesOut(Exec(s1, tail[..k]), tail[k], n) {
        assert TimesOut(Exec(s, es[..k + 1]), es[k + 1], n);
      }
      if k :| 0 < k < |es| && TimesOut(Exec(s, es[..k]), es[k], n) {
        assert TimesOut(Exec(s1, tail[..k - 1]), tail[k - 1], n);
      }
    }
  }

  /**
    The promise of a synchronous call is set at most once in every run: by the timeout callback exactly
    when a notice took the call, or a poll that collected no empty or throwing callback in front of it;
    by the handler for a message exactly when this message took the call and is passed on to the handler.
  */
  lemma SyncPromiseSetOnce(es: seq<Event>, n: uint64, passing: Passing)
    requires WithinCounter(es)
    ensures var log := Exec(INIT, es).log;
            && |Writes(log, n, passing)| <= 1
            && (Writes(log, n, passing) == [ByTimeout] <==>
                  exists k :: 0 <= k < |es| && TimesOut(Exec(INIT, es[..k]), es[k], n))
            && (forall m ::
                  Writes(log, n, passing) == [ByResponse(m)] <==> Taken(n, ByResponse(m)) in log && passing(m))
  {
    hide Exec, Inv, Writes, TimesOut;
    assert DistinctTokens(Exec(INIT, es).log) by { RunLogDistinct(es); }
    SingleWrite(Exec(INIT, es).log, n, passing);
    InitInv();
    CalledExactly(INIT, es, n);
  }

  lemma SameTaker(log: seq<Taken>, n: Token, a: How, b: How)
    requires DistinctTokens(log) && Taken(n, a) in log && Taken(n, b) in log
    ensures a == b
  {}

  /**
    Once the call was taken in a way that writes nothing, the promise is not set by anything, however
    the run goes on.
  */
  lemma PromiseNeverSet(es: seq<Event>, later: seq<Event>, n: Token, how: How, passing: Passing)
    requires WithinCounter(es + later)
    requires Taken(n, how) in Exec(INIT, es).log && !Writing(how, passing)
    ensures Writes(Exec(INIT, es + later).log, n, passing) == []
  {
    hide Exec, Inv, Writes, Writing;
    ExecAppend(INIT, es, later);
    LogGrows(Exec(INIT, es), later);
    var log := Exec(INIT, es + later).log;
    assert DistinctTokens(log) by { RunLogDistinct(es + later); }
    assert Taken(n, how) in log;
    SingleWrite(log, n, passing);
    WritesOfDistinct(log, n, passing);
    if Writes(log, n, passing) != [] {
      var other := Writes(log, n, passing)[0];
      assert other in Writes(log, n, passing);
      SameTaker(log, n, other, how);
    }
  }

  // ---------------------------------------------------------------- runs in which a promise stays unset

  lemma ExecOne(s: Sys, e: Event, es: seq<Event>)
    ensures Exec(s, [e] + es) == Exec(Apply(s, e), es)
  {}

  lemma ExecLast(s: Sys, e: Event)
    ensures Exec(s, [e]) == Apply(s, e)
  {}

  /** A call of thread `t`, up to the sending of its request. */
  function TimedCall(t: nat, callback: Behaviour): seq<Event> {
    [Begin(t, Timed(1, callback))] + ([Register(t, 0)] + [Send(t)])
  }

  /** The state after call 0, with a timeout of one second, was sent. */
  function OneWaits(callback: Behaviour): Sys {
    Sys(State(1, map[0 := 0], map[0 := TimeoutCallback(0, callback)], multiset{Timer(NANOS, 0)}),
        map[], {0}, 1, {0}, [])
  }

  /** The state after call 1, a synchronous one, was sent as well. */
  function TwoWait(callback: Behaviour): Sys {
    Sys(State(2, map[0 := 0, 1 := 1], map[0 := TimeoutCallback(0, callback), 1 := TimeoutCallback(1, Returns)],
              multiset{Timer(NANOS, 0), Timer(NANOS, 1)}), map[], {0, 1}, 2, {0, 1}, [])
  }

  lemma CallBegins(s: Sys, callback: Behaviour)
    requires s.threads == map[] && s.client.next !in s.client.stubs && s.client.next !in s.client.timeouts
    ensures var s1 := Apply(s, Begin(0, Timed(1, callback)));
            && s1.threads == map[0 := Allocated(s.client.next, s.issued, Timed(1, callback))]
            && s1 == s.(client := s.client.(next := (s.client.next + 1) % TWO64), threads := s1.threads,
                        issued := s.issued + 1, expecting := s.expecting + {s.issued})
            && Enabled(s1, Register(0, 0))
  {}

  lemma CallSent(s: Sys, pc: Pc)
    requires s.threads == map[0 := pc] && pc.Ready? && pc.kind.Timed? && pc.kind.seconds == 1
    ensures Apply(s, Send(0)) == s.(threads := map[], armed := s.armed + {pc.id})
  {}

  lemma CallSteps(s: Sys, callback: Behaviour)
    requires s.threads == map[] && s.client.next !in s.client.stubs && s.client.next !in s.client.timeouts
    ensures var n := s.client.next;
            var c := s.client.(next := (n + 1) % TWO64);
            Exec(s, TimedCall(0, callback)) ==
              Sys(RegisteredTimed(c, s.issued, callback, Timer(NANOS, n)), map[], s.armed + {n}, s.issued + 1,
                  s.expecting + {s.issued}, s.log)
  {
    hide Exec, RegisteredTimed;
    var n := s.client.next;
    var s1 := Apply(s, Begin(0, Timed(1, callback)));
    var s2 := Apply(s1, Register(0, 0));
    ExecOne(s, Begin(0, Timed(1, callback)), [Register(0, 0)] + [Send(0)]);
    ExecOne(s1, Register(0, 0), [Send(0)]);
    ExecLast(s2, Send(0));
    CallBegins(s, callback);
    CallSent(s2, Ready(n, s.issued, Timed(1, callback)));
  }

  lemma FirstCall(callback: Behaviour)
    ensures Exec(INIT, TimedCall(0, callback)) == OneWaits(callback)
  {
    hide TimedCall;
    CallSteps(INIT, callback);
  }

  lemma SecondCall(callback: Behaviour)
    ensures Exec(OneWaits(callback), TimedCall(0, Returns)) == TwoWait(callback)
  {}

  /** A response whose body does not parse: the promise stays unset for ever, neither response nor timeout sets it. */
  lemma UnreadableResponse(m: nat, later: seq<Event>, passing: Passing)
    requires !passing(m) && WithinCounter(TimedCall(0, Returns) + [Response(0, false, m)] + later)
    ensures var es := TimedCall(0, Returns) + [Response(0, false, m)];
            && Taken(0, ByResponse(m)) in Exec(INIT, es).log
            && Writes(Exec(INIT, es + later).log, 0, passing) == []
  {
    hide Writes, TimedCall, Exec;
    FirstCall(Returns);
    ExecAppend(INIT, TimedCall(0, Returns), [Response(0, false, m)]);
    ExecLast(OneWaits(Returns), Response(0, false, m));
    assert Apply(OneWaits(Returns), Response(0, false, m)).log == [Taken(0, ByResponse(m))];
    PromiseNeverSet(TimedCall(0, Returns) + [Response(0, false, m)], later, 0, ByResponse(m), passing);
  }

  /** A call with an empty timeout callback whose scheduled notice comes: its handler is erased and nothing runs. */
  lemma EmptyCallbackDrops()
    ensures Drops(Exec(INIT, TimedCall(0, Empty)), CauseTimeout(0))
    ensures Exec(INIT, TimedCall(0, Empty) + [CauseTimeout(0)]).log == [Taken(0, Dropped)]
  {
    hide TimedCall, Exec;
    FirstCall(Empty);
    ExecAppend(INIT, TimedCall(0, Empty), [CauseTimeout(0)]);
    ExecLast(OneWaits(Empty), CauseTimeout(0));
  }

  /** The poll in which the two waiting calls expire. */
  function PollBoth(): Event {
    Poll(NANOS, [Timer(NANOS, 0), Timer(NANOS, 1)], multiset{})
  }

  lemma BothExpire(first: Behaviour)
    ensures Enabled(TwoWait(first), PollBoth())
  {}

  lemma SecondNotCalled(first: Behaviour)
    requires first != Returns
    ensures LogOfPoll(TwoWait(first).client, PollBoth().fired)
         == [Taken(0, if first == Throws then ByTimeout else Dropped), Taken(1, Dropped)]
  {
    var callbacks := Callbacks(TwoWait(first).client, PollBoth().fired);
    assert callbacks == [TimeoutCallback(0, first), TimeoutCallback(1, Returns)];
    assert callbacks[0].does != Returns;
    assert !Called(callbacks, 1);
  }

  lemma PollBothLogs(first: Behaviour)
    requires first != Returns
    ensures Apply(TwoWait(first), PollBoth()).log
         == [Taken(0, if first == Throws then ByTimeout else Dropped), Taken(1, Dropped)]
  {
    hide Enabled, LogOfPoll;
    BothExpire(first);
    SecondNotCalled(first);
  }

  /** Two calls expire in one poll. */
  function TwoExpire(first: Behaviour): seq<Event> {
    TimedCall(0, first) + TimedCall(0, Returns) + [PollBoth()]
  }

  /**
    When the callback of the first is empty or throws, that of the second, a synchronous call, is not
    called; its promise stays unset for ever.
  */
  lemma PollCutShort(first: Behaviour, later: seq<Event>, passing: Passing)
    requires first != Returns && WithinCounter(TwoExpire(first) + later)
    ensures Exec(INIT, TwoExpire(first)).log
         == [Taken(0, if first == Throws then ByTimeout else Dropped), Taken(1, Dropped)]
    ensures Writes(Exec(INIT, TwoExpire(first) + later).log, 1, passing) == []
  {
    hide Writes, TimedCall, Exec, PollBoth, TwoWait, Apply;
    FirstCall(first);
    SecondCall(first);
    ExecAppend(INIT, TimedCall(0, first), TimedCall(0, Returns));
    ExecAppend(INIT, TimedCall(0, first) + TimedCall(0, Returns), [PollBoth()]);
    ExecLast(TwoWait(first), PollBoth());
    PollBothLogs(first);
    assert Taken(1, Dropped) in Exec(INIT, TwoExpire(first)).log;
    PromiseNeverSet(TwoExpire(first), later, 1, Dropped, passing);
  }
}
