/**
  The calling side: a counter of sequence ids, the two maps of waiting callbacks and the queue of
  deadlines. Every method of the class below is one step that no other thread can interrupt (an
  atomic increment, or a region under `mStubMapGuard`).
*/
module Client {
  import opened Bytes
  import opened Meta

  /** Names a call; stands for the callbacks the caller passed with it. */
  type Token = nat

  /** What calling a timeout callback does; the caller chose it. An empty function has nothing to call. */
  datatype Behaviour = Empty | Throws | Returns

  datatype TimeoutCallback = TimeoutCallback(token: Token, does: Behaviour)

  datatype Timer = Timer(endTime: int, seqId: uint64)

  datatype State = State(next: uint64, stubs: map<uint64, Token>, timeouts: map<uint64, TimeoutCallback>,
                         timers: multiset<Timer>)

  const NANOS := 1_000_000_000

  const FRESH := State(0, map[], map[], multiset{})

  /** What a response makes the client run once the lock is released. */
  datatype Outcome =
    | RunHandler(token: Token)
    | RunTimeout(token: Token)
    | Silent                    // a timeout response, and no timeout callback or an empty one
    | NotFound                  // "not found response seq id"
    | NotAResponse

  function Registered(s: State, id: uint64, token: Token): State {
    s.(stubs := s.stubs[id := token])
  }

  function RegisteredTimed(s: State, token: Token, does: Behaviour, timer: Timer): State {
    s.(stubs := s.stubs[timer.seqId := token],
       timeouts := s.timeouts[timer.seqId := TimeoutCallback(token, does)],
       timers := s.timers + multiset{timer})
  }

  function AfterResponse(s: State, id: uint64): State {
    s.(stubs := s.stubs - {id}, timeouts := s.timeouts - {id})
  }

  function ResponseOutcome(s: State, id: uint64, timeout: bool): Outcome {
    if timeout then
      if id in s.timeouts && s.timeouts[id].does != Empty then RunTimeout(s.timeouts[id].token) else Silent
    else
      if id in s.stubs then RunHandler(s.stubs[id]) else NotFound
  }

  // ---------------------------------------------------------------- polling

  predicate Sorted(fired: seq<Timer>) {
    forall i, j :: 0 <= i < j < |fired| ==> fired[i].endTime <= fired[j].endTime
  }

  predicate DistinctIds(fired: seq<Timer>) {
    forall i, j :: 0 <= i < j < |fired| ==> fired[i].seqId != fired[j].seqId
  }

  function Ids(fired: seq<Timer>): (ids: set<uint64>)
    ensures forall i :: 0 <= i < |fired| ==> fired[i].seqId in ids
    ensures forall id :: id in ids ==> exists i :: 0 <= i < |fired| && fired[i].seqId == id
  {
    if fired == [] then {} else {fired[0].seqId} + Ids(fired[1..])
  }

  /** A pending timed call whose deadline is at most `now`. */
  ghost predicate Expired(s: State, now: int, id: uint64) {
    id in s.timeouts && exists t :: t in s.timers && t.seqId == id && t.endTime <= now
  }

  /** `rest` is the queue `timers` without the deadlines that have passed. */
  ghost predicate StillWaiting(timers: multiset<Timer>, now: int, rest: multiset<Timer>) {
    forall t: Timer :: rest[t] == if t.endTime > now then timers[t] else 0
  }

  /**
    What one poll at clock `now` does, `fired` listing the timers whose callbacks are collected:
    exactly the expired calls, each once, by nondecreasing deadline.
  */
  ghost predicate PollFires(s: State, now: int, fired: seq<Timer>) {
    && (forall i :: 0 <= i < |fired| ==> fired[i] in s.timers && fired[i].endTime <= now)
    && (forall id :: id in Ids(fired) <==> Expired(s, now, id))
    && DistinctIds(fired)
    && Sorted(fired)
  }

  function AfterPoll(s: State, fired: seq<Timer>, rest: multiset<Timer>): State {
    State(s.next, s.stubs - Ids(fired), s.timeouts - Ids(fired), rest)
  }

  predicate AllTimed(s: State, fired: seq<Timer>) {
    forall i :: 0 <= i < |fired| ==> fired[i].seqId in s.timeouts
  }

  /** The callbacks a poll collects, in the order of their deadlines. */
  function Callbacks(s: State, fired: seq<Timer>): seq<TimeoutCallback>
    requires AllTimed(s, fired)
  {
    seq(|fired|, i requires 0 <= i < |fired| => s.timeouts[fired[i].seqId])
  }

  /** Which of the collected callbacks are called: calling an empty one throws, and an exception ends the poll. */
  predicate Called(callbacks: seq<TimeoutCallback>, i: nat)
    requires i < |callbacks|
  {
    callbacks[i].does != Empty && forall j :: 0 <= j < i ==> callbacks[j].does == Returns
  }

  lemma {:induction false} IdsAppend(fired: seq<Timer>, t: Timer)
    ensures Ids(fired + [t]) == Ids(fired) + {t.seqId}
  {
    if fired != [] {
      assert (fired + [t])[1..] == fired[1..] + [t];
      IdsAppend(fired[1..], t);
    }
  }

  lemma {:induction false} LeastExists(timers: multiset<Timer>)
    requires timers != multiset{}
    ensures exists t :: t in timers && forall u :: u in timers ==> t.endTime <= u.endTime
    decreases |timers|
  {
    var t :| t in timers;
    var others := timers - multiset{t};
    if others != multiset{} {
      LeastExists(others);
      var m :| m in others && forall u :: u in others ==> m.endTime <= u.endTime;
      forall u | u in timers ensures u == t || u in others {}
      var least := if m.endTime <= t.endTime then m else t;
      assert least in timers && forall u :: u in timers ==> least.endTime <= u.endTime;
    } else {
      assert forall u :: u in timers ==> u == t by {
        assert timers == multiset{t} + others;
      }
    }
  }

  ghost predicate PollingTimers(s: State, now: int, fired: seq<Timer>, cur: State) {
    && cur.timers <= s.timers
    && (forall t: Timer :: t.endTime > now || t.seqId in cur.timeouts ==> cur.timers[t] == s.timers[t])
    && (forall i :: 0 <= i < |fired| ==> fired[i] in s.timers)
  }

  ghost predicate PollingFired(now: int, fired: seq<Timer>, timers: multiset<Timer>) {
    && (forall i :: 0 <= i < |fired| ==> fired[i].endTime <= now)
    && (forall i, t :: 0 <= i < |fired| && t in timers ==> fired[i].endTime <= t.endTime)
    && Sorted(fired)
    && DistinctIds(fired)
  }

  /** The polling loop between two turns: `s` is the state it started from, `cur` the present one. */
  ghost predicate Polling(s: State, now: int, fired: seq<Timer>, cur: State) {
    && cur == AfterPoll(s, fired, cur.timers)
    && AllTimed(s, fired)
    && PollingTimers(s, now, fired, cur)
    && PollingFired(now, fired, cur.timers)
  }

  ghost predicate IsHead(head: Timer, timers: multiset<Timer>) {
    head in timers && forall t :: t in timers ==> head.endTime <= t.endTime
  }

  lemma PollStarts(s: State, now: int)
    ensures AllTimed(s, []) && Polling(s, now, [], s) && Callbacks(s, []) == []
  {}

  lemma PollPops(s: State, now: int, fired: seq<Timer>, cur: State, head: Timer)
    requires Polling(s, now, fired, cur)
    requires IsHead(head, cur.timers) && head.endTime <= now
    requires head.seqId !in cur.timeouts
    ensures Polling(s, now, fired, cur.(timers := cur.timers - multiset{head}))
  {}

  lemma MinusTwice<V>(m: map<uint64, V>, a: set<uint64>, b: set<uint64>)
    ensures m - a - b == m - (a + b)
  {}

  lemma FiredAppend(now: int, fired: seq<Timer>, timers: multiset<Timer>, head: Timer)
    requires PollingFired(now, fired, timers)
    requires IsHead(head, timers) && head.endTime <= now && head.seqId !in Ids(fired)
    ensures PollingFired(now, fired + [head], timers - multiset{head})
  {
    hide Ids;
    var more := fired + [head];
    forall i, j | 0 <= i < j < |more| ensures more[i].endTime <= more[j].endTime && more[i].seqId != more[j].seqId {
      assert more[i] == fired[i] && fired[i].seqId in Ids(fired);
    }
  }

  lemma PollCollects(s: State, now: int, fired: seq<Timer>, cur: State, head: Timer)
    requires Polling(s, now, fired, cur)
    requires IsHead(head, cur.timers) && head.endTime <= now
    requires head.seqId in cur.timeouts
    ensures Polling(s, now, fired + [head],
                    State(cur.next, cur.stubs - {head.seqId}, cur.timeouts - {head.seqId}, cur.timers - multiset{head}))
    ensures AllTimed(s, fired) && AllTimed(s, fired + [head])
    ensures Callbacks(s, fired + [head]) == Callbacks(s, fired) + [cur.timeouts[head.seqId]]
  {
    hide PollingFired, Ids;
    IdsAppend(fired, head);
    MinusTwice(s.stubs, Ids(fired), {head.seqId});
    MinusTwice(s.timeouts, Ids(fired), {head.seqId});
    FiredAppend(now, fired, cur.timers, head);
  }

  lemma PollStops(s: State, now: int, fired: seq<Timer>, cur: State)
    requires Polling(s, now, fired, cur)
    requires forall t :: t in cur.timers ==> t.endTime > now
    ensures PollFires(s, now, fired) && StillWaiting(s.timers, now, cur.timers)
    ensures cur == AfterPoll(s, fired, cur.timers)
  {}

  /** A poll, entry by entry. */
  lemma PollMeans(s: State, now: int, fired: seq<Timer>, rest: multiset<Timer>)
    requires PollFires(s, now, fired) && AllTimed(s, fired)
    ensures var c, callbacks := AfterPoll(s, fired, rest), Callbacks(s, fired);
            && (forall id :: id in c.timeouts <==> id in s.timeouts && !Expired(s, now, id))
            && (forall id :: id in c.stubs <==> id in s.stubs && !Expired(s, now, id))
            && (forall id :: id in c.timeouts ==> c.timeouts[id] == s.timeouts[id])
            && (forall id :: id in c.stubs ==> c.stubs[id] == s.stubs[id])
            && (forall id :: Expired(s, now, id) <==> exists i :: 0 <= i < |fired| && fired[i].seqId == id)
            && (forall i, j :: 0 <= i < j < |fired| ==>
                  fired[i].endTime <= fired[j].endTime && fired[i].seqId != fired[j].seqId)
            && |callbacks| == |fired|
            && (forall i :: 0 <= i < |fired| ==>
                  fired[i].seqId in s.timeouts && callbacks[i] == s.timeouts[fired[i].seqId])
  {}

  class BaseClient {
    var mSequenceID: uint64
    var mStubHandleMap: map<uint64, Token>
    var mTimeoutHandleMap: map<uint64, TimeoutCallback>
    var mWaitResponseTimerQueue: multiset<Timer>

    ghost function Value(): State
      reads this
    {
      State(mSequenceID, mStubHandleMap, mTimeoutHandleMap, mWaitResponseTimerQueue)
    }

    constructor ()
      ensures Value() == FRESH
    {
      mSequenceID := 0;
      mStubHandleMap, mTimeoutHandleMap, mWaitResponseTimerQueue := map[], map[], multiset{};
    }

    /** The atomic increment at the start of a call; the counter wraps at 64 bits. */
    method NextSequenceID() returns (id: uint64)
      modifies this`mSequenceID
      ensures id == old(mSequenceID)
      ensures mSequenceID == if id == TWO64 - 1 then 0 else id + 1
      ensures Value() == old(Value()).(next := (id + 1) % TWO64)
    {
      id := mSequenceID;
      mSequenceID := (mSequenceID + 1) % TWO64;
    }

    /** The locked part of a call without a timeout; the precondition is the assert in the code. */
    method Register(id: uint64, token: Token)
      requires id !in mStubHandleMap
      modifies this`mStubHandleMap
      ensures mStubHandleMap == old(mStubHandleMap)[id := token]
      ensures Value() == Registered(old(Value()), id, token)
    {
      mStubHandleMap := mStubHandleMap[id := token];
    }

    /** The locked part of a call with a timeout. */
    method RegisterTimed(id: uint64, token: Token, callback: Behaviour, endTime: int)
      requires id !in mStubHandleMap
      requires id !in mTimeoutHandleMap
      modifies this`mStubHandleMap, this`mTimeoutHandleMap, this`mWaitResponseTimerQueue
      ensures mStubHandleMap == old(mStubHandleMap)[id := token]
      ensures mTimeoutHandleMap == old(mTimeoutHandleMap)[id := TimeoutCallback(token, callback)]
      ensures mWaitResponseTimerQueue == old(mWaitResponseTimerQueue) + multiset{Timer(endTime, id)}
      ensures Value() == RegisteredTimed(old(Value()), token, callback, Timer(endTime, id))
    {
      var waitTimer := Timer(endTime, id);
      mStubHandleMap := mStubHandleMap[id := token];
      mTimeoutHandleMap := mTimeoutHandleMap[id := TimeoutCallback(token, callback)];
      mWaitResponseTimerQueue := mWaitResponseTimerQueue + multiset{waitTimer};
    }

    /**
      A call without a timeout, start to end when no other thread interferes; `meta` is what goes to
      the outbound chain. Without a handler (`token` None) nothing is registered.
    */
    method Call(serviceId: uint32, msgId: uint64, token: Option<Token>) returns (meta: RpcMeta)
      requires token.Some? ==> mSequenceID !in mStubHandleMap
      modifies this`mSequenceID, this`mStubHandleMap
      ensures meta.typ == 0 && meta.serviceId == serviceId && meta.encoding == 0
      ensures meta.responseInfo == None && meta.metaData == map[]
      ensures meta.requestInfo.Some?
      ensures var info := meta.requestInfo.value;
              && info.intMethod == msgId && info.strMethod == [] && info.sequenceId == old(mSequenceID)
              && info.expectResponse == token.Some? && info.timeout == 0
      ensures mSequenceID == (old(mSequenceID) + 1) % TWO64
      ensures token.Some? ==> mStubHandleMap == old(mStubHandleMap)[old(mSequenceID) := token.value]
      ensures token.None? ==> mStubHandleMap == old(mStubHandleMap)
    {
      var id := NextSequenceID();
      meta := RequestMeta(id, serviceId, msgId, BINARY, token.Some?, 0);
      if token.Some? {
        Register(id, token.value);
      }
    }

    /**
      The same with a timeout of `seconds`, which is a signed number that goes into the meta as an
      unsigned one; `clock` is read when the timer is made.
    */
    method CallTimed(serviceId: uint32, msgId: uint64, token: Token, seconds: int64, callback: Behaviour, clock: int)
      returns (meta: RpcMeta)
      requires mSequenceID !in mStubHandleMap
      requires mSequenceID !in mTimeoutHandleMap
      modifies this`mSequenceID, this`mStubHandleMap, this`mTimeoutHandleMap, this`mWaitResponseTimerQueue
      ensures meta.typ == 0 && meta.serviceId == serviceId && meta.encoding == 0
      ensures meta.responseInfo == None && meta.metaData == map[]
      ensures meta.requestInfo.Some?
      ensures var info := meta.requestInfo.value;
              && info.intMethod == msgId && info.strMethod == [] && info.sequenceId == old(mSequenceID)
              && info.expectResponse && info.timeout == if seconds >= 0 then seconds else seconds + TWO64
      ensures mSequenceID == (old(mSequenceID) + 1) % TWO64
      ensures mStubHandleMap == old(mStubHandleMap)[old(mSequenceID) := token]
      ensures mTimeoutHandleMap == old(mTimeoutHandleMap)[old(mSequenceID) := TimeoutCallback(token, callback)]
      ensures mWaitResponseTimerQueue
           == old(mWaitResponseTimerQueue) + multiset{Timer(clock + seconds * 1_000_000_000, old(mSequenceID))}
    {
      var id := NextSequenceID();
      meta := RequestMeta(id, serviceId, msgId, BINARY, true, 0);
      meta := meta.(requestInfo := Some(RequestOf(meta).(timeout := Unsigned(seconds))));
      RegisterTimed(id, token, callback, clock + seconds * NANOS);
    }

    /** Some entry of the queue with the least deadline. */
    method Top() returns (head: Timer)
      requires mWaitResponseTimerQueue != multiset{}
      ensures head in mWaitResponseTimerQueue
      ensures forall t :: t in mWaitResponseTimerQueue ==> head.endTime <= t.endTime
    {
      LeastExists(mWaitResponseTimerQueue);
      head :| head in mWaitResponseTimerQueue && forall t :: t in mWaitResponseTimerQueue ==> head.endTime <= t.endTime;
    }

    /**
      The locked part of a poll: removes the expired calls from both maps and collects their callbacks;
      `fired` lists the timers that were found in the timeout map.
    */
    method CollectExpired(now: int) returns (callbacks: seq<TimeoutCallback>, fired: seq<Timer>)
      modifies this`mStubHandleMap, this`mTimeoutHandleMap, this`mWaitResponseTimerQueue
      ensures PollFires(old(Value()), now, fired)
      ensures StillWaiting(old(mWaitResponseTimerQueue), now, mWaitResponseTimerQueue)
      ensures Value() == AfterPoll(old(Value()), fired, mWaitResponseTimerQueue)
      ensures AllTimed(old(Value()), fired)
      ensures callbacks == Callbacks(old(Value()), fired)
    {
      hide Polling, AfterPoll, Callbacks, AllTimed, PollFires, StillWaiting;
      PollStarts(Value(), now);
      callbacks, fired := [], [];
      while mWaitResponseTimerQueue != multiset{}
        invariant Polling(old(Value()), now, fired, Value())
        invariant AllTimed(old(Value()), fired)
        invariant callbacks == Callbacks(old(Value()), fired)
        decreases |mWaitResponseTimerQueue|
      {
        var head := Top();
        if head.endTime > now {
          break;
        }
        if head.seqId in mTimeoutHandleMap {
          PollCollects(old(Value()), now, fired, Value(), head);
          callbacks := callbacks + [mTimeoutHandleMap[head.seqId]];
          fired := fired + [head];
          mTimeoutHandleMap := mTimeoutHandleMap - {head.seqId};
          mStubHandleMap := mStubHandleMap - {head.seqId};
        } else {
          PollPops(old(Value()), now, fired, Value(), head);
        }
        mWaitResponseTimerQueue := mWaitResponseTimerQueue - multiset{head};
      }
      PollStops(old(Value()), now, fired, Value());
    }

    /** Calls the collected callbacks one after the other; the first exception ends the loop. */
    method RunCallbacks(callbacks: seq<TimeoutCallback>) returns (called: seq<Token>, threw: bool)
      ensures |called| <= |callbacks|
      ensures forall i :: 0 <= i < |callbacks| ==> (Called(callbacks, i) <==> i < |called|)
      ensures forall i :: 0 <= i < |called| ==> called[i] == callbacks[i].token
      ensures threw <==> exists i :: 0 <= i < |callbacks| && callbacks[i].does != Returns
    {
      called := [];
      for i := 0 to |callbacks|
        invariant |called| == i
        invariant forall j :: 0 <= j < i ==> callbacks[j].does == Returns && called[j] == callbacks[j].token
      {
        if callbacks[i].does == Empty {
          return called, true;
        }
        called := called + [callbacks[i].token];
        if callbacks[i].does == Throws {
          return called, true;
        }
      }
      return called, false;
    }

    /** A whole poll: collect under the lock, then call. */
    method CheckTimeout(now: int)
      returns (called: seq<Token>, threw: bool, callbacks: seq<TimeoutCallback>, fired: seq<Timer>)
      modifies this`mStubHandleMap, this`mTimeoutHandleMap, this`mWaitResponseTimerQueue
      ensures PollFires(old(Value()), now, fired)
      ensures StillWaiting(old(mWaitResponseTimerQueue), now, mWaitResponseTimerQueue)
      ensures Value() == AfterPoll(old(Value()), fired, mWaitResponseTimerQueue)
      ensures AllTimed(old(Value()), fired)
      ensures callbacks == Callbacks(old(Value()), fired)
      ensures |called| <= |callbacks|
      ensures forall i :: 0 <= i < |callbacks| ==> (Called(callbacks, i) <==> i < |called|)
      ensures forall i :: 0 <= i < |called| ==> called[i] == callbacks[i].token
      ensures threw <==> exists i :: 0 <= i < |callbacks| && callbacks[i].does != Returns
      // the calls that leave both maps are those with a deadline that has passed, and no others
      ensures forall id :: id in mTimeoutHandleMap <==> id in old(mTimeoutHandleMap) && !Expired(old(Value()), now, id)
      ensures forall id :: id in mStubHandleMap <==> id in old(mStubHandleMap) && !Expired(old(Value()), now, id)
      ensures forall id :: id in mTimeoutHandleMap ==> mTimeoutHandleMap[id] == old(mTimeoutHandleMap[id])
      ensures forall id :: id in mStubHandleMap ==> mStubHandleMap[id] == old(mStubHandleMap[id])
      // their callbacks are collected once each, the earlier deadline first
      ensures forall id :: Expired(old(Value()), now, id) <==> exists i :: 0 <= i < |fired| && fired[i].seqId == id
      ensures forall i, j :: 0 <= i < j < |fired| ==>
                fired[i].endTime <= fired[j].endTime && fired[i].seqId != fired[j].seqId
      ensures |callbacks| == |fired|
      ensures forall i :: 0 <= i < |fired| ==>
                fired[i].seqId in old(mTimeoutHandleMap) && callbacks[i] == old(mTimeoutHandleMap)[fired[i].seqId]
    {
      hide PollFires, StillWaiting, AfterPoll, AllTimed, Callbacks, Called, Expired;
      callbacks, fired := CollectExpired(now);
      PollMeans(old(Value()), now, fired, mWaitResponseTimerQueue);
      called, threw := RunCallbacks(callbacks);
    }

    /** Takes the callback a response or a timeout notice is for, under the lock. */
    method ProcessRpcResponse(meta: RpcMeta) returns (outcome: Outcome)
      modifies this`mStubHandleMap, this`mTimeoutHandleMap
      ensures meta.typ != RESPONSE ==> outcome == NotAResponse && Value() == old(Value())
      ensures meta.typ == RESPONSE ==>
                var info := ResponseOf(meta);
                && outcome == ResponseOutcome(old(Value()), info.sequenceId, info.timeout)
                && Value() == AfterResponse(old(Value()), info.sequenceId)
      // a response
      ensures meta.typ == RESPONSE && !ResponseOf(meta).timeout ==>
                var id := ResponseOf(meta).sequenceId;
                outcome == if id in old(mStubHandleMap) then RunHandler(old(mStubHandleMap[id])) else NotFound
      // a timeout notice
      ensures meta.typ == RESPONSE && ResponseOf(meta).timeout ==>
                var id := ResponseOf(meta).sequenceId;
                outcome == if id in old(mTimeoutHandleMap) && old(mTimeoutHandleMap[id]).does != Empty
                           then RunTimeout(old(mTimeoutHandleMap[id]).token) else Silent
      // either way the call leaves both maps
      ensures meta.typ == RESPONSE ==>
                var id := ResponseOf(meta).sequenceId;
                && mStubHandleMap == old(mStubHandleMap) - {id} && mTimeoutHandleMap == old(mTimeoutHandleMap) - {id}
                && mSequenceID == old(mSequenceID) && mWaitResponseTimerQueue == old(mWaitResponseTimerQueue)
    {
      if meta.typ != RESPONSE {
        return NotAResponse;
      }
      var id := ResponseOf(meta).sequenceId;
      if ResponseOf(meta).timeout {
        mStubHandleMap := mStubHandleMap - {id};
        outcome := Silent;
        if id in mTimeoutHandleMap {
          if mTimeoutHandleMap[id].does != Empty {
            outcome := RunTimeout(mTimeoutHandleMap[id].token);
          }
          mTimeoutHandleMap := mTimeoutHandleMap - {id};
        }
        return;
      }
      mTimeoutHandleMap := mTimeoutHandleMap - {id};
      if id !in mStubHandleMap {
        return NotFound;
      }
      outcome := RunHandler(mStubHandleMap[id]);
      mStubHandleMap := mStubHandleMap - {id};
    }
  }
}
