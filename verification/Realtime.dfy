/**
 The shared event stream of apps/web/lib/realtime-client.ts.  A connection is the
 number of the EventSource; `open` and `timers` are what the browser holds: the
 connections that are not closed and the timeouts that have not fired.  Nothing
 reaches a closed EventSource, and a cleared timeout does not fire.
 */
module Realtime {
  import opened Common

  const FIRST_DELAY := 1000
  const MAX_DELAY := 30_000

  type Subscriber = nat

  datatype State = State(
    eventSource: Option<nat>,
    subscribers: set<Subscriber>,
    retryTimer: Option<nat>,
    retryDelay: int,
    manuallyClosed: bool,
    // the browser
    open: set<nat>,
    timers: set<nat>,
    delays: map<nat, int>,  // what each timeout was set to, in milliseconds
    nextId: nat)

  const INITIAL := State(None, {}, None, FIRST_DELAY, false, {}, {}, map[], 0)

  /** `setTimeout` for a reconnection attempt; an earlier timer that was recorded is forgotten, not cleared. */
  function AfterScheduling(s: State): State {
    s.(retryTimer := Some(s.nextId), timers := s.timers + {s.nextId}, delays := s.delays[s.nextId := s.retryDelay], nextId := s.nextId + 1)
  }

  /** `connect`; `ok` says whether the EventSource could be constructed. */
  function AfterConnect(s: State, ok: bool): State {
    if s.manuallyClosed || s.eventSource.Some? then s
    else if ok then s.(eventSource := Some(s.nextId), open := s.open + {s.nextId}, nextId := s.nextId + 1)
    else AfterScheduling(s)
  }

  function AfterTeardown(s: State): State {
    var timers := if s.retryTimer.Some? then s.timers - {s.retryTimer.value} else s.timers;
    var open := if s.eventSource.Some? then s.open - {s.eventSource.value} else s.open;
    s.(manuallyClosed := true, retryTimer := None, timers := timers, eventSource := None, open := open)
  }

  function AfterSubscribe(s: State, cb: Subscriber, ok: bool): State {
    var t := s.(subscribers := s.subscribers + {cb});
    if t.eventSource.Some? then t else AfterConnect(t.(retryDelay := FIRST_DELAY, manuallyClosed := false), ok)
  }

  /** The function `subscribeRealtime` returns; it may be called more than once. */
  function AfterUnsubscribe(s: State, cb: Subscriber): State {
    var t := s.(subscribers := s.subscribers - {cb});
    if t.subscribers == {} && !t.manuallyClosed then AfterTeardown(t) else t
  }

  function AfterOpen(s: State): State {
    s.(retryDelay := FIRST_DELAY)
  }

  function AfterError(s: State, es: nat): State {
    AfterScheduling(s.(open := s.open - {es}, eventSource := if s.eventSource == Some(es) then None else s.eventSource))
  }

  function AfterTimer(s: State, timer: nat, ok: bool): State {
    var doubled := s.retryDelay * 2;
    var t := s.(timers := s.timers - {timer}, retryDelay := if doubled < MAX_DELAY then doubled else MAX_DELAY);
    AfterConnect(t, ok)
  }

  datatype Event =
    | DoSubscribe(cb: Subscriber, ok: bool)
    | DoUnsubscribe(cb: Subscriber)
    | Opens(es: nat)
    | Fails(es: nat)
    | Fires(timer: nat, ok: bool)

  /** What can happen: a closed connection reports nothing, and a timer fires once, unless cleared before. */
  predicate Enabled(s: State, e: Event) {
    match e
    case DoSubscribe(_, _) => true
    case DoUnsubscribe(_) => true
    case Opens(es) => es in s.open
    case Fails(es) => es in s.open
    case Fires(timer, _) => timer in s.timers
  }

  function Step(s: State, e: Event): State {
    match e
    case DoSubscribe(cb, ok) => AfterSubscribe(s, cb, ok)
    case DoUnsubscribe(cb) => AfterUnsubscribe(s, cb)
    case Opens(es) => AfterOpen(s)
    case Fails(es) => AfterError(s, es)
    case Fires(timer, ok) => AfterTimer(s, timer, ok)
  }

  function Run(s: State, es: seq<Event>): State
    decreases es
  {
    if es == [] then s else Run(if Enabled(s, es[0]) then Step(s, es[0]) else s, es[1..])
  }

  // ------------------------------------------------------------------ invariant

  predicate Valid(s: State) {
    // at most one connection is open, and it is the recorded one
    && s.open == (if s.eventSource.Some? then {s.eventSource.value} else {})
    // nobody listening: nothing open, and nothing that could open it
    && (s.subscribers == {} ==> s.eventSource.None? && (s.manuallyClosed || s.timers == {}))
    // somebody listening: connected, or about to try again
    && (s.subscribers != {} ==> !s.manuallyClosed && (s.eventSource.Some? || s.timers != {}))
    && FIRST_DELAY <= s.retryDelay <= MAX_DELAY
    && (forall t :: t in s.timers ==> t < s.nextId && t in s.delays && FIRST_DELAY <= s.delays[t] <= MAX_DELAY)
    && (forall c :: c in s.open ==> c < s.nextId)
  }

  lemma StepKeepsValid(s: State, e: Event)
    requires Valid(s) && Enabled(s, e)
    ensures Valid(Step(s, e))
  {
    match e
    case DoSubscribe(cb, ok) =>
      assert cb in s.subscribers + {cb};
      assert s.nextId in s.timers + {s.nextId};
    case DoUnsubscribe(cb) =>
    case Opens(es) =>
    case Fails(es) =>
      assert s.nextId in s.timers + {s.nextId};
    case Fires(timer, ok) =>
      assert s.nextId in s.timers - {timer} + {s.nextId};
  }

  lemma {:induction false} RunKeepsValid(s: State, es: seq<Event>)
    requires Valid(s)
    ensures Valid(Run(s, es))
    decreases es
  {
    if es != [] {
      if Enabled(s, es[0]) {
        StepKeepsValid(s, es[0]);
      }
      RunKeepsValid(if Enabled(s, es[0]) then Step(s, es[0]) else s, es[1..]);
    }
  }

  /** In every reachable state: one connection at most, none without listeners, and listeners never wait in vain. */
  lemma EveryReachableState(es: seq<Event>)
    ensures var s := Run(INITIAL, es);
      && |s.open| <= 1 && (forall c :: c in s.open <==> s.eventSource == Some(c))
      && (s.subscribers == {} ==> s.open == {})
      && (s.subscribers != {} ==> |s.open| == 1 || s.timers != {})
      && 1000 <= s.retryDelay <= 30_000
      && (forall t :: t in s.timers ==> t in s.delays && 1000 <= s.delays[t] <= 30_000)
  {
    RunKeepsValid(INITIAL, es);
  }

  /** With nobody listening, nothing that happens other than a subscription ever opens a connection. */
  lemma {:induction false} StaysClosed(s: State, es: seq<Event>)
    requires Valid(s) && s.subscribers == {} && forall i :: 0 <= i < |es| ==> !es[i].DoSubscribe?
    ensures Run(s, es).open == {}
    decreases es
  {
    if es != [] {
      var next := if Enabled(s, es[0]) then Step(s, es[0]) else s;
      if Enabled(s, es[0]) {
        StepKeepsValid(s, es[0]);
      }
      assert next.subscribers == {};
      assert forall i :: 0 <= i < |es[1..]| ==> es[1..][i] == es[i + 1];
      StaysClosed(next, es[1..]);
    }
  }

  /** While somebody listens, the stream is one successful attempt away: any pending timer will do, orphaned or not. */
  lemma OneAttemptAway(s: State, timer: nat)
    requires Valid(s) && s.subscribers != {} && s.eventSource.None? && timer in s.timers
    ensures var t := Step(s, Fires(timer, true)); t.eventSource.Some? && t.open == {t.eventSource.value}
  {
  }

  /** Orphaned timers do occur: a second subscriber connects past a pending retry, and a failure forgets it. */
  lemma OrphanedTimer(s: State, cb: Subscriber)
    requires Valid(s) && s.subscribers != {} && s.eventSource.None? && s.retryTimer.Some? && s.retryTimer.value in s.timers
    ensures var t := Step(s, DoSubscribe(cb, true));
      Enabled(t, Fails(s.nextId))
      && s.retryTimer.value in Step(t, Fails(s.nextId)).timers
      && Step(t, Fails(s.nextId)).retryTimer != s.retryTimer
  {
    assert s.retryTimer.value < s.nextId;
  }

  /** There is a connection that is new. */
  predicate Connects(s: State, t: State) {
    t.eventSource.Some? && t.eventSource.value !in s.open && t.timers == s.timers
  }

  /** There is one more timer, with this delay, and no connection. */
  predicate Schedules(s: State, t: State, delay: int) {
    t.eventSource.None? && t.open == {} && t.retryTimer.Some? && t.retryTimer.value !in s.timers
    && t.timers == s.timers + {t.retryTimer.value} && t.retryTimer.value in t.delays && t.delays[t.retryTimer.value] == delay
  }

  /** A failed connection is given up and retried after the current delay; one that opens resets the delay. */
  lemma ConnectionEvents(s: State, es: nat)
    requires Valid(s) && es in s.open
    ensures Schedules(s, Step(s, Fails(es)), s.retryDelay)
    ensures Step(s, Opens(es)) == s.(retryDelay := 1000)
  {
  }

  /** The first subscriber connects at once, later ones share the connection; the last one to leave closes it. */
  lemma SubscriberEvents(s: State, cb: Subscriber, ok: bool)
    requires Valid(s)
    ensures var t := Step(s, DoSubscribe(cb, ok));
      && t.subscribers == s.subscribers + {cb}
      && (s.eventSource.Some? ==> t == s.(subscribers := t.subscribers))
      && (s.eventSource.None? ==> t.retryDelay == 1000 && if ok then Connects(s, t) else Schedules(s, t, 1000))
    ensures var t := Step(s, DoUnsubscribe(cb));
      && t.subscribers == s.subscribers - {cb}
      && (t.subscribers != {} ==> t == s.(subscribers := t.subscribers))
      && (t.subscribers == {} ==> t.open == {} && t.eventSource.None? && t.manuallyClosed)
      && (t.subscribers == {} && s.subscribers != {} ==>
            t.timers == set timer | timer in s.timers && s.retryTimer != Some(timer))
  {
  }

  /** A timer connects if somebody listens and there is no connection, and otherwise only raises the delay. */
  lemma TimerEvents(s: State, timer: nat, ok: bool)
    requires Valid(s) && timer in s.timers
    ensures var t := Step(s, Fires(timer, ok));
      var u := s.(timers := s.timers - {timer}, retryDelay := t.retryDelay);
      && t.retryDelay == (if s.retryDelay >= 15_000 then 30_000 else s.retryDelay + s.retryDelay)
      && (s.subscribers == {} || s.eventSource.Some? ==> t == u)
      && (s.subscribers != {} && s.eventSource.None? ==> if ok then Connects(u, t) else Schedules(u, t, t.retryDelay))
  {
  }

  /** A subscription that finds no connection: it resets the delay and connects at once. */
  predicate Reconnects(s: State, e: Event) {
    e.DoSubscribe? && s.eventSource.None?
  }

  function Next(s: State, e: Event): State {
    if Enabled(s, e) then Step(s, e) else s
  }

  /** Retries under way: pending timers, and the connection that would schedule the next one. */
  function Attempts(s: State): nat {
    |s.timers| + if s.eventSource.Some? then 1 else 0
  }

  /** How many subscriptions connect although a retry is pending. */
  function ConnectedPast(s: State, es: seq<Event>): nat
    decreases es
  {
    if es == [] then 0 else
      (if Reconnects(s, es[0]) && s.timers != {} then 1 else 0) + ConnectedPast(Next(s, es[0]), es[1..])
  }

  lemma AttemptsStep(s: State, e: Event)
    requires Valid(s) && Enabled(s, e)
    ensures Attempts(Step(s, e)) <=
      if Reconnects(s, e) then Attempts(s) + 1 else Attempts(s)
  {
    OneMore(s.timers, s.nextId);
    match e
    case DoSubscribe(cb, ok) =>
    case DoUnsubscribe(cb) =>
      if s.retryTimer.Some? {
        OneLess(s.timers, s.retryTimer.value);
      }
    case Opens(es) =>
    case Fails(es) =>
    case Fires(timer, ok) =>
      OneLess(s.timers, timer);
      OneMore(s.timers - {timer}, s.nextId);
  }

  lemma OneMore(t: set<nat>, x: nat)
    ensures |t + {x}| <= |t| + 1
  {
    if x in t {
      assert t + {x} == t;
    }
  }

  lemma OneLess(t: set<nat>, x: nat)
    ensures |t - {x}| == if x in t then |t| - 1 else |t|
  {
    if x !in t {
      assert t - {x} == t;
    }
  }

  lemma {:induction false} AttemptsBounded(s: State, es: seq<Event>)
    requires Valid(s)
    ensures Attempts(Run(s, es)) <= (if Attempts(s) > 1 then Attempts(s) else 1) + ConnectedPast(s, es)
    decreases es
  {
    hide Step, Enabled, Attempts, Valid;
    if es != [] {
      var e := es[0];
      if Enabled(s, e) {
        StepKeepsValid(s, e);
        AttemptsStep(s, e);
        AttemptsBounded(Step(s, e), es[1..]);
        NoneUnderWay(s);
      } else {
        AttemptsBounded(s, es[1..]);
        AlwaysEnabled(s, e);
      }
    }
  }

  lemma AlwaysEnabled(s: State, e: Event)
    ensures e.DoSubscribe? ==> Enabled(s, e)
  {
  }

  lemma NoneUnderWay(s: State)
    ensures s.eventSource.None? && s.timers == {} ==> Attempts(s) == 0
  {
  }

  /** Over all runs there is one pending timer at most for each subscription that connected past one, and one more. */
  lemma TimersBounded(es: seq<Event>)
    ensures var s := Run(INITIAL, es);
      |s.timers| <= 1 + ConnectedPast(INITIAL, es) && (s.eventSource.Some? ==> |s.timers| <= ConnectedPast(INITIAL, es))
  {
    AttemptsBounded(INITIAL, es);
  }

  // -------------------------------------------------------------------- backoff

  /** The delay of the n-th attempt in a row: doubled each time, up to half a minute. */
  function Backoff(n: nat): int {
    if n == 0 then FIRST_DELAY else
      var doubled := Backoff(n - 1) * 2;
      if doubled < MAX_DELAY then doubled else MAX_DELAY
  }

  /** No connection opens and no subscription reconnects; everything else may happen. */
  predicate NoReset(s: State, es: seq<Event>)
    decreases es
  {
    es == [] || (!es[0].Opens? && !Reconnects(s, es[0]) && NoReset(Next(s, es[0]), es[1..]))
  }

  /** How many timers fire. */
  function Fired(s: State, es: seq<Event>): nat
    decreases es
  {
    if es == [] then 0 else (if es[0].Fires? && Enabled(s, es[0]) then 1 else 0) + Fired(Next(s, es[0]), es[1..])
  }

  /**
   Through any outage, whether attempts throw at once or connections fail later, the delay depends
   on the number of timers that fired alone.
   */
  lemma {:induction false} BackoffOfOutage(s: State, es: seq<Event>, k: nat)
    requires NoReset(s, es) && s.retryDelay == Backoff(k)
    ensures Run(s, es).retryDelay == Backoff(k + Fired(s, es))
    decreases es
  {
    if es != [] {
      var fired := if es[0].Fires? && Enabled(s, es[0]) then 1 else 0;
      assert Next(s, es[0]).retryDelay == Backoff(k + fired);
      BackoffOfOutage(Next(s, es[0]), es[1..], k + fired);
    }
  }

  /** How many timers fired since a connection opened or a subscription connected; `k` before the run. */
  function FiredSinceReset(s: State, es: seq<Event>, k: nat): nat
    decreases es
  {
    if es == [] then k
    else
      var e := es[0];
      var now := if !Enabled(s, e) then k
        else if e.Opens? || Reconnects(s, e) then 0
        else if e.Fires? then k + 1
        else k;
      FiredSinceReset(Next(s, e), es[1..], now)
  }

  lemma {:induction false} DelayAfter(s: State, es: seq<Event>, k: nat)
    requires s.retryDelay == Backoff(k)
    ensures Run(s, es).retryDelay == Backoff(FiredSinceReset(s, es, k))
    decreases es
  {
    if es != [] {
      var e := es[0];
      var now := if !Enabled(s, e) then k else if e.Opens? || Reconnects(s, e) then 0 else if e.Fires? then k + 1 else k;
      assert Next(s, e).retryDelay == Backoff(now);
      DelayAfter(Next(s, e), es[1..], now);
    }
  }

  /**
   In every reachable state the delay is that of as many attempts as timers fired since the last
   opening or the last subscription that connected: 1, 2, 4, 8, 16 and then 30 seconds.
   */
  lemma DelayExactly(es: seq<Event>)
    ensures var n := FiredSinceReset(INITIAL, es, 0);
      Run(INITIAL, es).retryDelay == [1000, 2000, 4000, 8000, 16_000, 30_000][if n < 5 then n else 5]
  {
    DelayAfter(INITIAL, es, 0);
    BackoffValues(FiredSinceReset(INITIAL, es, 0));
  }

  lemma BackoffValues(n: nat)
    ensures Backoff(n) == match n
      case 0 => 1000
      case 1 => 2000
      case 2 => 4000
      case 3 => 8000
      case 4 => 16000
      case _ => 30000
  {
    if n > 5 {
      BackoffValues(n - 1);
    } else {
      assert Backoff(1) == 2000 && Backoff(2) == 4000;
      assert Backoff(3) == 8000 && Backoff(4) == 16000;
    }
  }

  // ------------------------------------------------------------- the module state

  datatype Message = Status(connected: bool) | Delivered(event: string)

  /** The module variables, with the browser's connections and timers beside them. */
  class Client {
    var eventSource: Option<nat>
    var subscribers: set<Subscriber>
    var retryTimer: Option<nat>
    var retryDelay: int
    var manuallyClosed: bool
    var open: set<nat>
    var timers: set<nat>
    var delays: map<nat, int>
    var nextId: nat
    /** Every message handed to a subscriber. */
    var delivered: seq<(Subscriber, Message)>

    function View(): State
      reads this
    {
      State(eventSource, subscribers, retryTimer, retryDelay, manuallyClosed, open, timers, delays, nextId)
    }

    constructor ()
      ensures View() == INITIAL && delivered == []
    {
      eventSource, subscribers, retryTimer, retryDelay, manuallyClosed := None, {}, None, FIRST_DELAY, false;
      open, timers, delays, nextId := {}, {}, map[], 0;
      delivered := [];
    }

    /** Every subscriber gets the message once. */
    method Broadcast(m: Message)
      modifies this`delivered
      ensures old(delivered) <= delivered && |delivered| == |old(delivered)| + |subscribers|
      ensures forall i :: |old(delivered)| <= i < |delivered| ==> delivered[i].0 in subscribers && delivered[i].1 == m
      ensures forall cb :: cb in subscribers ==> (cb, m) in delivered[|old(delivered)|..]
    {
      var todo := subscribers;
      while todo != {}
        invariant todo <= subscribers
        invariant old(delivered) <= delivered && |delivered| + |todo| == |old(delivered)| + |subscribers|
        invariant forall i :: |old(delivered)| <= i < |delivered| ==> delivered[i].0 in subscribers && delivered[i].1 == m
        invariant forall cb :: cb in subscribers - todo ==> (cb, m) in delivered[|old(delivered)|..]
        decreases todo
      {
        var cb :| cb in todo;
        ghost var before := delivered[|old(delivered)|..];
        delivered := delivered + [(cb, m)];
        assert delivered[|old(delivered)|..] == before + [(cb, m)];
        todo := todo - {cb};
      }
    }

    method SetRetryTimer()
      modifies this`retryTimer, this`timers, this`delays, this`nextId
      ensures View() == AfterScheduling(old(View()))
    {
      retryTimer, timers, delays, nextId := Some(nextId), timers + {nextId}, delays[nextId := retryDelay], nextId + 1;
    }

    method Connect(ok: bool)
      modifies this
      ensures View() == AfterConnect(old(View()), ok) && delivered == old(delivered)
    {
      if manuallyClosed || eventSource.Some? {
        return;
      }
      manuallyClosed := false;
      if ok {
        eventSource, open, nextId := Some(nextId), open + {nextId}, nextId + 1;
      } else {
        SetRetryTimer();
      }
    }

    method Teardown()
      modifies this
      ensures View() == AfterTeardown(old(View()))
      ensures old(delivered) <= delivered && |delivered| == |old(delivered)| + |subscribers|
      ensures forall cb :: cb in subscribers ==> (cb, Status(false)) in delivered[|old(delivered)|..]
    {
      manuallyClosed := true;
      if retryTimer.Some? {
        timers := timers - {retryTimer.value};
        retryTimer := None;
      }
      if eventSource.Some? {
        open := open - {eventSource.value};
        eventSource := None;
      }
      Broadcast(Status(false));
    }

    method Subscribe(cb: Subscriber, ok: bool)
      requires Valid(View())
      modifies this
      ensures View() == AfterSubscribe(old(View()), cb, ok) && Valid(View()) && delivered == old(delivered)
    {
      StepKeepsValid(View(), DoSubscribe(cb, ok));
      subscribers := subscribers + {cb};
      if eventSource.None? {
        retryDelay := FIRST_DELAY;
        manuallyClosed := false;
        Connect(ok);
      }
    }

    method Unsubscribe(cb: Subscriber)
      requires Valid(View())
      modifies this
      ensures View() == AfterUnsubscribe(old(View()), cb) && Valid(View()) && delivered == old(delivered)
    {
      StepKeepsValid(View(), DoUnsubscribe(cb));
      subscribers := subscribers - {cb};
      if |subscribers| == 0 && !manuallyClosed {
        Teardown();
      }
    }

    method OnOpen(es: nat)
      requires Valid(View()) && es in open
      modifies this
      ensures View() == AfterOpen(old(View())) && Valid(View())
      ensures old(delivered) <= delivered
      ensures forall cb :: cb in subscribers ==> (cb, Status(true)) in delivered[|old(delivered)|..]
    {
      StepKeepsValid(View(), Opens(es));
      retryDelay := FIRST_DELAY;
      Broadcast(Status(true));
    }

    method OnError(es: nat)
      requires Valid(View()) && es in open
      modifies this
      ensures View() == AfterError(old(View()), es) && Valid(View())
      ensures old(delivered) <= delivered
      ensures forall cb :: cb in subscribers ==> (cb, Status(false)) in delivered[|old(delivered)|..]
    {
      StepKeepsValid(View(), Fails(es));
      open := open - {es};
      if eventSource == Some(es) {
        eventSource := None;
      }
      Broadcast(Status(false));
      SetRetryTimer();
    }

    /** `event` is the parsed frame, or None when parsing throws. */
    method OnMessage(es: nat, event: Option<string>)
      requires es in open
      modifies this`delivered
      ensures event.None? ==> delivered == old(delivered)
      ensures event.Some? ==> old(delivered) <= delivered && |delivered| == |old(delivered)| + |subscribers|
      ensures event.Some? ==> forall cb :: cb in subscribers ==> (cb, Delivered(event.value)) in delivered[|old(delivered)|..]
    {
      if event.Some? {
        Broadcast(Delivered(event.value));
      }
    }

    method OnTimer(timer: nat, ok: bool)
      requires Valid(View()) && timer in timers
      modifies this
      ensures View() == AfterTimer(old(View()), timer, ok) && Valid(View()) && delivered == old(delivered)
    {
      StepKeepsValid(View(), Fires(timer, ok));
      timers := timers - {timer};
      var doubled := retryDelay * 2;
      retryDelay := if doubled < MAX_DELAY then doubled else MAX_DELAY;
      Connect(ok);
    }
  }
}
