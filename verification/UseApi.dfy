/**
 The module-level cache and request table of apps/web/lib/use-api.ts, shared by any
 number of hook instances.  A promise is the request's `fetch(...).then(...).finally(...)`:
 its `then` fills the cache, and a later step, the `finally`, clears the request table.
 */
module UseApi {
  import opened Common
  import opened Text

  type Url = string
  type Data = string
  type Hook = nat

  datatype Cached = Cached(data: Data, ts: int)

  datatype Phase =
    | Fetching
    | Answered(result: Option<Data>, at: int)   // `then` has run; None is a failure
    | Finished(result: Option<Data>, at: int)   // `finally` has run

  datatype Promise = Promise(url: Url, phase: Phase)

  /** A hook that awaits a promise; `own` when it started the request itself. */
  datatype Waiter = Waiter(hook: Hook, url: Url, promise: nat, own: bool)

  /** What a hook is given, for the URL it asked for. */
  datatype Outcome =
    | FromCache(hook: Hook, url: Url, data: Data, servedAt: int, revalidateMs: int)
    | FromPromise(hook: Hook, url: Url, promise: nat, data: Data)
    | ErrorShown(hook: Hook, url: Url, promise: nat)

  datatype State = State(
    now: int,
    cache: map<Url, Cached>,
    inflight: map<Url, nat>,
    promises: seq<Promise>,
    waiters: multiset<Waiter>,
    log: seq<Outcome>)

  const INITIAL := State(0, map[], map[], [], multiset{}, [])

  /** `fetchData` up to its first await. */
  function Fetch(s: State, hook: Hook, url: Url, revalidateMs: int): State {
    if url in s.cache && s.now - s.cache[url].ts < revalidateMs then
      s.(log := s.log + [FromCache(hook, url, s.cache[url].data, s.now, revalidateMs)])
    else if url in s.inflight then
      s.(waiters := s.waiters + multiset{Waiter(hook, url, s.inflight[url], false)})
    else
      s.(promises := s.promises + [Promise(url, Fetching)],
         inflight := s.inflight[url := |s.promises|],
         waiters := s.waiters + multiset{Waiter(hook, url, |s.promises|, true)})
  }

  /** The `then` of a request: only a successful answer reaches the cache. */
  function Answer(s: State, p: nat, result: Option<Data>): State {
    if p < |s.promises| && s.promises[p].phase.Fetching? then
      var url := s.promises[p].url;
      s.(promises := s.promises[p := Promise(url, Answered(result, s.now))],
         cache := if result.Some? then s.cache[url := Cached(result.value, s.now)] else s.cache)
    else s
  }

  /** The `finally` of a request. */
  function Finish(s: State, p: nat): State {
    if p < |s.promises| && s.promises[p].phase.Answered? then
      var Promise(url, Answered(result, at)) := s.promises[p];
      s.(promises := s.promises[p := Promise(url, Finished(result, at))], inflight := s.inflight - {url})
    else s
  }

  /** A waiter goes on: a failure is shown only by the hook that made the request. */
  function Resume(s: State, w: Waiter, mounted: bool): State {
    if w in s.waiters && w.promise < |s.promises| && s.promises[w.promise].phase.Finished? then
      var t := s.(waiters := s.waiters - multiset{w});
      match s.promises[w.promise].phase.result
      case Some(data) => if mounted then t.(log := t.log + [FromPromise(w.hook, w.url, w.promise, data)]) else t
      case None => if mounted && w.own then t.(log := t.log + [ErrorShown(w.hook, w.url, w.promise)]) else t
    else s
  }

  function Invalidate(s: State, pattern: string): State {
    s.(cache := map url | url in s.cache && !Includes(url, pattern) :: s.cache[url])
  }

  datatype Event =
    | CallFetch(hook: Hook, url: Url, revalidateMs: int)
    | CallMutate(hook: Hook, url: Url, revalidateMs: int)
    | CallInvalidate(pattern: string)
    | Answers(promise: nat, result: Option<Data>)
    | Finishes(promise: nat)
    | Resumes(waiter: Waiter, mounted: bool)
    | TimePasses(ms: nat)

  function Step(s: State, e: Event): State {
    match e
    case CallFetch(hook, url, ms) => Fetch(s, hook, url, ms)
    case CallMutate(hook, url, ms) => Fetch(s.(cache := s.cache - {url}), hook, url, ms)
    case CallInvalidate(pattern) => Invalidate(s, pattern)
    case Answers(p, result) => Answer(s, p, result)
    case Finishes(p) => Finish(s, p)
    case Resumes(w, mounted) => Resume(s, w, mounted)
    case TimePasses(ms) => s.(now := s.now + ms)
  }

  function Run(s: State, es: seq<Event>): State
    decreases es
  {
    if es == [] then s else Run(Step(s, es[0]), es[1..])
  }

  // ------------------------------------------------------------------ invariant

  predicate Outstanding(s: State, p: nat) {
    p < |s.promises| && !s.promises[p].phase.Finished?
  }

  /** Promise p was answered for this URL with this data at this time. */
  predicate AnsweredWith(s: State, p: nat, url: Url, data: Data, at: int) {
    p < |s.promises| && s.promises[p].url == url && !s.promises[p].phase.Fetching?
    && s.promises[p].phase.result == Some(data) && s.promises[p].phase.at == at
  }

  /** The request p was made for this URL and is over, with this result. */
  predicate FinishedWith(s: State, p: nat, url: Url, result: Option<Data>) {
    p < |s.promises| && s.promises[p].url == url && s.promises[p].phase.Finished? && s.promises[p].phase.result == result
  }

  /** Cached data was the answer to a request for that URL, less than `revalidateMs` before it was served. */
  ghost predicate OutcomeValid(s: State, o: Outcome) {
    match o
    case FromCache(_, url, data, servedAt, ms) =>
      servedAt <= s.now && exists p, at :: AnsweredWith(s, p, url, data, at) && at <= servedAt < at + ms
    case FromPromise(_, url, p, data) => FinishedWith(s, p, url, Some(data))
    case ErrorShown(_, url, p) => FinishedWith(s, p, url, None)
  }

  /** The request table holds a URL exactly while a request for it is outstanding. */
  ghost predicate TableValid(s: State) {
    && (forall url :: url in s.inflight ==> Outstanding(s, s.inflight[url]) && s.promises[s.inflight[url]].url == url)
    && (forall p: nat :: Outstanding(s, p) ==> s.promises[p].url in s.inflight && s.inflight[s.promises[p].url] == p)
    && (forall w :: w in s.waiters ==> w.promise < |s.promises| && s.promises[w.promise].url == w.url)
  }

  /** The entry is a successful answer, with the time it came in. */
  ghost predicate EntryValid(s: State, url: Url, c: Cached) {
    c.ts <= s.now && exists p :: AnsweredWith(s, p, url, c.data, c.ts)
  }

  ghost predicate CacheValid(s: State) {
    forall url :: url in s.cache ==> EntryValid(s, url, s.cache[url])
  }

  ghost predicate LogValid(s: State) {
    forall i :: 0 <= i < |s.log| ==> OutcomeValid(s, s.log[i])
  }

  ghost predicate Valid(s: State) {
    TableValid(s) && CacheValid(s) && LogValid(s)
  }

  /** A promise is only ever moved on. */
  predicate MovedOn(a: Promise, b: Promise) {
    a.url == b.url
    && (!a.phase.Fetching? ==> !b.phase.Fetching? && a.phase.result == b.phase.result && a.phase.at == b.phase.at)
    && (a.phase.Finished? ==> b.phase.Finished?)
  }

  ghost predicate Later(s: State, t: State) {
    s.now <= t.now && |s.promises| <= |t.promises|
    && forall p :: 0 <= p < |s.promises| ==> MovedOn(s.promises[p], t.promises[p])
  }

  lemma FetchIsLater(s: State, hook: Hook, url: Url, ms: int)
    ensures Later(s, Fetch(s, hook, url, ms))
  {
  }

  lemma AnswerIsLater(s: State, p: nat, result: Option<Data>)
    ensures Later(s, Answer(s, p, result))
  {
  }

  lemma FinishIsLater(s: State, p: nat)
    ensures Later(s, Finish(s, p))
  {
  }

  lemma SameIsLater(s: State, t: State)
    requires t.promises == s.promises && s.now <= t.now
    ensures Later(s, t)
  {
  }

  lemma StepIsLater(s: State, e: Event)
    ensures Later(s, Step(s, e))
  {
    hide Fetch, Answer, Finish, Later;
    match e
    case CallFetch(hook, url, ms) => FetchIsLater(s, hook, url, ms);
    case CallMutate(hook, url, ms) => MutateIsLater(s, hook, url, ms);
    case Answers(p, result) => AnswerIsLater(s, p, result);
    case Finishes(p) => FinishIsLater(s, p);
    case _ => SameIsLater(s, Step(s, e));
  }

  lemma MutateIsLater(s: State, hook: Hook, url: Url, ms: int)
    ensures Later(s, Fetch(s.(cache := s.cache - {url}), hook, url, ms))
  {
  }

  lemma AnswerStays(s: State, t: State, p: nat, url: Url, data: Data, at: int)
    requires Later(s, t) && AnsweredWith(s, p, url, data, at)
    ensures AnsweredWith(t, p, url, data, at)
  {
    assert MovedOn(s.promises[p], t.promises[p]);
  }

  lemma EntryStaysValid(s: State, t: State, url: Url, c: Cached)
    requires Later(s, t) && EntryValid(s, url, c)
    ensures EntryValid(t, url, c)
  {
    var p :| AnsweredWith(s, p, url, c.data, c.ts);
    AnswerStays(s, t, p, url, c.data, c.ts);
  }

  lemma OutcomeStaysValid(s: State, t: State, o: Outcome)
    requires Later(s, t) && OutcomeValid(s, o)
    ensures OutcomeValid(t, o)
  {
    if o.FromCache? {
      var p, at :| AnsweredWith(s, p, o.url, o.data, at) && at <= o.servedAt < at + o.revalidateMs;
      AnswerStays(s, t, p, o.url, o.data, at);
    } else {
      assert MovedOn(s.promises[o.promise], t.promises[o.promise]);
    }
  }

  lemma SameTable(s: State, t: State)
    requires TableValid(s) && t.inflight == s.inflight && t.promises == s.promises
    requires forall w :: w in t.waiters ==> w in s.waiters
    ensures TableValid(t)
  {
    assert forall p: nat :: Outstanding(t, p) <==> Outstanding(s, p);
  }

  lemma FetchKeepsTable(s: State, hook: Hook, url: Url, ms: int)
    requires TableValid(s)
    ensures TableValid(Fetch(s, hook, url, ms))
  {
  }

  lemma AnswerKeepsTable(s: State, p: nat, result: Option<Data>)
    requires TableValid(s)
    ensures TableValid(Answer(s, p, result))
  {
    assert forall q: nat :: Outstanding(Answer(s, p, result), q) <==> Outstanding(s, q);
  }

  lemma FinishKeepsTable(s: State, p: nat)
    requires TableValid(s)
    ensures TableValid(Finish(s, p))
  {
    var t := Finish(s, p);
    assert t != s ==> Outstanding(s, p) && forall q: nat :: Outstanding(t, q) <==> Outstanding(s, q) && q != p;
  }

  lemma ResumeKeepsTable(s: State, w: Waiter, mounted: bool)
    requires TableValid(s)
    ensures TableValid(Resume(s, w, mounted))
  {
    hide TableValid;
    var t := Resume(s, w, mounted);
    SameTable(s, t);
  }

  lemma StepKeepsTable(s: State, e: Event)
    requires TableValid(s)
    ensures TableValid(Step(s, e))
  {
    hide Fetch, Answer, Finish, Resume, TableValid;
    match e
    case CallFetch(hook, url, ms) =>
      FetchKeepsTable(s, hook, url, ms);
    case CallMutate(hook, url, ms) =>
      SameTable(s, s.(cache := s.cache - {url}));
      FetchKeepsTable(s.(cache := s.cache - {url}), hook, url, ms);
    case CallInvalidate(pattern) =>
      SameTable(s, Invalidate(s, pattern));
    case Answers(p, result) =>
      AnswerKeepsTable(s, p, result);
    case Finishes(p) =>
      FinishKeepsTable(s, p);
    case Resumes(w, mounted) =>
      ResumeKeepsTable(s, w, mounted);
    case TimePasses(ms) =>
      SameTable(s, s.(now := s.now + ms));
  }

  lemma StepKeepsCache(s: State, e: Event)
    requires CacheValid(s)
    ensures CacheValid(Step(s, e))
  {
    hide EntryValid;
    var t := Step(s, e);
    StepIsLater(s, e);
    forall url | url in t.cache
      ensures EntryValid(t, url, t.cache[url])
    {
      if url in s.cache && t.cache[url] == s.cache[url] {
        EntryStaysValid(s, t, url, s.cache[url]);
      } else {
        NewEntryIsValid(s, e, url);
      }
    }
  }

  lemma NewEntryIsValid(s: State, e: Event, url: Url)
    requires url in Step(s, e).cache && !(url in s.cache && Step(s, e).cache[url] == s.cache[url])
    ensures EntryValid(Step(s, e), url, Step(s, e).cache[url])
  {
    var t := Step(s, e);
    assert e.Answers?;
    assert AnsweredWith(t, e.promise, url, t.cache[url].data, t.cache[url].ts);
  }

  lemma StepKeepsLog(s: State, e: Event)
    requires TableValid(s) && CacheValid(s) && LogValid(s)
    ensures LogValid(Step(s, e))
  {
    hide OutcomeValid, CacheValid, TableValid;
    var t := Step(s, e);
    StepIsLater(s, e);
    LogGrows(s, e);
    forall i | 0 <= i < |t.log|
      ensures OutcomeValid(t, t.log[i])
    {
      if i < |s.log| {
        assert t.log[i] == s.log[i];
        OutcomeStaysValid(s, t, s.log[i]);
      } else {
        NewOutcomeIsValid(s, e);
      }
    }
  }

  lemma LogGrows(s: State, e: Event)
    ensures var t := Step(s, e);
      |s.log| <= |t.log| <= |s.log| + 1 && forall i :: 0 <= i < |s.log| ==> t.log[i] == s.log[i]
  {
  }

  lemma CacheHitIsValid(s: State, hook: Hook, url: Url, ms: int)
    requires CacheValid(s) && |Fetch(s, hook, url, ms).log| == |s.log| + 1
    ensures OutcomeValid(Fetch(s, hook, url, ms), Fetch(s, hook, url, ms).log[|s.log|])
  {
    var t := Fetch(s, hook, url, ms);
    var c := s.cache[url];
    assert EntryValid(s, url, c);
    var p :| AnsweredWith(s, p, url, c.data, c.ts);
    assert AnsweredWith(t, p, url, c.data, c.ts);
  }

  lemma ReplyIsValid(s: State, w: Waiter, mounted: bool)
    requires TableValid(s) && |Resume(s, w, mounted).log| == |s.log| + 1
    ensures OutcomeValid(Resume(s, w, mounted), Resume(s, w, mounted).log[|s.log|])
  {
    hide Outstanding, AnsweredWith;
    assert w in s.waiters && s.promises[w.promise].url == w.url;
  }

  lemma NewOutcomeIsValid(s: State, e: Event)
    requires TableValid(s) && CacheValid(s) && |Step(s, e).log| == |s.log| + 1
    ensures OutcomeValid(Step(s, e), Step(s, e).log[|s.log|])
  {
    hide Fetch, Resume, TableValid, CacheValid, OutcomeValid;
    match e
    case CallFetch(hook, url, ms) =>
      CacheHitIsValid(s, hook, url, ms);
    case CallMutate(hook, url, ms) =>
      SmallerCache(s, s.cache - {url});
      CacheHitIsValid(s.(cache := s.cache - {url}), hook, url, ms);
    case Resumes(w, mounted) =>
      ReplyIsValid(s, w, mounted);
    case _ =>
  }

  lemma SmallerCache(s: State, cache: map<Url, Cached>)
    requires CacheValid(s) && forall url :: url in cache ==> url in s.cache && cache[url] == s.cache[url]
    ensures CacheValid(s.(cache := cache))
  {
    hide AnsweredWith;
    var t := s.(cache := cache);
    SameIsLater(s, t);
    forall url | url in cache
      ensures EntryValid(t, url, cache[url])
    {
      EntryStaysValid(s, t, url, cache[url]);
    }
  }

  lemma StepKeepsValid(s: State, e: Event)
    requires Valid(s)
    ensures Valid(Step(s, e))
  {
    hide TableValid, CacheValid, LogValid, Step;
    StepKeepsTable(s, e);
    StepKeepsCache(s, e);
    StepKeepsLog(s, e);
  }

  lemma {:induction false} RunKeepsValid(s: State, es: seq<Event>)
    requires Valid(s)
    ensures Valid(Run(s, es))
    decreases es
  {
    hide Valid, Step;
    if es != [] {
      StepKeepsValid(s, es[0]);
      RunKeepsValid(Step(s, es[0]), es[1..]);
    }
  }

  /** However any number of hooks interleave, a URL never has two requests outstanding. */
  lemma OneRequestPerUrl(es: seq<Event>, p: nat, q: nat)
    requires var s := Run(INITIAL, es); Outstanding(s, p) && Outstanding(s, q) && s.promises[p].url == s.promises[q].url
    ensures p == q
  {
    RunKeepsValid(INITIAL, es);
  }

  /** And the request table names exactly the outstanding ones. */
  lemma TableIsExact(es: seq<Event>, url: Url)
    ensures var s := Run(INITIAL, es);
      url in s.inflight <==> exists p: nat :: Outstanding(s, p) && s.promises[p].url == url
  {
    RunKeepsValid(INITIAL, es);
  }

  /** Everything a hook was ever given is right: fresh enough if cached, and otherwise the result of the request it awaited. */
  lemma EveryOutcomeIsValid(es: seq<Event>, i: nat)
    requires i < |Run(INITIAL, es).log|
    ensures OutcomeValid(Run(INITIAL, es), Run(INITIAL, es).log[i])
  {
    RunKeepsValid(INITIAL, es);
  }

  /** Whoever waits for a request waits for one of its own URL, and once that is over gets its data. */
  lemma WaitersAreServed(es: seq<Event>, w: Waiter)
    requires w in Run(INITIAL, es).waiters
    ensures var s := Run(INITIAL, es);
      && w.promise < |s.promises| && s.promises[w.promise].url == w.url
      && (s.promises[w.promise].phase.Finished? && s.promises[w.promise].phase.result.Some? ==>
            Step(s, Resumes(w, true)).log == s.log + [FromPromise(w.hook, w.url, w.promise, s.promises[w.promise].phase.result.value)])
  {
    RunKeepsValid(INITIAL, es);
  }

  /** Hooks that joined one request are given the same data. */
  lemma JoinersAgree(es: seq<Event>, i: nat, j: nat)
    requires var log := Run(INITIAL, es).log;
      i < |log| && j < |log| && log[i].FromPromise? && log[j].FromPromise? && log[i].promise == log[j].promise
    ensures Run(INITIAL, es).log[i].data == Run(INITIAL, es).log[j].data
  {
    EveryOutcomeIsValid(es, i);
    EveryOutcomeIsValid(es, j);
  }

  /** A failed request leaves the cache as it is, and no failure is ever cached. */
  lemma FailuresAreNotCached(es: seq<Event>, url: Url, p: nat)
    ensures var s := Run(INITIAL, es);
      Answer(s, p, None).cache == s.cache
      && (url in s.cache ==> exists q :: AnsweredWith(s, q, url, s.cache[url].data, s.cache[url].ts))
  {
    RunKeepsValid(INITIAL, es);
  }

  // -------------------------------------------------------------- what a call does

  /** The URL has an entry that came in less than `ms` ago. */
  predicate Fresh(s: State, url: Url, ms: int) {
    url in s.cache && s.cache[url].ts <= s.now < s.cache[url].ts + ms
  }

  /** One more request, and its caller waits for it. */
  predicate StartsRequest(s: State, t: State, hook: Hook, url: Url) {
    t.promises == s.promises + [Promise(url, Fetching)]
    && t.waiters == s.waiters + multiset{Waiter(hook, url, |s.promises|, true)}
    && t.log == s.log && t.cache == s.cache && t.now == s.now
  }

  /** No new request, but its caller waits for one that is outstanding. */
  ghost predicate JoinsRequest(s: State, t: State, hook: Hook, url: Url) {
    exists p: nat :: Outstanding(s, p) && s.promises[p].url == url
      && t == s.(waiters := s.waiters + multiset{Waiter(hook, url, p, false)})
  }

  ghost predicate IsRequested(s: State, url: Url) {
    exists p: nat :: Outstanding(s, p) && s.promises[p].url == url
  }

  /** A fresh entry is served at once without a request; otherwise an outstanding request is joined, or else one is made. */
  lemma FetchExactly(es: seq<Event>, hook: Hook, url: Url, ms: int)
    ensures var s := Run(INITIAL, es);
      var t := Step(s, CallFetch(hook, url, ms));
      && (Fresh(s, url, ms) ==> t == s.(log := s.log + [FromCache(hook, url, s.cache[url].data, s.now, ms)]))
      && (!Fresh(s, url, ms) && IsRequested(s, url) ==> JoinsRequest(s, t, hook, url))
      && (!Fresh(s, url, ms) && !IsRequested(s, url) ==> StartsRequest(s, t, hook, url))
  {
    RunKeepsValid(INITIAL, es);
    FetchCases(Run(INITIAL, es), hook, url, ms);
  }

  lemma FetchCases(s: State, hook: Hook, url: Url, ms: int)
    requires TableValid(s) && CacheValid(s)
    ensures var t := Fetch(s, hook, url, ms);
      && (Fresh(s, url, ms) ==> t == s.(log := s.log + [FromCache(hook, url, s.cache[url].data, s.now, ms)]))
      && (!Fresh(s, url, ms) && IsRequested(s, url) ==> JoinsRequest(s, t, hook, url))
      && (!Fresh(s, url, ms) && !IsRequested(s, url) ==> StartsRequest(s, t, hook, url))
  {
    assert url in s.cache ==> EntryValid(s, url, s.cache[url]);
    assert url in s.inflight <==> IsRequested(s, url);
  }

  /** A mutation drops the entry and serves nothing from the cache, however fresh. */
  lemma MutateExactly(es: seq<Event>, hook: Hook, url: Url, ms: int)
    ensures var s := Run(INITIAL, es);
      var t := Step(s, CallMutate(hook, url, ms));
      var dropped := s.(cache := map other | other in s.cache && other != url :: s.cache[other]);
      && t.log == s.log && t.cache == dropped.cache
      && (IsRequested(s, url) ==> JoinsRequest(dropped, t, hook, url))
      && (!IsRequested(s, url) ==> StartsRequest(dropped, t, hook, url))
  {
    RunKeepsValid(INITIAL, es);
    var s := Run(INITIAL, es);
    hide Fetch, Valid, TableValid, CacheValid, LogValid;
    DropEntry(s, url);
    FetchCases(s.(cache := s.cache - {url}), hook, url, ms);
  }

  lemma DropEntry(s: State, url: Url)
    requires Valid(s)
    ensures s.cache - {url} == map other | other in s.cache && other != url :: s.cache[other]
    ensures var t := s.(cache := s.cache - {url});
      TableValid(t) && CacheValid(t) && (IsRequested(t, url) <==> IsRequested(s, url))
  {
    var t := s.(cache := s.cache - {url});
    SmallerCache(s, t.cache);
    SameTable(s, t);
    assert forall p: nat :: Outstanding(t, p) <==> Outstanding(s, p);
  }

  /** An invalidation keeps exactly the entries whose URL does not have the pattern anywhere in it. */
  lemma InvalidateExactly(s: State, pattern: string, url: Url)
    ensures var t := Step(s, CallInvalidate(pattern));
      && t == s.(cache := t.cache)
      && (url in t.cache <==> url in s.cache && !exists a, b :: Splits(url, a, pattern, b))
      && (url in t.cache ==> t.cache[url] == s.cache[url])
  {
    IncludesExactly(url, pattern);
  }

  /** A request that has been answered and is over has filled the cache if it succeeded, and lets the next one be made. */
  lemma RequestEnds(es: seq<Event>, p: nat, result: Option<Data>)
    requires var s := Run(INITIAL, es); p < |s.promises| && s.promises[p].phase == Fetching
    ensures var s := Run(INITIAL, es);
      var url := s.promises[p].url;
      var t := Step(Step(s, Answers(p, result)), Finishes(p));
      && FinishedWith(t, p, url, result) && !IsRequested(t, url)
      && t.log == s.log && t.waiters == s.waiters
      && t.cache == if result == None then s.cache else s.cache[url := Cached(result.value, s.now)]
  {
    RunKeepsValid(INITIAL, es);
    var s := Run(INITIAL, es);
    hide Valid, TableValid, CacheValid, LogValid, FinishedWith, IsRequested, Step;
    AnswerThenFinish(s, p, result);
    NoneOutstanding(s, p, result);
  }

  lemma AnswerThenFinish(s: State, p: nat, result: Option<Data>)
    requires p < |s.promises| && s.promises[p].phase == Fetching
    ensures var url := s.promises[p].url;
      var t := Step(Step(s, Answers(p, result)), Finishes(p));
      && t.promises == s.promises[p := Promise(url, Finished(result, s.now))]
      && FinishedWith(t, p, url, result) && t.log == s.log && t.waiters == s.waiters
      && t.cache == if result == None then s.cache else s.cache[url := Cached(result.value, s.now)]
  {
  }

  lemma NoneOutstanding(s: State, p: nat, result: Option<Data>)
    requires TableValid(s) && p < |s.promises| && s.promises[p].phase == Fetching
    ensures !IsRequested(Step(Step(s, Answers(p, result)), Finishes(p)), s.promises[p].url)
  {
    hide Step;
    AnswerThenFinish(s, p, result);
    var t := Step(Step(s, Answers(p, result)), Finishes(p));
    assert forall q: nat :: Outstanding(t, q) ==> Outstanding(s, q) && q != p;
  }

  /** What a hook is given when its request is over: data to every mounted one, a failure only to the mounted one that asked. */
  lemma ResumeExactly(s: State, w: Waiter, mounted: bool, result: Option<Data>)
    requires w in s.waiters && FinishedWith(s, w.promise, w.url, result)
    ensures var t := Step(s, Resumes(w, mounted));
      && t == s.(waiters := t.waiters, log := t.log) && t.waiters + multiset{w} == s.waiters
      && (!mounted ==> t.log == s.log)
      && (mounted && result.Some? ==> t.log == s.log + [FromPromise(w.hook, w.url, w.promise, result.value)])
      && (mounted && result.None? && w.own ==> t.log == s.log + [ErrorShown(w.hook, w.url, w.promise)])
      && (mounted && result.None? && !w.own ==> t.log == s.log)
  {
  }

  // ------------------------------------------------------------ the latest answer

  predicate Succeeded(s: State, p: nat, url: Url) {
    p < |s.promises| && s.promises[p].url == url && !s.promises[p].phase.Fetching? && s.promises[p].phase.result.Some?
  }

  /** Requests for one URL never overlap: all but the last are over. */
  ghost predicate OneAtATime(s: State) {
    forall p: nat, q: nat :: p < q < |s.promises| && s.promises[p].url == s.promises[q].url ==> s.promises[p].phase.Finished?
  }

  /** The entry is the answer to request p, the last successful one for its URL. */
  ghost predicate LatestFrom(s: State, url: Url, p: nat) {
    url in s.cache && AnsweredWith(s, p, url, s.cache[url].data, s.cache[url].ts) && forall q: nat :: p < q ==> !Succeeded(s, q, url)
  }

  ghost predicate CacheLatest(s: State) {
    forall url :: url in s.cache ==> exists p: nat :: LatestFrom(s, url, p)
  }

  lemma FetchOneAtATime(s: State, hook: Hook, url: Url, ms: int)
    requires TableValid(s) && OneAtATime(s)
    ensures OneAtATime(Fetch(s, hook, url, ms))
  {
    var t := Fetch(s, hook, url, ms);
    forall p: nat, q: nat | p < q < |t.promises| && t.promises[p].url == t.promises[q].url
      ensures t.promises[p].phase.Finished?
    {
      assert t.promises[p] == s.promises[p];
      assert q == |s.promises| ==> !Outstanding(s, p);
    }
  }

  lemma SamePromises(s: State, t: State)
    requires OneAtATime(s) && t.promises == s.promises
    ensures OneAtATime(t)
  {
  }

  lemma StepKeepsOneAtATime(s: State, e: Event)
    requires TableValid(s) && OneAtATime(s)
    ensures OneAtATime(Step(s, e))
  {
    hide Fetch, TableValid;
    match e
    case CallFetch(hook, url, ms) => FetchOneAtATime(s, hook, url, ms);
    case CallMutate(hook, url, ms) =>
      var t := s.(cache := s.cache - {url});
      SameTable(s, t);
      FetchOneAtATime(t, hook, url, ms);
    case Answers(p, result) =>
    case Finishes(p) =>
    case _ => SamePromises(s, Step(s, e));
  }

  /** A step that answers no request for the URL leaves the successful ones as they were. */
  lemma SucceededStays(s: State, e: Event, url: Url, p: nat)
    requires !(e.Answers? && e.result.Some? && e.promise < |s.promises| && s.promises[e.promise].url == url)
    ensures Succeeded(Step(s, e), p, url) <==> Succeeded(s, p, url)
  {
  }

  lemma StepKeepsLatest(s: State, e: Event)
    requires TableValid(s) && OneAtATime(s) && CacheLatest(s)
    ensures CacheLatest(Step(s, e))
  {
    hide TableValid, AnsweredWith;
    var t := Step(s, e);
    forall url | url in t.cache
      ensures exists p: nat :: LatestFrom(t, url, p)
    {
      if e.Answers? && e.result.Some? && e.promise < |s.promises| && s.promises[e.promise].url == url
         && s.promises[e.promise].phase.Fetching? {
        AnswerIsLatest(s, e.promise, e.result.value);
      } else {
        CacheOnlyShrinks(s, e, url);
        var p: nat :| LatestFrom(s, url, p);
        LatestStays(s, e, url, p);
      }
    }
  }

  lemma AnswerIsLatest(s: State, p: nat, data: Data)
    requires OneAtATime(s) && p < |s.promises| && s.promises[p].phase.Fetching?
    ensures LatestFrom(Answer(s, p, Some(data)), s.promises[p].url, p)
  {
    var t, url := Answer(s, p, Some(data)), s.promises[p].url;
    forall q: nat | p < q
      ensures !Succeeded(t, q, url)
    {
      assert q < |s.promises| ==> s.promises[q].url != url;
    }
  }

  lemma CacheOnlyShrinks(s: State, e: Event, url: Url)
    requires url in Step(s, e).cache
    requires !(e.Answers? && e.result.Some? && e.promise < |s.promises| && s.promises[e.promise].url == url
               && s.promises[e.promise].phase.Fetching?)
    ensures url in s.cache && Step(s, e).cache[url] == s.cache[url]
  {
  }

  lemma LatestStays(s: State, e: Event, url: Url, p: nat)
    requires LatestFrom(s, url, p) && url in Step(s, e).cache && Step(s, e).cache[url] == s.cache[url]
    requires !(e.Answers? && e.result.Some? && e.promise < |s.promises| && s.promises[e.promise].url == url
               && s.promises[e.promise].phase.Fetching?)
    ensures LatestFrom(Step(s, e), url, p)
  {
    hide AnsweredWith;
    var t := Step(s, e);
    StepIsLater(s, e);
    AnswerStays(s, t, p, url, s.cache[url].data, s.cache[url].ts);
    forall q: nat | p < q
      ensures !Succeeded(t, q, url)
    {
      if e.Answers? && e.promise < |s.promises| && !s.promises[e.promise].phase.Fetching? {
        assert t == s;
      } else {
        SucceededStays(s, e, url, q);
      }
    }
  }

  lemma {:induction false} RunKeepsLatest(s: State, es: seq<Event>)
    requires Valid(s) && OneAtATime(s) && CacheLatest(s)
    ensures OneAtATime(Run(s, es)) && CacheLatest(Run(s, es))
    decreases es
  {
    hide Step, TableValid, CacheValid, LogValid, OneAtATime, CacheLatest;
    if es != [] {
      StepKeepsValid(s, es[0]);
      StepKeepsOneAtATime(s, es[0]);
      StepKeepsLatest(s, es[0]);
      RunKeepsLatest(Step(s, es[0]), es[1..]);
    }
  }

  /** Whatever is cached is the answer to the latest request for its URL that succeeded. */
  lemma CacheIsLatest(es: seq<Event>, url: Url) returns (p: nat)
    requires url in Run(INITIAL, es).cache
    ensures LatestFrom(Run(INITIAL, es), url, p)
  {
    RunKeepsLatest(INITIAL, es);
    p :| LatestFrom(Run(INITIAL, es), url, p);
  }

  // ------------------------------------------------------------ the module state

  lemma LessCache(s: State, cache: map<Url, Cached>)
    requires Valid(s) && forall url :: url in cache ==> url in s.cache && cache[url] == s.cache[url]
    ensures Valid(s.(cache := cache))
  {
    hide CacheValid, OutcomeValid;
    var t := s.(cache := cache);
    SmallerCache(s, cache);
    SameIsLater(s, t);
    SameTable(s, t);
    forall i | 0 <= i < |t.log|
      ensures OutcomeValid(t, t.log[i])
    {
      OutcomeStaysValid(s, t, s.log[i]);
    }
  }

  class ApiCache {
    var now: int
    var cache: map<Url, Cached>
    var inflight: map<Url, nat>
    var promises: seq<Promise>
    var waiters: multiset<Waiter>
    var log: seq<Outcome>

    function View(): State
      reads this
    {
      State(now, cache, inflight, promises, waiters, log)
    }

    constructor ()
      ensures View() == INITIAL && Valid(View())
    {
      now, cache, inflight, promises, waiters, log := 0, map[], map[], [], multiset{}, [];
    }

    method FetchData(hook: Hook, url: Url, revalidateMs: int)
      requires Valid(View())
      modifies this
      ensures View() == Fetch(old(View()), hook, url, revalidateMs) && Valid(View())
    {
      hide Valid;
      StepKeepsValid(View(), CallFetch(hook, url, revalidateMs));
      if url in cache {
        var cached := cache[url];
        if now - cached.ts < revalidateMs {
          log := log + [FromCache(hook, url, cached.data, now, revalidateMs)];
          return;
        }
      }
      if url in inflight {
        waiters := waiters + multiset{Waiter(hook, url, inflight[url], false)};
        return;
      }
      var promise := |promises|;
      promises := promises + [Promise(url, Fetching)];
      inflight := inflight[url := promise];
      waiters := waiters + multiset{Waiter(hook, url, promise, true)};
    }

    method OnAnswer(p: nat, result: Option<Data>)
      requires Valid(View()) && p < |promises| && promises[p].phase.Fetching?
      modifies this
      ensures View() == Answer(old(View()), p, result) && Valid(View())
    {
      StepKeepsValid(View(), Answers(p, result));
      var url := promises[p].url;
      if result.Some? {
        cache := cache[url := Cached(result.value, now)];
      }
      promises := promises[p := Promise(url, Answered(result, now))];
    }

    method OnFinally(p: nat)
      requires Valid(View()) && p < |promises| && promises[p].phase.Answered?
      modifies this
      ensures View() == Finish(old(View()), p) && Valid(View())
    {
      StepKeepsValid(View(), Finishes(p));
      var Promise(url, Answered(result, at)) := promises[p];
      inflight := inflight - {url};
      promises := promises[p := Promise(url, Finished(result, at))];
    }

    method Mutate(hook: Hook, url: Url, revalidateMs: int)
      requires Valid(View())
      modifies this
      ensures View() == Step(old(View()), CallMutate(hook, url, revalidateMs)) && Valid(View())
    {
      hide Fetch;
      StepKeepsValid(View(), CallMutate(hook, url, revalidateMs));
      LessCache(View(), cache - {url});
      cache := cache - {url};
      FetchData(hook, url, revalidateMs);
    }

    method InvalidateApiCache(pattern: string)
      requires Valid(View())
      modifies this
      ensures View() == Invalidate(old(View()), pattern) && Valid(View())
    {
      hide Valid, Includes;
      StepKeepsValid(View(), CallInvalidate(pattern));
      ghost var before := cache;
      var todo := cache.Keys;
      while todo != {}
        invariant todo <= before.Keys
        invariant View() == old(View()).(cache := cache)
        invariant forall url :: url in cache <==> url in before && (url in todo || !Includes(url, pattern))
        invariant forall url :: url in cache ==> cache[url] == before[url]
        decreases todo
      {
        var key :| key in todo;
        if Includes(key, pattern) {
          cache := cache - {key};
        }
        todo := todo - {key};
      }
      assert cache == Invalidate(old(View()), pattern).cache;
    }
  }
}
