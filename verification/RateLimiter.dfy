/**
 The in-memory global rate limiter of apps/api/src/app.ts: one fixed window per
 IP address, a counter in it, and a periodic sweep of expired entries.  Times are
 milliseconds.
 */
module RateLimiter {
  import opened Common
  import opened Sequences

  const WINDOW_MS := 60_000
  const MAX_REQUESTS := 60

  type Ip = string

  datatype Entry = Entry(count: nat, windowStart: int)
  type Table = map<Ip, Entry>

  /** `Skipped` is a GET, HEAD or OPTIONS request, which the limiter does not count. */
  datatype Verdict = Skipped | Admitted | Rejected(retryAfter: int)

  predicate IsReadOnly(verb: string) {
    verb == "GET" || verb == "HEAD" || verb == "OPTIONS"
  }

  predicate Expired(e: Entry, now: int) {
    now - e.windowStart > WINDOW_MS
  }

  /** `Math.ceil(ms / 1000)` */
  function CeilSeconds(ms: int): (s: int)
    ensures (s - 1) * 1000 < ms <= s * 1000
  {
    (ms + 999) / 1000
  }

  /** The Retry-After header: whole seconds, at least one. */
  function RetryAfter(e: Entry, now: int): int {
    var s := CeilSeconds(e.windowStart + WINDOW_MS - now);
    if s < 1 then 1 else s
  }

  function Decide(t: Table, ip: Ip, now: int): Verdict {
    if ip !in t || Expired(t[ip], now) then Admitted
    else if t[ip].count + 1 > MAX_REQUESTS then Rejected(RetryAfter(t[ip], now))
    else Admitted
  }

  function Count(t: Table, ip: Ip, now: int): Table {
    if ip !in t || Expired(t[ip], now) then t[ip := Entry(1, now)]
    else t[ip := Entry(t[ip].count + 1, t[ip].windowStart)]
  }

  function Swept(t: Table, now: int): Table {
    map ip | ip in t && !Expired(t[ip], now) :: t[ip]
  }

  /** The hook and the timer, over the shared table. */
  class Limiter {
    var table: Table

    constructor ()
      ensures table == map[]
    {
      table := map[];
    }

    method OnRequest(verb: string, ip: Ip, now: int) returns (v: Verdict)
      modifies this
      ensures v == if verb in ["GET", "HEAD", "OPTIONS"] then Skipped else Decide(old(table), ip, now)
      ensures table == if verb in ["GET", "HEAD", "OPTIONS"] then old(table) else Count(old(table), ip, now)
    {
      if verb == "GET" || verb == "HEAD" || verb == "OPTIONS" {
        return Skipped;
      }
      if ip !in table || now - table[ip].windowStart > WINDOW_MS {
        table := table[ip := Entry(1, now)];
        return Admitted;
      }
      var entry := table[ip];
      table := table[ip := entry.(count := entry.count + 1)];
      if table[ip].count > MAX_REQUESTS {
        var retryAfter := CeilSeconds(entry.windowStart + WINDOW_MS - now);
        return Rejected(if retryAfter < 1 then 1 else retryAfter);
      }
      v := Admitted;
    }

    method Sweep(now: int)
      modifies this
      ensures table == Swept(old(table), now)
      ensures forall ip :: ip in table <==> ip in old(table) && now - old(table)[ip].windowStart <= 60_000
      ensures forall ip :: ip in table ==> table[ip] == old(table)[ip]
    {
      var todo := table.Keys;
      ghost var before := table;
      while todo != {}
        invariant todo <= before.Keys
        invariant forall ip :: ip in table <==> ip in before && (ip in todo || !Expired(before[ip], now))
        invariant forall ip :: ip in table ==> table[ip] == before[ip]
        decreases todo
      {
        var k :| k in todo;
        if now - table[k].windowStart > WINDOW_MS {
          table := table - {k};
        }
        todo := todo - {k};
      }
      assert table == Swept(before, now);
    }
  }

  // -------------------------------------------------------------------- traces

  datatype Event =
    | Request(verb: string, ip: Ip, time: int)
    | SweepAt(time: int)

  function Time(e: Event): int {
    match e
    case Request(_, _, time) => time
    case SweepAt(time) => time
  }

  ghost predicate Monotone(es: seq<Event>, from: int) {
    (forall i :: 0 <= i < |es| ==> from <= Time(es[i])) && forall i, j :: 0 <= i < j < |es| ==> Time(es[i]) <= Time(es[j])
  }

  function After(t: Table, e: Event): Table {
    match e
    case Request(verb, ip, now) => if IsReadOnly(verb) then t else Count(t, ip, now)
    case SweepAt(now) => Swept(t, now)
  }

  function VerdictOn(t: Table, e: Event): Verdict
    requires e.Request?
  {
    if IsReadOnly(e.verb) then Skipped else Decide(t, e.ip, e.time)
  }

  /** The verdicts on the requests of a trace, in order. */
  function Verdicts(t: Table, es: seq<Event>): seq<Verdict>
    decreases es
  {
    if es == [] then [] else
      (if es[0].Request? then [VerdictOn(t, es[0])] else []) + Verdicts(After(t, es[0]), es[1..])
  }

  function WithoutSweeps(es: seq<Event>): seq<Event> {
    if es == [] then [] else (if es[0].SweepAt? then [] else [es[0]]) + WithoutSweeps(es[1..])
  }

  // --------------------------------------------------- the sweep is invisible

  /** The same entries, except that one table may still hold entries that expired before `now`. */
  ghost predicate SameLive(t: Table, u: Table, now: int) {
    && (forall ip :: ip in t ==> ip in u && t[ip] == u[ip])
    && (forall ip :: ip in u && ip !in t ==> Expired(u[ip], now))
  }

  lemma MonotoneTail(es: seq<Event>, from: int)
    requires Monotone(es, from) && es != []
    ensures from <= Time(es[0]) && Monotone(es[1..], Time(es[0]))
  {
    assert forall i :: 0 <= i < |es[1..]| ==> es[1..][i] == es[i + 1];
  }

  /** A sweep of one table only, or the same request on both, keeps them alike. */
  lemma SameLiveStep(t: Table, u: Table, e: Event, from: int)
    requires SameLive(t, u, from) && from <= Time(e)
    ensures e.SweepAt? ==> SameLive(After(t, e), u, e.time)
    ensures e.Request? ==> VerdictOn(t, e) == VerdictOn(u, e) && SameLive(After(t, e), After(u, e), e.time)
  {
  }

  /** Sweeping at any times changes no verdict and no Retry-After. */
  lemma {:induction false} SweepIsInvisible(t: Table, u: Table, es: seq<Event>, from: int)
    requires SameLive(t, u, from) && Monotone(es, from)
    ensures Verdicts(t, es) == Verdicts(u, WithoutSweeps(es))
    decreases es
  {
    hide SameLive, Monotone, After, VerdictOn;
    if es != [] {
      var e, rest := es[0], es[1..];
      var kept := WithoutSweeps(rest);
      MonotoneTail(es, from);
      SameLiveStep(t, u, e, from);
      if e.SweepAt? {
        assert WithoutSweeps(es) == kept;
        SweepIsInvisible(After(t, e), u, rest, e.time);
      } else {
        assert WithoutSweeps(es) == [e] + kept && ([e] + kept)[1..] == kept;
        SweepIsInvisible(After(t, e), After(u, e), rest, e.time);
      }
    }
  }

  // -------------------------------------------------------- how much is admitted

  /** The times that one event contributes. */
  function AdmittedAt(t: Table, e: Event, ip: Ip): seq<int> {
    if e.Request? && e.ip == ip && VerdictOn(t, e) == Admitted then [e.time] else []
  }

  /** The times at which requests from one IP are admitted. */
  function AdmittedTimes(t: Table, es: seq<Event>, ip: Ip): seq<int>
    decreases es
  {
    if es == [] then [] else
      AdmittedAt(t, es[0], ip) + AdmittedTimes(After(t, es[0]), es[1..], ip)
  }

  lemma FirstAdmitted(t: Table, e: Event, rest: seq<Event>, ip: Ip)
    ensures AdmittedTimes(t, [e] + rest, ip) == AdmittedAt(t, e, ip) + AdmittedTimes(After(t, e), rest, ip)
  {
    hide VerdictOn, After;
    assert ([e] + rest)[1..] == rest;
  }

  /** How many of the times lie in [lo, hi]. */
  function InRange(times: seq<int>, lo: int, hi: int): nat {
    if times == [] then 0 else InRange(times[..|times| - 1], lo, hi) + if lo <= times[|times| - 1] <= hi then 1 else 0
  }

  lemma {:induction false} InRangeSplit(times: seq<int>, lo: int, mid: int, hi: int)
    requires lo <= mid + 1 && mid <= hi
    ensures InRange(times, lo, hi) == InRange(times, lo, mid) + InRange(times, mid + 1, hi)
    decreases |times|
  {
    if times != [] {
      InRangeSplit(times[..|times| - 1], lo, mid, hi);
    }
  }

  lemma {:induction false} InRangeWider(times: seq<int>, lo: int, hi: int, lo': int, hi': int)
    requires lo' <= lo && hi <= hi'
    ensures InRange(times, lo, hi) <= InRange(times, lo', hi')
    decreases |times|
  {
    if times != [] {
      InRangeWider(times[..|times| - 1], lo, hi, lo', hi');
    }
  }

  lemma {:induction false} InRangeBeyond(times: seq<int>, now: int, lo: int, hi: int)
    requires (forall k :: 0 <= k < |times| ==> times[k] <= now) && now < lo
    ensures InRange(times, lo, hi) == 0
    decreases |times|
  {
    if times != [] {
      InRangeBeyond(times[..|times| - 1], now, lo, hi);
    }
  }

  lemma InRangeSnoc(times: seq<int>, x: int, lo: int, hi: int)
    ensures InRange(times + [x], lo, hi) == InRange(times, lo, hi) + if lo <= x <= hi then 1 else 0
  {
    assert (times + [x])[..|times|] == times;
  }

  /** How many lie in the closed interval of 60 seconds that begins at `lo`. */
  function InMinute(times: seq<int>, lo: int): nat {
    InRange(times, lo, lo + 60_000)
  }

  const MINUTE_MAX := 2 * MAX_REQUESTS - 1

  /**
   The admitted times so far against the table.  The first admitted request of a window is the one
   that opened it, so an interval that reaches into the next window misses at least that one.
   */
  ghost predicate Bounded(t: Table, times: seq<int>, ip: Ip, now: int) {
    && (forall k :: 0 <= k < |times| ==> times[k] <= now)
    && (ip !in t ==> times == [])
    && (ip in t ==> InWindows(times, t[ip], now))
    && (forall lo :: InMinute(times, lo) <= MINUTE_MAX)
  }

  ghost predicate InWindows(times: seq<int>, e: Entry, now: int) {
    var ws := e.windowStart;
    && ws <= now
    && (forall k :: 0 <= k < |times| ==> times[k] <= ws + WINDOW_MS)
    && 1 <= InRange(times, ws, ws)
    && InRange(times, ws, now) <= e.count
    && InRange(times, ws, now) <= MAX_REQUESTS
    && InRange(times, ws - WINDOW_MS, ws - 1) <= MAX_REQUESTS - 1
  }

  lemma BoundedLater(t: Table, times: seq<int>, ip: Ip, now: int, later: int)
    requires Bounded(t, times, ip, now) && now <= later
    ensures Bounded(t, times, ip, later)
  {
    if ip in t {
      var ws := t[ip].windowStart;
      InRangeSplit(times, ws, now, later);
      InRangeBeyond(times, now, now + 1, later);
    }
  }

  /** An interval of 60 seconds that reaches the current window lies within that window and the 60 seconds before it. */
  lemma TwoWindows(times: seq<int>, ws: int, now: int, lo: int)
    requires forall k :: 0 <= k < |times| ==> times[k] <= now
    requires ws <= now && lo <= now <= lo + WINDOW_MS
    ensures InMinute(times, lo) <= InRange(times, ws - WINDOW_MS, ws - 1) + InRange(times, ws, now)
  {
    InRangeSplit(times, lo, now, lo + WINDOW_MS);
    InRangeBeyond(times, now, now + 1, lo + WINDOW_MS);
    InRangeSplit(times, ws - WINDOW_MS, ws - 1, now);
    InRangeWider(times, lo, now, ws - WINDOW_MS, now);
  }

  /** An admitted request that stays in the current window. */
  lemma AdmitInWindow(t: Table, times: seq<int>, ip: Ip, now: int)
    requires Bounded(t, times, ip, now) && ip in t && !Expired(t[ip], now) && t[ip].count + 1 <= MAX_REQUESTS
    ensures Bounded(Count(t, ip, now), times + [now], ip, now)
  {
    hide InRange;
    var ws, all := t[ip].windowStart, times + [now];
    InRangeSnoc(times, now, ws, ws);
    InRangeSnoc(times, now, ws, now);
    InRangeSnoc(times, now, ws - WINDOW_MS, ws - 1);
    forall lo
      ensures InMinute(all, lo) <= MINUTE_MAX
    {
      assert InMinute(times, lo) <= MINUTE_MAX;
      InRangeSnoc(times, now, lo, lo + WINDOW_MS);
      if lo <= now <= lo + WINDOW_MS {
        TwoWindows(all, ws, now, lo);
      }
    }
  }

  /** An admitted request that opens a new window: the minute before it lies after the opening of the old one. */
  lemma AdmitNewWindow(t: Table, times: seq<int>, ip: Ip, now: int)
    requires Bounded(t, times, ip, now) && (ip in t ==> Expired(t[ip], now))
    ensures Bounded(Count(t, ip, now), times + [now], ip, now)
  {
    hide InRange;
    var all := times + [now];
    InRangeSnoc(times, now, now, now);
    InRangeBeyond(times, now - 1, now, now);
    InRangeSnoc(times, now, now - WINDOW_MS, now - 1);
    if ip in t {
      var old_ws := t[ip].windowStart;
      InRangeSplit(times, old_ws, old_ws, now);
      InRangeWider(times, now - WINDOW_MS, now - 1, old_ws + 1, now);
    } else {
      InRangeBeyond(times, now - WINDOW_MS - 1, now - WINDOW_MS, now - 1);
    }
    forall lo
      ensures InMinute(all, lo) <= MINUTE_MAX
    {
      assert InMinute(times, lo) <= MINUTE_MAX;
      InRangeSnoc(times, now, lo, lo + WINDOW_MS);
      if lo <= now <= lo + WINDOW_MS {
        TwoWindows(all, now, now, lo);
      }
    }
  }

  /** One event keeps the bounds. */
  lemma StepBounded(t: Table, times: seq<int>, e: Event, ip: Ip, now: int)
    requires Bounded(t, times, ip, now) && e.Request? && now <= e.time
    ensures Bounded(After(t, e), times + AdmittedAt(t, e, ip), ip, e.time)
  {
    hide InRange;
    BoundedLater(t, times, ip, now, e.time);
    if e.ip == ip && VerdictOn(t, e) == Admitted {
      if ip !in t || Expired(t[ip], e.time) {
        AdmitNewWindow(t, times, ip, e.time);
      } else {
        AdmitInWindow(t, times, ip, e.time);
      }
    } else {
      assert times + [] == times;
    }
  }

  function FinalTable(t: Table, es: seq<Event>): Table
    decreases es
  {
    if es == [] then t else FinalTable(After(t, es[0]), es[1..])
  }

  function EndTime(es: seq<Event>, now: int): int {
    if es == [] then now else Time(es[|es| - 1])
  }

  ghost predicate NoSweeps(es: seq<Event>) {
    forall i :: 0 <= i < |es| ==> es[i].Request?
  }

  lemma {:induction false} RunBounded(t: Table, times: seq<int>, es: seq<Event>, ip: Ip, now: int)
    requires Bounded(t, times, ip, now) && Monotone(es, now) && NoSweeps(es)
    ensures Bounded(FinalTable(t, es), times + AdmittedTimes(t, es, ip), ip, EndTime(es, now))
    decreases es
  {
    hide Bounded, After, VerdictOn, Monotone;
    if es == [] {
      assert times + [] == times;
    } else {
      var e, rest := es[0], es[1..];
      var add := AdmittedAt(t, e, ip);
      MonotoneTail(es, now);
      StepBounded(t, times, e, ip, now);
      RunBounded(After(t, e), times + add, rest, ip, e.time);
      assert es == [e] + rest;
      FirstAdmitted(t, e, rest, ip);
      Assoc(times, add, AdmittedTimes(After(t, e), rest, ip));
    }
  }

  lemma {:induction false} SweepKeepsAdmitted(t: Table, u: Table, es: seq<Event>, ip: Ip, from: int)
    requires SameLive(t, u, from) && Monotone(es, from)
    ensures AdmittedTimes(t, es, ip) == AdmittedTimes(u, WithoutSweeps(es), ip)
    decreases es
  {
    hide SameLive, Monotone, After, VerdictOn;
    if es != [] {
      var e, rest := es[0], es[1..];
      var kept := WithoutSweeps(rest);
      MonotoneTail(es, from);
      SameLiveStep(t, u, e, from);
      if e.SweepAt? {
        assert WithoutSweeps(es) == kept;
        SweepKeepsAdmitted(After(t, e), u, rest, ip, e.time);
      } else {
        assert WithoutSweeps(es) == [e] + kept && ([e] + kept)[1..] == kept;
        SweepKeepsAdmitted(After(t, e), After(u, e), rest, ip, e.time);
      }
    }
  }

  lemma {:induction false} SweepKeepsTable(t: Table, u: Table, es: seq<Event>, from: int)
    requires SameLive(t, u, from) && Monotone(es, from)
    ensures SameLive(FinalTable(t, es), FinalTable(u, WithoutSweeps(es)), EndTime(es, from))
    decreases es
  {
    hide SameLive, Monotone, After, VerdictOn;
    if es != [] {
      var e, rest := es[0], es[1..];
      var kept := WithoutSweeps(rest);
      MonotoneTail(es, from);
      SameLiveStep(t, u, e, from);
      if e.SweepAt? {
        assert WithoutSweeps(es) == kept;
        SweepKeepsTable(After(t, e), u, rest, e.time);
      } else {
        assert WithoutSweeps(es) == [e] + kept && ([e] + kept)[1..] == kept;
        SweepKeepsTable(After(t, e), After(u, e), rest, e.time);
      }
    }
  }

  lemma {:induction false} WithoutSweepsMonotone(es: seq<Event>, from: int)
    requires Monotone(es, from)
    ensures NoSweeps(WithoutSweeps(es)) && Monotone(WithoutSweeps(es), from)
    decreases es
  {
    if es != [] {
      MonotoneTail(es, from);
      WithoutSweepsMonotone(es[1..], Time(es[0]));
    }
  }

  /**
   Over every trace with a clock that never runs backwards, sweeps included, no closed interval of
   60 seconds contains more than 119 admitted requests from one IP.
   */
  lemma MinuteBound(es: seq<Event>, ip: Ip, from: int, lo: int)
    requires Monotone(es, from)
    ensures InMinute(AdmittedTimes(map[], es, ip), lo) <= 119
  {
    hide InMinute, Monotone;
    var requests := WithoutSweeps(es);
    SweepKeepsAdmitted(map[], map[], es, ip, from);
    WithoutSweepsMonotone(es, from);
    NothingYet(ip, from);
    RunBounded(map[], [], requests, ip, from);
    assert [] + AdmittedTimes(map[], requests, ip) == AdmittedTimes(map[], es, ip);
  }

  lemma NothingYet(ip: Ip, now: int)
    ensures Bounded(map[], [], ip, now)
  {
  }

  /** In the window an IP is in after any trace, sweeps included, no more than 60 of its requests were admitted. */
  lemma WindowBound(es: seq<Event>, ip: Ip, from: int)
    requires Monotone(es, from)
    ensures var t := FinalTable(map[], es);
      ip in t ==> InRange(AdmittedTimes(map[], es, ip), t[ip].windowStart, t[ip].windowStart + 60_000) <= 60
  {
    hide InRange, Monotone, FinalTable, AdmittedTimes, Bounded, WithoutSweeps;
    var requests := WithoutSweeps(es);
    SweepKeepsTable(map[], map[], es, from);
    SweepKeepsAdmitted(map[], map[], es, ip, from);
    WithoutSweepsMonotone(es, from);
    NothingYet(ip, from);
    RunBounded(map[], [], requests, ip, from);
    var times, t, end := AdmittedTimes(map[], es, ip), FinalTable(map[], requests), EndTime(requests, from);
    assert [] + times == times;
    if ip in t {
      BoundedWindow(t, times, ip, end);
    }
  }

  lemma BoundedWindow(t: Table, times: seq<int>, ip: Ip, end: int)
    requires Bounded(t, times, ip, end) && ip in t
    ensures InRange(times, t[ip].windowStart, t[ip].windowStart + WINDOW_MS) <= MAX_REQUESTS
  {
    hide InRange, InMinute;
    var ws := t[ip].windowStart;
    if ws + WINDOW_MS <= end {
      InRangeWider(times, ws, ws + WINDOW_MS, ws, end);
    } else {
      InRangeSplit(times, ws, end, ws + WINDOW_MS);
      InRangeBeyond(times, end, end + 1, ws + WINDOW_MS);
    }
  }

  // ------------------------------------------------------- exactly what is rejected

  /** A request that is counted for an IP. */
  predicate Counts(e: Event, ip: Ip) {
    e.Request? && e.ip == ip && e.verb !in ["GET", "HEAD", "OPTIONS"]
  }

  /** The position of the request that opened the IP's last window: the first that came over a minute after the opening before it. */
  function Opener(es: seq<Event>, ip: Ip): (k: Option<nat>)
    ensures k.Some? ==> k.value < |es| && Counts(es[k.value], ip)
  {
    if es == [] then None
    else
      var n := |es| - 1;
      var before := Opener(es[..n], ip);
      if !Counts(es[n], ip) then before
      else if before.Some? && Time(es[n]) - Time(es[before.value]) <= 60_000 then before
      else Some(n)
  }

  /** How many requests were counted for the IP from position k on. */
  function CountedFrom(es: seq<Event>, ip: Ip, k: nat): nat {
    if |es| <= k then 0 else CountedFrom(es[..|es| - 1], ip, k) + if Counts(es[|es| - 1], ip) then 1 else 0
  }

  predicate OverLimit(es: seq<Event>, ip: Ip, now: int) {
    var k := Opener(es, ip);
    k.Some? && now - Time(es[k.value]) <= 60_000 && CountedFrom(es, ip, k.value) >= 60
  }

  /** Whole seconds for so many milliseconds, rounded up, but at least one. */
  predicate SecondsLeft(seconds: int, ms: int) {
    seconds >= 1 && ms <= seconds * 1000 && (seconds > 1 ==> (seconds - 1) * 1000 < ms)
  }

  lemma CountsExactly(e: Event, ip: Ip)
    ensures Counts(e, ip) <==> e.Request? && e.ip == ip && !IsReadOnly(e.verb)
  {
  }

  /** The entry is the window that was opened last; it may be missing once the window is over. */
  ghost predicate IsHistory(t: Table, es: seq<Event>, ip: Ip, now: int) {
    var k := Opener(es, ip);
    && (ip in t ==> k.Some? && t[ip] == Entry(CountedFrom(es, ip, k.value), Time(es[k.value])))
    && (ip !in t && k.Some? ==> now - Time(es[k.value]) > 60_000)
  }

  lemma {:induction false} FinalStep(t: Table, es: seq<Event>)
    requires es != []
    ensures FinalTable(t, es) == After(FinalTable(t, es[..|es| - 1]), es[|es| - 1])
    decreases es
  {
    hide After;
    var init, last := es[..|es| - 1], es[|es| - 1];
    if |es| == 1 {
      assert es[1..] == [] && init == [];
    } else {
      FinalStep(After(t, es[0]), es[1..]);
      assert es[1..][..|es| - 2] == init[1..];
    }
  }

  lemma HistoryStep(t: Table, es: seq<Event>, ip: Ip, now: int)
    requires es != [] && now <= Time(es[|es| - 1])
    requires |es| > 1 ==> Time(es[|es| - 2]) == now
    requires IsHistory(t, es[..|es| - 1], ip, now)
    ensures IsHistory(After(t, es[|es| - 1]), es, ip, Time(es[|es| - 1]))
  {
    var n := |es| - 1;
    var init, last := es[..n], es[n];
    CountsExactly(last, ip);
    var before := Opener(init, ip);
    assert before.Some? ==> es[before.value] == init[before.value];
    if Opener(es, ip) == Some(n) {
      assert CountedFrom(init, ip, n) == 0;
      assert CountedFrom(es, ip, n) == 1;
    }
  }

  lemma {:induction false} TableIsHistory(es: seq<Event>, ip: Ip, from: int)
    requires Monotone(es, from)
    ensures IsHistory(FinalTable(map[], es), es, ip, EndTime(es, from))
    decreases |es|
  {
    hide IsHistory, After;
    if es == [] {
      NoHistory(ip, from);
    } else {
      FinalStep(map[], es);
      TableIsHistory(es[..|es| - 1], ip, from);
      HistoryStep(FinalTable(map[], es[..|es| - 1]), es, ip, EndTime(es[..|es| - 1], from));
    }
  }

  lemma NoHistory(ip: Ip, from: int)
    ensures IsHistory(map[], [], ip, from)
  {
  }

  /**
   After any trace, sweeps included, a request is rejected exactly if it is no GET, HEAD or OPTIONS
   and at least 60 requests of its IP were counted since one that opened a window at most 60
   seconds ago; and then it is told the number of seconds to the end of that window, rounded up,
   but at least one.
   */
  lemma RejectedExactly(es: seq<Event>, verb: string, ip: Ip, now: int, from: int)
    requires Monotone(es, from) && EndTime(es, from) <= now
    ensures var v := VerdictOn(FinalTable(map[], es), Request(verb, ip, now));
      var k := Opener(es, ip);
      && (v == Skipped <==> verb in ["GET", "HEAD", "OPTIONS"])
      && (v.Rejected? <==> verb !in ["GET", "HEAD", "OPTIONS"] && OverLimit(es, ip, now))
      && (v.Rejected? ==> SecondsLeft(v.retryAfter, Time(es[k.value]) + 60_000 - now))
  {
    hide FinalTable, Monotone, Opener, CountedFrom;
    TableIsHistory(es, ip, from);
    CountsExactly(Request(verb, ip, now), ip);
  }

  // ------------------------------------------------------- the bound is reached

  function Repeat<T>(n: nat, x: T): seq<T> {
    if n == 0 then [] else [x] + Repeat(n - 1, x)
  }

  lemma {:induction false} RepeatAt<T>(n: nat, x: T)
    ensures |Repeat(n, x)| == n && forall i :: 0 <= i < n ==> Repeat(n, x)[i] == x
  {
    if n > 0 {
      RepeatAt(n - 1, x);
    }
  }

  function Burst(n: nat, ip: Ip, time: int): seq<Event> {
    Repeat(n, Request("POST", ip, time))
  }

  lemma {:induction false} BurstAdmitted(e: Entry, n: nat, ip: Ip, now: int, rest: seq<Event>)
    requires !Expired(e, now) && e.count + n <= MAX_REQUESTS
    ensures AdmittedTimes(map[ip := e], Burst(n, ip, now) + rest, ip)
         == Repeat(n, now) + AdmittedTimes(map[ip := e.(count := e.count + n)], rest, ip)
    decreases n
  {
    hide Expired, After, VerdictOn, AdmittedTimes, AdmittedAt, Burst, Repeat;
    BurstUnfolds(n, ip, now);
    if n == 0 {
      assert [] + rest == rest && e.(count := e.count + 0) == e;
      var times := AdmittedTimes(map[ip := e], rest, ip);
      assert [] + times == times;
    } else {
      var first, more := Request("POST", ip, now), Burst(n - 1, ip, now) + rest;
      Assoc([first], Burst(n - 1, ip, now), rest);
      FirstAdmitted(map[ip := e], first, more, ip);
      OneMore(e, ip, now);
      StaysOpen(e, now);
      BurstAdmitted(e.(count := e.count + 1), n - 1, ip, now, rest);
      Assoc([now], Repeat(n - 1, now), AdmittedTimes(map[ip := e.(count := e.count + n)], rest, ip));
    }
  }

  lemma StaysOpen(e: Entry, now: int)
    requires !Expired(e, now)
    ensures !Expired(e.(count := e.count + 1), now)
  {
  }

  lemma BurstUnfolds(n: nat, ip: Ip, now: int)
    ensures n == 0 ==> Burst(n, ip, now) == [] && Repeat(n, now) == []
    ensures n > 0 ==> Burst(n, ip, now) == [Request("POST", ip, now)] + Burst(n - 1, ip, now)
                      && Repeat(n, now) == [now] + Repeat(n - 1, now)
  {
  }

  lemma OneMore(e: Entry, ip: Ip, now: int)
    requires !Expired(e, now) && e.count + 1 <= MAX_REQUESTS
    ensures var r := Request("POST", ip, now);
      AdmittedAt(map[ip := e], r, ip) == [now] && After(map[ip := e], r) == map[ip := e.(count := e.count + 1)]
  {
  }

  lemma {:induction false} InRangeRepeat(before: seq<int>, n: nat, x: int, lo: int, hi: int)
    requires lo <= x <= hi
    ensures InRange(before + Repeat(n, x), lo, hi) == InRange(before, lo, hi) + n
    decreases n
  {
    hide InRange;
    if n == 0 {
      assert before + Repeat(0, x) == before;
    } else {
      InRangeRepeat(before + [x], n - 1, x, lo, hi);
      InRangeSnoc(before, x, lo, hi);
      Assoc(before, [x], Repeat(n - 1, x));
    }
  }

  /** The events of the worst case: one request, 59 more at the end of its window, 60 right after it. */
  function WorstCase(ip: Ip): seq<Event> {
    [Request("POST", ip, 0)] + (Burst(59, ip, WINDOW_MS) + ([Request("POST", ip, WINDOW_MS + 1)] + Burst(59, ip, WINDOW_MS + 1)))
  }

  lemma WorstCaseMonotone(ip: Ip)
    ensures Monotone(WorstCase(ip), 0)
  {
    hide Repeat;
    RepeatAt(59, Request("POST", ip, WINDOW_MS));
    RepeatAt(59, Request("POST", ip, WINDOW_MS + 1));
    var es := WorstCase(ip);
    assert |es| == 120;
    forall i | 0 <= i < 120
      ensures Time(es[i]) == if i == 0 then 0 else if i < 60 then WINDOW_MS else WINDOW_MS + 1
    {
    }
  }

  lemma WorstCaseAdmitted(ip: Ip)
    ensures AdmittedTimes(map[], WorstCase(ip), ip)
         == [0] + (Repeat(59, WINDOW_MS) + ([WINDOW_MS + 1] + Repeat(59, WINDOW_MS + 1)))
  {
    hide Burst, Repeat;
    var opener, next := Request("POST", ip, WINDOW_MS + 1), Burst(59, ip, WINDOW_MS + 1);
    var tail := [opener] + next;
    assert After(map[], Request("POST", ip, 0)) == map[ip := Entry(1, 0)];
    assert WorstCase(ip)[1..] == Burst(59, ip, WINDOW_MS) + tail;
    BurstAdmitted(Entry(1, 0), 59, ip, WINDOW_MS, tail);
    assert After(map[ip := Entry(60, 0)], opener) == map[ip := Entry(1, WINDOW_MS + 1)];
    assert tail[1..] == next && next + [] == next;
    BurstAdmitted(Entry(1, WINDOW_MS + 1), 59, ip, WINDOW_MS + 1, []);
    assert Repeat(59, WINDOW_MS + 1) + [] == Repeat(59, WINDOW_MS + 1);
  }

  /** The bound is reached: 119 requests are admitted within two milliseconds. */
  lemma MinuteBoundIsReached(ip: Ip)
    ensures Monotone(WorstCase(ip), 0)
    ensures InMinute(AdmittedTimes(map[], WorstCase(ip), ip), 60_000) == 119
  {
    WorstCaseMonotone(ip);
    hide InRange, Repeat, WorstCase, AdmittedTimes;
    WorstCaseAdmitted(ip);
    var a, b := Repeat(59, WINDOW_MS), Repeat(59, WINDOW_MS + 1);
    assert [0] + (a + ([WINDOW_MS + 1] + b)) == (([0] + a) + [WINDOW_MS + 1]) + b;
    InRangeRepeat(([0] + a) + [WINDOW_MS + 1], 59, WINDOW_MS + 1, WINDOW_MS, 2 * WINDOW_MS);
    InRangeSnoc([0] + a, WINDOW_MS + 1, WINDOW_MS, 2 * WINDOW_MS);
    InRangeRepeat([0], 59, WINDOW_MS, WINDOW_MS, 2 * WINDOW_MS);
    OnlyZero();
  }

  lemma OnlyZero()
    ensures InRange([0], WINDOW_MS, 2 * WINDOW_MS) == 0
  {
    assert [0][..0] == [];
  }

  // ------------------------------------------------------------------ Retry-After

  /** The advertised delay is between one second and a minute, and strictly after it the window has expired. */
  lemma RetryAfterSuffices(t: Table, ip: Ip, now: int, r: int, later: int)
    requires Decide(t, ip, now) == Rejected(r) && t[ip].windowStart <= now
    requires now + r * 1000 < later
    ensures 1 <= r <= 60 && Decide(t, ip, later) == Admitted
    ensures Decide(Count(t, ip, now), ip, later) == Admitted
  {
  }

  /** At the advertised instant itself the window is still open exactly when its end is a whole number of seconds away. */
  lemma RetryAtTheInstant(t: Table, ip: Ip, now: int, r: int)
    requires Decide(t, ip, now) == Rejected(r) && t[ip].windowStart <= now
    ensures var left := t[ip].windowStart + 60_000 - now;
      Decide(Count(t, ip, now), ip, now + r * 1000).Rejected? <==> left > 0 && left % 1000 == 0
  {
  }

  /** No shorter delay in whole seconds would do. */
  lemma RetryAfterIsLeast(t: Table, ip: Ip, now: int, r: int)
    requires Decide(t, ip, now) == Rejected(r) && t[ip].windowStart <= now && r > 1
    ensures Decide(Count(t, ip, now), ip, now + (r - 1) * 1000).Rejected?
  {
  }
}
