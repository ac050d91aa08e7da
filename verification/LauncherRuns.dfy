/**
 Launchers re-evaluating their corners, each at its own times.  A check reads the corners in
 which the others are painted (apps/web/hooks/use-collision-detection.ts) and sets the hook's
 result; the result is painted later (apps/web/components/floating-launcher.tsx), and checks in
 between read what is still on the screen.  Launchers with distinct ids settle in one
 configuration, whatever states they start in and however checks and paints interleave.
 */
module LauncherRuns {
  import opened Launchers
  import opened LauncherProtocol

  /** The hook of every launcher, and the corner in which it is painted. */
  datatype State = State(hooks: seq<Hook>, painted: seq<Corner>)

  /** Launcher `who` runs its check, or paints the result of its latest one. */
  datatype Tick = Check(who: nat, now: int) | Paint(who: nat, now: int)

  predicate Sized(w: World, st: State) {
    |st.hooks| == |st.painted| == |w.launchers|
  }

  /** The corner in which launcher i is to be painted. */
  function Chosen(w: World, st: State, i: nat): Corner
    requires Sized(w, st) && i < |w.launchers|
  {
    FinalPosition(w.launchers[i].preference, st.hooks[i].result)
  }

  function Step(w: World, st: State, e: Tick): (st': State)
    requires Sized(w, st)
    ensures Sized(w, st')
  {
    if e.who >= |w.launchers| then st else
      var l := w.launchers[e.who];
      match e
      case Check(i, now) =>
        st.(hooks := st.hooks[i := CheckAt(st.hooks[i], now, l.id, l.preference, l.width, w.view, PageElements(w, st.painted))])
      case Paint(i, _) => st.(painted := st.painted[i := Chosen(w, st, i)])
  }

  predicate LetThrough(st: State, e: Tick, i: nat)
    requires i < |st.hooks|
  {
    e.Check? && e.who == i && e.now - st.hooks[i].lastCheck >= MIN_CHECK_INTERVAL_MS
  }

  /** A check that the 250 ms limit lets through chooses the decided corner; nothing else changes the choice. */
  lemma StepChooses(w: World, st: State, e: Tick, i: nat)
    requires Sized(w, st) && i < |w.launchers|
    ensures Chosen(w, Step(w, st, e), i) == if LetThrough(st, e, i) then DecideAt(w, st.painted, i) else Chosen(w, st, i)
  {
    var l := w.launchers[i];
    CheckDecides(st.hooks[i].result, l.id, l.preference, MeasuredSize(l.width), w.view, PageElements(w, st.painted));
  }

  /** A paint brings a launcher to its chosen corner; nothing else moves it. */
  lemma StepPaints(w: World, st: State, e: Tick, i: nat)
    requires Sized(w, st) && i < |w.launchers|
    ensures Step(w, st, e).painted[i] == if e.Paint? && e.who == i then Chosen(w, st, i) else st.painted[i]
  {
  }

  // ------------------------------------------------------------------- the runs

  datatype Execution = Execution(w: World, at: nat -> State, tick: nat -> Tick)

  ghost predicate IsRun(x: Execution) {
    && x.w.Valid()
    && (forall t: nat :: Sized(x.w, x.at(t)))
    && (forall t: nat :: StepsAt(x, t))
  }

  ghost predicate StepsAt(x: Execution, t: nat) {
    Sized(x.w, x.at(t)) && x.at(t + 1) == Step(x.w, x.at(t), x.tick(t))
  }

  ghost predicate Effective(x: Execution, i: nat, t: nat)
    requires IsRun(x) && i < |x.w.launchers|
  {
    LetThrough(x.at(t), x.tick(t), i)
  }

  ghost predicate Paints(x: Execution, i: nat, t: nat) {
    x.tick(t).Paint? && x.tick(t).who == i
  }

  /** Between two points of the run, launcher i has an effective check and is painted after it. */
  ghost predicate RoundOf(x: Execution, i: nat, a: nat, b: nat)
    requires IsRun(x) && i < |x.w.launchers|
  {
    exists u: nat, v: nat :: a <= u < v < b && Effective(x, i, u) && Paints(x, i, v)
  }

  ghost predicate RoundAfter(x: Execution, i: nat, a: nat)
    requires IsRun(x) && i < |x.w.launchers|
  {
    exists b: nat :: RoundOf(x, i, a, b)
  }

  /** Every launcher is checked and painted again and again. */
  ghost predicate Fair(x: Execution)
    requires IsRun(x)
  {
    forall i: nat, a: nat :: i < |x.w.launchers| ==> RoundAfter(x, i, a)
  }

  /** From point t on, launcher i is painted in its settled corner. */
  ghost predicate Settled(x: Execution, i: nat, t: nat)
    requires IsRun(x) && i < |x.w.launchers|
  {
    forall u: nat :: t <= u ==> x.at(u).painted[i] == FixedCorner(x.w, i)
  }

  ghost predicate SuperiorsSettled(x: Execution, i: nat, t: nat)
    requires IsRun(x) && i < |x.w.launchers|
  {
    forall j: nat :: j < |x.w.launchers| && x.w.Outranks(j, i) ==> Settled(x, j, t)
  }

  lemma SettledLater(x: Execution, i: nat, t: nat, u: nat)
    requires IsRun(x) && i < |x.w.launchers| && Settled(x, i, t) && t <= u
    ensures Settled(x, i, u)
  {
  }

  /** Whatever a launcher reads once its superiors have settled, it decides for its settled corner. */
  lemma ReadsSettled(x: Execution, i: nat, t: nat, u: nat)
    requires IsRun(x) && i < |x.w.launchers| && SuperiorsSettled(x, i, t) && t <= u
    ensures DecideAt(x.w, x.at(u).painted, i) == FixedCorner(x.w, i)
  {
    hide DecideAt, FixedCorner, Step;
    assert Sized(x.w, x.at(u));
    forall j: nat | j < |x.w.launchers| && x.w.Outranks(j, i)
      ensures x.at(u).painted[j] == FixedCorner(x.w, j)
    {
      assert Settled(x, j, t);
    }
    DecideFixed(x.w, x.at(u).painted, i);
  }

  lemma {:induction false} StaysChosen(x: Execution, i: nat, t: nat, u: nat)
    requires IsRun(x) && i < |x.w.launchers| && SuperiorsSettled(x, i, t) && t <= u
    requires Chosen(x.w, x.at(t), i) == FixedCorner(x.w, i)
    ensures Chosen(x.w, x.at(u), i) == FixedCorner(x.w, i)
    decreases u
  {
    hide Step, DecideAt, FixedCorner, SuperiorsSettled, Chosen;
    if u > t {
      StaysChosen(x, i, t, u - 1);
      assert StepsAt(x, u - 1);
      StepChooses(x.w, x.at(u - 1), x.tick(u - 1), i);
      ReadsSettled(x, i, t, u - 1);
    }
  }

  lemma {:induction false} StaysPainted(x: Execution, i: nat, t: nat, u: nat)
    requires IsRun(x) && i < |x.w.launchers| && SuperiorsSettled(x, i, t) && t <= u
    requires Chosen(x.w, x.at(t), i) == x.at(t).painted[i] == FixedCorner(x.w, i)
    ensures x.at(u).painted[i] == FixedCorner(x.w, i)
    decreases u
  {
    hide Step, DecideAt, FixedCorner, SuperiorsSettled, Chosen;
    if u > t {
      StaysPainted(x, i, t, u - 1);
      StaysChosen(x, i, t, u - 1);
      assert StepsAt(x, u - 1);
      StepPaints(x.w, x.at(u - 1), x.tick(u - 1), i);
    }
  }

  lemma SuperiorsLater(x: Execution, i: nat, t: nat, u: nat)
    requires IsRun(x) && i < |x.w.launchers| && SuperiorsSettled(x, i, t) && t <= u
    ensures SuperiorsSettled(x, i, u)
  {
    hide Settled, Step;
    forall j: nat | j < |x.w.launchers| && x.w.Outranks(j, i)
      ensures Settled(x, j, u)
    {
      SettledLater(x, j, t, u);
    }
  }

  /** Once its superiors have settled, one round settles a launcher for good. */
  lemma OneRoundSettles(x: Execution, i: nat, a: nat, b: nat)
    requires IsRun(x) && i < |x.w.launchers| && SuperiorsSettled(x, i, a) && RoundOf(x, i, a, b)
    ensures Settled(x, i, b)
  {
    hide Step, DecideAt, FixedCorner, SuperiorsSettled, Chosen;
    var u: nat, v: nat :| a <= u < v < b && Effective(x, i, u) && Paints(x, i, v);
    assert StepsAt(x, u) && StepsAt(x, v);
    StepChooses(x.w, x.at(u), x.tick(u), i);
    ReadsSettled(x, i, a, u);
    SuperiorsLater(x, i, a, u + 1);
    StaysChosen(x, i, u + 1, v);
    StaysChosen(x, i, u + 1, v + 1);
    StepPaints(x.w, x.at(v), x.tick(v), i);
    SuperiorsLater(x, i, a, v + 1);
    forall t: nat | b <= t
      ensures x.at(t).painted[i] == FixedCorner(x.w, i)
    {
      StaysPainted(x, i, v + 1, t);
    }
  }

  // ---------------------------------------------------------------- convergence

  lemma {:induction false} Settles(x: Execution, i: nat) returns (t: nat)
    requires IsRun(x) && Fair(x) && i < |x.w.launchers|
    ensures Settled(x, i, t)
    decreases Rank(x.w, i), |x.w.launchers| + 1
  {
    hide RoundOf, Settled;
    var a := HigherRanksSettle(x, i, |x.w.launchers|);
    assert RoundAfter(x, i, a);
    t :| RoundOf(x, i, a, t);
    OneRoundSettles(x, i, a, t);
  }

  lemma {:induction false} HigherRanksSettle(x: Execution, i: nat, m: nat) returns (t: nat)
    requires IsRun(x) && Fair(x) && i < |x.w.launchers| && m <= |x.w.launchers|
    ensures forall j: nat :: j < m && x.w.Outranks(j, i) ==> Settled(x, j, t)
    decreases Rank(x.w, i), m
  {
    hide *;
    t := 0;
    if m > 0 {
      var v := HigherRanksSettle(x, i, m - 1);
      t := v;
      if x.w.Outranks(m - 1, i) {
        OutranksRank(x.w, m - 1, i);
        var u := Settles(x, m - 1);
        t := if u > v then u else v;
        SettledLater(x, m - 1, u, t);
      }
      forall j: nat | j < m - 1 && x.w.Outranks(j, i)
        ensures Settled(x, j, t)
      {
        SettledLater(x, j, v, t);
      }
    }
  }

  lemma {:induction false} AllSettle(x: Execution, m: nat) returns (t: nat)
    requires IsRun(x) && Fair(x) && m <= |x.w.launchers|
    ensures forall i: nat :: i < m ==> Settled(x, i, t)
    decreases m
  {
    hide *;
    t := 0;
    if m > 0 {
      var v := AllSettle(x, m - 1);
      var u := Settles(x, m - 1);
      t := if u > v then u else v;
      SettledLater(x, m - 1, u, t);
      forall i: nat | i < m - 1
        ensures Settled(x, i, t)
      {
        SettledLater(x, i, v, t);
      }
    }
  }

  lemma AllPainted(x: Execution, t: nat, u: nat)
    requires IsRun(x) && t <= u && forall i: nat :: i < |x.w.launchers| ==> Settled(x, i, t)
    ensures x.at(u).painted == FixedCorners(x.w)
  {
    hide Step, FixedCorner;
    assert Sized(x.w, x.at(u));
    forall i: nat | i < |x.w.launchers|
      ensures x.at(u).painted[i] == FixedCorner(x.w, i)
    {
      assert Settled(x, i, t);
    }
  }

  /**
   Self-stabilisation: every fair run, from any hook states and any painted corners whatever,
   reaches the one fixed configuration and stays in it.
   */
  lemma Converges(x: Execution) returns (t: nat)
    requires IsRun(x) && Fair(x)
    ensures forall u: nat :: t <= u ==> x.at(u).painted == FixedCorners(x.w)
  {
    hide Settled, Fair, Step;
    t := AllSettle(x, |x.w.launchers|);
    forall u: nat | t <= u
      ensures x.at(u).painted == FixedCorners(x.w)
    {
      AllPainted(x, t, u);
    }
  }

  // ------------------------------------------------------------------ how soon

  /** Consecutive stretches of the run, in each of which every launcher has a round. */
  ghost predicate Rounds(x: Execution, bounds: seq<nat>)
    requires IsRun(x)
  {
    forall k: nat, i: nat :: k + 1 < |bounds| && i < |x.w.launchers| ==> HasRound(x, bounds, k, i)
  }

  ghost predicate HasRound(x: Execution, bounds: seq<nat>, k: nat, i: nat)
    requires IsRun(x) && k + 1 < |bounds| && i < |x.w.launchers|
  {
    RoundOf(x, i, bounds[k], bounds[k + 1])
  }

  lemma {:induction false} BoundsGrow(x: Execution, bounds: seq<nat>, j: nat, k: nat, i: nat)
    requires IsRun(x) && Rounds(x, bounds) && j <= k < |bounds| && i < |x.w.launchers|
    ensures bounds[j] <= bounds[k]
    decreases k
  {
    hide IsRun, Effective, Paints;
    if j < k {
      BoundsGrow(x, bounds, j, k - 1, i);
      assert HasRound(x, bounds, k - 1, i);
    }
  }

  /** A launcher has settled after one round more than it has superiors. */
  lemma {:induction false} RoundsSettle(x: Execution, bounds: seq<nat>, i: nat)
    requires IsRun(x) && Rounds(x, bounds) && i < |x.w.launchers| && Rank(x.w, i) + 1 < |bounds|
    ensures Settled(x, i, bounds[Rank(x.w, i) + 1])
    decreases Rank(x.w, i)
  {
    hide IsRun, Settled, RoundOf, Rank;
    var r := Rank(x.w, i);
    forall j: nat | j < |x.w.launchers| && x.w.Outranks(j, i)
      ensures Settled(x, j, bounds[r])
    {
      OutranksRank(x.w, j, i);
      RoundsSettle(x, bounds, j);
      BoundsGrow(x, bounds, Rank(x.w, j) + 1, r, i);
      SettledLater(x, j, bounds[Rank(x.w, j) + 1], bounds[r]);
    }
    assert HasRound(x, bounds, r, i);
    OneRoundSettles(x, i, bounds[r], bounds[r + 1]);
  }

  /** As many rounds as there are launchers settle all of them. */
  lemma AllSettleInRounds(x: Execution, bounds: seq<nat>, t: nat)
    requires IsRun(x) && Rounds(x, bounds) && |x.w.launchers| < |bounds| && bounds[|bounds| - 1] <= t
    ensures x.at(t).painted == FixedCorners(x.w)
  {
    hide IsRun, Settled, Rounds, Rank;
    var last := |bounds| - 1;
    forall i: nat | i < |x.w.launchers|
      ensures Settled(x, i, bounds[last])
    {
      RankBound(x.w, i);
      RoundsSettle(x, bounds, i);
      BoundsGrow(x, bounds, Rank(x.w, i) + 1, last, i);
      SettledLater(x, i, bounds[Rank(x.w, i) + 1], bounds[last]);
    }
    AllPainted(x, bounds[last], t);
  }

  // ---------------------------------------------------------- the staged checks

  /** The delays, after mounting, of the checks that every launcher schedules. */
  const STAGES: seq<int> := [100, 400, 1200, 2500]

  /** How late a scheduled check may run after its delay, and a paint after its check. */
  const LATENESS := 25

  ghost predicate ClockRuns(x: Execution) {
    forall t: nat, u: nat :: t <= u ==> x.tick(t).now <= x.tick(u).now
  }

  /** A check of launcher i runs when it is due or less than 25 ms later. */
  ghost predicate RunsInTime(x: Execution, i: nat, due: int) {
    exists t: nat :: x.tick(t).Check? && x.tick(t).who == i && due <= x.tick(t).now < due + 25
  }

  /** The four checks that launcher i schedules when it is mounted all run in time. */
  ghost predicate ChecksInTime(x: Execution, i: nat, mounted: int) {
    && RunsInTime(x, i, mounted + 100)
    && RunsInTime(x, i, mounted + 400)
    && RunsInTime(x, i, mounted + 1200)
    && RunsInTime(x, i, mounted + 2500)
  }

  /** What the check at t chose is painted, less than 25 ms later. */
  ghost predicate PaintedSoon(x: Execution, i: nat, t: nat) {
    exists v: nat :: t < v && Paints(x, i, v) && x.tick(v).now < x.tick(t).now + 25
  }

  /**
   Launchers mounted together, whose staged checks run and whose checks are painted in time.
   Checks for other reasons may come at any time in between.
   */
  ghost predicate MountedTogether(x: Execution, mounted: int)
    requires IsRun(x)
  {
    && ClockRuns(x)
    && (forall i: nat :: i < |x.w.launchers| ==> x.at(0).hooks[i].lastCheck <= mounted - 150)
    && (forall i: nat :: i < |x.w.launchers| ==> ChecksInTime(x, i, mounted))
    && (forall i: nat, t: nat :: i < |x.w.launchers| && Effective(x, i, t) ==> PaintedSoon(x, i, t))
  }

  /** The time of the last check is that of an effective one, or has not changed since the start. */
  lemma {:induction false} LastCheckIsEffective(x: Execution, i: nat, t: nat) returns (u: nat)
    requires IsRun(x) && i < |x.w.launchers| && x.at(t).hooks[i].lastCheck != x.at(0).hooks[i].lastCheck
    ensures u < t && Effective(x, i, u) && x.tick(u).now == x.at(t).hooks[i].lastCheck
    decreases t
  {
    hide Step, LetThrough;
    assert StepsAt(x, t - 1);
    StepStamps(x.w, x.at(t - 1), x.tick(t - 1), i);
    if Effective(x, i, t - 1) {
      u := t - 1;
    } else {
      u := LastCheckIsEffective(x, i, t - 1);
    }
  }

  /** Only a check that the limit lets through changes the time of the last check. */
  lemma StepStamps(w: World, st: State, e: Tick, i: nat)
    requires Sized(w, st) && i < |w.launchers|
    ensures Step(w, st, e).hooks[i].lastCheck == if LetThrough(st, e, i) then e.now else st.hooks[i].lastCheck
  {
    hide PageElements, Launchers.Check;
  }

  /** A check that the limit stops follows an effective one by less than 250 ms. */
  lemma EffectiveNearby(x: Execution, i: nat, t: nat) returns (u: nat)
    requires IsRun(x) && ClockRuns(x) && i < |x.w.launchers| && x.tick(t).Check? && x.tick(t).who == i
    requires x.at(0).hooks[i].lastCheck <= x.tick(t).now - MIN_CHECK_INTERVAL_MS
    ensures Effective(x, i, u) && x.tick(t).now - MIN_CHECK_INTERVAL_MS < x.tick(u).now <= x.tick(t).now
  {
    if Effective(x, i, t) {
      u := t;
    } else {
      u := LastCheckIsEffective(x, i, t);
    }
  }

  /** Stage k gives each launcher a round in a stretch of time that no other stage reaches into. */
  lemma StageGivesRound(x: Execution, mounted: int, i: nat, k: nat) returns (u: nat, v: nat)
    requires IsRun(x) && MountedTogether(x, mounted) && i < |x.w.launchers| && k < |STAGES|
    ensures u < v && Effective(x, i, u) && Paints(x, i, v)
    ensures mounted + STAGES[k] - MIN_CHECK_INTERVAL_MS < x.tick(u).now
    ensures x.tick(v).now < mounted + STAGES[k] + 2 * LATENESS
  {
    hide IsRun, Effective, Paints;
    assert ChecksInTime(x, i, mounted);
    assert RunsInTime(x, i, mounted + STAGES[k]);
    var t: nat :| x.tick(t).Check? && x.tick(t).who == i
      && mounted + STAGES[k] <= x.tick(t).now < mounted + STAGES[k] + LATENESS;
    u := EffectiveNearby(x, i, t);
    assert PaintedSoon(x, i, u);
    v :| u < v && Paints(x, i, v) && x.tick(v).now < x.tick(u).now + LATENESS;
  }

  /** Everything before point `a` happened before stage k could begin. */
  ghost predicate BeforeStage(x: Execution, mounted: int, a: nat, k: nat)
    requires k <= |STAGES|
  {
    a == 0 || (k > 0 && x.tick(a - 1).now < mounted + STAGES[k - 1] + 2 * LATENESS)
  }

  /** The end of stage k for the first m launchers. */
  lemma {:induction false} StageRound(x: Execution, mounted: int, a: nat, k: nat, m: nat) returns (b: nat)
    requires IsRun(x) && MountedTogether(x, mounted) && k < |STAGES| && BeforeStage(x, mounted, a, k) && m <= |x.w.launchers|
    ensures a <= b && BeforeStage(x, mounted, b, k + 1)
    ensures forall i: nat :: i < m ==> RoundOf(x, i, a, b)
    decreases m
  {
    hide IsRun, Effective, Paints;
    b := a;
    if m > 0 {
      var before := StageRound(x, mounted, a, k, m - 1);
      var u, v := StageGivesRound(x, mounted, m - 1, k);
      b := if v + 1 > before then v + 1 else before;
      StagesApart(k);
      if a > 0 {
        NotBefore(x, u, a, mounted + STAGES[k - 1] + 2 * LATENESS);
      }
      assert RoundOf(x, m - 1, a, b);
      forall i: nat | i < m - 1
        ensures RoundOf(x, i, a, b)
      {
        RoundWider(x, i, a, before, b);
      }
    }
  }

  lemma NotBefore(x: Execution, t: nat, a: nat, limit: int)
    requires ClockRuns(x) && a > 0 && x.tick(a - 1).now < limit <= x.tick(t).now
    ensures a <= t
  {
    var b: nat := a - 1;
    assert x.tick(b).now < x.tick(t).now;
  }

  lemma StagesApart(k: nat)
    requires k < |STAGES|
    ensures k > 0 ==> STAGES[k - 1] + 2 * LATENESS <= STAGES[k] - MIN_CHECK_INTERVAL_MS
  {
  }

  lemma RoundWider(x: Execution, i: nat, a: nat, b: nat, c: nat)
    requires IsRun(x) && i < |x.w.launchers| && RoundOf(x, i, a, b) && b <= c
    ensures RoundOf(x, i, a, c)
  {
    hide IsRun, Effective, Paints;
    var u: nat, v: nat :| a <= u < v < b && Effective(x, i, u) && Paints(x, i, v);
    assert a <= u < v < c;
  }

  lemma {:induction false} StagedRounds(x: Execution, mounted: int, n: nat) returns (bounds: seq<nat>)
    requires IsRun(x) && MountedTogether(x, mounted) && n <= |STAGES|
    ensures |bounds| == n + 1 && Rounds(x, bounds) && BeforeStage(x, mounted, bounds[n], n)
  {
    hide IsRun, RoundOf, BeforeStage, MountedTogether;
    bounds := [0];
    if n == 0 {
      FirstStage(x, mounted);
    } else {
      var init := StagedRounds(x, mounted, n - 1);
      var b := StageRound(x, mounted, init[n - 1], n - 1, |x.w.launchers|);
      bounds := init + [b];
      forall k: nat, i: nat | k + 1 < |bounds| && i < |x.w.launchers|
        ensures HasRound(x, bounds, k, i)
      {
        if k + 1 < |init| {
          assert HasRound(x, init, k, i);
        }
      }
    }
  }

  lemma FirstStage(x: Execution, mounted: int)
    ensures BeforeStage(x, mounted, 0, 0)
  {
  }

  /** Up to four launchers that are mounted together have settled 2550 ms later, whatever else makes them check. */
  lemma StagedChecksSettle(x: Execution, mounted: int, t: nat)
    requires IsRun(x) && MountedTogether(x, mounted) && |x.w.launchers| <= 4
    requires x.tick(t).now >= mounted + 2550
    ensures x.at(t).painted == FixedCorners(x.w)
  {
    hide IsRun, Rounds;
    var bounds := StagedRounds(x, mounted, 4);
    if bounds[4] > 0 {
      NotBefore(x, t, bounds[4], mounted + 2550);
    }
    AllSettleInRounds(x, bounds, t);
  }
}
