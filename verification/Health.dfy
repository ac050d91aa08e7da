/**
 The department and company health scores of apps/web/lib/health-score.ts, over real arithmetic.
 A score is the rounding of a weighted mean of percentages.
 */
module Health {
  import opened Common

  // ---------------------------------------------------------- numbers

  /** `Math.round`: halves go up. */
  function Round(x: real): int {
    (x + 0.5).Floor
  }

  function Clamp(x: int): int {
    if x < 0 then 0 else if x > 100 then 100 else x
  }

  function ClampReal(x: real): real {
    if x < 0.0 then 0.0 else if x > 100.0 then 100.0 else x
  }

  /** `total > 0 ? (part / total) * 100 : 0`. */
  function Percent(part: real, total: real): real {
    if total > 0.0 then part / total * 100.0 else 0.0
  }

  /** `pending === 0 ? 100 : Math.max(0, 100 - pending * 20)`. */
  function Approvals(pending: int): real {
    if pending == 0 then 100.0
    else if 100 - pending * 20 < 0 then 0.0
    else (100 - pending * 20) as real
  }

  lemma RoundMonotone(x: real, y: real)
    requires x <= y
    ensures Round(x) <= Round(y)
  {
  }

  lemma QuotientMonotone(a: real, b: real, c: real, d: real)
    requires b > 0.0 && d > 0.0 && a * d <= c * b
    ensures a / b <= c / d
  {
    var x, y := a / b, c / d;
    assert a == x * b && c == y * d;
    assert a * d == x * (b * d) && c * b == y * (b * d);
    SignOfProduct(x - y, b * d);
  }

  lemma SignOfProduct(x: real, k: real)
    requires k > 0.0
    ensures x < 0.0 ==> x * k < 0.0
    ensures x > 0.0 ==> x * k > 0.0
  {
  }

  /** More of the good part and less of the rest never lowers the percentage. */
  lemma PercentMonotone(part: real, rest: real, part': real, rest': real)
    requires 0.0 <= part <= part' && 0.0 <= rest' <= rest
    ensures Percent(part, part + rest) <= Percent(part', part' + rest')
  {
    var total, total' := part + rest, part' + rest';
    if total > 0.0 && total' > 0.0 {
      ProductMonotone(part, part', rest', rest);
      assert part * total' <= part' * total;
      QuotientMonotone(part, total, part', total');
    } else if total > 0.0 {
      assert part / total == 0.0;
    } else if total' > 0.0 {
      QuotientMonotone(0.0, 1.0, part', total');
    }
  }

  lemma ProductMonotone(a: real, b: real, c: real, d: real)
    requires 0.0 <= a <= b && 0.0 <= c <= d
    ensures a * c <= b * d
  {
    assert a * c <= b * c;
    assert b * c <= b * d;
  }

  lemma PercentInRange(part: real, total: real)
    requires 0.0 <= part <= total
    ensures 0.0 <= Percent(part, total) <= 100.0
  {
    PercentMonotone(0.0, total, part, total - part);
    PercentMonotone(part, total - part, total, 0.0);
    assert total > 0.0 ==> total / total == 1.0;
  }

  // ----------------------------------------------------- weighted means

  /** One scored dimension. */
  datatype Dimension = Dimension(name: string, weight: real, value: real)

  function WeightedSum(dims: seq<Dimension>): real {
    if dims == [] then 0.0
    else WeightedSum(dims[..|dims| - 1]) + dims[|dims| - 1].value * dims[|dims| - 1].weight
  }

  function WeightTotal(dims: seq<Dimension>): (total: real)
  {
    if dims == [] then 0.0 else WeightTotal(dims[..|dims| - 1]) + dims[|dims| - 1].weight
  }

  ghost predicate Weighed(dims: seq<Dimension>) {
    dims != [] && forall k :: 0 <= k < |dims| ==> dims[k].weight > 0.0
  }

  lemma {:induction false} TotalIsPositive(dims: seq<Dimension>)
    requires Weighed(dims)
    ensures WeightTotal(dims) > 0.0
  {
    if |dims| > 1 {
      TotalIsPositive(dims[..|dims| - 1]);
    } else {
      assert WeightTotal(dims[..0]) == 0.0;
    }
  }

  function Mean(dims: seq<Dimension>): real
    requires Weighed(dims)
  {
    TotalIsPositive(dims);
    WeightedSum(dims) / WeightTotal(dims)
  }

  lemma MeanOf(dims: seq<Dimension>)
    requires Weighed(dims)
    ensures WeightTotal(dims) > 0.0 && WeightedSum(dims) == Mean(dims) * WeightTotal(dims)
  {
    TotalIsPositive(dims);
  }

  lemma SumOfOneMore(dims: seq<Dimension>, d: Dimension)
    ensures WeightedSum(dims + [d]) == WeightedSum(dims) + d.value * d.weight
    ensures WeightTotal(dims + [d]) == WeightTotal(dims) + d.weight
  {
    var all := dims + [d];
    assert all[..|all| - 1] == dims;
  }

  /** The mean is a convex combination: it moves from the mean of the rest towards the last value. */
  lemma MeanStep(dims: seq<Dimension>, d: Dimension)
    requires Weighed(dims) && d.weight > 0.0
    ensures Weighed(dims + [d])
    ensures Mean(dims) <= d.value ==> Mean(dims) <= Mean(dims + [d]) <= d.value
    ensures Mean(dims) >= d.value ==> Mean(dims) >= Mean(dims + [d]) >= d.value
  {
    hide WeightedSum, WeightTotal, Mean;
    var all := dims + [d];
    SumOfOneMore(dims, d);
    MeanOf(dims);
    MeanOf(all);
    var w, m, n := WeightTotal(dims), Mean(dims), Mean(all);
    assert n * (w + d.weight) == m * w + d.value * d.weight;
    Between(m, w, d.value, d.weight, n);
  }

  lemma Between(m: real, w: real, v: real, u: real, n: real)
    requires w > 0.0 && u > 0.0 && n * (w + u) == m * w + v * u
    ensures m <= v ==> m <= n <= v
    ensures m >= v ==> m >= n >= v
  {
    assert (n - m) * (w + u) == (v - m) * u;
    assert (v - n) * (w + u) == (v - m) * w;
    Sign(n - m, w + u, v - m, u);
    Sign(v - n, w + u, v - m, w);
  }

  /** Equal products with positive factors have the same sign on the other side. */
  lemma Sign(a: real, p: real, b: real, q: real)
    requires p > 0.0 && q > 0.0 && a * p == b * q
    ensures b >= 0.0 ==> a >= 0.0
    ensures b <= 0.0 ==> a <= 0.0
  {
    SignOfProduct(a, p);
    SignOfProduct(b, q);
  }

  lemma MeanOfOne(d: Dimension)
    requires d.weight > 0.0
    ensures Mean([d]) == d.value
  {
    var dims := [d];
    assert dims[..0] == [];
    MeanOf(dims);
    SignOfProduct(Mean(dims) - d.value, d.weight);
  }

  lemma {:induction false} MeanInRange(dims: seq<Dimension>, lo: real, hi: real)
    requires Weighed(dims) && forall k :: 0 <= k < |dims| ==> lo <= dims[k].value <= hi
    ensures lo <= Mean(dims) <= hi
  {
    var n := |dims| - 1;
    if n == 0 {
      MeanOfOne(dims[0]);
      assert dims == [dims[0]];
    } else {
      hide Mean;
      MeanInRange(dims[..n], lo, hi);
      MeanStep(dims[..n], dims[n]);
      assert dims[..n] + [dims[n]] == dims;
    }
  }

  /** The same dimensions with the same weights, none of them lower. */
  ghost predicate Dominates(better: seq<Dimension>, worse: seq<Dimension>) {
    && |better| == |worse|
    && forall k :: 0 <= k < |worse| ==> better[k].weight == worse[k].weight && better[k].value >= worse[k].value
  }

  lemma {:induction false} SumMonotone(better: seq<Dimension>, worse: seq<Dimension>)
    requires Dominates(better, worse) && forall k :: 0 <= k < |worse| ==> worse[k].weight > 0.0
    ensures WeightedSum(worse) <= WeightedSum(better) && WeightTotal(worse) == WeightTotal(better)
  {
    if worse != [] {
      var n := |worse| - 1;
      SumMonotone(better[..n], worse[..n]);
      assert worse[n].value * worse[n].weight <= better[n].value * better[n].weight;
    }
  }

  lemma MeanMonotone(better: seq<Dimension>, worse: seq<Dimension>)
    requires Dominates(better, worse) && Weighed(worse)
    ensures Weighed(better) && Mean(worse) <= Mean(better)
  {
    SumMonotone(better, worse);
    MeanOf(worse);
    MeanOf(better);
    QuotientMonotone(WeightedSum(worse), WeightTotal(worse), WeightedSum(better), WeightTotal(better));
  }

  // ------------------------------------------------- labels and segments

  datatype Status = Good | Warning | Critical | Neutral

  datatype Segment = Segment(name: string, value: int, status: Status)

  function ScoreLabel(score: int): string {
    if score >= 80 then "Thriving" else if score >= 60 then "Healthy" else if score >= 40 then "Needs Attention" else "At Risk"
  }

  function SegmentStatus(value: real, neutral: bool): Status {
    if neutral && value == 0.0 then Neutral
    else if value >= 70.0 then Good
    else if value >= 40.0 then Warning
    else Critical
  }

  function SegmentOf(d: Dimension, neutral: bool): Segment {
    Segment(d.name, Round(d.value), SegmentStatus(d.value, neutral))
  }

  // ------------------------------------------------------ department score

  datatype Department = Department(
    membersActive: int, membersTotal: int,
    tasksDone: int, tasksFailed: int, tasksWorking: int, tasksQueued: int,
    gatesPending: int,
    budgetAmount: Option<real>, budgetRemaining: Option<real>) {

    function TasksOpen(): int {
      tasksFailed + tasksWorking + tasksQueued
    }

    predicate HasBudget() {
      budgetAmount.Some? && budgetAmount.value > 0.0 && budgetRemaining.Some?
    }

    function Workforce(): real {
      Percent(membersActive as real, membersTotal as real)
    }

    function Execution(): real {
      Percent(tasksDone as real, tasksDone as real + TasksOpen() as real)
    }

    function Credits(): real
      requires HasBudget()
    {
      ClampReal(Percent(budgetRemaining.value, budgetAmount.value))
    }

    /** Counts as the queries deliver them; the budget may be anything. */
    ghost predicate InRange() {
      && 0 <= membersActive <= membersTotal
      && tasksDone >= 0 && tasksFailed >= 0 && tasksWorking >= 0 && tasksQueued >= 0
      && gatesPending >= 0
    }
  }

  /** The dimensions that every department has. */
  function BaseDimensions(d: Department): (dims: seq<Dimension>)
    ensures Weighed(dims)
  {
    [Dimension("Workforce", 0.25, d.Workforce()),
     Dimension("Execution", 0.3, d.Execution()),
     Dimension("Approvals", 0.1, Approvals(d.gatesPending))]
  }

  function BudgetDimension(d: Department): Dimension
    requires d.HasBudget()
  {
    Dimension("Budget", 0.2, d.Credits())
  }

  function DepartmentDimensions(d: Department): (dims: seq<Dimension>)
    ensures Weighed(dims)
  {
    BaseDimensions(d) + if d.HasBudget() then [BudgetDimension(d)] else []
  }

  function DepartmentScore(d: Department): int {
    Clamp(Round(Mean(DepartmentDimensions(d))))
  }

  /** Whether a segment with value 0 is neutral rather than critical. */
  function IsEmpty(d: Department, name: string): bool {
    (name == "Workforce" && d.membersTotal == 0) || (name == "Execution" && d.tasksDone + d.TasksOpen() == 0)
  }

  function Segments(d: Department, dims: seq<Dimension>): seq<Segment> {
    seq(|dims|, k requires 0 <= k < |dims| => SegmentOf(dims[k], IsEmpty(d, dims[k].name)))
  }

  lemma SumOfThree(a: Dimension, b: Dimension, c: Dimension)
    ensures WeightedSum([a, b, c]) == a.value * a.weight + b.value * b.weight + c.value * c.weight
    ensures WeightTotal([a, b, c]) == a.weight + b.weight + c.weight
  {
    assert [a, b, c][..2] == [a, b] && [a, b][..1] == [a] && [a][..0] == [];
    assert WeightedSum([a]) == a.value * a.weight && WeightTotal([a]) == a.weight;
    assert WeightedSum([a, b]) == a.value * a.weight + b.value * b.weight && WeightTotal([a, b]) == a.weight + b.weight;
  }

  /** `departmentHealth`: the segments are pushed and the sums accumulated as the source does. */
  method DepartmentHealth(d: Department) returns (score: int, name: string, segments: seq<Segment>)
    ensures score == DepartmentScore(d)
    ensures name == ScoreLabel(score)
    ensures segments == Segments(d, DepartmentDimensions(d))
  {
    hide WeightedSum, WeightTotal, Mean, Round, Percent, Approvals, SegmentStatus;
    var tasksTotal := d.tasksDone + d.tasksFailed + d.tasksWorking + d.tasksQueued;
    var workforce := Percent(d.membersActive as real, d.membersTotal as real);
    var execution := Percent(d.tasksDone as real, tasksTotal as real);
    var approvals := Approvals(d.gatesPending);
    segments := [
      Segment("Workforce", Round(workforce), SegmentStatus(workforce, d.membersTotal == 0)),
      Segment("Execution", Round(execution), SegmentStatus(execution, tasksTotal == 0)),
      Segment("Approvals", Round(approvals), SegmentStatus(approvals, false))];
    var weighted := workforce * 0.25 + execution * 0.3 + approvals * 0.1;
    var weightSum := 0.65;
    ghost var base := BaseDimensions(d);
    assert tasksTotal as real == d.tasksDone as real + d.TasksOpen() as real;
    SumOfThree(base[0], base[1], base[2]);
    assert base == [base[0], base[1], base[2]] == base + [];
    if d.budgetAmount.Some? && d.budgetAmount.value > 0.0 && d.budgetRemaining.Some? {
      var credits := ClampReal(Percent(d.budgetRemaining.value, d.budgetAmount.value));
      segments := segments + [Segment("Budget", Round(credits), SegmentStatus(credits, false))];
      weighted := weighted + credits * 0.2;
      weightSum := weightSum + 0.2;
      SumOfOneMore(base, BudgetDimension(d));
    }
    MeanIsQuotient(DepartmentDimensions(d), weighted, weightSum);
    score := Clamp(Round(weighted / weightSum));
    name := ScoreLabel(score);
  }

  lemma MeanIsQuotient(dims: seq<Dimension>, sum: real, total: real)
    requires Weighed(dims) && sum == WeightedSum(dims) && total == WeightTotal(dims)
    ensures total > 0.0 && Mean(dims) == sum / total
  {
    TotalIsPositive(dims);
  }

  /** Every dimension of a department is a percentage, whatever its budget. */
  lemma DepartmentInRange(d: Department)
    requires d.InRange()
    ensures forall k :: 0 <= k < |DepartmentDimensions(d)| ==> 0.0 <= DepartmentDimensions(d)[k].value <= 100.0
  {
    PercentInRange(d.membersActive as real, d.membersTotal as real);
    PercentInRange(d.tasksDone as real, d.tasksDone as real + d.TasksOpen() as real);
  }

  lemma RoundedRange(x: real)
    requires 0.0 <= x <= 100.0
    ensures Clamp(Round(x)) == Round(x)
  {
  }

  /** The department score needs no clamping: it is the rounding of a mean of percentages. */
  lemma DepartmentClampNeverActs(d: Department)
    requires d.InRange()
    ensures DepartmentScore(d) == Round(Mean(DepartmentDimensions(d)))
    ensures 0.0 <= Mean(DepartmentDimensions(d)) <= 100.0
  {
    hide Round, Clamp, Mean, DepartmentDimensions;
    DepartmentInRange(d);
    MeanInRange(DepartmentDimensions(d), 0.0, 100.0);
    RoundedRange(Mean(DepartmentDimensions(d)));
  }

  /**
   At least as many members active and no more idle, at least as much work done and no more of it
   open or failed, no more requests waiting, the same budget with no less of it left.
   */
  ghost predicate AtLeastAsGood(better: Department, worse: Department) {
    && better.membersActive >= worse.membersActive
    && better.membersTotal - better.membersActive <= worse.membersTotal - worse.membersActive
    && better.tasksDone >= worse.tasksDone
    && better.TasksOpen() <= worse.TasksOpen()
    && better.gatesPending <= worse.gatesPending
    && better.HasBudget() == worse.HasBudget()
    && (worse.HasBudget() ==> better.budgetAmount == worse.budgetAmount
                              && better.budgetRemaining.value >= worse.budgetRemaining.value)
  }

  lemma CreditsMonotone(better: real, worse: real, amount: real)
    requires amount > 0.0 && better >= worse
    ensures ClampReal(Percent(worse, amount)) <= ClampReal(Percent(better, amount))
  {
    assert worse * amount <= better * amount;
    QuotientMonotone(worse, amount, better, amount);
  }

  /** A department's score never falls as work completes, and never rises as more approvals wait. */
  lemma DepartmentMonotone(better: Department, worse: Department)
    requires better.InRange() && worse.InRange() && AtLeastAsGood(better, worse)
    ensures DepartmentScore(worse) <= DepartmentScore(better)
  {
    WorkforceMonotone(better, worse);
    ExecutionMonotone(better, worse);
    if worse.HasBudget() {
      CreditsMonotone(better.budgetRemaining.value, worse.budgetRemaining.value, worse.budgetAmount.value);
    }
    DimensionsDominate(better, worse);
    hide Mean, Round, DepartmentDimensions;
    MeanMonotone(DepartmentDimensions(better), DepartmentDimensions(worse));
    RoundMonotone(Mean(DepartmentDimensions(worse)), Mean(DepartmentDimensions(better)));
  }

  lemma WorkforceMonotone(better: Department, worse: Department)
    requires better.InRange() && worse.InRange() && AtLeastAsGood(better, worse)
    ensures better.Workforce() >= worse.Workforce()
  {
    hide Percent;
    var a, b := worse.membersActive as real, (worse.membersTotal - worse.membersActive) as real;
    var c, e := better.membersActive as real, (better.membersTotal - better.membersActive) as real;
    PercentMonotone(a, b, c, e);
    assert a + b == worse.membersTotal as real && c + e == better.membersTotal as real;
  }

  lemma ExecutionMonotone(better: Department, worse: Department)
    requires better.InRange() && worse.InRange() && AtLeastAsGood(better, worse)
    ensures better.Execution() >= worse.Execution()
  {
    hide Percent;
    PercentMonotone(worse.tasksDone as real, worse.TasksOpen() as real, better.tasksDone as real, better.TasksOpen() as real);
  }

  lemma DimensionsDominate(better: Department, worse: Department)
    requires better.gatesPending <= worse.gatesPending && better.gatesPending >= 0
    requires better.Workforce() >= worse.Workforce() && better.Execution() >= worse.Execution()
    requires better.HasBudget() == worse.HasBudget()
    requires worse.HasBudget() ==> better.Credits() >= worse.Credits()
    ensures Dominates(DepartmentDimensions(better), DepartmentDimensions(worse))
  {
    hide Percent;
  }

  /** The department without its budget. */
  function Unbudgeted(d: Department): Department {
    d.(budgetAmount := None)
  }

  /** Setting a budget moves the score to between the unbudgeted score and the rounded budget percentage. */
  lemma BudgetPullsTowardsItself(d: Department)
    requires d.InRange() && d.HasBudget()
    ensures
      var before, after, credits := DepartmentScore(Unbudgeted(d)), DepartmentScore(d), Round(d.Credits());
      (before <= credits ==> before <= after <= credits) && (before >= credits ==> before >= after >= credits)
  {
    var base := BaseDimensions(d);
    assert DepartmentDimensions(Unbudgeted(d)) == base;
    DepartmentClampNeverActs(d);
    DepartmentClampNeverActs(Unbudgeted(d));
    hide Mean, Round, BaseDimensions;
    MeanStep(base, BudgetDimension(d));
    BetweenRounded(Mean(base), d.Credits(), Mean(DepartmentDimensions(d)));
  }

  lemma BetweenRounded(before: real, credits: real, after: real)
    requires before <= after <= credits || before >= after >= credits
    ensures Round(before) <= Round(credits) ==> Round(before) <= Round(after) <= Round(credits)
    ensures Round(before) >= Round(credits) ==> Round(before) >= Round(after) >= Round(credits)
  {
  }

  // --------------------------------------------------------- company score

  datatype Company = Company(
    activeAgents: int, totalAgents: int, completedTasks: int, totalTasks: int,
    creditsRemaining: real, creditsTotal: real, pendingApprovals: int, activeGoals: int, totalGoals: int) {

    /** Counts as the queries deliver them; the credits may be anything. */
    ghost predicate CountsInRange() {
      && 0 <= activeAgents <= totalAgents
      && 0 <= completedTasks <= totalTasks
      && pendingApprovals >= 0
      && 0 <= activeGoals <= totalGoals
    }

    /** And credits neither overdrawn nor above their total. */
    ghost predicate InRange() {
      CountsInRange() && 0.0 <= creditsRemaining <= creditsTotal
    }

    function Credits(): real {
      Percent(creditsRemaining, creditsTotal)
    }

    predicate ClampActs() {
      CompanyScore(this) != Round(Mean(CompanyDimensions(this)))
    }
  }

  function CompanyDimensions(c: Company): (dims: seq<Dimension>)
    ensures Weighed(dims)
  {
    [Dimension("Workforce", 0.25, Percent(c.activeAgents as real, c.totalAgents as real)),
     Dimension("Execution", 0.3, Percent(c.completedTasks as real, c.totalTasks as real)),
     Dimension("Credits", 0.2, Percent(c.creditsRemaining, c.creditsTotal)),
     Dimension("Approvals", 0.1, Approvals(c.pendingApprovals)),
     Dimension("Goals", 0.15, Percent(c.activeGoals as real, c.totalGoals as real))]
  }

  function CompanyScore(c: Company): int {
    Clamp(Round(Mean(CompanyDimensions(c))))
  }

  function CompanySegments(c: Company): seq<Segment> {
    var dims := CompanyDimensions(c);
    seq(|dims|, k requires 0 <= k < |dims| => SegmentOf(dims[k], c.totalAgents == 0))
  }

  lemma CompanySum(c: Company)
    ensures
      var dims := CompanyDimensions(c);
      && WeightTotal(dims) == 1.0
      && WeightedSum(dims) == dims[0].value * 0.25 + dims[1].value * 0.3 + dims[2].value * 0.2
                              + dims[3].value * 0.1 + dims[4].value * 0.15
  {
    hide WeightedSum, WeightTotal, Percent, Approvals;
    var dims := CompanyDimensions(c);
    SumOfThree(dims[0], dims[1], dims[2]);
    var three := [dims[0], dims[1], dims[2]];
    SumOfOneMore(three, dims[3]);
    SumOfOneMore(three + [dims[3]], dims[4]);
    assert dims == three + [dims[3]] + [dims[4]];
  }

  lemma MeanIsSum(dims: seq<Dimension>, sum: real)
    requires Weighed(dims) && sum == WeightedSum(dims) && WeightTotal(dims) == 1.0
    ensures Mean(dims) == sum
  {
    MeanOf(dims);
  }

  /** `computeScore`: the weights add up to one, so no division is needed. */
  method ComputeScore(c: Company) returns (score: int, name: string, segments: seq<Segment>)
    ensures score == CompanyScore(c)
    ensures name == ScoreLabel(score)
    ensures segments == CompanySegments(c)
  {
    hide WeightedSum, WeightTotal, Mean, Round, Percent, Approvals;
    var agentScore := Percent(c.activeAgents as real, c.totalAgents as real);
    var taskScore := Percent(c.completedTasks as real, c.totalTasks as real);
    var creditScore := Percent(c.creditsRemaining, c.creditsTotal);
    var approvalScore := Approvals(c.pendingApprovals);
    var goalScore := Percent(c.activeGoals as real, c.totalGoals as real);
    var raw := agentScore * 0.25 + taskScore * 0.3 + creditScore * 0.2 + approvalScore * 0.1 + goalScore * 0.15;
    CompanySum(c);
    MeanIsSum(CompanyDimensions(c), raw);
    score := Clamp(Round(raw));
    name := ScoreLabel(score);
    var none := c.totalAgents == 0;
    segments := [
      Segment("Workforce", Round(agentScore), SegmentStatus(agentScore, none)),
      Segment("Execution", Round(taskScore), SegmentStatus(taskScore, none)),
      Segment("Credits", Round(creditScore), SegmentStatus(creditScore, none)),
      Segment("Approvals", Round(approvalScore), SegmentStatus(approvalScore, none)),
      Segment("Goals", Round(goalScore), SegmentStatus(goalScore, none))];
  }

  lemma CompanyClampNeverActs(c: Company)
    requires c.InRange()
    ensures CompanyScore(c) == Round(Mean(CompanyDimensions(c)))
    ensures 0.0 <= Mean(CompanyDimensions(c)) <= 100.0
  {
    hide Percent, Mean, Round;
    PercentInRange(c.activeAgents as real, c.totalAgents as real);
    PercentInRange(c.completedTasks as real, c.totalTasks as real);
    PercentInRange(c.creditsRemaining, c.creditsTotal);
    PercentInRange(c.activeGoals as real, c.totalGoals as real);
    MeanInRange(CompanyDimensions(c), 0.0, 100.0);
    RoundedRange(Mean(CompanyDimensions(c)));
  }

  /** The score that the other four dimensions contribute. */
  function OtherPoints(c: Company): real {
    Percent(c.activeAgents as real, c.totalAgents as real) * 0.25 + Percent(c.completedTasks as real, c.totalTasks as real) * 0.3
    + Approvals(c.pendingApprovals) * 0.1 + Percent(c.activeGoals as real, c.totalGoals as real) * 0.15
  }

  lemma CompanyMean(c: Company)
    ensures Mean(CompanyDimensions(c)) == OtherPoints(c) + c.Credits() * 0.2
  {
    hide WeightedSum, WeightTotal, Mean, Percent, Approvals;
    CompanySum(c);
    MeanIsSum(CompanyDimensions(c), OtherPoints(c) + c.Credits() * 0.2);
  }

  lemma OtherPointsInRange(c: Company)
    requires c.CountsInRange()
    ensures 0.0 <= OtherPoints(c) <= 80.0
  {
    hide Percent;
    PercentInRange(c.activeAgents as real, c.totalAgents as real);
    PercentInRange(c.completedTasks as real, c.totalTasks as real);
    PercentInRange(c.activeGoals as real, c.totalGoals as real);
  }

  /** For any one company the clamp acts exactly if the mean rounds to a number outside 0 to 100. */
  lemma ClampActsExactly(c: Company)
    ensures c.ClampActs() <==> !(-0.5 <= OtherPoints(c) + c.Credits() * 0.2 < 100.5)
  {
    hide Mean, Percent;
    CompanyMean(c);
  }

  /** The two extremes: everything done, and nothing done with five approvals waiting. */
  function Extreme(best: bool, remaining: real, total: real): Company {
    if best then Company(1, 1, 1, 1, remaining, total, 0, 1, 1) else Company(0, 1, 0, 1, remaining, total, 5, 0, 1)
  }

  lemma ExtremePoints(best: bool, remaining: real, total: real)
    ensures OtherPoints(Extreme(best, remaining, total)) == if best then 80.0 else 0.0
  {
  }

  /**
   The credits percentage is not clamped by itself.  For given credits the final clamp acts on no
   company exactly if that percentage is at least -2.5 and below 102.5.
   */
  lemma CompanyClampExactly(remaining: real, total: real)
    ensures (forall c: Company :: c.CountsInRange() && c.creditsRemaining == remaining && c.creditsTotal == total ==> !c.ClampActs())
            <==> -2.5 <= Percent(remaining, total) < 102.5
  {
    hide Percent, Approvals;
    var best, worst := Extreme(true, remaining, total), Extreme(false, remaining, total);
    ExtremePoints(true, remaining, total);
    ExtremePoints(false, remaining, total);
    assert best.CountsInRange() && worst.CountsInRange();
    hide OtherPoints;
    ClampActsExactly(best);
    ClampActsExactly(worst);
    forall c: Company | c.CountsInRange() && c.creditsRemaining == remaining && c.creditsTotal == total
      ensures -2.5 <= Percent(remaining, total) < 102.5 ==> !c.ClampActs()
    {
      OtherPointsInRange(c);
      ClampActsExactly(c);
    }
  }

  /** One such company: 300 of 100 credits and everything else done make 140 points. */
  lemma CompanyClampActs()
    ensures var c := Extreme(true, 300.0, 100.0);
      c.ClampActs() && Round(Mean(CompanyDimensions(c))) == 140 && CompanyScore(c) == 100
  {
    var c := Extreme(true, 300.0, 100.0);
    ExtremePoints(true, 300.0, 100.0);
    assert c.Credits() == 300.0;
    hide Mean, OtherPoints;
    CompanyMean(c);
  }

  /** At least as many parts done and no more open, and no lower credits percentage; the credits may be anything. */
  ghost predicate CompanyAtLeastAsGood(better: Company, worse: Company) {
    && better.activeAgents >= worse.activeAgents
    && better.totalAgents - better.activeAgents <= worse.totalAgents - worse.activeAgents
    && better.completedTasks >= worse.completedTasks
    && better.totalTasks - better.completedTasks <= worse.totalTasks - worse.completedTasks
    && better.Credits() >= worse.Credits()
    && better.pendingApprovals <= worse.pendingApprovals
    && better.activeGoals >= worse.activeGoals
    && better.totalGoals - better.activeGoals <= worse.totalGoals - worse.activeGoals
  }

  /** The credits percentage does not fall as credits are added to the same total, or unspent ones to both. */
  lemma CreditsPercentMonotone(worse: real, better: real, worseTotal: real, betterTotal: real)
    requires worse <= better
    requires worseTotal == betterTotal || (0.0 <= worse && 0.0 <= betterTotal - better <= worseTotal - worse)
    ensures Percent(worse, worseTotal) <= Percent(better, betterTotal)
  {
    if worseTotal == betterTotal {
      if worseTotal > 0.0 {
        assert worse * worseTotal <= better * worseTotal;
        QuotientMonotone(worse, worseTotal, better, worseTotal);
      }
    } else {
      PercentMonotone(worse, worseTotal - worse, better, betterTotal - better);
      assert worse + (worseTotal - worse) == worseTotal && better + (betterTotal - better) == betterTotal;
    }
  }

  lemma PartMonotone(part: int, total: int, part': int, total': int)
    requires 0 <= part <= part' && 0 <= total' - part' <= total - part
    ensures Percent(part as real, total as real) <= Percent(part' as real, total' as real)
  {
    PercentMonotone(part as real, (total - part) as real, part' as real, (total' - part') as real);
    assert part as real + (total - part) as real == total as real;
    assert part' as real + (total' - part') as real == total' as real;
  }

  /** The company score never falls as more of each part completes, nor rises as more approvals wait. */
  lemma CompanyMonotone(better: Company, worse: Company)
    requires better.CountsInRange() && worse.CountsInRange() && CompanyAtLeastAsGood(better, worse)
    ensures CompanyScore(worse) <= CompanyScore(better)
  {
    hide Percent, Mean, Round;
    PartMonotone(worse.activeAgents, worse.totalAgents, better.activeAgents, better.totalAgents);
    PartMonotone(worse.completedTasks, worse.totalTasks, better.completedTasks, better.totalTasks);
    PartMonotone(worse.activeGoals, worse.totalGoals, better.activeGoals, better.totalGoals);
    MeanMonotone(CompanyDimensions(better), CompanyDimensions(worse));
    RoundMonotone(Mean(CompanyDimensions(worse)), Mean(CompanyDimensions(better)));
  }

  // ------------------------------------------------- the scores, number by number

  /** `n` is the integer nearest to x, the higher one of two, cut off at 0 and 100. */
  predicate Nearest(n: int, x: real) {
    if x < 0.0 then n == 0 else if x > 100.0 then n == 100 else n as real - 0.5 <= x < n as real + 0.5
  }

  /** How many hundredths of the total the part is; nothing of nothing is 0. */
  function Share(part: real, total: real): real {
    if total <= 0.0 then 0.0 else 100.0 * part / total
  }

  lemma ShareIsPercent(part: real, total: real)
    ensures Percent(part, total) == Share(part, total)
  {
    if total > 0.0 {
      var x, y := part / total, 100.0 * part / total;
      assert x * total == part && y * total == 100.0 * part;
      assert (x * 100.0 - y) * total == 0.0;
    }
  }

  /** Nothing waiting is worth 100, and every request takes 20 off, down to 0. */
  lemma ApprovalsExactly(pending: nat)
    ensures Approvals(pending) == match pending
      case 0 => 100.0
      case 1 => 80.0
      case 2 => 60.0
      case 3 => 40.0
      case 4 => 20.0
      case _ => 0.0
  {
  }

  lemma NearestRound(x: real)
    ensures Nearest(Clamp(Round(x)), x)
  {
  }

  lemma RoundExactly(x: real)
    ensures Round(x) as real - 0.5 <= x < Round(x) as real + 0.5
  {
  }

  /** What is left of the budget, between 0 and 100. */
  function BudgetShare(remaining: real, amount: real): real
    requires amount > 0.0
  {
    if remaining <= 0.0 then 0.0 else if remaining >= amount then 100.0 else 100.0 * remaining / amount
  }

  lemma BudgetIsShare(remaining: real, amount: real)
    requires amount > 0.0
    ensures ClampReal(Percent(remaining, amount)) == BudgetShare(remaining, amount)
  {
    ShareIsPercent(remaining, amount);
    var x := 100.0 * remaining / amount;
    assert x * amount == 100.0 * remaining;
    SignOfProduct(x, amount);
    SignOfProduct(x - 100.0, amount);
  }

  lemma Hundredfold(sum: real, total: real)
    requires total > 0.0
    ensures sum / total == 100.0 * sum / (100.0 * total)
  {
    var x, y := sum / total, 100.0 * sum / (100.0 * total);
    assert x * total == sum && y * (100.0 * total) == 100.0 * sum;
    assert (x - y) * total == 0.0;
  }

  /**
   A department scores 25 parts workforce, 30 parts execution and 10 parts approvals, and 20 parts
   budget if it has one, divided by the parts present.
   */
  lemma DepartmentScoreExactly(d: Department)
    ensures var tasks := d.tasksDone + d.tasksFailed + d.tasksWorking + d.tasksQueued;
      var w := Share(d.membersActive as real, d.membersTotal as real);
      var e := Share(d.tasksDone as real, tasks as real);
      var a := Approvals(d.gatesPending);
      if d.budgetAmount.Some? && d.budgetAmount.value > 0.0 && d.budgetRemaining.Some? then
        Nearest(DepartmentScore(d),
                (25.0 * w + 30.0 * e + 10.0 * a + 20.0 * BudgetShare(d.budgetRemaining.value, d.budgetAmount.value)) / 85.0)
      else Nearest(DepartmentScore(d), (25.0 * w + 30.0 * e + 10.0 * a) / 65.0)
  {
    hide WeightedSum, WeightTotal, Mean, Round, Clamp, Percent, Approvals, Nearest, Share, BudgetShare, ClampReal;
    var tasks := d.tasksDone + d.tasksFailed + d.tasksWorking + d.tasksQueued;
    ShareIsPercent(d.membersActive as real, d.membersTotal as real);
    ShareIsPercent(d.tasksDone as real, tasks as real);
    assert tasks as real == d.tasksDone as real + d.TasksOpen() as real;
    var base, dims := BaseDimensions(d), DepartmentDimensions(d);
    SumOfThree(base[0], base[1], base[2]);
    assert base == [base[0], base[1], base[2]] == base + [];
    if d.HasBudget() {
      BudgetIsShare(d.budgetRemaining.value, d.budgetAmount.value);
      SumOfOneMore(base, BudgetDimension(d));
      assert WeightTotal(dims) == 0.85;
    } else {
      assert WeightTotal(dims) == 0.65;
    }
    MeanIsQuotient(dims, WeightedSum(dims), WeightTotal(dims));
    Hundredfold(WeightedSum(dims), WeightTotal(dims));
    NearestRound(Mean(dims));
  }

  /** A company scores 25 percent workforce, 30 execution, 20 credits, 10 approvals and 15 goals. */
  lemma CompanyScoreExactly(c: Company)
    ensures var w := Share(c.activeAgents as real, c.totalAgents as real);
      var e := Share(c.completedTasks as real, c.totalTasks as real);
      var r := Share(c.creditsRemaining, c.creditsTotal);
      var g := Share(c.activeGoals as real, c.totalGoals as real);
      Nearest(CompanyScore(c), (25.0 * w + 30.0 * e + 20.0 * r + 10.0 * Approvals(c.pendingApprovals) + 15.0 * g) / 100.0)
  {
    hide WeightedSum, WeightTotal, Mean, Round, Clamp, Percent, Approvals, Nearest, Share;
    ShareIsPercent(c.activeAgents as real, c.totalAgents as real);
    ShareIsPercent(c.completedTasks as real, c.totalTasks as real);
    ShareIsPercent(c.creditsRemaining, c.creditsTotal);
    ShareIsPercent(c.activeGoals as real, c.totalGoals as real);
    CompanySum(c);
    MeanIsSum(CompanyDimensions(c), WeightedSum(CompanyDimensions(c)));
    NearestRound(Mean(CompanyDimensions(c)));
  }

  /** The four labels begin at 80, 60 and 40. */
  lemma LabelExactly(score: int)
    ensures ScoreLabel(score) == "Thriving" <==> score >= 80
    ensures ScoreLabel(score) == "Healthy" <==> 60 <= score < 80
    ensures ScoreLabel(score) == "Needs Attention" <==> 40 <= score < 60
    ensures ScoreLabel(score) == "At Risk" <==> score < 40
  {
    assert "Thriving"[0] == 'T' && "Healthy"[0] == 'H' && "Needs Attention"[0] == 'N' && "At Risk"[0] == 'A';
  }

  /** A segment is good from 70 on and critical below 40; nothing of nothing is neutral. */
  lemma StatusExactly(value: real, neutral: bool)
    ensures SegmentStatus(value, neutral) == Good <==> value >= 70.0
    ensures SegmentStatus(value, neutral) == Warning <==> 40.0 <= value < 70.0
    ensures SegmentStatus(value, neutral) == Neutral <==> neutral && value == 0.0
    ensures SegmentStatus(value, neutral) == Critical <==> value < 40.0 && !(neutral && value == 0.0)
  {
  }

  /** The segments of a department: which there are, what they show, and which of them may be neutral. */
  lemma SegmentsExactly(d: Department, k: nat)
    requires k < |Segments(d, DepartmentDimensions(d))|
    ensures |Segments(d, DepartmentDimensions(d))| == if d.HasBudget() then 4 else 3
    ensures var tasks := d.tasksDone + d.tasksFailed + d.tasksWorking + d.tasksQueued;
      var s := Segments(d, DepartmentDimensions(d))[k];
      match k
      case 0 => Shows(s, "Workforce", Share(d.membersActive as real, d.membersTotal as real), d.membersTotal == 0)
      case 1 => Shows(s, "Execution", Share(d.tasksDone as real, tasks as real), tasks == 0)
      case 2 => Shows(s, "Approvals", Approvals(d.gatesPending), false)
      case _ => d.HasBudget() && Shows(s, "Budget", BudgetShare(d.budgetRemaining.value, d.budgetAmount.value), false)
  {
    hide Percent, Approvals, Share, BudgetShare, ClampReal, Round;
    var tasks := d.tasksDone + d.tasksFailed + d.tasksWorking + d.tasksQueued;
    ShareIsPercent(d.membersActive as real, d.membersTotal as real);
    ShareIsPercent(d.tasksDone as real, tasks as real);
    assert tasks as real == d.tasksDone as real + d.TasksOpen() as real;
    if d.HasBudget() {
      BudgetIsShare(d.budgetRemaining.value, d.budgetAmount.value);
    }
    NamesDiffer();
  }

  predicate Shows(s: Segment, name: string, value: real, neutral: bool) {
    s.name == name && s.value == Round(value) && s.status == SegmentStatus(value, neutral)
  }

  lemma NamesDiffer()
    ensures "Workforce" != "Execution" && "Workforce" != "Approvals" && "Workforce" != "Budget"
    ensures "Execution" != "Approvals" && "Execution" != "Budget"
  {
    assert "Workforce"[0] == 'W' && "Execution"[0] == 'E' && "Approvals"[0] == 'A' && "Budget"[0] == 'B';
  }

  /** And those of a company, all of them neutral at 0 while it has no agents. */
  lemma CompanySegmentsExactly(c: Company, k: nat)
    requires k < 5
    ensures |CompanySegments(c)| == 5
    ensures var s, none := CompanySegments(c)[k], c.totalAgents == 0;
      match k
      case 0 => Shows(s, "Workforce", Share(c.activeAgents as real, c.totalAgents as real), none)
      case 1 => Shows(s, "Execution", Share(c.completedTasks as real, c.totalTasks as real), none)
      case 2 => Shows(s, "Credits", Share(c.creditsRemaining, c.creditsTotal), none)
      case 3 => Shows(s, "Approvals", Approvals(c.pendingApprovals), none)
      case _ => Shows(s, "Goals", Share(c.activeGoals as real, c.totalGoals as real), none)
  {
    hide Percent, Approvals, Share, Round;
    ShareIsPercent(c.activeAgents as real, c.totalAgents as real);
    ShareIsPercent(c.completedTasks as real, c.totalTasks as real);
    ShareIsPercent(c.creditsRemaining, c.creditsTotal);
    ShareIsPercent(c.activeGoals as real, c.totalGoals as real);
  }
}
