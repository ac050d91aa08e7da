/**
 The multi-pass loop of `applyMigrations` in scripts/lib/embedded-db.ts.  Whether
 a file applies depends on the files applied before it: `applies(done, f)`.  What its attempts do
 to policies and triggers is the business of MigrationTrace.
 */
module Migrations {
  import opened Common
  import opened MigrationTrace
  import opened Sequences

  const MAX_PASSES := 10

  type Rule = (set<File>, File) -> bool

  /** Having applied more never makes a file fail. */
  ghost predicate Monotone(applies: Rule) {
    forall a: set<File>, b: set<File>, f: File :: a <= b && applies(a, f) ==> applies(b, f)
  }

  ghost predicate Distinct(files: seq<File>) {
    forall i, j :: 0 <= i < j < |files| ==> files[i] != files[j]
  }

  // ----------------------------------------------------------------- one pass

  /** What is applied after trying the files in order. */
  function Pass(applies: Rule, done: set<File>, files: seq<File>): set<File>
    decreases files
  {
    if files == [] then done
    else Pass(applies, if applies(done, files[0]) then done + {files[0]} else done, files[1..])
  }

  /** The files that are still pending, in order. */
  function Pending(done: set<File>, files: seq<File>): seq<File> {
    if files == [] then [] else (if files[0] in done then [] else [files[0]]) + Pending(done, files[1..])
  }

  /** The first n passes.  Trying a file again that is applied already would change nothing. */
  function Passes(applies: Rule, files: seq<File>, n: nat): set<File> {
    if n == 0 then {} else Pass(applies, Passes(applies, files, n - 1), files)
  }

  lemma {:induction false} PassSkipsApplied(applies: Rule, before: set<File>, done: set<File>, files: seq<File>)
    requires before <= done
    ensures Pass(applies, done, Pending(before, files)) == Pass(applies, done, files)
    decreases files
  {
    if files != [] {
      var f, rest := files[0], Pending(before, files[1..]);
      var done' := if applies(done, f) then done + {f} else done;
      PassSkipsApplied(applies, before, done', files[1..]);
      if f in before {
        assert done' == done && Pending(before, files) == rest;
      } else {
        assert Pending(before, files) == [f] + rest && ([f] + rest)[1..] == rest;
      }
    }
  }

  lemma {:induction false} PassesInFiles(applies: Rule, files: seq<File>, n: nat)
    ensures forall f :: f in Passes(applies, files, n) ==> f in files
  {
    if n > 0 {
      PassesInFiles(applies, files, n - 1);
      PassGrows(applies, Passes(applies, files, n - 1), files);
    }
  }

  lemma {:induction false} PassesGrow(applies: Rule, files: seq<File>, m: nat, n: nat)
    requires m <= n
    ensures Passes(applies, files, m) <= Passes(applies, files, n)
    decreases n
  {
    if m < n {
      PassesGrow(applies, files, m, n - 1);
      PassGrows(applies, Passes(applies, files, n - 1), files);
    }
  }

  lemma {:induction false} StuckPass(applies: Rule, done: set<File>, files: seq<File>)
    requires forall f :: f in files && f !in done ==> !applies(done, f)
    ensures Pass(applies, done, files) == done
    decreases files
  {
    if files != [] {
      assert files[0] in files;
      assert (if applies(done, files[0]) then done + {files[0]} else done) == done;
      StuckPass(applies, done, files[1..]);
    }
  }

  /** Once a pass makes no progress, neither does any later one. */
  lemma {:induction false} StuckForGood(applies: Rule, files: seq<File>, m: nat, n: nat)
    requires m <= n && Stuck(applies, Passes(applies, files, m), files)
    ensures Passes(applies, files, n) == Passes(applies, files, m)
    decreases n
  {
    if m < n {
      StuckForGood(applies, files, m, n - 1);
      StuckPass(applies, Passes(applies, files, m), files);
    }
  }

  lemma {:induction false} PassGrows(applies: Rule, done: set<File>, files: seq<File>)
    ensures done <= Pass(applies, done, files)
    ensures forall f :: f in Pass(applies, done, files) ==> f in done || f in files
    decreases files
  {
    if files != [] {
      PassGrows(applies, if applies(done, files[0]) then done + {files[0]} else done, files[1..]);
    }
  }

  lemma {:induction false} PendingMembers(done: set<File>, files: seq<File>)
    ensures forall f :: f in Pending(done, files) <==> f in files && f !in done
  {
    if files != [] {
      PendingMembers(done, files[1..]);
    }
  }

  // ------------------------------------------------- what can be applied at all

  /** No pending file of the list applies. */
  ghost predicate Stuck(applies: Rule, done: set<File>, files: seq<File>) {
    forall f :: f in files && f !in done ==> !applies(done, f)
  }

  /** An order in which files were applied, each one applying to those before it. */
  ghost predicate Applicable(applies: Rule, order: seq<File>) {
    forall i :: 0 <= i < |order| ==> applies(ToSet(order[..i]), order[i])
  }

  function ToSet(s: seq<File>): set<File> {
    set f | f in s
  }

  /** The files that can be applied in some order. */
  ghost predicate Reachable(applies: Rule, files: seq<File>, f: File) {
    exists order: seq<File> :: f in order && (forall g :: g in order ==> g in files) && Applicable(applies, order)
  }

  /** The least fixpoint: a set that is stuck and holds nothing but files that can be applied. */
  ghost predicate IsLeastFixpoint(applies: Rule, files: seq<File>, done: set<File>) {
    forall f :: f in done <==> Reachable(applies, files, f)
  }

  /** Whatever can be applied in some order has been applied once nothing more applies. */
  lemma {:induction false} StuckHoldsEverything(applies: Rule, done: set<File>, files: seq<File>, order: seq<File>)
    requires Monotone(applies) && Stuck(applies, done, files)
    requires (forall g :: g in order ==> g in files) && Applicable(applies, order)
    ensures ToSet(order) <= done
    decreases |order|
  {
    if order != [] {
      var init, last := order[..|order| - 1], order[|order| - 1];
      assert forall i :: 0 <= i < |init| ==> init[..i] == order[..i];
      StuckHoldsEverything(applies, done, files, init);
      assert applies(ToSet(init), last);
      assert last in order && last in files;
      assert applies(done, last) && last in done;
      assert forall f :: f in order ==> f in init || f == last;
    }
  }

  /** The files applied so far, in the order in which they were. */
  ghost predicate Traced(applies: Rule, files: seq<File>, done: set<File>, order: seq<File>) {
    ToSet(order) == done && (forall g :: g in order ==> g in files) && Applicable(applies, order)
  }

  lemma TraceOne(applies: Rule, files: seq<File>, done: set<File>, order: seq<File>, f: File)
    requires Traced(applies, files, done, order) && f in files && applies(done, f)
    ensures Traced(applies, files, done + {f}, order + [f])
  {
    var longer := order + [f];
    forall i | 0 <= i < |longer|
      ensures applies(ToSet(longer[..i]), longer[i])
    {
      if i < |order| {
        assert longer[..i] == order[..i];
      } else {
        assert longer[..i] == order;
      }
    }
  }

  /** Stopping for lack of progress leaves the least fixpoint. */
  lemma StuckIsLeast(applies: Rule, files: seq<File>, done: set<File>, order: seq<File>)
    requires Monotone(applies) && Stuck(applies, done, files) && Traced(applies, files, done, order)
    ensures IsLeastFixpoint(applies, files, done)
  {
    forall f
      ensures f in done <==> Reachable(applies, files, f)
    {
      if f in done {
        assert f in order;
      }
      if Reachable(applies, files, f) {
        var other: seq<File> :| f in other && (forall g :: g in other ==> g in files) && Applicable(applies, other);
        StuckHoldsEverything(applies, done, files, other);
        assert f in ToSet(other);
      }
    }
  }

  /** The fixpoint does not depend on the order of the files. */
  lemma OrderDoesNotMatter(applies: Rule, files: seq<File>, files': seq<File>, done: set<File>, done': set<File>)
    requires IsLeastFixpoint(applies, files, done) && IsLeastFixpoint(applies, files', done')
    requires ToSet(files) == ToSet(files')
    ensures done == done'
  {
    assert forall f :: f in files <==> f in files' by {
      assert forall f :: f in files <==> f in ToSet(files);
      assert forall f :: f in files' <==> f in ToSet(files');
    }
    forall f
      ensures f in done <==> f in done'
    {
      if Reachable(applies, files, f) {
        var o: seq<File> :| f in o && (forall g :: g in o ==> g in files) && Applicable(applies, o);
        assert Reachable(applies, files', f);
      }
      if Reachable(applies, files', f) {
        var o: seq<File> :| f in o && (forall g :: g in o ==> g in files') && Applicable(applies, o);
        assert Reachable(applies, files, f);
      }
    }
  }

  // ---------------------------------------------------------------- the attempts

  /** The attempts of one pass over the given files. */
  function PassTrace(applies: Rule, done: set<File>, files: seq<File>): seq<Attempt>
    decreases files
  {
    if files == [] then []
    else
      var f := files[0];
      [Attempt(f, done, applies(done, f))] + PassTrace(applies, if applies(done, f) then done + {f} else done, files[1..])
  }

  /** The attempts of the first n passes; each tries the files that are still pending. */
  function Trace(applies: Rule, files: seq<File>, n: nat): seq<Attempt> {
    if n == 0 then []
    else
      var done := Passes(applies, files, n - 1);
      Trace(applies, files, n - 1) + PassTrace(applies, done, Pending(done, files))
  }

  /** Every attempt is on one of the files, on top of those applied before, with the outcome the rule gives it. */
  ghost predicate Recorded(applies: Rule, files: seq<File>, trace: seq<Attempt>)
    decreases |trace|
  {
    trace != [] ==>
      var init, a := trace[..|trace| - 1], trace[|trace| - 1];
      Recorded(applies, files, init) && a.file in files && a.at == DoneAfter(init) && a.ok == applies(a.at, a.file)
  }

  /** No file is tried again once it is applied. */
  ghost predicate NoRepeats(trace: seq<Attempt>) {
    forall k :: 0 <= k < |trace| ==> trace[k].file !in trace[k].at
  }

  lemma OneMoreAttempt(applies: Rule, files: seq<File>, trace: seq<Attempt>, a: Attempt)
    requires Recorded(applies, files, trace) && a.file in files && a.at == DoneAfter(trace) && a.ok == applies(a.at, a.file)
    ensures Recorded(applies, files, trace + [a])
    ensures DoneAfter(trace + [a]) == DoneAfter(trace) + if a.ok then {a.file} else {}
    ensures Applied(trace + [a]) == Applied(trace) + if a.ok then [a.file] else []
  {
    var all := trace + [a];
    assert all[..|all| - 1] == trace;
  }

  lemma {:induction false} PassRecorded(applies: Rule, files: seq<File>, trace: seq<Attempt>, pending: seq<File>)
    requires Recorded(applies, files, trace) && forall f :: f in pending ==> f in files
    ensures Recorded(applies, files, trace + PassTrace(applies, DoneAfter(trace), pending))
    ensures DoneAfter(trace + PassTrace(applies, DoneAfter(trace), pending)) == Pass(applies, DoneAfter(trace), pending)
    decreases pending
  {
    hide Recorded, DoneAfter;
    var done := DoneAfter(trace);
    if pending == [] {
      assert trace + [] == trace;
    } else {
      var f := pending[0];
      var a := Attempt(f, done, applies(done, f));
      OneMoreAttempt(applies, files, trace, a);
      PassRecorded(applies, files, trace + [a], pending[1..]);
      assert DoneAfter(trace + [a]) == if a.ok then done + {f} else done;
      Assoc(trace, [a], PassTrace(applies, DoneAfter(trace + [a]), pending[1..]));
    }
  }

  /** The attempts of the passes lead to what the passes apply. */
  lemma {:induction false} TraceRecorded(applies: Rule, files: seq<File>, n: nat)
    ensures Recorded(applies, files, Trace(applies, files, n))
    ensures DoneAfter(Trace(applies, files, n)) == Passes(applies, files, n)
    decreases n
  {
    hide Recorded, DoneAfter, Pass, PassTrace, Pending;
    if n == 0 {
      NothingTried(applies, files);
    } else {
      var done := Passes(applies, files, n - 1);
      TraceRecorded(applies, files, n - 1);
      PendingMembers(done, files);
      PassRecorded(applies, files, Trace(applies, files, n - 1), Pending(done, files));
      PassSkipsApplied(applies, done, done, files);
    }
  }

  lemma NothingTried(applies: Rule, files: seq<File>)
    ensures Recorded(applies, files, []) && DoneAfter([]) == {} && Applied([]) == []
  {
  }

  lemma {:induction false} PassNoRepeats(applies: Rule, done: set<File>, pending: seq<File>)
    requires Distinct(pending) && forall f :: f in pending ==> f !in done
    ensures NoRepeats(PassTrace(applies, done, pending))
    decreases pending
  {
    if pending != [] {
      var f, rest := pending[0], pending[1..];
      assert forall g :: g in rest ==> g in pending && g != f;
      PassNoRepeats(applies, if applies(done, f) then done + {f} else done, rest);
    }
  }

  lemma {:induction false} TraceNoRepeats(applies: Rule, files: seq<File>, n: nat)
    requires Distinct(files)
    ensures NoRepeats(Trace(applies, files, n))
    decreases n
  {
    hide PassTrace, Pending, Distinct, Passes;
    if n > 0 {
      var done := Passes(applies, files, n - 1);
      TraceNoRepeats(applies, files, n - 1);
      PendingMembers(done, files);
      PendingDistinct(done, files);
      PassNoRepeats(applies, done, Pending(done, files));
    }
  }

  lemma {:induction false} DoneMeansOk(trace: seq<Attempt>)
    ensures forall f :: f in DoneAfter(trace) <==> exists k :: 0 <= k < |trace| && trace[k].ok && trace[k].file == f
    decreases |trace|
  {
    if trace != [] {
      var init, n := trace[..|trace| - 1], |trace| - 1;
      DoneMeansOk(init);
      forall f
        ensures f in DoneAfter(trace) <==> exists k :: 0 <= k < |trace| && trace[k].ok && trace[k].file == f
      {
        if f in DoneAfter(init) {
          var k :| 0 <= k < |init| && init[k].ok && init[k].file == f;
          assert trace[k].ok && trace[k].file == f;
        }
        if k :| 0 <= k < |trace| && trace[k].ok && trace[k].file == f {
          assert k < n ==> init[k].ok && init[k].file == f;
        }
      }
    }
  }

  lemma {:induction false} AtMeansDone(applies: Rule, files: seq<File>, trace: seq<Attempt>, k: nat)
    requires Recorded(applies, files, trace) && k < |trace|
    ensures trace[k].at == DoneAfter(trace[..k])
    decreases |trace|
  {
    hide DoneAfter;
    var init := trace[..|trace| - 1];
    if k < |init| {
      AtMeansDone(applies, files, init, k);
      assert init[..k] == trace[..k];
    }
  }

  /** When every file is applied in the end, every failed attempt is followed by a successful one. */
  lemma CompleteWhenApplied(applies: Rule, files: seq<File>, trace: seq<Attempt>)
    requires Recorded(applies, files, trace) && NoRepeats(trace)
    requires forall j :: 0 <= j < |trace| ==> trace[j].file in DoneAfter(trace)
    ensures Complete(trace)
  {
    hide Recorded, DoneAfter;
    DoneMeansOk(trace);
    forall j: nat | j < |trace| && !trace[j].ok
      ensures SucceedsLater(trace, j)
    {
      var k :| 0 <= k < |trace| && trace[k].ok && trace[k].file == trace[j].file;
      if k < j {
        DoneMeansOk(trace[..j]);
        AtMeansDone(applies, files, trace, j);
        assert trace[..j][k].ok && trace[..j][k].file == trace[j].file;
      }
    }
  }

  lemma {:induction false} RecordedInFiles(applies: Rule, files: seq<File>, trace: seq<Attempt>, j: nat)
    requires Recorded(applies, files, trace) && j < |trace|
    ensures trace[j].file in files
    decreases |trace|
  {
    hide DoneAfter;
    if j < |trace| - 1 {
      RecordedInFiles(applies, files, trace[..|trace| - 1], j);
    }
  }

  /**
   What a run that throws nothing has done to policies and triggers: none that a file made is
   missing exactly if whatever a file makes, and a file applied later names or drops, is made again
   by that file or one after it.
   */
  lemma NothingThrownNothingLost(applies: Rule, files: seq<File>, n: nat, s: Scripts, initial: set<Object>)
    requires Distinct(files) && ToSet(files) <= Passes(applies, files, n)
    ensures var trace := Trace(applies, files, n);
      NothingLost(s, initial, trace) <==> RemadeByFiles(s, trace)
  {
    hide Trace, Recorded, DoneAfter, Passes, NothingLost, RemadeByFiles, Complete, NoRepeats;
    var trace := Trace(applies, files, n);
    TraceRecorded(applies, files, n);
    TraceNoRepeats(applies, files, n);
    forall j | 0 <= j < |trace|
      ensures trace[j].file in DoneAfter(trace)
    {
      RecordedInFiles(applies, files, trace, j);
      assert trace[j].file in ToSet(files);
    }
    CompleteWhenApplied(applies, files, trace);
    NothingLostByFiles(s, initial, trace);
  }

  /** The files applied, in order, each applied on top of those before it. */
  lemma {:induction false} AppliedTraced(applies: Rule, files: seq<File>, trace: seq<Attempt>)
    requires Recorded(applies, files, trace)
    ensures Traced(applies, files, DoneAfter(trace), Applied(trace))
    decreases |trace|
  {
    hide Traced;
    if trace == [] {
      TracedNothing(applies, files);
    } else {
      var init, a := trace[..|trace| - 1], trace[|trace| - 1];
      AppliedTraced(applies, files, init);
      if a.ok {
        TraceOne(applies, files, DoneAfter(init), Applied(init), a.file);
      } else {
        assert Applied(init) + [] == Applied(init) && DoneAfter(init) + {} == DoneAfter(init);
      }
    }
  }

  lemma TracedNothing(applies: Rule, files: seq<File>)
    ensures Traced(applies, files, {}, [])
  {
    assert ToSet([]) == {};
  }

  // ------------------------------------------------------------------- the loop

  type Errors = (set<File>, File) -> string

  /** The line of a thrown error that belongs to one file. */
  datatype Failure = Failure(file: File, error: string)

  /** The map holds, for each file that failed, the message of its last failed attempt. */
  ghost predicate LastMessages(errors: Errors, trace: seq<Attempt>, lastErrors: map<File, string>) {
    forall f :: (f in lastErrors <==> LastFailure(trace, f).Some?)
      && (f in lastErrors ==> lastErrors[f] == errors(LastFailure(trace, f).value.at, f))
  }

  /** Whether the loop goes on after m passes: files are pending, the last pass made progress, and it was not the tenth. */
  ghost predicate GoesOn(applies: Rule, files: seq<File>, m: nat) {
    Pending(Passes(applies, files, m), files) != [] && m < 10
    && (m == 0 || Passes(applies, files, m) != Passes(applies, files, m - 1))
  }

  /**
   The loop; `errors` gives the message of a failing file and `initial` the policies and triggers
   before it.  `failed` is the list that is thrown, empty when nothing is thrown.
   */
  method ApplyMigrations(applies: Rule, errors: Errors, scripts: Scripts, initial: set<Object>, files: seq<File>)
    returns (done: set<File>, live: set<Object>, failed: seq<Failure>, ghost passes: nat)
    // as many passes as make progress while files are pending, ten at most
    ensures !GoesOn(applies, files, passes) && forall m: nat :: m < passes ==> GoesOn(applies, files, m)
    ensures passes <= 10 && done == Passes(applies, files, passes) == Passes(applies, files, 10)
    ensures Stuck(applies, done, files) || passes == 10
    ensures Traced(applies, files, done, Applied(Trace(applies, files, passes)))
    // the policies and triggers are those that all attempts, failed ones too, leave behind
    ensures live == LiveAfter(scripts, initial, Trace(applies, files, passes))
    // the list names exactly the files that are not applied, in order, each with the message of its last attempt
    ensures |failed| == |Pending(done, files)|
    ensures forall i :: 0 <= i < |failed| ==>
      failed[i].file == Pending(done, files)[i] && IsLastMessage(errors, Trace(applies, files, passes), failed[i])
  {
    hide Passes, Pass, Pending, Stuck, Trace, Traced, PassTrace, LiveAfter, LastMessages, DoneAfter, Recorded, Applied;
    var pending := files;
    var lastErrors: map<File, string> := map[];
    var pass := 0;
    ghost var trace: seq<Attempt> := [];
    done, live, passes := {}, initial, 0;
    BeforeAll(applies, errors, scripts, initial, files);
    var progressed := true;
    while |pending| > 0 && pass < MAX_PASSES && progressed
      invariant pass == passes <= MAX_PASSES && done == Passes(applies, files, passes)
      invariant forall m: nat :: m < passes ==> GoesOn(applies, files, m)
      invariant trace == Trace(applies, files, passes)
      invariant live == LiveAfter(scripts, initial, trace) && LastMessages(errors, trace, lastErrors)
      invariant pending == Pending(done, files)
      invariant !progressed ==> Stuck(applies, done, files)
      invariant !progressed <==> passes > 0 && done == Passes(applies, files, passes - 1)
      invariant passes > 0 ==> forall f :: f in pending ==> f in lastErrors
      decreases MAX_PASSES - pass
    {
      pass := pass + 1;
      ghost var before, tried := done, pending;
      progressed, done, live, lastErrors, trace :=
        OnePass(applies, errors, scripts, initial, files, done, live, pending, lastErrors, trace);
      PassSkipsApplied(applies, before, before, files);
      PassesStep(applies, files, passes);
      TraceStep(applies, files, passes);
      passes := passes + 1;
      pending := RemoveApplied(done, pending);
      PendingOfPending(before, done, files);
      PendingMembers(done, tried);
    }
    failed := ListFailures(pending, lastErrors);
    TraceRecorded(applies, files, passes);
    AppliedTraced(applies, files, trace);
    if |pending| == 0 {
      AllApplied(applies, done, files);
    }
    if Stuck(applies, done, files) {
      StuckForGood(applies, files, passes, MAX_PASSES);
    }
    forall i | 0 <= i < |failed|
      ensures failed[i].file == Pending(done, files)[i] && IsLastMessage(errors, trace, failed[i])
    {
      assert pending[i] in pending;
      MessageIsLast(errors, trace, lastErrors, pending[i]);
    }
  }

  /** The message is that of the last failed attempt on the file. */
  ghost predicate IsLastMessage(errors: Errors, trace: seq<Attempt>, x: Failure) {
    LastFailure(trace, x.file).Some? && x.error == errors(LastFailure(trace, x.file).value.at, x.file)
  }

  lemma MessageIsLast(errors: Errors, trace: seq<Attempt>, lastErrors: map<File, string>, f: File)
    requires LastMessages(errors, trace, lastErrors) && f in lastErrors
    ensures IsLastMessage(errors, trace, Failure(f, lastErrors[f]))
  {
  }

  lemma BeforeAll(applies: Rule, errors: Errors, scripts: Scripts, initial: set<Object>, files: seq<File>)
    ensures Pending({}, files) == files && Passes(applies, files, 0) == {} && Trace(applies, files, 0) == []
    ensures LiveAfter(scripts, initial, []) == initial && LastMessages(errors, [], map[])
  {
    NothingPending(files);
  }

  lemma AllApplied(applies: Rule, done: set<File>, files: seq<File>)
    requires Pending(done, files) == []
    ensures Stuck(applies, done, files) && ToSet(files) <= done
  {
    PendingMembers(done, files);
    forall f | f in files
      ensures f in done
    {
      assert f !in Pending(done, files);
    }
  }

  lemma PassesStep(applies: Rule, files: seq<File>, n: nat)
    ensures Passes(applies, files, n + 1) == Pass(applies, Passes(applies, files, n), files)
  {
  }

  lemma TraceStep(applies: Rule, files: seq<File>, n: nat)
    ensures var done := Passes(applies, files, n);
      Trace(applies, files, n + 1) == Trace(applies, files, n) + PassTrace(applies, done, Pending(done, files))
  {
  }

  lemma {:induction false} NothingPending(files: seq<File>)
    ensures Pending({}, files) == files
  {
    if files != [] {
      NothingPending(files[1..]);
    }
  }

  lemma {:induction false} PendingOfPending(before: set<File>, done: set<File>, files: seq<File>)
    requires before <= done
    ensures Pending(done, Pending(before, files)) == Pending(done, files)
  {
    if files != [] {
      PendingOfPending(before, done, files[1..]);
      var rest := Pending(before, files[1..]);
      if files[0] in before {
        assert Pending(before, files) == rest;
      } else {
        assert Pending(before, files) == [files[0]] + rest && ([files[0]] + rest)[1..] == rest;
      }
    }
  }

  /** One attempt: the drops, then the file itself. */
  method TryFile(applies: Rule, errors: Errors, scripts: Scripts, done0: set<File>, live0: set<Object>,
                 lastErrors0: map<File, string>, file: File)
    returns (ok: bool, done: set<File>, live: set<Object>, lastErrors: map<File, string>)
    ensures ok == applies(done0, file)
    ensures done == (if ok then done0 + {file} else done0)
    ensures live == AfterAttempt(scripts, live0, Attempt(file, done0, ok))
    ensures lastErrors == if ok then lastErrors0 else lastErrors0[file := errors(done0, file)]
  {
    done, lastErrors := done0, lastErrors0;
    live := ScopedDrops(live0, scripts.names(file));
    ok := applies(done0, file);
    if ok {
      var effect := scripts.effect(done0, file);
      live := live - effect.drops + effect.creates;
      done := done + {file};
    } else {
      lastErrors := lastErrors[file := errors(done0, file)];
    }
  }

  lemma PassStep(applies: Rule, done: set<File>, files: seq<File>)
    requires files != []
    ensures Pass(applies, done, files) == Pass(applies, if applies(done, files[0]) then done + {files[0]} else done, files[1..])
  {
  }

  lemma PassNothing(applies: Rule, done: set<File>)
    ensures Pass(applies, done, []) == done
  {
  }

  lemma PassTraceStep(applies: Rule, done: set<File>, files: seq<File>)
    requires files != []
    ensures PassTrace(applies, done, files) == [Attempt(files[0], done, applies(done, files[0]))]
      + PassTrace(applies, if applies(done, files[0]) then done + {files[0]} else done, files[1..])
  {
  }

  lemma PassTraceNothing(applies: Rule, done: set<File>)
    ensures PassTrace(applies, done, []) == []
  {
  }

  lemma LiveStep(s: Scripts, initial: set<Object>, trace: seq<Attempt>, a: Attempt)
    ensures LiveAfter(s, initial, trace + [a]) == AfterAttempt(s, LiveAfter(s, initial, trace), a)
  {
    hide AfterAttempt;
    assert (trace + [a])[..|trace|] == trace;
  }

  lemma MessagesStep(errors: Errors, trace: seq<Attempt>, lastErrors: map<File, string>, a: Attempt)
    requires LastMessages(errors, trace, lastErrors)
    ensures LastMessages(errors, trace + [a], if a.ok then lastErrors else lastErrors[a.file := errors(a.at, a.file)])
  {
    assert (trace + [a])[..|trace|] == trace;
  }

  /** The body of the pass loop over the files pending at its start. */
  method OnePass(applies: Rule, errors: Errors, scripts: Scripts, ghost initial: set<Object>, ghost files: seq<File>,
                 done0: set<File>, live0: set<Object>, pending: seq<File>, lastErrors0: map<File, string>,
                 ghost trace0: seq<Attempt>)
    returns (progressed: bool, done: set<File>, live: set<Object>, lastErrors: map<File, string>, ghost trace: seq<Attempt>)
    requires pending == Pending(done0, files)
    requires live0 == LiveAfter(scripts, initial, trace0) && LastMessages(errors, trace0, lastErrors0)
    ensures done == Pass(applies, done0, pending) && done0 <= done
    ensures trace == trace0 + PassTrace(applies, done0, pending)
    ensures live == LiveAfter(scripts, initial, trace) && LastMessages(errors, trace, lastErrors)
    ensures progressed <==> done != done0
    ensures !progressed ==> Stuck(applies, done, files)
    ensures forall f :: f in pending && f !in done ==> f in lastErrors
  {
    hide LiveAfter, AfterAttempt, LastMessages, Pass, PassTrace, Pending;
    progressed, done, live, lastErrors, trace := false, done0, live0, lastErrors0, trace0;
    PendingMembers(done0, files);
    assert pending[0..] == pending;
    for i := 0 to |pending|
      invariant Pass(applies, done, pending[i..]) == Pass(applies, done0, pending)
      invariant trace + PassTrace(applies, done, pending[i..]) == trace0 + PassTrace(applies, done0, pending)
      invariant done0 <= done && (progressed <==> done != done0)
      invariant live == LiveAfter(scripts, initial, trace) && LastMessages(errors, trace, lastErrors)
      invariant !progressed ==> forall k :: 0 <= k < i ==> !applies(done0, pending[k])
      invariant forall k :: 0 <= k < i && pending[k] !in done ==> pending[k] in lastErrors
    {
      var file := pending[i];
      assert file in pending;
      Rest(pending, i);
      ghost var a := Attempt(file, done, applies(done, file));
      PassStep(applies, done, pending[i..]);
      PassTraceStep(applies, done, pending[i..]);
      LiveStep(scripts, initial, trace, a);
      MessagesStep(errors, trace, lastErrors, a);
      var ok: bool;
      ok, done, live, lastErrors := TryFile(applies, errors, scripts, done, live, lastErrors, file);
      Assoc(trace, [a], PassTrace(applies, done, pending[i + 1..]));
      trace := trace + [a];
      progressed := progressed || ok;
    }
    assert pending[|pending|..] == [];
    PassNothing(applies, done);
    PassTraceNothing(applies, done);
    assert trace + [] == trace;
    if !progressed {
      assert forall f :: f in pending ==> !applies(done0, f);
    }
  }

  lemma {:induction false} PendingDistinct(done: set<File>, files: seq<File>)
    requires Distinct(files)
    ensures Distinct(Pending(done, files))
  {
    if files != [] {
      PendingDistinct(done, files[1..]);
      PendingMembers(done, files[1..]);
      var rest := Pending(done, files[1..]);
      if files[0] in done {
        assert Pending(done, files) == rest;
      } else {
        assert files[0] !in files[1..];
        assert Pending(done, files) == [files[0]] + rest;
      }
    }
  }

  lemma NothingLeft(done: set<File>)
    ensures Pending(done, []) == []
  {
  }

  method RemoveApplied(done: set<File>, files: seq<File>) returns (pending: seq<File>)
    ensures pending == Pending(done, files)
  {
    hide Pending;
    pending := [];
    NothingLeft(done);
    assert files[0..] == files && [] + Pending(done, files) == Pending(done, files);
    for i := 0 to |files|
      invariant pending + Pending(done, files[i..]) == Pending(done, files)
    {
      Rest(files, i);
      Assoc(pending, [files[i]], Pending(done, files[i + 1..]));
      PendingStep(done, files[i..]);
      if files[i] !in done {
        pending := pending + [files[i]];
      }
    }
    assert files[|files|..] == [] && pending + [] == pending;
  }

  lemma PendingStep(done: set<File>, files: seq<File>)
    requires files != []
    ensures Pending(done, files) == (if files[0] in done then Pending(done, files[1..]) else [files[0]] + Pending(done, files[1..]))
  {
    assert [] + Pending(done, files[1..]) == Pending(done, files[1..]);
  }

  method ListFailures(pending: seq<File>, lastErrors: map<File, string>) returns (failed: seq<Failure>)
    ensures |failed| == |pending|
    ensures forall i :: 0 <= i < |failed| ==>
      failed[i] == Failure(pending[i], if pending[i] in lastErrors then lastErrors[pending[i]] else "?")
  {
    failed := [];
    for i := 0 to |pending|
      invariant |failed| == i
      invariant forall k :: 0 <= k < i ==>
        failed[k] == Failure(pending[k], if pending[k] in lastErrors then lastErrors[pending[k]] else "?")
    {
      failed := failed + [Failure(pending[i], if pending[i] in lastErrors then lastErrors[pending[i]] else "?")];
    }
  }

  // ------------------------------------------------------- how many passes it takes

  type Deps = File -> set<File>

  function RuleOf(deps: Deps): Rule {
    (done: set<File>, f: File) => deps(f) <= done
  }

  lemma RuleOfMonotone(deps: Deps)
    ensures Monotone(RuleOf(deps))
  {
  }

  function IndexOf(files: seq<File>, f: File): (k: nat)
    requires f in files
    ensures k < |files| && files[k] == f && f !in files[..k]
  {
    if files[0] == f then 0 else
      var k := 1 + IndexOf(files[1..], f);
      assert files[..k] == [files[0]] + files[1..][..k - 1];
      k
  }

  /** A chain of files in which each depends on the one before it. */
  ghost predicate IsChain(deps: Deps, files: seq<File>, chain: seq<File>) {
    chain != [] && (forall i :: 0 <= i < |chain| ==> chain[i] in files)
    && forall i :: 0 <= i < |chain| - 1 ==> chain[i] in deps(chain[i + 1])
  }

  /** The links of a chain where the dependency does not come earlier in the order. */
  ghost function BackwardLinks(files: seq<File>, chain: seq<File>): nat
    requires forall i :: 0 <= i < |chain| ==> chain[i] in files
  {
    if |chain| < 2 then 0 else
      BackwardLinks(files, chain[..|chain| - 1])
      + if IndexOf(files, chain[|chain| - 2]) < IndexOf(files, chain[|chain| - 1]) then 0 else 1
  }

  lemma {:induction false} PassConcat(applies: Rule, done: set<File>, a: seq<File>, b: seq<File>)
    ensures Pass(applies, done, a + b) == Pass(applies, Pass(applies, done, a), b)
    decreases a
  {
    if a == [] {
      assert a + b == b;
    } else {
      assert (a + b)[0] == a[0] && (a + b)[1..] == a[1..] + b;
      PassConcat(applies, if applies(done, a[0]) then done + {a[0]} else done, a[1..], b);
    }
  }

  /** What is applied when a pass comes to file k. */
  function Turn(applies: Rule, done: set<File>, files: seq<File>, k: nat): set<File>
    requires k < |files|
  {
    Pass(applies, done, files[..k])
  }

  /** A file is applied by a pass exactly when it was before or applies at its turn. */
  lemma AppliedAtTurn(applies: Rule, done: set<File>, files: seq<File>, k: nat)
    requires Distinct(files) && k < |files|
    ensures files[k] in Pass(applies, done, files) <==> files[k] in done || applies(Turn(applies, done, files, k), files[k])
    ensures done <= Turn(applies, done, files, k) <= Pass(applies, done, files)
    ensures forall j :: 0 <= j < |files| && files[j] in Turn(applies, done, files, k) ==> files[j] in done || j < k
    ensures forall j :: 0 <= j < k && files[j] in Pass(applies, done, files) ==> files[j] in Turn(applies, done, files, k)
  {
    var at := Turn(applies, done, files, k);
    assert files == files[..k] + files[k..] && files[k..][0] == files[k] && files[k..][1..] == files[k + 1..];
    PassConcat(applies, done, files[..k], files[k..]);
    PassGrows(applies, done, files[..k]);
    PassGrows(applies, at, files[k..]);
    PassGrows(applies, if applies(at, files[k]) then at + {files[k]} else at, files[k + 1..]);
  }

  /** The dependencies of an applied file are applied. */
  lemma {:induction false} DepsApplied(deps: Deps, files: seq<File>, n: nat, f: File)
    requires Distinct(files) && f in Passes(RuleOf(deps), files, n)
    ensures deps(f) <= Passes(RuleOf(deps), files, n)
  {
    if n > 0 {
      var done := Passes(RuleOf(deps), files, n - 1);
      PassesInFiles(RuleOf(deps), files, n);
      AppliedAtTurn(RuleOf(deps), done, files, IndexOf(files, f));
      if f in done {
        DepsApplied(deps, files, n - 1, f);
      }
    }
  }

  /** A chain with b backward links delays its last file beyond pass b. */
  lemma {:induction false} ChainDelays(deps: Deps, files: seq<File>, chain: seq<File>)
    requires Distinct(files) && IsChain(deps, files, chain)
    ensures chain[|chain| - 1] !in Passes(RuleOf(deps), files, BackwardLinks(files, chain))
    decreases |chain|
  {
    if |chain| > 1 {
      var init := chain[..|chain| - 1];
      var dep, f := chain[|chain| - 2], chain[|chain| - 1];
      assert dep in deps(f);
      ChainDelays(deps, files, init);
      var b, n := BackwardLinks(files, chain), BackwardLinks(files, init);
      if f in Passes(RuleOf(deps), files, b) {
        DepsApplied(deps, files, b, f);
        if f in Passes(RuleOf(deps), files, n) {
          DepsApplied(deps, files, n, f);
        }
        AppliedAtTurn(RuleOf(deps), Passes(RuleOf(deps), files, n), files, IndexOf(files, f));
      }
    }
  }

  /** A file still pending after pass n is the end of a chain with at least n backward links. */
  lemma {:induction false} PendingHasChain(deps: Deps, files: seq<File>, n: nat, k: nat) returns (chain: seq<File>)
    requires Distinct(files) && k < |files| && files[k] !in Passes(RuleOf(deps), files, n)
    requires forall f :: f in files ==> forall d :: d in deps(f) ==> d in files
    ensures IsChain(deps, files, chain) && chain[|chain| - 1] == files[k] && BackwardLinks(files, chain) >= n
    decreases n, k
  {
    hide Passes, Pass;
    var f := files[k];
    chain := [f];
    if n > 0 {
      var done := Passes(RuleOf(deps), files, n - 1);
      PassesStep(RuleOf(deps), files, n - 1);
      AppliedAtTurn(RuleOf(deps), done, files, k);
      var at := Turn(RuleOf(deps), done, files, k);
      var d :| d in deps(f) && d !in at;
      var j := IndexOf(files, d);
      IndexUnique(files, k);
      var before := PendingHasChain(deps, files, if j < k then n else n - 1, j);
      ExtendChain(deps, files, before, f);
      chain := before + [f];
    }
  }

  lemma ExtendChain(deps: Deps, files: seq<File>, chain: seq<File>, f: File)
    requires IsChain(deps, files, chain) && f in files && chain[|chain| - 1] in deps(f)
    ensures IsChain(deps, files, chain + [f])
    ensures BackwardLinks(files, chain + [f])
         == BackwardLinks(files, chain) + if IndexOf(files, chain[|chain| - 1]) < IndexOf(files, f) then 0 else 1
  {
    assert (chain + [f])[..|chain|] == chain;
  }

  lemma IndexUnique(files: seq<File>, k: nat)
    requires Distinct(files) && k < |files|
    ensures IndexOf(files, files[k]) == k
  {
  }

  /**
   Ten passes suffice, and nothing is thrown, exactly when every dependency is among the files and
   no chain of dependencies has more than nine backward links in the order.
   */
  lemma TenPassesSuffice(deps: Deps, files: seq<File>)
    requires Distinct(files)
    ensures ToSet(files) <= Passes(RuleOf(deps), files, 10) <==>
      (forall f :: f in files ==> forall d :: d in deps(f) ==> d in files)
      && (forall chain :: IsChain(deps, files, chain) ==> BackwardLinks(files, chain) <= 9)
  {
    var done := Passes(RuleOf(deps), files, 10);
    if ToSet(files) <= done {
      forall f, d | f in files && d in deps(f)
        ensures d in files
      {
        assert f in ToSet(files);
        DepsApplied(deps, files, 10, f);
        PassesInFiles(RuleOf(deps), files, 10);
      }
      forall chain | IsChain(deps, files, chain)
        ensures BackwardLinks(files, chain) <= 9
      {
        var last := chain[|chain| - 1];
        assert last in ToSet(files);
        ChainDelays(deps, files, chain);
        if BackwardLinks(files, chain) > 9 {
          PassesGrow(RuleOf(deps), files, 10, BackwardLinks(files, chain));
        }
      }
    }
    if (forall f :: f in files ==> forall d :: d in deps(f) ==> d in files)
      && (forall chain :: IsChain(deps, files, chain) ==> BackwardLinks(files, chain) <= 9)
    {
      forall f | f in ToSet(files)
        ensures f in done
      {
        if f !in done {
          var chain := PendingHasChain(deps, files, 10, IndexOf(files, f));
        }
      }
    }
  }
}
