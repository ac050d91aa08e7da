/**
 The policies and triggers of a database while migration files are tried one after the other
 (scripts/lib/embedded-db.ts).  Before each attempt `scopedDrops` drops, on every table, whatever has
 a name that the file's text creates; the file then makes its own objects, if it applies.
 */
module MigrationTrace {
  import opened Common

  type File = string

  datatype Kind = Policy | Trigger

  datatype Object = Object(kind: Kind, table: string, name: string)

  /** What a drop goes by: policies and triggers are looked up separately, and by name alone. */
  datatype Tag = Tag(kind: Kind, name: string)

  function TagOf(p: Object): Tag {
    Tag(p.kind, p.name)
  }

  /** What a file's own statements leave behind when it applies. */
  datatype Effect = Effect(drops: set<Object>, creates: set<Object>)

  /** The names found in a file's text, and its effect on top of the files applied before it. */
  datatype Scripts = Scripts(names: File -> set<Tag>, effect: (set<File>, File) -> Effect)

  /** One attempt on a file, with `at` applied before it; a file that fails is rolled back. */
  datatype Attempt = Attempt(file: File, at: set<File>, ok: bool)

  function ScopedDrops(live: set<Object>, tags: set<Tag>): set<Object> {
    set p | p in live && TagOf(p) !in tags
  }

  function AfterAttempt(s: Scripts, live: set<Object>, a: Attempt): set<Object> {
    var bare := ScopedDrops(live, s.names(a.file));
    if a.ok then bare - s.effect(a.at, a.file).drops + s.effect(a.at, a.file).creates else bare
  }

  function LiveAfter(s: Scripts, initial: set<Object>, trace: seq<Attempt>): set<Object> {
    if trace == [] then initial
    else AfterAttempt(s, LiveAfter(s, initial, trace[..|trace| - 1]), trace[|trace| - 1])
  }

  // ------------------------------------------------------- what is live at the end

  predicate Makes(s: Scripts, a: Attempt, p: Object) {
    a.ok && p in s.effect(a.at, a.file).creates
  }

  predicate Removes(s: Scripts, a: Attempt, p: Object) {
    TagOf(p) in s.names(a.file) || (a.ok && p in s.effect(a.at, a.file).drops)
  }

  lemma AttemptExactly(s: Scripts, live: set<Object>, a: Attempt, p: Object)
    ensures p in AfterAttempt(s, live, a) <==> Makes(s, a, p) || (p in live && !Removes(s, a, p))
  {
  }

  ghost predicate UntouchedFrom(s: Scripts, trace: seq<Attempt>, i: nat, p: Object) {
    forall j :: i <= j < |trace| ==> !Removes(s, trace[j], p)
  }

  /** Attempt i makes p and no later attempt removes it. */
  ghost predicate LastMade(s: Scripts, trace: seq<Attempt>, i: nat, p: Object) {
    i < |trace| && Makes(s, trace[i], p) && UntouchedFrom(s, trace, i + 1, p)
  }

  ghost predicate Survives(s: Scripts, initial: set<Object>, trace: seq<Attempt>, p: Object) {
    (p in initial && UntouchedFrom(s, trace, 0, p)) || exists i: nat :: LastMade(s, trace, i, p)
  }

  lemma SurvivesStep(s: Scripts, initial: set<Object>, trace: seq<Attempt>, a: Attempt, p: Object)
    ensures Survives(s, initial, trace + [a], p)
      <==> Makes(s, a, p) || (Survives(s, initial, trace, p) && !Removes(s, a, p))
  {
    hide Makes, Removes;
    var all := trace + [a];
    assert all[|trace|] == a && forall j :: 0 <= j < |trace| ==> all[j] == trace[j];
    if Makes(s, a, p) {
      assert LastMade(s, all, |trace|, p);
    }
    if Survives(s, initial, trace, p) && !Removes(s, a, p) {
      if i: nat :| LastMade(s, trace, i, p) {
        assert LastMade(s, all, i, p);
      }
    }
    if Survives(s, initial, all, p) && !Makes(s, a, p) {
      if p in initial && UntouchedFrom(s, all, 0, p) {
        assert UntouchedFrom(s, trace, 0, p);
      } else {
        var i: nat :| LastMade(s, all, i, p);
        assert i < |trace| && LastMade(s, trace, i, p);
      }
    }
  }

  /**
   For every sequence of attempts, a policy or trigger is there at the end exactly if some
   successful attempt made it and no later attempt named it or dropped it, or it was there before
   and none did.
   */
  lemma {:induction false} LiveExactly(s: Scripts, initial: set<Object>, trace: seq<Attempt>, p: Object)
    ensures p in LiveAfter(s, initial, trace) <==> Survives(s, initial, trace, p)
    decreases |trace|
  {
    hide Makes, Removes, AfterAttempt;
    if trace == [] {
    } else {
      var init, a := trace[..|trace| - 1], trace[|trace| - 1];
      LiveExactly(s, initial, init, p);
      AttemptExactly(s, LiveAfter(s, initial, init), a, p);
      SurvivesStep(s, initial, init, a, p);
      assert trace == init + [a];
    }
  }

  // -------------------------------------------------------- when nothing gets lost

  /** Whatever an attempt made is there at the end. */
  ghost predicate NothingLost(s: Scripts, initial: set<Object>, trace: seq<Attempt>) {
    forall i: nat, p :: i < |trace| && Makes(s, trace[i], p) ==> p in LiveAfter(s, initial, trace)
  }

  ghost predicate MadeFrom(s: Scripts, trace: seq<Attempt>, j: nat, p: Object) {
    exists k: nat :: j <= k < |trace| && Makes(s, trace[k], p)
  }

  /** What one attempt makes and a later one removes is made again, then or after it. */
  ghost predicate Remade(s: Scripts, trace: seq<Attempt>) {
    forall i: nat, j: nat, p :: i < j < |trace| && Makes(s, trace[i], p) && Removes(s, trace[j], p) ==> MadeFrom(s, trace, j, p)
  }

  /** The same for later attempts that succeed. */
  ghost predicate RemadeByFiles(s: Scripts, trace: seq<Attempt>) {
    forall i: nat, j: nat, p :: i < j < |trace| && trace[j].ok && Makes(s, trace[i], p) && Removes(s, trace[j], p)
      ==> MadeFrom(s, trace, j, p)
  }

  lemma {:induction false} LastMaker(s: Scripts, trace: seq<Attempt>, i: nat, p: Object) returns (k: nat)
    requires i < |trace| && Makes(s, trace[i], p)
    ensures i <= k < |trace| && Makes(s, trace[k], p) && forall j :: k < j < |trace| ==> !Makes(s, trace[j], p)
    decreases |trace| - i
  {
    hide Makes;
    if j: nat :| i < j < |trace| && Makes(s, trace[j], p) {
      k := LastMaker(s, trace, j, p);
    } else {
      k := i;
    }
  }

  /** For every sequence of attempts, nothing is lost exactly if whatever is removed is made again. */
  lemma NothingLostExactly(s: Scripts, initial: set<Object>, trace: seq<Attempt>)
    ensures NothingLost(s, initial, trace) <==> Remade(s, trace)
  {
    hide Makes, Removes, LiveAfter;
    if NothingLost(s, initial, trace) {
      forall i: nat, j: nat, p | i < j < |trace| && Makes(s, trace[i], p) && Removes(s, trace[j], p)
        ensures MadeFrom(s, trace, j, p)
      {
        LiveExactly(s, initial, trace, p);
        var k: nat :| LastMade(s, trace, k, p);
      }
    }
    if Remade(s, trace) {
      forall i: nat, p | i < |trace| && Makes(s, trace[i], p)
        ensures p in LiveAfter(s, initial, trace)
      {
        var k := LastMaker(s, trace, i, p);
        forall j | k + 1 <= j < |trace|
          ensures !Removes(s, trace[j], p)
        {
          assert !MadeFrom(s, trace, j, p);
        }
        assert LastMade(s, trace, k, p);
        LiveExactly(s, initial, trace, p);
      }
    }
  }

  ghost predicate SucceedsLater(trace: seq<Attempt>, j: nat)
    requires j < |trace|
  {
    exists k: nat :: j < k < |trace| && trace[k].ok && trace[k].file == trace[j].file
  }

  /** Every file that was tried has been applied in the end. */
  ghost predicate Complete(trace: seq<Attempt>) {
    forall j: nat :: j < |trace| && !trace[j].ok ==> SucceedsLater(trace, j)
  }

  /**
   When every file is applied in the end, failed attempts do no harm: nothing is lost exactly if
   whatever a file makes, and a file applied later names or drops, is made again by that file or
   one after it.
   */
  lemma NothingLostByFiles(s: Scripts, initial: set<Object>, trace: seq<Attempt>)
    requires Complete(trace)
    ensures NothingLost(s, initial, trace) <==> RemadeByFiles(s, trace)
  {
    hide Makes, NothingLost;
    NothingLostExactly(s, initial, trace);
    if RemadeByFiles(s, trace) {
      forall i: nat, j: nat, p | i < j < |trace| && Makes(s, trace[i], p) && Removes(s, trace[j], p)
        ensures MadeFrom(s, trace, j, p)
      {
        if !trace[j].ok {
          assert SucceedsLater(trace, j);
          var k: nat :| j < k < |trace| && trace[k].ok && trace[k].file == trace[j].file;
          assert Removes(s, trace[k], p);
          assert MadeFrom(s, trace, k, p);
        }
      }
    }
  }

  /** A file that names what another made, and does not make it itself, takes it away; a third may bring it back. */
  lemma LostAndRestored(s: Scripts, initial: set<Object>, a: Attempt, b: Attempt, c: Attempt, p: Object)
    requires Makes(s, a, p) && Removes(s, b, p) && !Makes(s, b, p) && Makes(s, c, p)
    ensures p in LiveAfter(s, initial, [a]) && p !in LiveAfter(s, initial, [a, b]) && p in LiveAfter(s, initial, [a, b, c])
  {
    hide AfterAttempt, Makes, Removes;
    assert [a][..0] == [] && [a, b][..1] == [a] && [a, b, c][..2] == [a, b];
    AttemptExactly(s, initial, a, p);
    AttemptExactly(s, LiveAfter(s, initial, [a]), b, p);
    AttemptExactly(s, LiveAfter(s, initial, [a, b]), c, p);
  }

  // ----------------------------------------------------------- two of the files

  const OKRS: File := "0018_strategy_objectives_krs.sql"
  const DECISIONS: File := "0019_decision_memory.sql"

  function OrgIsolation(table: string): Object {
    Object(Policy, table, "org_isolation")
  }

  /** The policies of two files of the lineage; both call theirs org_isolation. */
  function TwoScripts(): Scripts {
    Scripts(
      f => if f == OKRS || f == DECISIONS then {Tag(Policy, "org_isolation")} else {},
      (at: set<File>, f: File) =>
        Effect({},
               if f == OKRS then
                 {OrgIsolation("strategies"), OrgIsolation("objectives"), OrgIsolation("key_results"), OrgIsolation("initiatives")}
               else if f == DECISIONS then {OrgIsolation("decisions")}
               else {}))
  }

  /** Both apply at the first attempt, and the four policies of the first are gone. */
  lemma OrgIsolationIsLost()
    ensures LiveAfter(TwoScripts(), {}, [Attempt(OKRS, {}, true), Attempt(DECISIONS, {OKRS}, true)])
         == {OrgIsolation("decisions")}
  {
    var s, a, b := TwoScripts(), Attempt(OKRS, {}, true), Attempt(DECISIONS, {OKRS}, true);
    assert [a, b][..1] == [a] && [a][..0] == [];
    assert OKRS[3] != DECISIONS[3];
    assert s.names(DECISIONS) == {Tag(Policy, "org_isolation")} && s.effect({OKRS}, DECISIONS) == Effect({}, {OrgIsolation("decisions")});
    assert forall p :: p in s.effect({}, OKRS).creates ==> TagOf(p) == Tag(Policy, "org_isolation");
    var first := LiveAfter(s, {}, [a]);
    assert first == AfterAttempt(s, LiveAfter(s, {}, []), a) == AfterAttempt(s, {}, a);
    forall p
      ensures p in AfterAttempt(s, first, b) <==> p == OrgIsolation("decisions")
    {
      AttemptExactly(s, {}, a, p);
      AttemptExactly(s, first, b, p);
    }
  }

  // --------------------------------------------------------------- what was applied

  function DoneAfter(trace: seq<Attempt>): set<File> {
    if trace == [] then {}
    else DoneAfter(trace[..|trace| - 1]) + if trace[|trace| - 1].ok then {trace[|trace| - 1].file} else {}
  }

  /** The files applied, in the order in which they were. */
  function Applied(trace: seq<Attempt>): seq<File> {
    if trace == [] then []
    else Applied(trace[..|trace| - 1]) + if trace[|trace| - 1].ok then [trace[|trace| - 1].file] else []
  }

  /** The last failed attempt on a file. */
  function LastFailure(trace: seq<Attempt>, f: File): Option<Attempt> {
    if trace == [] then None
    else
      var a := trace[|trace| - 1];
      if a.file == f && !a.ok then Some(a) else LastFailure(trace[..|trace| - 1], f)
  }
}
