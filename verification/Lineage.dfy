/**
 The catalog comparison of scripts/lineage-parity.ts: `diff`, `isExpected` and the
 verdict of `report`.  A section is a table of keys and values; the extensions
 are the section whose values are all "present".
 */
module Lineage {
  import opened Sequences
  import opened Text
  import opened Common

  datatype Section = Extensions | Columns | Indexes | Policies | Rls | Functions | Triggers

  const SECTIONS: seq<Section> := [Extensions, Columns, Indexes, Policies, Rls, Functions, Triggers]

  /** A JavaScript object: its keys in order, and their values. */
  datatype Record = Record(keys: seq<string>, values: map<string, string>) {
    ghost predicate Valid() {
      forall k :: k in keys <==> k in values
    }
  }

  /** `owners` is empty for fingerprints recorded before ownership was part of the shape. */
  datatype Fingerprint = Fingerprint(sections: map<Section, Record>, owners: map<string, string>) {
    ghost predicate Valid() {
      (forall s: Section :: s in sections) && forall s: Section :: s in sections ==> sections[s].Valid()
    }
  }

  function Values(fp: Fingerprint, s: Section): map<string, string> {
    if s in fp.sections then fp.sections[s].values else map[]
  }

  function Keys(fp: Fingerprint, s: Section): seq<string> {
    if s in fp.sections then fp.sections[s].keys else []
  }

  datatype Kind = Missing | Extra | Different

  datatype Difference = Difference(section: Section, key: string, kind: Kind, left: string, right: string, expected: bool)

  // ------------------------------------------------------- expected differences

  const ENVIRONMENT_EXTENSIONS: set<string> := {"vector", "pgcrypto", "pg_stat_statements", "supabase_vault", "uuid-ossp"}
  const PRODUCTION_ONLY_FUNCTIONS: set<string> := {"get_user_org_id()", "is_platform_admin()", "handle_new_user()"}
  const EMBEDDING := "company_memory.embedding"

  /** One side has the jsonb shim and the other the real vector column. */
  predicate Shimmed(left: string, right: string) {
    (Includes(left, "jsonb") && Includes(right, "USER-DEFINED")) || (Includes(left, "USER-DEFINED") && Includes(right, "jsonb"))
  }

  /** The test of `/hnsw|ivfflat|vector_/`. */
  predicate MentionsVector(s: string) {
    Includes(s, "hnsw") || Includes(s, "ivfflat") || Includes(s, "vector_")
  }

  function OwnerIn(fp: Fingerprint, key: string): string {
    if key in fp.owners then fp.owners[key] else ""
  }

  /** `left?.[key] || right?.[key]` */
  function Owner(left: Fingerprint, right: Fingerprint, key: string): string {
    if OwnerIn(left, key) != "" then OwnerIn(left, key) else OwnerIn(right, key)
  }

  predicate IsExpected(s: Section, key: string, left: string, right: string, leftFp: Fingerprint, rightFp: Fingerprint) {
    match s
    case Extensions => key in ENVIRONMENT_EXTENSIONS
    case Columns => key == EMBEDDING && Shimmed(left, right)
    case Indexes => "company_memory" <= key && MentionsVector(left + " " + right)
    case Functions => key in PRODUCTION_ONLY_FUNCTIONS || Owner(leftFp, rightFp, key) in ENVIRONMENT_EXTENSIONS
    case _ => false
  }

  // ------------------------------------------------------------------- the diff

  /** What is reported about one key of one section. */
  function Compare(left: Fingerprint, right: Fingerprint, s: Section, key: string): Option<Difference> {
    var a, b := Values(left, s), Values(right, s);
    if key in a && key in b then
      if a[key] == b[key] then None
      else Some(Difference(s, key, Different, a[key], b[key], IsExpected(s, key, a[key], b[key], left, right)))
    else if key in a then Some(Difference(s, key, Missing, a[key], "absent", IsExpected(s, key, a[key], "absent", left, right)))
    else if key in b then Some(Difference(s, key, Extra, "absent", b[key], IsExpected(s, key, "absent", b[key], left, right)))
    else None
  }

  // ------------------------------------------------- the same, text by text

  ghost predicate Mentions(s: string, p: string) {
    exists a, b :: Splits(s, a, p, b)
  }

  /** One of the two texts mentions the one, and the other the other. */
  ghost predicate MentionBoth(left: string, right: string, p: string, q: string) {
    (Mentions(left, p) && Mentions(right, q)) || (Mentions(left, q) && Mentions(right, p))
  }

  ghost predicate EitherMentions(left: string, right: string, p: string) {
    Mentions(left, p) || Mentions(right, p)
  }

  /** The owner that the left side records, or else the right side; an empty name is none. */
  ghost predicate OwnedBy(left: Fingerprint, right: Fingerprint, key: string, owner: string) {
    owner != "" &&
    if key in left.owners && left.owners[key] != "" then left.owners[key] == owner
    else key in right.owners && right.owners[key] == owner
  }

  ghost predicate OwnedByExtension(left: Fingerprint, right: Fingerprint, key: string) {
    || OwnedBy(left, right, key, "vector")
    || OwnedBy(left, right, key, "pgcrypto")
    || OwnedBy(left, right, key, "pg_stat_statements")
    || OwnedBy(left, right, key, "supabase_vault")
    || OwnedBy(left, right, key, "uuid-ossp")
  }

  /**
   Which differences are expected: five extensions, the embedding column between its two types, an
   index of company_memory that names pgvector on either side, three functions and those that one
   of the five extensions owns, and nothing else.
   */
  lemma ExpectedExactly(s: Section, key: string, left: string, right: string, a: Fingerprint, b: Fingerprint)
    ensures IsExpected(s, key, left, right, a, b) <==> match s
      case Extensions => key in ["vector", "pgcrypto", "pg_stat_statements", "supabase_vault", "uuid-ossp"]
      case Columns => key == "company_memory.embedding" && MentionBoth(left, right, "jsonb", "USER-DEFINED")
      case Indexes =>
        (exists rest :: Splits(key, "", "company_memory", rest))
        && (EitherMentions(left, right, "hnsw") || EitherMentions(left, right, "ivfflat") || EitherMentions(left, right, "vector_"))
      case Functions =>
        key in ["get_user_org_id()", "is_platform_admin()", "handle_new_user()"] || OwnedByExtension(a, b, key)
      case Policies => false
      case Rls => false
      case Triggers => false
  {
    match s
    case Extensions =>
    case Columns => ShimmedExactly(left, right);
    case Indexes =>
      VectorExactly(left, right);
      PrefixExactly(key, "company_memory");
    case Functions => OwnerExactly(a, b, key);
    case _ =>
  }

  lemma ShimmedExactly(left: string, right: string)
    ensures Shimmed(left, right) <==> MentionBoth(left, right, "jsonb", "USER-DEFINED")
  {
    hide Includes, Splits;
    IncludesExactly(left, "jsonb");
    IncludesExactly(right, "jsonb");
    IncludesExactly(left, "USER-DEFINED");
    IncludesExactly(right, "USER-DEFINED");
  }

  lemma VectorExactly(left: string, right: string)
    ensures MentionsVector(left + " " + right) <==>
      EitherMentions(left, right, "hnsw") || EitherMentions(left, right, "ivfflat") || EitherMentions(left, right, "vector_")
  {
    hide Includes, Splits;
    MentionsVectorSplits(left, right);
    IncludesExactly(left, "hnsw");
    IncludesExactly(right, "hnsw");
    IncludesExactly(left, "ivfflat");
    IncludesExactly(right, "ivfflat");
    IncludesExactly(left, "vector_");
    IncludesExactly(right, "vector_");
  }

  lemma PrefixExactly(s: string, p: string)
    ensures p <= s <==> exists rest :: Splits(s, "", p, rest)
  {
    if p <= s {
      assert Splits(s, "", p, s[|p|..]);
    }
  }

  lemma OwnerExactly(a: Fingerprint, b: Fingerprint, key: string)
    ensures Owner(a, b, key) in ENVIRONMENT_EXTENSIONS <==> OwnedByExtension(a, b, key)
  {
    var owner := Owner(a, b, key);
    assert forall name: string :: OwnedBy(a, b, key, name) <==> name != "" && owner == name;
  }

  /** What is reported about a key that both sides, or only one, or neither has. */
  lemma CompareExactly(left: Fingerprint, right: Fingerprint, s: Section, key: string)
    requires left.Valid() && right.Valid()
    ensures var a, b := left.sections[s].values, right.sections[s].values;
      var d := Compare(left, right, s, key);
      && (key in a && key in b && a[key] != b[key] ==> Reports(d, s, key, Different, a[key], b[key], left, right))
      && (key in a && key !in b ==> Reports(d, s, key, Missing, a[key], "absent", left, right))
      && (key !in a && key in b ==> Reports(d, s, key, Extra, "absent", b[key], left, right))
      && (key in a && key in b && a[key] == b[key] ==> d == None)
      && (key !in a && key !in b ==> d == None)
  {
    hide IsExpected;
    assert left.sections[s].Valid() && right.sections[s].Valid();
  }

  predicate Reports(d: Option<Difference>, s: Section, key: string, kind: Kind, l: string, r: string, left: Fingerprint, right: Fingerprint) {
    d.Some? && d.value.section == s && d.value.key == key && d.value.kind == kind && d.value.left == l && d.value.right == r
    && d.value.expected == IsExpected(s, key, l, r, left, right)
  }

  /** The extensions come first, then the columns, indexes, policies, row-level security, functions and triggers. */
  lemma DiffInSections(left: Fingerprint, right: Fingerprint)
    ensures Diff(left, right) ==
      DiffSection(left, right, Extensions) + DiffSection(left, right, Columns) + DiffSection(left, right, Indexes)
      + DiffSection(left, right, Policies) + DiffSection(left, right, Rls) + DiffSection(left, right, Functions)
      + DiffSection(left, right, Triggers)
  {
    hide DiffSections, DiffSection;
    SectionsInOrder();
    NoSections(left, right);
    OneMoreSection(left, right, [], Extensions);
    var two := [] + [Extensions] + [Columns];
    OneMoreSection(left, right, [] + [Extensions], Columns);
    OneMoreSection(left, right, two, Indexes);
    OneMoreSection(left, right, two + [Indexes], Policies);
    OneMoreSection(left, right, two + [Indexes] + [Policies], Rls);
    OneMoreSection(left, right, two + [Indexes] + [Policies] + [Rls], Functions);
    OneMoreSection(left, right, two + [Indexes] + [Policies] + [Rls] + [Functions], Triggers);
    assert [] + DiffSection(left, right, Extensions) == DiffSection(left, right, Extensions);
  }

  lemma SectionsInOrder()
    ensures SECTIONS == [] + [Extensions] + [Columns] + [Indexes] + [Policies] + [Rls] + [Functions] + [Triggers]
  {
  }

  lemma NoSections(left: Fingerprint, right: Fingerprint)
    ensures DiffSections(left, right, []) == []
  {
  }

  lemma OneMoreSection(left: Fingerprint, right: Fingerprint, ss: seq<Section>, s: Section)
    ensures DiffSections(left, right, ss + [s]) == DiffSections(left, right, ss) + DiffSection(left, right, s)
  {
    assert (ss + [s])[..|ss|] == ss;
  }

  /** `new Set([...])`: the elements in order of their first occurrence. */
  function Dedupe(s: seq<string>): seq<string> {
    if s == [] then [] else
      var init, last := Dedupe(s[..|s| - 1]), s[|s| - 1];
      if last in init then init else init + [last]
  }

  function CompareKeys(left: Fingerprint, right: Fingerprint, s: Section, keys: seq<string>): seq<Difference> {
    if keys == [] then [] else
      var d := Compare(left, right, s, keys[|keys| - 1]);
      CompareKeys(left, right, s, keys[..|keys| - 1]) + if d.Some? then [d.value] else []
  }

  function DiffSection(left: Fingerprint, right: Fingerprint, s: Section): seq<Difference> {
    CompareKeys(left, right, s, Dedupe(Keys(left, s) + Keys(right, s)))
  }

  function DiffSections(left: Fingerprint, right: Fingerprint, ss: seq<Section>): seq<Difference> {
    if ss == [] then [] else DiffSections(left, right, ss[..|ss| - 1]) + DiffSection(left, right, ss[|ss| - 1])
  }

  function Diff(left: Fingerprint, right: Fingerprint): seq<Difference> {
    DiffSections(left, right, SECTIONS)
  }

  method UniqueKeys(keys: seq<string>) returns (unique: seq<string>)
    ensures unique == Dedupe(keys)
  {
    unique := [];
    for i := 0 to |keys|
      invariant unique == Dedupe(keys[..i])
    {
      assert keys[..i + 1][..i] == keys[..i];
      if keys[i] !in unique {
        unique := unique + [keys[i]];
      }
    }
    assert keys[..|keys|] == keys;
  }

  /** The loop over the keys of one section. */
  method CompareAll(left: Fingerprint, right: Fingerprint, section: Section, keys: seq<string>) returns (out: seq<Difference>)
    ensures out == CompareKeys(left, right, section, keys)
  {
    hide Compare;
    out := [];
    for i := 0 to |keys|
      invariant out == CompareKeys(left, right, section, keys[..i])
    {
      assert keys[..i + 1][..i] == keys[..i];
      var d := Compare(left, right, section, keys[i]);
      if d.Some? {
        out := out + [d.value];
      }
    }
    assert keys[..|keys|] == keys;
  }

  /** `diff` */
  method ComputeDiff(left: Fingerprint, right: Fingerprint) returns (out: seq<Difference>)
    ensures out == Diff(left, right)
  {
    hide CompareKeys, Dedupe;
    out := [];
    for n := 0 to |SECTIONS|
      invariant out == DiffSections(left, right, SECTIONS[..n])
    {
      assert SECTIONS[..n + 1][..n] == SECTIONS[..n];
      var section := SECTIONS[n];
      var keys := UniqueKeys(Keys(left, section) + Keys(right, section));
      var found := CompareAll(left, right, section, keys);
      out := out + found;
    }
    assert SECTIONS[..|SECTIONS|] == SECTIONS;
  }

  /** The verdict of `report`: no difference is unexpected. */
  method Report(differences: seq<Difference>) returns (clean: bool)
    ensures clean <==> Clean(differences)
  {
    var unexpected := [];
    for i := 0 to |differences|
      invariant unexpected == [] <==> Clean(differences[..i])
    {
      assert differences[..i + 1] == differences[..i] + [differences[i]];
      if !differences[i].expected {
        unexpected := unexpected + [differences[i]];
      }
    }
    assert differences[..|differences|] == differences;
    clean := |unexpected| == 0;
  }

  predicate Clean(differences: seq<Difference>) {
    forall d :: d in differences ==> d.expected
  }

  // ------------------------------------------------------- what is in the diff

  ghost predicate Distinct(s: seq<string>) {
    forall i, j :: 0 <= i < j < |s| ==> s[i] != s[j]
  }

  lemma {:induction false} DedupeIsSet(s: seq<string>)
    ensures Distinct(Dedupe(s)) && forall x :: x in Dedupe(s) <==> x in s
    decreases |s|
  {
    if s != [] {
      DedupeIsSet(s[..|s| - 1]);
      assert s == s[..|s| - 1] + [s[|s| - 1]];
    }
  }

  lemma {:induction false} CompareKeysMembers(left: Fingerprint, right: Fingerprint, s: Section, keys: seq<string>)
    ensures forall d :: d in CompareKeys(left, right, s, keys) <==> d.section == s && d.key in keys && Compare(left, right, s, d.key) == Some(d)
    decreases |keys|
  {
    hide Compare;
    if keys != [] {
      var init, last := keys[..|keys| - 1], keys[|keys| - 1];
      assert keys == init + [last];
      CompareKeysMembers(left, right, s, init);
      CompareNames(left, right, s, last);
    }
  }

  lemma CompareNames(left: Fingerprint, right: Fingerprint, s: Section, key: string)
    ensures var d := Compare(left, right, s, key); d.Some? ==> d.value.section == s && d.value.key == key
  {
  }

  lemma SectionMembers(left: Fingerprint, right: Fingerprint, s: Section)
    requires left.Valid() && right.Valid()
    ensures forall d :: d in DiffSection(left, right, s) <==> d.section == s && Compare(left, right, s, d.key) == Some(d)
  {
    var keys := Keys(left, s) + Keys(right, s);
    DedupeIsSet(keys);
    CompareKeysMembers(left, right, s, Dedupe(keys));
  }

  lemma {:induction false} DiffSectionsMembers(left: Fingerprint, right: Fingerprint, ss: seq<Section>)
    requires left.Valid() && right.Valid()
    ensures forall d :: d in DiffSections(left, right, ss) <==> d.section in ss && Compare(left, right, d.section, d.key) == Some(d)
    decreases |ss|
  {
    hide DiffSection, Compare;
    if ss != [] {
      var init, last := ss[..|ss| - 1], ss[|ss| - 1];
      assert ss == init + [last];
      DiffSectionsMembers(left, right, init);
      SectionMembers(left, right, last);
    }
  }

  /** The diff reports a difference about a key exactly when the two sides differ there. */
  lemma DiffMembers(left: Fingerprint, right: Fingerprint)
    requires left.Valid() && right.Valid()
    ensures forall d :: d in Diff(left, right) <==> Compare(left, right, d.section, d.key) == Some(d)
  {
    hide Compare, DiffSections;
    DiffSectionsMembers(left, right, SECTIONS);
    forall s: Section
      ensures s in SECTIONS
    {
      AllSections(s);
    }
  }

  lemma AllSections(s: Section)
    ensures s in SECTIONS
  {
    match s
    case Extensions => assert SECTIONS[0] == s;
    case Columns => assert SECTIONS[1] == s;
    case Indexes => assert SECTIONS[2] == s;
    case Policies => assert SECTIONS[3] == s;
    case Rls => assert SECTIONS[4] == s;
    case Functions => assert SECTIONS[5] == s;
    case Triggers => assert SECTIONS[6] == s;
  }

  // --------------------------------------------------------------- once per key

  ghost predicate OncePerKey(ds: seq<Difference>) {
    forall i, j :: 0 <= i < j < |ds| ==> ds[i].section != ds[j].section || ds[i].key != ds[j].key
  }

  lemma {:induction false} CompareKeysOnce(left: Fingerprint, right: Fingerprint, s: Section, keys: seq<string>)
    requires Distinct(keys)
    ensures OncePerKey(CompareKeys(left, right, s, keys))
    decreases |keys|
  {
    hide Compare;
    if keys != [] {
      var init, last := keys[..|keys| - 1], keys[|keys| - 1];
      CompareKeysOnce(left, right, s, init);
      CompareKeysMembers(left, right, s, init);
      CompareNames(left, right, s, last);
      var ds := CompareKeys(left, right, s, init);
      assert forall i :: 0 <= i < |ds| ==> ds[i] in ds;
    }
  }

  lemma {:induction false} SectionsOnce(left: Fingerprint, right: Fingerprint, ss: seq<Section>)
    requires left.Valid() && right.Valid() && forall i, j :: 0 <= i < j < |ss| ==> ss[i] != ss[j]
    ensures OncePerKey(DiffSections(left, right, ss))
    decreases |ss|
  {
    hide Compare;
    if ss != [] {
      var init, last := ss[..|ss| - 1], ss[|ss| - 1];
      SectionsOnce(left, right, init);
      DiffSectionsMembers(left, right, init);
      SectionMembers(left, right, last);
      var keys := Keys(left, last) + Keys(right, last);
      DedupeIsSet(keys);
      CompareKeysOnce(left, right, last, Dedupe(keys));
      var a, b := DiffSections(left, right, init), DiffSection(left, right, last);
      assert forall i :: 0 <= i < |a| ==> a[i] in a;
      assert forall i :: 0 <= i < |b| ==> b[i] in b;
      assert last !in init;
    }
  }

  /** No key of a section is reported twice. */
  lemma DiffReportsOnce(left: Fingerprint, right: Fingerprint)
    requires left.Valid() && right.Valid()
    ensures OncePerKey(Diff(left, right))
  {
    SectionsDiffer();
    hide SECTIONS, DiffSections, OncePerKey;
    SectionsOnce(left, right, SECTIONS);
  }

  lemma SectionsDiffer()
    ensures forall i, j :: 0 <= i < j < |SECTIONS| ==> SECTIONS[i] != SECTIONS[j]
  {
  }

  // -------------------------------------------------------------------- a patch

  function Patch(m: map<string, string>, s: Section, ds: seq<Difference>): map<string, string> {
    if ds == [] then m else
      var d, p := ds[|ds| - 1], Patch(m, s, ds[..|ds| - 1]);
      PatchOne(p, s, d)
  }

  function PatchOne(m: map<string, string>, s: Section, d: Difference): map<string, string> {
    if d.section != s then m else if d.kind.Missing? then m - {d.key} else m[d.key := d.right]
  }

  /** A key that is not reported keeps its value. */
  lemma {:induction false} PatchKeeps(m: map<string, string>, s: Section, ds: seq<Difference>, key: string)
    requires forall i :: 0 <= i < |ds| ==> ds[i].section != s || ds[i].key != key
    ensures key in Patch(m, s, ds) <==> key in m
    ensures key in m ==> Patch(m, s, ds)[key] == m[key]
    decreases |ds|
  {
    if ds != [] {
      PatchKeeps(m, s, ds[..|ds| - 1], key);
    }
  }

  /** A key that is reported gets the value of the right side. */
  lemma {:induction false} PatchSets(m: map<string, string>, s: Section, ds: seq<Difference>, i: nat)
    requires OncePerKey(ds) && i < |ds| && ds[i].section == s
    ensures ds[i].key in Patch(m, s, ds) <==> !ds[i].kind.Missing?
    ensures !ds[i].kind.Missing? ==> Patch(m, s, ds)[ds[i].key] == ds[i].right
    decreases |ds|
  {
    var init := ds[..|ds| - 1];
    if i < |init| {
      PatchSets(m, s, init, i);
    }
  }

  /** Applying the diff to any section of the left side gives that section of the right side. */
  lemma DiffIsPatch(left: Fingerprint, right: Fingerprint, s: Section)
    requires left.Valid() && right.Valid()
    ensures Patch(Values(left, s), s, Diff(left, right)) == Values(right, s)
  {
    hide Patch, Diff, Compare, Values;
    var p, b := Patch(Values(left, s), s, Diff(left, right)), Values(right, s);
    forall key
      ensures key in p <==> key in b
      ensures key in p ==> p[key] == b[key]
    {
      KeyIsPatched(left, right, s, key);
    }
  }

  lemma KeyIsPatched(left: Fingerprint, right: Fingerprint, s: Section, key: string)
    requires left.Valid() && right.Valid()
    ensures var p, b := Patch(Values(left, s), s, Diff(left, right)), Values(right, s);
      (key in p <==> key in b) && (key in p ==> p[key] == b[key])
  {
    hide Patch, Diff, IsExpected, OncePerKey;
    DiffReportsOnce(left, right);
    DiffMembers(left, right);
    var a, ds := Values(left, s), Diff(left, right);
    var d := Compare(left, right, s, key);
    if d.Some? {
      assert d.value in ds;
      var i :| 0 <= i < |ds| && ds[i] == d.value;
      PatchSets(a, s, ds, i);
    } else {
      assert forall i :: 0 <= i < |ds| ==> ds[i] in ds;
      PatchKeeps(a, s, ds, key);
    }
  }

  // -------------------------------------------------------------------- swapping

  function Swapped(d: Difference): Difference {
    d.(kind := match d.kind case Missing => Extra case Extra => Missing case Different => Different, left := d.right, right := d.left)
  }

  lemma OccurrenceAvoids(s: string, p: string, k: int, c: char, i: int)
    requires OccursAt(s, p, k) && c !in p && 0 <= i < |s| && s[i] == c
    ensures i < k || k + |p| <= i
  {
    forall m | k <= m < k + |p|
      ensures s[m] != c
    {
      assert p[m - k] in p && s[k..k + |p|][m - k] == s[m];
    }
  }

  lemma SliceOfRight(x: string, y: string, j: nat, n: nat)
    requires j + n <= |y|
    ensures (x + y)[|x| + j..|x| + j + n] == y[j..j + n]
  {
  }

  lemma IncludesAcrossSpace(a: string, b: string, p: string)
    requires p != "" && ' ' !in p
    ensures Includes(a + " " + b, p) <==> Includes(a, p) || Includes(b, p)
  {
    var s := a + " " + b;
    if Includes(a, p) {
      var k :| 0 <= k <= |a| && OccursAt(a, p, k);
      OccursLeft(a, " " + b, p, k);
      Assoc(a, " ", b);
    }
    if Includes(b, p) {
      var k :| 0 <= k <= |b| && OccursAt(b, p, k);
      OccursRight(a + " ", b, p, k);
    }
    if Includes(s, p) {
      IncludedBeside(a, b, p);
    }
  }

  lemma OccursLeft(x: string, y: string, p: string, k: nat)
    requires OccursAt(x, p, k)
    ensures OccursAt(x + y, p, k) && Includes(x + y, p)
  {
    assert (x + y)[k..k + |p|] == x[k..k + |p|];
    assert k <= |x + y| && OccursAt(x + y, p, k);
  }

  lemma OccursRight(x: string, y: string, p: string, k: nat)
    requires OccursAt(y, p, k)
    ensures OccursAt(x + y, p, |x| + k) && Includes(x + y, p)
  {
    SliceOfRight(x, y, k, |p|);
    assert |x| + k <= |x + y| && OccursAt(x + y, p, |x| + k);
  }

  lemma IncludedBeside(a: string, b: string, p: string)
    requires p != "" && ' ' !in p && Includes(a + " " + b, p)
    ensures Includes(a, p) || Includes(b, p)
  {
    var s := a + " " + b;
    var k :| 0 <= k <= |s| && OccursAt(s, p, k);
    OccurrenceAvoids(s, p, k, ' ', |a|);
    if k + |p| <= |a| {
      assert s[k..k + |p|] == a[k..k + |p|];
      assert OccursAt(a, p, k);
    } else {
      var j := k - |a| - 1;
      SliceOfRight(a + " ", b, j, |p|);
      assert OccursAt(b, p, j);
    }
  }

  lemma MentionsVectorSplits(a: string, b: string)
    ensures MentionsVector(a + " " + b) <==> MentionsVector(a) || MentionsVector(b)
  {
    hide Includes;
    IncludesAcrossSpace(a, b, "hnsw");
    IncludesAcrossSpace(a, b, "ivfflat");
    IncludesAcrossSpace(a, b, "vector_");
  }

  lemma IncludesFirst(s: string, p: string)
    requires p != "" && Includes(s, p)
    ensures p[0] in s
  {
    var k :| 0 <= k <= |s| && OccursAt(s, p, k);
    assert s[k..k + |p|][0] == s[k];
  }

  /** The owners recorded for a function by the two sides disagree, and only one is an environment extension. */
  predicate OwnersClash(left: Fingerprint, right: Fingerprint, key: string) {
    var a, b := OwnerIn(left, key), OwnerIn(right, key);
    a != "" && b != "" && key !in PRODUCTION_ONLY_FUNCTIONS && ((a in ENVIRONMENT_EXTENSIONS) != (b in ENVIRONMENT_EXTENSIONS))
  }

  /** Whether a difference is expected does not depend on the direction, except when the owners clash. */
  lemma ExpectedSwaps(s: Section, key: string, a: string, b: string, left: Fingerprint, right: Fingerprint)
    ensures IsExpected(s, key, a, b, left, right) == IsExpected(s, key, b, a, right, left)
      <==> !(s == Functions && OwnersClash(left, right, key))
  {
    hide Includes, MentionsVector;
    MentionsVectorSplits(a, b);
    MentionsVectorSplits(b, a);
    assert "" !in ENVIRONMENT_EXTENSIONS;
  }

  /** Swapping the sides exchanges missing and extra and leaves everything else, but for clashing owners. */
  lemma DiffSwaps(left: Fingerprint, right: Fingerprint, d: Difference)
    requires left.Valid() && right.Valid() && d in Diff(left, right)
    ensures exists e :: e in Diff(right, left) && e.(expected := d.expected) == Swapped(d)
    ensures Swapped(d) in Diff(right, left) <==> !(d.section == Functions && OwnersClash(left, right, d.key))
  {
    hide Diff, IsExpected, OwnersClash;
    DiffMembers(left, right);
    DiffMembers(right, left);
    ExpectedSwaps(d.section, d.key, d.left, d.right, left, right);
    var e := Compare(right, left, d.section, d.key);
    assert e.Some? && e.value.(expected := d.expected) == Swapped(d);
    assert e.value in Diff(right, left);
  }

  // ------------------------------------------------------------------ the verdict

  /** The two sides agree on a key. */
  predicate Agree(left: Fingerprint, right: Fingerprint, s: Section, key: string) {
    Compare(left, right, s, key).None?
  }

  /** The documented ways in which a key may differ. */
  predicate Documented(left: Fingerprint, right: Fingerprint, s: Section, key: string) {
    var a, b := Values(left, s), Values(right, s);
    match s
    case Extensions => key in ENVIRONMENT_EXTENSIONS
    case Columns => key == EMBEDDING && key in a && key in b && Shimmed(a[key], b[key])
    case Indexes => "company_memory" <= key && ((key in a && MentionsVector(a[key])) || (key in b && MentionsVector(b[key])))
    case Functions => key in PRODUCTION_ONLY_FUNCTIONS || Owner(left, right, key) in ENVIRONMENT_EXTENSIONS
    case _ => false
  }

  lemma AbsentIsPlain(v: string)
    ensures !Shimmed(v, "absent") && !Shimmed("absent", v) && !MentionsVector("absent")
  {
    hide Includes;
    if Includes("absent", "jsonb") {
      IncludesFirst("absent", "jsonb");
    }
    if Includes("absent", "USER-DEFINED") {
      IncludesFirst("absent", "USER-DEFINED");
    }
    if Includes("absent", "hnsw") {
      IncludesFirst("absent", "hnsw");
    }
    if Includes("absent", "ivfflat") {
      IncludesFirst("absent", "ivfflat");
    }
    if Includes("absent", "vector_") {
      IncludesFirst("absent", "vector_");
    }
  }

  lemma ExpectedIsDocumented(left: Fingerprint, right: Fingerprint, s: Section, key: string)
    requires !Agree(left, right, s, key)
    ensures Compare(left, right, s, key).value.expected <==> Documented(left, right, s, key)
  {
    hide Shimmed, MentionsVector, Owner, ENVIRONMENT_EXTENSIONS, PRODUCTION_ONLY_FUNCTIONS, EMBEDDING;
    var d := Compare(left, right, s, key).value;
    AbsentIsPlain(d.left);
    AbsentIsPlain(d.right);
    MentionsVectorSplits(d.left, d.right);
  }

  /** The report is clean exactly when the sides differ in nothing but the documented ways. */
  lemma CleanMeansDocumented(left: Fingerprint, right: Fingerprint)
    requires left.Valid() && right.Valid()
    ensures Clean(Diff(left, right)) <==> forall s: Section, key :: Agree(left, right, s, key) || Documented(left, right, s, key)
  {
    hide Diff, Documented, IsExpected;
    DiffMembers(left, right);
    var ds := Diff(left, right);
    if Clean(ds) {
      forall s: Section, key
        ensures Agree(left, right, s, key) || Documented(left, right, s, key)
      {
        var d := Compare(left, right, s, key);
        if d.Some? {
          assert d.value in ds;
          ExpectedIsDocumented(left, right, s, key);
        }
      }
    }
    if forall s: Section, key :: Agree(left, right, s, key) || Documented(left, right, s, key) {
      forall d | d in ds
        ensures d.expected
      {
        assert !Agree(left, right, d.section, d.key);
        ExpectedIsDocumented(left, right, d.section, d.key);
      }
    }
  }

  lemma AgreementIsEquality(left: Fingerprint, right: Fingerprint, s: Section)
    requires forall key :: Agree(left, right, s, key)
    ensures Values(left, s) == Values(right, s)
  {
    hide IsExpected;
    forall key
      ensures key in Values(left, s) <==> key in Values(right, s)
      ensures key in Values(left, s) ==> Values(left, s)[key] == Values(right, s)[key]
    {
      assert Agree(left, right, s, key);
    }
  }

  /** A clean report vouches for identical policies, row-level security and triggers, and for every column but the shim. */
  lemma CleanMeansNoDrift(left: Fingerprint, right: Fingerprint)
    requires left.Valid() && right.Valid() && Clean(Diff(left, right))
    ensures Values(left, Policies) == Values(right, Policies)
    ensures Values(left, Rls) == Values(right, Rls)
    ensures Values(left, Triggers) == Values(right, Triggers)
    ensures Values(left, Columns) - {EMBEDDING} == Values(right, Columns) - {EMBEDDING}
    ensures EMBEDDING in Values(left, Columns) <==> EMBEDDING in Values(right, Columns)
  {
    hide Diff, IsExpected, Shimmed, EMBEDDING;
    CleanMeansDocumented(left, right);
    forall s: Section, key | s == Policies || s == Rls || s == Triggers
      ensures Agree(left, right, s, key)
    {
      assert !Documented(left, right, s, key);
    }
    AgreementIsEquality(left, right, Policies);
    AgreementIsEquality(left, right, Rls);
    AgreementIsEquality(left, right, Triggers);
    var a, b := Values(left, Columns), Values(right, Columns);
    forall key
      ensures key != EMBEDDING ==> (key in a <==> key in b) && (key in a ==> a[key] == b[key])
      ensures key == EMBEDDING ==> (key in a <==> key in b)
    {
      assert Agree(left, right, Columns, key) || Documented(left, right, Columns, key);
    }
    assert a - {EMBEDDING} == b - {EMBEDDING};
  }
}
