/**
 The page walk of `dump`, and the chunked load and sequence reset of `restore`, in
 scripts/dr-drill.ts.  A row is a JSON object; `None` is SQL NULL.  The JSON encoder and decoder
 are parameters.
 */
module DrDrill {
  import opened Common
  import opened Text
  import opened Sequences

  const PAGE := 5000
  const PARAM_BUDGET := 60_000

  type Value = Option<string>
  type Row = map<string, Value>

  // --------------------------------------------------------------------- dump

  /** `select ... offset o limit n` on a table that does not change meanwhile. */
  function Query(table: seq<Row>, offset: nat, limit: nat): seq<Row> {
    if offset >= |table| then [] else if offset + limit >= |table| then table[offset..] else table[offset..offset + limit]
  }

  /** One line a row: the text of a .jsonl file. */
  function FileText(rows: seq<Row>, encode: Row -> string): (text: string)
    ensures text == "" || text[|text| - 1] == '\n'
  {
    if rows == [] then "" else FileText(rows[..|rows| - 1], encode) + encode(rows[|rows| - 1]) + "\n"
  }

  lemma LastLine(rows: seq<Row>, encode: Row -> string)
    requires rows != []
    ensures FileText(rows, encode) == FileText(rows[..|rows| - 1], encode) + (encode(rows[|rows| - 1]) + "\n")
  {
  }

  /** The rows that the walk has covered when it has reached an offset. */
  function Walked(table: seq<Row>, offset: nat): (rows: seq<Row>)
    ensures offset >= |table| ==> rows == table
  {
    if offset < |table| then table[..offset] else table
  }

  lemma NoRowsYet(table: seq<Row>)
    ensures Walked(table, 0) == []
  {
    assert table[..0] == [];
  }

  lemma NextPage(table: seq<Row>, offset: nat)
    ensures Walked(table, offset) + Query(table, offset, PAGE) == Walked(table, offset + PAGE)
    ensures |Query(table, offset, PAGE)| < PAGE ==> Walked(table, offset + PAGE) == table && |table| < offset + PAGE
    ensures |Query(table, offset, PAGE)| <= PAGE
    ensures |Query(table, offset, PAGE)| == PAGE ==> offset + PAGE <= |table|
  {
  }

  lemma OneMoreRow(before: seq<Row>, page: seq<Row>, i: nat, encode: Row -> string)
    requires i < |page|
    ensures FileText(before + page[..i + 1], encode) == FileText(before + page[..i], encode) + encode(page[i]) + "\n"
  {
    var now := before + page[..i + 1];
    assert now[..|now| - 1] == before + page[..i] && now[|now| - 1] == page[i];
  }

  lemma FullPages(rows: nat, queries: nat)
    requires queries > 0 && (queries - 1) * 5000 <= rows < queries * 5000
    ensures queries == rows / 5000 + 1
  {
  }

  /** The page walk writes every row of the table exactly once, in order, and counts them, 5000 rows to a query. */
  method Dump(table: seq<Row>, encode: Row -> string) returns (text: string, rows: nat, queries: nat)
    ensures text == FileText(table, encode) && rows == |table| && queries == |table| / 5000 + 1
  {
    text, rows, queries := "", 0, 0;
    var offset := 0;
    assert FileText([], encode) == "";
    hide FileText, Query, Walked;
    NoRowsYet(table);
    while true
      invariant offset == queries * 5000 <= |table|
      invariant text == FileText(Walked(table, offset), encode) && rows == |Walked(table, offset)|
      decreases |table| - offset
    {
      var page := Query(table, offset, PAGE);
      ghost var before := Walked(table, offset);
      assert before + page[..0] == before;
      for i := 0 to |page|
        invariant text == FileText(before + page[..i], encode) && rows == |before| + i
      {
        OneMoreRow(before, page, i, encode);
        text := text + encode(page[i]) + "\n";
        rows := rows + 1;
      }
      assert page[..|page|] == page;
      NextPage(table, offset);
      queries := queries + 1;
      if |page| < PAGE {
        FullPages(|table|, queries);
        break;
      }
      offset := offset + PAGE;
    }
  }

  // ------------------------------------------------------------ reading a file

  lemma NonEmptyOne(line: string)
    requires line != ""
    ensures NonEmpty([line, ""]) == [line] && NonEmpty([""]) == []
  {
    var lines := [line, ""];
    assert lines[1..] == [""] && [""][1..] == [];
    assert NonEmpty([""]) == [];
    assert NonEmpty(lines) == [lines[0]] + NonEmpty(lines[1..]);
  }

  method FilterNonEmpty(lines: seq<string>) returns (kept: seq<string>)
    ensures kept == NonEmpty(lines)
  {
    kept := [];
    for i := 0 to |lines|
      invariant kept + NonEmpty(lines[i..]) == NonEmpty(lines)
    {
      if |lines[i]| > 0 {
        kept := kept + [lines[i]];
      }
    }
  }

  function FileLines(text: string): seq<string> {
    NonEmpty(Split(text, '\n'))
  }

  /** Every row whose encoding is a line of its own. */
  ghost predicate Lossless(rows: seq<Row>, encode: Row -> string, decode: string -> Option<Row>) {
    forall r :: r in rows ==> encode(r) != "" && '\n' !in encode(r) && decode(encode(r)) == Some(r)
  }

  function DecodeAll(lines: seq<string>, decode: string -> Option<Row>): (rows: Option<seq<Row>>)
    ensures rows.Some? ==> |rows.value| == |lines|
  {
    if lines == [] then Some([])
    else
      var last := |lines| - 1;
      match (DecodeAll(lines[..last], decode), decode(lines[last]))
      case (Some(rest), Some(row)) => Some(rest + [row])
      case _ => None
  }

  lemma DecodeAppend(lines: seq<string>, line: string, decode: string -> Option<Row>)
    requires DecodeAll(lines, decode).Some? && decode(line).Some?
    ensures DecodeAll(lines + [line], decode) == Some(DecodeAll(lines, decode).value + [decode(line).value])
  {
    var all := lines + [line];
    assert all[..|all| - 1] == lines && all[|all| - 1] == line;
  }

  /** Reading back a dumped file gives the encoded rows, none lost and none invented. */
  lemma {:induction false} LinesOfDump(rows: seq<Row>, encode: Row -> string, decode: string -> Option<Row>)
    requires Lossless(rows, encode, decode)
    ensures |FileLines(FileText(rows, encode))| == |rows|
    ensures DecodeAll(FileLines(FileText(rows, encode)), decode) == Some(rows)
  {
    if rows == [] {
      assert Split("", '\n') == [""];
    } else {
      hide FileText, FileLines, DecodeAll;
      var n := |rows| - 1;
      var line := encode(rows[n]);
      var rest := FileText(rows[..n], encode);
      LastLine(rows, encode);
      assert rows[n] in rows;
      LinesOfDump(rows[..n], encode, decode);
      LineIsAppended(rest, line);
      DecodeAppend(FileLines(rest), line, decode);
      assert rows[..n] + [rows[n]] == rows;
    }
  }

  /** Text made of complete lines ends in an empty part, so a further line is one further part. */
  lemma LineIsAppended(text: string, line: string)
    requires text == "" || text[|text| - 1] == '\n'
    requires line != "" && '\n' !in line
    ensures FileLines(text + (line + "\n")) == FileLines(text) + [line]
  {
    hide IndexOf, Split, NonEmpty;
    var tail := line + "\n";
    var none: string := "";
    SplitOne(line, '\n');
    SplitOne(none, '\n');
    assert tail == line + ['\n'] + none;
    SplitConcat(line, '\n', none);
    NonEmptyOne(line);
    assert Split(tail, '\n') == [line, ""];
    if text == "" {
      assert text + tail == tail;
    } else {
      var body := text[..|text| - 1];
      assert text == body + ['\n'] + none;
      SplitConcat(body, '\n', none);
      assert text + tail == body + ['\n'] + tail;
      SplitConcat(body, '\n', tail);
      NonEmptyConcat(Split(body, '\n'), [""]);
      NonEmptyConcat(Split(body, '\n'), [line, ""]);
    }
  }

  // ------------------------------------------------------------ chunked insert

  /** `row[c] ?? null` for the columns in use. */
  function Project(row: Row, use: seq<string>): seq<Value> {
    seq(|use|, i requires 0 <= i < |use| => if use[i] in row then row[use[i]] else None)
  }

  function ProjectAll(rows: seq<Row>, use: seq<string>): seq<seq<Value>> {
    seq(|rows|, i requires 0 <= i < |rows| => Project(rows[i], use))
  }

  /** An insert: the columns it names, placeholder numbers tuple by tuple, and the parameters. */
  datatype Insert = Insert(columns: seq<string>, tuples: seq<seq<nat>>, params: seq<Value>)

  /** The value a placeholder stands for; `$1` is the first parameter. */
  function Bound(params: seq<Value>, placeholder: nat): Value {
    if 1 <= placeholder <= |params| then params[placeholder - 1] else None
  }

  function BoundRow(params: seq<Value>, tuple: seq<nat>): seq<Value> {
    seq(|tuple|, j requires 0 <= j < |tuple| => Bound(params, tuple[j]))
  }

  /** The rows the server inserts, in order. */
  function Inserted(stmt: Insert): seq<seq<Value>> {
    seq(|stmt.tuples|, i requires 0 <= i < |stmt.tuples| => BoundRow(stmt.params, stmt.tuples[i]))
  }

  function InsertedAll(stmts: seq<Insert>): seq<seq<Value>> {
    if stmts == [] then [] else InsertedAll(stmts[..|stmts| - 1]) + Inserted(stmts[|stmts| - 1])
  }

  lemma InsertedOneMore(stmts: seq<Insert>, stmt: Insert)
    ensures InsertedAll(stmts + [stmt]) == InsertedAll(stmts) + Inserted(stmt)
  {
    var all := stmts + [stmt];
    assert all[..|all| - 1] == stmts;
  }

  /** `width` consecutive placeholder numbers. */
  function Numbers(first: nat, width: nat): seq<nat> {
    seq(width, j requires 0 <= j < width => first + j + 1)
  }

  /** All placeholders of a statement, read from left to right. */
  function Placeholders(stmt: Insert): seq<nat> {
    Flatten(stmt.tuples)
  }

  /** The tuple's placeholders stand for the row's values, now and when more parameters follow. */
  lemma BoundNow(params: seq<Value>, tuple: seq<nat>, row: Row, use: seq<string>, more: seq<Value>)
    requires |params| >= |use| && params[|params| - |use|..] == Project(row, use)
    requires tuple == Numbers(|params| - |use|, |use|)
    ensures BoundRow(params + more, tuple) == Project(row, use)
  {
    var first := |params| - |use|;
    forall j | 0 <= j < |use|
      ensures Bound(params + more, tuple[j]) == Project(row, use)[j]
    {
      assert params[first..][j] == params[first + j] == (params + more)[first + j];
    }
  }

  lemma NumbersConcat(a: nat, b: nat)
    ensures Numbers(0, a) + Numbers(a, b) == Numbers(0, a + b)
  {
  }

  lemma Times(i: nat, width: nat)
    ensures (i + 1) * width == i * width + width
  {
  }

  /** One row of a chunk: every column pushes a parameter and writes its number. */
  method BuildTuple(row: Row, use: seq<string>, before: seq<Value>) returns (tuple: seq<nat>, params: seq<Value>)
    ensures params == before + Project(row, use)
    ensures tuple == Numbers(|before|, |use|)
  {
    tuple, params := [], before;
    for j := 0 to |use|
      invariant params == before + Project(row, use)[..j]
      invariant tuple == Numbers(|before|, |use|)[..j]
    {
      params := params + [if use[j] in row then row[use[j]] else None];
      tuple := tuple + [|params|];
    }
  }

  /** The statement for one chunk inserts the chunk's rows, and its placeholders are 1, 2, 3, ... */
  method BuildInsert(slice: seq<Row>, use: seq<string>) returns (stmt: Insert)
    ensures Inserted(stmt) == ProjectAll(slice, use)
    ensures Placeholders(stmt) == Numbers(0, |stmt.params|)
    ensures stmt.columns == use && |stmt.tuples| == |slice| && |stmt.params| == |slice| * |use|
  {
    hide BoundRow, Project, Numbers, Flatten;
    var params: seq<Value> := [];
    var tuples: seq<seq<nat>> := [];
    StartEmpty();
    for i := 0 to |slice|
      invariant |tuples| == i && |params| == i * |use|
      invariant Flatten(tuples) == Numbers(0, |params|)
      invariant forall k :: 0 <= k < i ==> StandsFor(params, tuples[k], slice[k], use)
    {
      ghost var before := params;
      var tuple: seq<nat>;
      tuple, params := BuildTuple(slice[i], use, params);
      Widths(slice[i], use);
      Times(i, |use|);
      NumbersConcat(|before|, |use|);
      FlattenOneMore(tuples, tuple);
      forall more: seq<Value>
        ensures BoundRow(params + more, tuple) == Project(slice[i], use)
      {
        BoundNow(params, tuple, slice[i], use, more);
      }
      forall k | 0 <= k < i
        ensures StandsFor(params, tuples[k], slice[k], use)
      {
        StandsForLonger(before, Project(slice[i], use), tuples[k], slice[k], use);
      }
      tuples := tuples + [tuple];
    }
    forall k | 0 <= k < |slice|
      ensures BoundRow(params, tuples[k]) == Project(slice[k], use)
    {
      assert StandsFor(params, tuples[k], slice[k], use) && params + [] == params;
    }
    stmt := Insert(use, tuples, params);
  }

  lemma StartEmpty()
    ensures Flatten<nat>([]) == Numbers(0, 0)
  {
  }

  lemma Widths(row: Row, use: seq<string>)
    ensures |Project(row, use)| == |use|
  {
  }

  /** A tuple that keeps standing for a row whatever parameters follow. */
  ghost predicate StandsFor(params: seq<Value>, tuple: seq<nat>, row: Row, use: seq<string>) {
    forall more: seq<Value> :: BoundRow(params + more, tuple) == Project(row, use)
  }

  lemma StandsForLonger(params: seq<Value>, added: seq<Value>, tuple: seq<nat>, row: Row, use: seq<string>)
    requires StandsFor(params, tuple, row, use)
    ensures StandsFor(params + added, tuple, row, use)
  {
    forall more: seq<Value>
      ensures BoundRow(params + added + more, tuple) == Project(row, use)
    {
      assert params + added + more == params + (added + more);
    }
  }

  // --------------------------------------------------------------- load a table

  datatype Outcome =
    | Skipped
    | Loaded(stmts: seq<Insert>, inserted: nat)
    | CountMismatch(found: nat)
    | BadLine

  function Kept(columns: seq<string>, present: seq<string>): seq<string> {
    if columns == [] then [] else (if columns[0] in present then [columns[0]] else []) + Kept(columns[1..], present)
  }

  /** `at` are the positions of the dumped columns that the target has, from left to right. */
  ghost predicate Selects(at: seq<nat>, columns: seq<string>, present: seq<string>) {
    && (forall j :: 0 <= j < |at| ==> at[j] < |columns| && columns[at[j]] in present)
    && (forall j, k :: 0 <= j < k < |at| ==> at[j] < at[k])
    && (forall i: nat :: i < |columns| && columns[i] in present ==> i in at)
  }

  /** The columns in use are the dumped ones that the target has, in the order of the dump. */
  ghost predicate InUse(use: seq<string>, columns: seq<string>, present: seq<string>) {
    exists at: seq<nat> :: Selects(at, columns, present) && use == ColumnsAt(columns, at)
  }

  function ColumnsAt(columns: seq<string>, at: seq<nat>): (use: seq<string>)
    ensures |use| == |at|
  {
    seq(|at|, j requires 0 <= j < |at| => ColumnAt(columns, at[j]))
  }

  function ColumnAt(columns: seq<string>, i: nat): string {
    if i < |columns| then columns[i] else ""
  }

  function OneUp(at: seq<nat>): (up: seq<nat>)
    ensures |up| == |at| && forall j :: 0 <= j < |at| ==> up[j] == at[j] + 1
  {
    seq(|at|, j requires 0 <= j < |at| => at[j] + 1)
  }

  lemma SelectsTail(at: seq<nat>, columns: seq<string>, present: seq<string>)
    requires columns != [] && Selects(at, columns[1..], present) && columns[0] !in present
    ensures Selects(OneUp(at), columns, present)
  {
    var up := OneUp(at);
    assert forall j :: 0 <= j < |at| ==> columns[up[j]] == columns[1..][at[j]];
    forall i: nat | i < |columns| && columns[i] in present
      ensures i in up
    {
      UpMembers(at, columns, present, i);
    }
  }

  lemma UpMembers(at: seq<nat>, columns: seq<string>, present: seq<string>, i: nat)
    requires columns != [] && Selects(at, columns[1..], present) && 0 < i < |columns| && columns[i] in present
    ensures i in OneUp(at)
  {
    assert columns[1..][i - 1] == columns[i];
    var j :| 0 <= j < |at| && at[j] == i - 1;
    assert OneUp(at)[j] == i;
  }

  lemma SelectsCons(at: seq<nat>, columns: seq<string>, present: seq<string>)
    requires columns != [] && Selects(at, columns[1..], present) && columns[0] in present
    ensures Selects([0] + OneUp(at), columns, present)
  {
    var up, all := OneUp(at), [0] + OneUp(at);
    assert all[0] == 0;
    forall j | 0 <= j < |all|
      ensures all[j] == if j == 0 then 0 else at[j - 1] + 1
      ensures all[j] < |columns| && columns[all[j]] in present
    {
      if j > 0 {
        assert columns[1..][at[j - 1]] == columns[at[j - 1] + 1];
      }
    }
    forall i: nat | i < |columns| && columns[i] in present
      ensures i in all
    {
      if i == 0 {
        assert all[0] == i;
      } else {
        UpMembers(at, columns, present, i);
      }
    }
  }

  lemma ColumnsOneUp(columns: seq<string>, at: seq<nat>)
    requires columns != []
    ensures ColumnsAt(columns, OneUp(at)) == ColumnsAt(columns[1..], at)
    ensures ColumnsAt(columns, [0] + OneUp(at)) == [columns[0]] + ColumnsAt(columns[1..], at)
  {
  }

  lemma {:induction false} KeptAreInUse(columns: seq<string>, present: seq<string>) returns (at: seq<nat>)
    ensures Selects(at, columns, present) && Kept(columns, present) == ColumnsAt(columns, at)
  {
    if columns == [] {
      at := [];
    } else {
      hide Selects, ColumnsAt, OneUp;
      var rest := KeptAreInUse(columns[1..], present);
      ColumnsOneUp(columns, rest);
      if columns[0] in present {
        SelectsCons(rest, columns, present);
        at := [0] + OneUp(rest);
      } else {
        SelectsTail(rest, columns, present);
        at := OneUp(rest);
        assert [] + Kept(columns[1..], present) == Kept(columns[1..], present);
      }
    }
  }

  lemma KeptExactly(columns: seq<string>, present: seq<string>)
    ensures InUse(Kept(columns, present), columns, present)
  {
    hide Selects;
    var at := KeptAreInUse(columns, present);
  }

  /** A column is in use exactly if it is in both lists. */
  lemma InUseMembers(use: seq<string>, columns: seq<string>, present: seq<string>, c: string)
    requires InUse(use, columns, present)
    ensures c in use <==> c in columns && c in present
  {
    var at: seq<nat> :| Selects(at, columns, present) && use == ColumnsAt(columns, at);
    if c in columns && c in present {
      var i: nat :| i < |columns| && columns[i] == c;
      var j :| 0 <= j < |at| && at[j] == i;
      assert use[j] == c;
    }
  }

  /** Value j of row i is what the row has in column j of those in use, NULL if it has none. */
  ghost predicate Cells(values: seq<seq<Value>>, rows: seq<Row>, use: seq<string>) {
    |values| == |rows| && forall i :: 0 <= i < |rows| ==> CellsOf(values[i], rows[i], use)
  }

  ghost predicate CellsOf(values: seq<Value>, row: Row, use: seq<string>) {
    |values| == |use| && forall j :: 0 <= j < |use| ==>
      if use[j] in row then values[j] == row[use[j]] else values[j] == None
  }

  lemma ProjectExactly(rows: seq<Row>, use: seq<string>)
    ensures Cells(ProjectAll(rows, use), rows, use)
  {
  }

  method FilterColumns(columns: seq<string>, present: seq<string>) returns (use: seq<string>)
    ensures InUse(use, columns, present)
  {
    KeptExactly(columns, present);
    hide InUse;
    use := [];
    for i := 0 to |columns|
      invariant use + Kept(columns[i..], present) == Kept(columns, present)
    {
      if columns[i] in present {
        use := use + [columns[i]];
      }
    }
    assert use == Kept(columns, present);
  }

  function Both(a: Option<seq<Row>>, b: Option<seq<Row>>): Option<seq<Row>> {
    if a.Some? && b.Some? then Some(a.value + b.value) else None
  }

  lemma {:induction false} DecodeConcat(a: seq<string>, b: seq<string>, decode: string -> Option<Row>)
    ensures DecodeAll(a + b, decode) == Both(DecodeAll(a, decode), DecodeAll(b, decode))
    decreases |b|
  {
    var all := a + b;
    if b == [] {
      assert all == a;
      var x := DecodeAll(a, decode);
      assert x.Some? ==> x.value + [] == x.value;
    } else {
      var n := |b| - 1;
      assert all[..|all| - 1] == a + b[..n] && all[|all| - 1] == b[n];
      DecodeConcat(a, b[..n], decode);
      var x, y := DecodeAll(a, decode), DecodeAll(b[..n], decode);
      if x.Some? && y.Some? && decode(b[n]).Some? {
        assert x.value + y.value + [decode(b[n]).value] == x.value + (y.value + [decode(b[n]).value]);
      }
    }
  }

  method ParseLines(lines: seq<string>, decode: string -> Option<Row>) returns (rows: Option<seq<Row>>)
    ensures rows == DecodeAll(lines, decode)
  {
    var parsed: seq<Row> := [];
    for i := 0 to |lines|
      invariant DecodeAll(lines[..i], decode) == Some(parsed)
    {
      assert lines[..i + 1][..i] == lines[..i];
      var row := decode(lines[i]);
      if row == None {
        NeverDecodes(lines, i, decode);
        return None;
      }
      parsed := parsed + [row.value];
    }
    assert lines[..|lines|] == lines;
    rows := Some(parsed);
  }

  lemma {:induction false} NeverDecodes(lines: seq<string>, i: nat, decode: string -> Option<Row>)
    requires i < |lines| && decode(lines[i]).None?
    ensures DecodeAll(lines, decode).None?
  {
    var last := |lines| - 1;
    if i < last {
      NeverDecodes(lines[..last], i, decode);
    }
  }

  /** Rows to a statement; a table without shared columns divides by zero and gets one statement. */
  function ChunkRows(width: nat, rows: nat): (size: nat)
    requires rows > 0
    ensures size > 0
    ensures 0 < width <= 60_000 ==> size * width <= 60_000 < (size + 1) * width
    ensures width > 60_000 ==> size == 1
    ensures width == 0 ==> size == rows
  {
    if width == 0 then rows else if PARAM_BUDGET / width > 1 then PARAM_BUDGET / width else 1
  }

  /** A statement of at most `size` rows for the columns in use, whose placeholders are numbered like its parameters. */
  ghost predicate GoodStatement(stmt: Insert, use: seq<string>, size: nat) {
    && stmt.columns == use
    && 1 <= |stmt.tuples| <= size
    && |stmt.params| == |stmt.tuples| * |use|
    && |Placeholders(stmt)| == |stmt.params|
    && forall k :: 0 <= k < |stmt.params| ==> Placeholders(stmt)[k] == k + 1
  }

  /** All statements are well formed, and all but the last are as long as they may be. */
  ghost predicate GoodStatements(stmts: seq<Insert>, use: seq<string>, size: nat) {
    && (forall k :: 0 <= k < |stmts| ==> GoodStatement(stmts[k], use, size))
    && forall k :: 0 <= k < |stmts| - 1 ==> |stmts[k].tuples| == size
  }

  ghost predicate WithinBudget(stmts: seq<Insert>) {
    forall k :: 0 <= k < |stmts| ==> |stmts[k].params| <= 60_000
  }

  lemma Products(a: nat, b: nat, width: nat)
    requires a <= b
    ensures a * width <= b * width
    ensures a >= 1 ==> a * width >= width
  {
  }

  /** No statement exceeds the parameter budget, exactly when the table has at most that many columns. */
  lemma BudgetKept(stmts: seq<Insert>, use: seq<string>, rows: nat)
    requires rows > 0 && stmts != [] && GoodStatements(stmts, use, ChunkRows(|use|, rows))
    ensures WithinBudget(stmts) <==> |use| <= 60_000
  {
    var width, size := |use|, ChunkRows(|use|, rows);
    forall k | 0 <= k < |stmts|
      ensures GoodStatement(stmts[k], use, size)
      ensures width <= |stmts[k].params| <= size * width
    {
      Products(|stmts[k].tuples|, size, width);
    }
    assert width <= |stmts[0].params|;
  }

  /** The row order, the completeness test, the chunking and the transaction's failures. */
  method LoadTable(columns: seq<string>, present: seq<string>, rows: nat, text: string, decode: string -> Option<Row>)
    returns (outcome: Outcome, ghost use: seq<string>)
    ensures outcome.Skipped? <==> present == []
    ensures InUse(use, columns, present)
    ensures present != [] && rows == 0 ==> outcome == Loaded([], 0)
    ensures present != [] && rows > 0 ==> Expected(outcome, use, rows, FileLines(text), decode)
    ensures present != [] && rows > 0 && |FileLines(text)| != rows ==> outcome == CountMismatch(|FileLines(text)|)
  {
    use := Kept(columns, present);
    KeptExactly(columns, present);
    hide InUse;
    if present == [] {
      outcome := Skipped;
      return;
    }
    var shared := FilterColumns(columns, present);
    use := shared;
    if rows == 0 {
      outcome := Loaded([], 0);
      return;
    }
    var lines := FilterNonEmpty(Split(text, '\n'));
    if |lines| != rows {
      outcome := CountMismatch(|lines|);
      return;
    }
    outcome := InsertChunks(lines, shared, decode);
  }

  ghost predicate Expected(outcome: Outcome, use: seq<string>, rows: nat, lines: seq<string>, decode: string -> Option<Row>)
    requires rows > 0
  {
    if |lines| != rows then outcome == CountMismatch(|lines|)
    else AllInserted(outcome, use, lines, decode)
  }

  ghost predicate AllInserted(outcome: Outcome, use: seq<string>, lines: seq<string>, decode: string -> Option<Row>)
    requires lines != []
  {
    match DecodeAll(lines, decode)
    case None => outcome == BadLine
    case Some(rows) =>
      && outcome.Loaded? && outcome.inserted == |rows|
      && Cells(InsertedAll(outcome.stmts), rows, use)
      && outcome.stmts != [] && GoodStatements(outcome.stmts, use, ChunkRows(|use|, |lines|))
  }

  ghost predicate AllFull(stmts: seq<Insert>, size: nat) {
    forall k :: 0 <= k < |stmts| ==> |stmts[k].tuples| == size
  }

  lemma OneMoreStatement(stmts: seq<Insert>, stmt: Insert, use: seq<string>, size: nat)
    requires GoodStatements(stmts, use, size) && AllFull(stmts, size) && GoodStatement(stmt, use, size)
    ensures GoodStatements(stmts + [stmt], use, size)
    ensures |stmt.tuples| == size ==> AllFull(stmts + [stmt], size)
  {
  }

  lemma NoStatements(use: seq<string>, size: nat)
    ensures GoodStatements([], use, size) && AllFull([], size)
  {
  }

  lemma DecodePrefix(lines: seq<string>, i: nat, end: nat, decode: string -> Option<Row>, done: seq<Row>)
    requires i <= end <= |lines| && DecodeAll(lines[..i], decode) == Some(done)
    ensures
      match DecodeAll(lines[i..end], decode)
      case None => DecodeAll(lines, decode) == None
      case Some(more) => DecodeAll(lines[..end], decode) == Some(done + more)
  {
    hide DecodeAll;
    assert lines[..i] + lines[i..end] == lines[..end];
    DecodeConcat(lines[..i], lines[i..end], decode);
    if DecodeAll(lines[i..end], decode).None? {
      DecodeRest(lines, end, decode);
    }
  }

  lemma DecodeRest(lines: seq<string>, end: nat, decode: string -> Option<Row>)
    requires end <= |lines| && DecodeAll(lines[..end], decode) == None
    ensures DecodeAll(lines, decode) == None
  {
    hide DecodeAll;
    assert lines[..end] + lines[end..] == lines;
    DecodeConcat(lines[..end], lines[end..], decode);
  }

  lemma InsertedSoFar(stmts: seq<Insert>, done: seq<Row>, stmt: Insert, more: seq<Row>, use: seq<string>)
    requires InsertedAll(stmts) == ProjectAll(done, use) && Inserted(stmt) == ProjectAll(more, use)
    ensures InsertedAll(stmts + [stmt]) == ProjectAll(done + more, use)
  {
    InsertedOneMore(stmts, stmt);
    ProjectConcat(done, more, use);
  }

  /** The chunk loop. */
  method InsertChunks(lines: seq<string>, use: seq<string>, decode: string -> Option<Row>) returns (outcome: Outcome)
    requires lines != []
    ensures AllInserted(outcome, use, lines, decode)
  {
    NoStatements(use, ChunkRows(|use|, |lines|));
    NothingDone(use, decode);
    hide DecodeAll, InsertedAll, ProjectAll, Project, Inserted, BoundRow, Placeholders, Flatten, Numbers, ChunkRows,
      GoodStatements, AllFull, AllInserted, GoodStatement;
    var size := ChunkRows(|use|, |lines|);
    var stmts: seq<Insert> := [];
    var inserted := 0;
    var i := 0;
    ghost var done: seq<Row> := [];
    assert lines[..0] == [];
    while i < |lines|
      invariant DecodeAll(lines[..Upto(i, |lines|)], decode) == Some(done)
      invariant InsertedAll(stmts) == ProjectAll(done, use) && inserted == |done|
      invariant GoodStatements(stmts, use, size)
      invariant i < |lines| ==> AllFull(stmts, size)
      invariant i > 0 ==> stmts != []
      decreases |lines| - i
    {
      var end := Upto(i + size, |lines|);
      DecodePrefix(lines, i, end, decode, done);
      var parsed := ParseLines(lines[i..end], decode);
      if parsed == None {
        NoneInserted(use, lines, decode);
        return BadLine;
      }
      var stmt := BuildInsert(parsed.value, use);
      IsGood(stmt, use, size);
      InsertedSoFar(stmts, done, stmt, parsed.value, use);
      OneMoreStatement(stmts, stmt, use, size);
      done := done + parsed.value;
      stmts := stmts + [stmt];
      inserted := inserted + (end - i);
      i := i + size;
    }
    assert lines[..|lines|] == lines;
    outcome := Loaded(stmts, inserted);
    EveryRowInserted(outcome, use, lines, decode, done);
  }

  lemma IsGood(stmt: Insert, use: seq<string>, size: nat)
    requires stmt.columns == use && 1 <= |stmt.tuples| <= size && |stmt.params| == |stmt.tuples| * |use|
    requires Placeholders(stmt) == Numbers(0, |stmt.params|)
    ensures GoodStatement(stmt, use, size)
  {
  }

  lemma NoneInserted(use: seq<string>, lines: seq<string>, decode: string -> Option<Row>)
    requires lines != [] && DecodeAll(lines, decode) == None
    ensures AllInserted(BadLine, use, lines, decode)
  {
  }

  lemma EveryRowInserted(outcome: Outcome, use: seq<string>, lines: seq<string>, decode: string -> Option<Row>, done: seq<Row>)
    requires lines != [] && DecodeAll(lines, decode) == Some(done) && outcome.Loaded? && outcome.inserted == |done|
    requires InsertedAll(outcome.stmts) == ProjectAll(done, use) && outcome.stmts != []
    requires GoodStatements(outcome.stmts, use, ChunkRows(|use|, |lines|))
    ensures AllInserted(outcome, use, lines, decode)
  {
    hide ProjectAll, InsertedAll, GoodStatements, Cells;
    ProjectExactly(done, use);
  }

  function Upto(i: nat, n: nat): nat {
    if i < n then i else n
  }

  lemma NothingDone(use: seq<string>, decode: string -> Option<Row>)
    ensures DecodeAll([], decode) == Some([])
    ensures InsertedAll([]) == ProjectAll([], use)
  {
  }

  lemma ProjectConcat(a: seq<Row>, b: seq<Row>, use: seq<string>)
    ensures ProjectAll(a + b, use) == ProjectAll(a, use) + ProjectAll(b, use)
  {
  }

  /**
   Dump then restore: a table that is present at both ends comes back row for row, with every
   value in every column that both ends have, under that column's name, in statements within the
   budget exactly when there are at most 60000 such columns.
   */
  method DumpAndLoad(table: seq<Row>, columns: seq<string>, present: seq<string>,
                     encode: Row -> string, decode: string -> Option<Row>) returns (outcome: Outcome, ghost use: seq<string>)
    requires Lossless(table, encode, decode)
    ensures present == [] ==> outcome == Skipped
    ensures present != [] ==> outcome.Loaded? && outcome.inserted == |table| == |InsertedAll(outcome.stmts)|
    ensures InUse(use, columns, present)
    ensures present != [] ==> forall k :: 0 <= k < |outcome.stmts| ==> outcome.stmts[k].columns == use
    ensures present != [] ==> forall i :: 0 <= i < |table| ==> CellsOf(InsertedAll(outcome.stmts)[i], table[i], use)
    ensures forall c :: c in use <==> c in columns && c in present
    ensures present != [] ==> (WithinBudget(outcome.stmts) <==> table == [] || |use| <= 60_000)
  {
    hide FileText, FileLines, DecodeAll, ProjectAll, InsertedAll, InUse, CellsOf, GoodStatement;
    var text, rows, queries := Dump(table, encode);
    outcome, use := LoadTable(columns, present, rows, text, decode);
    forall c
      ensures c in use <==> c in columns && c in present
    {
      InUseMembers(use, columns, present, c);
    }
    if present != [] {
      LinesOfDump(table, encode, decode);
      if rows > 0 {
        BudgetKept(outcome.stmts, use, rows);
        ColumnsNamed(outcome.stmts, use, ChunkRows(|use|, rows));
      } else {
        NothingInserted();
      }
    }
  }

  lemma ColumnsNamed(stmts: seq<Insert>, use: seq<string>, size: nat)
    requires GoodStatements(stmts, use, size)
    ensures forall k :: 0 <= k < |stmts| ==> stmts[k].columns == use
  {
  }

  lemma NothingInserted()
    ensures InsertedAll([]) == []
  {
  }

  // ------------------------------------------------------------ sequence reset

  /** `max(column)`: NULL on an empty table. */
  function MaxOf(ids: seq<int>): (m: Option<int>)
    ensures m.None? <==> ids == []
    ensures m.Some? ==> m.value in ids && forall id :: id in ids ==> id <= m.value
  {
    if ids == [] then None
    else
      match MaxOf(ids[1..])
      case None => Some(ids[0])
      case Some(rest) =>
        assert ids == [ids[0]] + ids[1..];
        Some(if ids[0] > rest then ids[0] else rest)
  }

  /** A Postgres sequence that counts up by one. */
  datatype Sequence = Sequence(value: int, called: bool) {
    function NextVal(): int {
      if called then value + 1 else value
    }

    function Advance(): Sequence {
      Sequence(NextVal(), true)
    }
  }

  function OrZero(x: Option<int>): int {
    if x.Some? then x.value else 0
  }

  function Max(a: int, b: int): int {
    if a >= b then a else b
  }

  /** `setval(seq, max(highest id, snapshot's last value, 1), highest id > 0)`. */
  function ResetSequence(ids: seq<int>, lastValue: Option<int>): Sequence {
    var highest := OrZero(MaxOf(ids));
    Sequence(Max(Max(highest, OrZero(lastValue)), 1), highest > 0)
  }

  /** The least value that is no less than 1, the snapshot's last value and every restored id. */
  lemma ResetExactly(ids: seq<int>, lastValue: Option<int>)
    ensures var s := ResetSequence(ids, lastValue);
      && s.value >= 1 && (forall id :: id in ids ==> s.value >= id) && (forall last :: lastValue == Some(last) ==> s.value >= last)
      && (s.value == 1 || s.value in ids || lastValue == Some(s.value))
      && (s.called <==> exists id :: id in ids && id > 0)
  {
  }

  /** The k-th value that the sequence hands out. */
  function Generated(s: Sequence, k: nat): int
    decreases k
  {
    if k == 0 then s.NextVal() else Generated(s.Advance(), k - 1)
  }

  lemma {:induction false} GeneratedCountsUp(s: Sequence, k: nat)
    ensures Generated(s, k) == s.NextVal() + k
    decreases k
  {
    if k > 0 {
      GeneratedCountsUp(s.Advance(), k - 1);
    }
  }

  /** However many rows are added afterwards, none gets the id of a restored row or of another new one. */
  lemma GeneratedIdsAreFresh(ids: seq<int>, lastValue: Option<int>, k: nat, l: nat)
    requires k < l
    ensures Generated(ResetSequence(ids, lastValue), k) !in ids
    ensures forall id :: id in ids ==> id < Generated(ResetSequence(ids, lastValue), k)
    ensures Generated(ResetSequence(ids, lastValue), k) < Generated(ResetSequence(ids, lastValue), l)
  {
    GeneratedCountsUp(ResetSequence(ids, lastValue), k);
    GeneratedCountsUp(ResetSequence(ids, lastValue), l);
  }

  /**
   The snapshot's last value is not always passed: a table restored without a positive id hands
   out the last value once more.
   */
  lemma LastValueIsPassed(ids: seq<int>, last: int)
    ensures (forall k: nat :: Generated(ResetSequence(ids, Some(last)), k) > last)
            <==> last < 1 || exists id :: id in ids && id > 0
    ensures last >= 1 && (forall id :: id in ids ==> id <= 0) ==> Generated(ResetSequence(ids, Some(last)), 0) == last
  {
    var s := ResetSequence(ids, Some(last));
    forall k: nat
      ensures Generated(s, k) == s.NextVal() + k
    {
      GeneratedCountsUp(s, k);
    }
    assert Generated(s, 0) == s.NextVal();
    assert s.called <==> exists id :: id in ids && id > 0;
  }
}
