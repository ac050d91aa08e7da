/**
 `runCommandStream` of apps/web/lib/command-stream.ts: the buffer loop that cuts
 the response text into lines, and the events those lines carry.  The chunks are
 the decoded text of successive reads; `JSON.parse` is a parameter.
 */
module CommandStream {
  import opened Common
  import opened Text
  import opened Sequences

  // ---------------------------------------------------------------- whitespace

  /** The characters `trim` removes. */
  predicate IsSpace(c: char) {
    c in {'\t', '\n', '\U{000B}', '\U{000C}', '\r', ' ', '\U{00A0}', '\U{1680}', '\U{2028}', '\U{2029}', '\U{202F}', '\U{205F}', '\U{3000}', '\U{FEFF}'}
    || '\U{2000}' <= c <= '\U{200A}'
  }

  function TrimStart(s: string): string {
    if s == "" || !IsSpace(s[0]) then s else TrimStart(s[1..])
  }

  function TrimEnd(s: string): string {
    if s == "" || !IsSpace(s[|s| - 1]) then s else TrimEnd(s[..|s| - 1])
  }

  function Trim(s: string): string {
    TrimEnd(TrimStart(s))
  }

  predicate Blank(s: string) {
    forall i :: 0 <= i < |s| ==> IsSpace(s[i])
  }

  lemma {:induction false} TrimStartBlank(s: string)
    ensures TrimStart(s) == "" <==> Blank(s)
    ensures TrimStart(s) != "" ==> !IsSpace(TrimStart(s)[0])
    decreases |s|
  {
    if s != "" {
      TrimStartBlank(s[1..]);
      assert Blank(s) ==> Blank(s[1..]);
      assert IsSpace(s[0]) && Blank(s[1..]) ==> Blank(s);
    }
  }

  lemma {:induction false} TrimEndBlank(s: string)
    ensures TrimEnd(s) == "" <==> Blank(s)
    decreases |s|
  {
    if s != "" {
      TrimEndBlank(s[..|s| - 1]);
      assert Blank(s) ==> Blank(s[..|s| - 1]);
    }
  }

  /** Trimming leaves nothing exactly when the text is blank. */
  lemma TrimBlank(s: string)
    ensures Trim(s) == "" <==> Blank(s)
  {
    TrimStartBlank(s);
    TrimEndBlank(TrimStart(s));
    TrimStartBlank(TrimStart(s));
    assert TrimStart(s) != "" ==> !Blank(TrimStart(s));
  }

  /** Trimming cuts blanks off both ends and nothing else. */
  lemma TrimExactly(s: string) returns (before: string, after: string)
    ensures s == before + Trim(s) + after && Blank(before) && Blank(after)
    ensures Trim(s) != "" ==> !IsSpace(Trim(s)[0]) && !IsSpace(Trim(s)[|Trim(s)| - 1])
  {
    hide Trim, TrimStart, TrimEnd;
    before := CutStart(s);
    after := CutEnd(TrimStart(s));
    TrimIsBoth(s);
    if Trim(s) != "" {
      assert Trim(s)[0] == TrimStart(s)[0];
    }
  }

  lemma TrimIsBoth(s: string)
    ensures Trim(s) == TrimEnd(TrimStart(s))
  {
  }

  lemma {:induction false} CutStart(s: string) returns (before: string)
    ensures s == before + TrimStart(s) && Blank(before)
    ensures TrimStart(s) != "" ==> !IsSpace(TrimStart(s)[0])
    decreases |s|
  {
    before := "";
    if s != "" && IsSpace(s[0]) {
      var rest := CutStart(s[1..]);
      before := [s[0]] + rest;
    }
  }

  lemma {:induction false} CutEnd(s: string) returns (after: string)
    ensures s == TrimEnd(s) + after && Blank(after)
    ensures TrimEnd(s) != "" ==> !IsSpace(TrimEnd(s)[|TrimEnd(s)| - 1])
    decreases |s|
  {
    after := "";
    if s != "" && IsSpace(s[|s| - 1]) {
      var rest := CutEnd(s[..|s| - 1]);
      after := rest + [s[|s| - 1]];
    }
  }

  /** The white space and line terminators of ECMAScript, by code point. */
  lemma SpaceCodes(c: char)
    ensures IsSpace(c) <==> var n := c as int;
      || 9 <= n <= 13 || n == 32 || n == 160 || n == 5760 || 8192 <= n <= 8202
      || n == 8232 || n == 8233 || n == 8239 || n == 8287 || n == 12288 || n == 65279
  {
  }

  // --------------------------------------------------------------------- lines

  /** The lines that are handed on: trimmed, without the blank ones. */
  function Kept(lines: seq<string>): seq<string> {
    if lines == [] then [] else (if Trim(lines[0]) == "" then [] else [Trim(lines[0])]) + Kept(lines[1..])
  }

  function Lines(s: string): seq<string> {
    Kept(Split(s, '\n'))
  }

  lemma {:induction false} KeptConcat(a: seq<string>, b: seq<string>)
    ensures Kept(a + b) == Kept(a) + Kept(b)
  {
    if a == [] {
      assert a + b == b;
    } else {
      assert (a + b)[0] == a[0] && (a + b)[1..] == a[1..] + b;
      KeptConcat(a[1..], b);
    }
  }

  lemma LinesAtNewline(a: string, b: string)
    ensures Lines(a + "\n" + b) == Lines(a) + Lines(b)
  {
    SplitConcat(a, '\n', b);
    KeptConcat(Split(a, '\n'), Split(b, '\n'));
  }

  /** A blank line ends a frame: the text before it and the text after it can be read separately. */
  lemma LinesAtFrameEnd(a: string, b: string)
    ensures Lines(a + "\n\n" + b) == Lines(a) + Lines(b)
  {
    hide Lines;
    assert a + "\n\n" + b == a + "\n" + ("" + "\n" + b);
    LinesAtNewline(a, "" + "\n" + b);
    LinesAtNewline("", b);
    NoLines();
    assert [] + Lines(b) == Lines(b);
  }

  lemma NoLines()
    ensures Lines("") == []
  {
    assert Split("", '\n') == [""] && [""][1..] == [];
    assert Kept([""]) == [] + Kept([]);
  }

  lemma {:induction false} BlankHasNoLines(s: string)
    requires Blank(s)
    ensures Lines(s) == []
    decreases |s|
  {
    var k := IndexOf(s, '\n');
    TrimBlank(s[..k]);
    if k == |s| {
      assert s[..k] == s && Split(s, '\n') == [s];
      assert [s][1..] == [] && Kept([s]) == [] + Kept([]);
    } else {
      BlankHasNoLines(s[k + 1..]);
      var lines := Split(s, '\n');
      assert lines[0] == s[..k] && lines[1..] == Split(s[k + 1..], '\n');
    }
  }

  // -------------------------------------------------------------------- events

  /** A JSON value as far as `finalResult === null` can tell. */
  datatype Json = Null | Undefined | Value(text: string)

  /** What `JSON.parse` makes of a data line; `Null` is the literal `null`, whose `.type` cannot be read. */
  datatype Event =
    | Malformed
    | NullEvent
    | Stage
    | Task
    | Done(result: Json)
    | Failure(message: Option<string>)
    | Other

  type Parser = string -> Event

  datatype Client = Client(finalResult: Json, streamError: string, pipelineStarted: bool, crashed: bool)

  const FRESH := Client(Null, "", false, false)

  const DEFAULT_ERROR := "The Executive Agent encountered an error."

  predicate IsData(raw: string) {
    "data:" <= raw
  }

  predicate Recognised(parse: Parser, raw: string) {
    IsData(raw) && var e := parse(Trim(raw[5..])); e.Stage? || e.Task? || e.Done? || e.Failure?
  }

  /** Reading `.type` of `null` throws out of `runCommandStream`. */
  predicate Crashes(parse: Parser, raw: string) {
    IsData(raw) && parse(Trim(raw[5..])).NullEvent?
  }

  /** A recognised line is "data:" followed by a stage, task, done or error event. */
  lemma RecognisedExactly(parse: Parser, raw: string)
    ensures Recognised(parse, raw) <==> exists x :: raw == "data:" + x && parse(Trim(x)) !in {Malformed, NullEvent, Other}
    ensures Crashes(parse, raw) <==> exists x :: raw == "data:" + x && parse(Trim(x)) == NullEvent
  {
    hide Trim;
    if IsData(raw) {
      assert raw == "data:" + raw[5..];
    }
    assert forall x: string :: ("data:" + x)[5..] == x;
  }

  /** `handleEvent` */
  function HandleEvent(parse: Parser, st: Client, raw: string): Client {
    if st.crashed || !IsData(raw) then st else
      match parse(Trim(raw[5..]))
      case Malformed => st
      case NullEvent => st.(crashed := true)
      case Stage => st.(pipelineStarted := true)
      case Task => st.(pipelineStarted := true)
      case Done(result) => st.(pipelineStarted := true, finalResult := result)
      case Failure(message) =>
        st.(pipelineStarted := true, streamError := if message.Some? then message.value else DEFAULT_ERROR)
      case Other => st
  }

  function HandleAll(parse: Parser, st: Client, lines: seq<string>): Client
    decreases lines
  {
    if lines == [] then st else HandleAll(parse, HandleEvent(parse, st, lines[0]), lines[1..])
  }

  lemma {:induction false} HandleConcat(parse: Parser, st: Client, a: seq<string>, b: seq<string>)
    ensures HandleAll(parse, st, a + b) == HandleAll(parse, HandleAll(parse, st, a), b)
    decreases a
  {
    if a == [] {
      assert a + b == b;
    } else {
      assert (a + b)[0] == a[0] && (a + b)[1..] == a[1..] + b;
      HandleConcat(parse, HandleEvent(parse, st, a[0]), a[1..], b);
    }
  }

  /** How a call of `runCommandStream` ends; `Escaped` is any exception other than a CommandStreamError. */
  datatype Outcome =
    | Resolved(result: Json)
    | StreamError(pipelineStarted: bool)
    | Escaped

  /** The code after the read loop; an empty error message is no error. */
  function Conclude(st: Client): Outcome {
    if st.crashed then Escaped
    else if st.streamError != "" then StreamError(st.pipelineStarted)
    else if st.finalResult == Null then StreamError(st.pipelineStarted)
    else Resolved(st.finalResult)
  }

  /** The outcome as a function of the whole text. */
  function OutcomeOf(parse: Parser, text: string): Outcome {
    Conclude(HandleAll(parse, FRESH, Lines(text)))
  }

  // ------------------------------------------------------------ the read loop

  function FrameEnd(s: string): (k: nat)
    ensures k + 1 < |s| ==> s[k] == '\n' && s[k + 1] == '\n'
    ensures k + 1 < |s| || (k == |s| && forall i :: 0 <= i < |s| - 1 ==> !(s[i] == '\n' && s[i + 1] == '\n'))
    decreases |s|
  {
    if |s| < 2 then |s|
    else if s[0] == '\n' && s[1] == '\n' then 0
    else 1 + FrameEnd(s[1..])
  }

  function Concat(chunks: seq<string>): string {
    if chunks == [] then "" else chunks[0] + Concat(chunks[1..])
  }

  /** What is handed to `handleEvent`: a line that makes it throw is the last one. */
  function UpToCrash(parse: Parser, lines: seq<string>): seq<string> {
    if lines == [] then [] else [lines[0]] + if Crashes(parse, lines[0]) then [] else UpToCrash(parse, lines[1..])
  }

  /** Handling stops at a crash, which is what skipping all later lines amounts to. */
  lemma {:induction false} HandledUpToCrash(parse: Parser, st: Client, lines: seq<string>)
    requires !st.crashed
    ensures HandleAll(parse, st, UpToCrash(parse, lines)) == HandleAll(parse, st, lines)
    decreases lines
  {
    if lines != [] {
      var raw, rest := lines[0], lines[1..];
      var st' := HandleEvent(parse, st, raw);
      if Crashes(parse, raw) {
        CrashStays(parse, st', rest);
        assert [raw] + [] == [raw] && [raw][1..] == [];
      } else {
        HandledUpToCrash(parse, st', rest);
        var more := UpToCrash(parse, rest);
        assert ([raw] + more)[1..] == more;
      }
    }
  }

  lemma {:induction false} UpToCrashConcat(parse: Parser, a: seq<string>, b: seq<string>)
    ensures UpToCrash(parse, a + b) == if AnyCrash(parse, a) then UpToCrash(parse, a) else a + UpToCrash(parse, b)
    ensures !AnyCrash(parse, a) ==> UpToCrash(parse, a) == a
    decreases a
  {
    hide Crashes;
    if a == [] {
      assert a + b == b && [] + UpToCrash(parse, b) == UpToCrash(parse, b);
    } else {
      var first, rest := a[0], a[1..];
      assert (a + b)[0] == first && (a + b)[1..] == rest + b && a == [first] + rest;
      UpToCrashConcat(parse, rest, b);
      if !Crashes(parse, first) && !AnyCrash(parse, rest) {
        Assoc([first], rest, UpToCrash(parse, b));
      }
    }
  }

  predicate AnyCrash(parse: Parser, lines: seq<string>) {
    lines != [] && (Crashes(parse, lines[0]) || AnyCrash(parse, lines[1..]))
  }

  lemma {:induction false} CrashedMeansCrash(parse: Parser, st: Client, lines: seq<string>)
    requires !st.crashed
    ensures HandleAll(parse, st, lines).crashed <==> AnyCrash(parse, lines)
    decreases lines
  {
    if lines != [] {
      var st' := HandleEvent(parse, st, lines[0]);
      if Crashes(parse, lines[0]) {
        CrashStays(parse, st', lines[1..]);
      } else {
        CrashedMeansCrash(parse, st', lines[1..]);
      }
    }
  }

  /** What has been handled, in which state, of which text: complete up to a crash. */
  ghost predicate Progress(parse: Parser, st: Client, handled: seq<string>, lines: seq<string>) {
    && handled == UpToCrash(parse, lines)
    && st == HandleAll(parse, FRESH, handled)
    && (st.crashed <==> AnyCrash(parse, lines))
  }

  /** Handling some further lines after all lines so far. */
  lemma ProgressConcat(parse: Parser, st: Client, handled: seq<string>, lines: seq<string>, st': Client, frame: seq<string>)
    requires Progress(parse, st, handled, lines) && !st.crashed && st' == HandleAll(parse, st, UpToCrash(parse, frame))
    ensures Progress(parse, st', handled + UpToCrash(parse, frame), lines + frame)
  {
    UpToCrashConcat(parse, lines, frame);
    HandleConcat(parse, FRESH, handled, UpToCrash(parse, frame));
    HandledUpToCrash(parse, FRESH, lines + frame);
    CrashedMeansCrash(parse, FRESH, lines + frame);
  }

  /** Nothing is handled after a crash. */
  lemma ProgressCrashed(parse: Parser, st: Client, handled: seq<string>, lines: seq<string>, more: seq<string>)
    requires Progress(parse, st, handled, lines) && st.crashed
    ensures Progress(parse, st, handled, lines + more)
  {
    UpToCrashConcat(parse, lines, more);
    HandledUpToCrash(parse, FRESH, lines + more);
    CrashedMeansCrash(parse, FRESH, lines + more);
  }

  lemma NothingHandled(parse: Parser)
    ensures Progress(parse, FRESH, [], [])
  {
  }

  /** The inner loop: hand on the non-blank trimmed lines of one frame, until one of them throws. */
  method HandleFrame(parse: Parser, st: Client, frame: string) returns (st': Client, ghost handled: seq<string>)
    requires !st.crashed
    ensures handled == UpToCrash(parse, Lines(frame)) && st' == HandleAll(parse, st, handled)
    ensures st' == HandleAll(parse, st, Lines(frame))
  {
    hide HandleAll, HandleEvent, UpToCrash, Kept, Crashes, Trim;
    st', handled := st, [];
    HandledUpToCrash(parse, st, Lines(frame));
    var lines := Split(frame, '\n');
    assert lines[0..] == lines;
    OneLine(parse, st, [], [], lines);
    for i := 0 to |lines|
      invariant !st'.crashed && st' == HandleAll(parse, st, handled)
      invariant handled + UpToCrash(parse, Kept(lines[i..])) == UpToCrash(parse, Kept(lines))
    {
      Rest(lines, i);
      var line := Trim(lines[i]);
      KeptStep(lines[i..]);
      if |line| > 0 {
        NextHandled(parse, st, st', handled, line, Kept(lines[i + 1..]));
        handled := handled + [line];
        st' := HandleEvent(parse, st', line);
        if st'.crashed {
          return;
        }
      }
    }
    OneLine(parse, st', handled, lines[|lines|..], lines);
  }

  lemma OneLine(parse: Parser, st: Client, handled: seq<string>, none: seq<string>, lines: seq<string>)
    requires none == []
    ensures HandleAll(parse, st, []) == st
    ensures Kept(none) == [] && handled + UpToCrash(parse, []) == handled
    ensures [] + UpToCrash(parse, Kept(lines)) == UpToCrash(parse, Kept(lines))
  {
  }

  lemma KeptStep(lines: seq<string>)
    requires lines != []
    ensures Kept(lines) == if Trim(lines[0]) == "" then Kept(lines[1..]) else [Trim(lines[0])] + Kept(lines[1..])
  {
    hide Trim;
    assert [] + Kept(lines[1..]) == Kept(lines[1..]);
  }

  /** One call of `handleEvent`. */
  lemma NextHandled(parse: Parser, st: Client, now: Client, handled: seq<string>, line: string, rest: seq<string>)
    requires !now.crashed && now == HandleAll(parse, st, handled)
    ensures HandleEvent(parse, now, line) == HandleAll(parse, st, handled + [line])
    ensures HandleEvent(parse, now, line).crashed <==> Crashes(parse, line)
    ensures handled + UpToCrash(parse, [line] + rest)
         == (handled + [line]) + if Crashes(parse, line) then [] else UpToCrash(parse, rest)
  {
    HandleConcat(parse, st, handled, [line]);
    assert [line][1..] == [] && HandleAll(parse, HandleEvent(parse, now, line), []) == HandleEvent(parse, now, line);
    assert ([line] + rest)[1..] == rest;
    Assoc(handled, [line], if Crashes(parse, line) then [] else UpToCrash(parse, rest));
  }

  /**
   The read loop with its trailing flush.  However the text is cut into chunks, the lines handed
   to `handleEvent` are exactly the non-blank trimmed lines of the whole text, in order; only if
   one of them makes it throw are the later ones not reached.
   */
  method ReadStream(parse: Parser, chunks: seq<string>) returns (r: Outcome, ghost handled: seq<string>)
    ensures handled == UpToCrash(parse, Lines(Concat(chunks)))
    ensures !SomeCrash(parse, Lines(Concat(chunks))) ==> handled == Lines(Concat(chunks))
    ensures r == Conclude(HandleAll(parse, FRESH, handled))
    ensures r == OutcomeOf(parse, Concat(chunks))
  {
    hide HandleAll, Lines, Blank, Trim, OutcomeOf, Conclude, UpToCrash, Progress, SomeCrash;
    var buffer := "";
    var st := FRESH;
    handled := [];
    ghost var text := Concat(chunks);
    // the lines of the text that has left the buffer
    ghost var read: seq<string> := [];
    NothingHandled(parse);
    assert chunks[0..] == chunks && "" + text == text && [] + Lines(text) == Lines(text);
    for n := 0 to |chunks|
      invariant !st.crashed && Progress(parse, st, handled, read)
      invariant read + Lines(buffer + Concat(chunks[n..])) == Lines(text)
    {
      ghost var rest := Concat(chunks[n + 1..]);
      Rest(chunks, n);
      Assoc(buffer, chunks[n], rest);
      buffer := buffer + chunks[n];
      var sep := FrameEnd(buffer);
      while sep < |buffer|
        invariant sep == FrameEnd(buffer)
        invariant !st.crashed && Progress(parse, st, handled, read)
        invariant read + Lines(buffer + rest) == Lines(text)
        decreases |buffer|
      {
        var frame := buffer[..sep];
        ghost var after := buffer[sep + 2..];
        TakeFrame(buffer, sep, rest);
        Assoc(read, Lines(frame), Lines(after + rest));
        ghost var before := st;
        ghost var more: seq<string>;
        st, more := HandleFrame(parse, st, frame);
        ProgressConcat(parse, before, handled, read, st, Lines(frame));
        handled, read := handled + more, read + Lines(frame);
        if st.crashed {
          ProgressCrashed(parse, st, handled, read, Lines(after + rest));
          r := Escaped;
          Finished(parse, st, handled, text);
          return;
        }
        buffer := buffer[sep + 2..];
        sep := FrameEnd(buffer);
      }
    }
    assert chunks[|chunks|..] == [] && Concat([]) == "" && buffer + "" == buffer;
    TrimBlank(buffer);
    if |Trim(buffer)| > 0 {
      ghost var before := st;
      ghost var more: seq<string>;
      st, more := HandleFrame(parse, st, buffer);
      ProgressConcat(parse, before, handled, read, st, Lines(buffer));
      handled := handled + more;
    } else {
      BlankHasNoLines(buffer);
      assert read + [] == read;
    }
    r := Conclude(st);
    Finished(parse, st, handled, text);
  }

  lemma TakeFrame(buffer: string, sep: nat, rest: string)
    requires sep + 1 < |buffer| && buffer[sep] == '\n' && buffer[sep + 1] == '\n'
    ensures Lines(buffer + rest) == Lines(buffer[..sep]) + Lines(buffer[sep + 2..] + rest)
  {
    hide Lines;
    var frame, after := buffer[..sep], buffer[sep + 2..];
    assert buffer == frame + "\n\n" + after;
    assert buffer + rest == frame + "\n\n" + (after + rest);
    LinesAtFrameEnd(frame, after + rest);
  }

  /** All lines handled, up to a crash: the outcome is that of the whole text. */
  lemma Finished(parse: Parser, st: Client, handled: seq<string>, text: string)
    requires Progress(parse, st, handled, Lines(text))
    ensures handled == UpToCrash(parse, Lines(text))
    ensures !SomeCrash(parse, Lines(text)) ==> handled == Lines(text)
    ensures st == HandleAll(parse, FRESH, handled)
    ensures Conclude(st) == Conclude(HandleAll(parse, FRESH, handled)) == OutcomeOf(parse, text)
    ensures st.crashed ==> Conclude(st) == Escaped
  {
    hide HandleAll, Lines;
    HandledUpToCrash(parse, FRESH, Lines(text));
    UpToCrashConcat(parse, Lines(text), []);
    CrashMembers(parse, Lines(text));
  }

  lemma {:induction false} CrashMembers(parse: Parser, lines: seq<string>)
    ensures AnyCrash(parse, lines) <==> SomeCrash(parse, lines)
  {
    if lines != [] {
      CrashMembers(parse, lines[1..]);
      assert forall line :: line in lines <==> line == lines[0] || line in lines[1..];
    }
  }

  /** A missing final blank line, or any other blank text at the end, makes no difference. */
  lemma FinalBlankLine(parse: Parser, text: string, blank: string)
    requires Blank(blank) && blank != "" && blank[0] == '\n'
    ensures Lines(text + blank) == Lines(text)
    ensures OutcomeOf(parse, text + blank) == OutcomeOf(parse, text)
  {
    hide Lines;
    var rest := blank[1..];
    assert text + blank == text + "\n" + rest;
    LinesAtNewline(text, rest);
    BlankHasNoLines(rest);
    assert Lines(text) + [] == Lines(text);
  }

  // ------------------------------------------------------- has the pipeline run?

  predicate SomeEvent(parse: Parser, lines: seq<string>) {
    exists line :: line in lines && Recognised(parse, line)
  }

  predicate SomeCrash(parse: Parser, lines: seq<string>) {
    exists line :: line in lines && Crashes(parse, line)
  }

  /** While nothing throws, `pipelineStarted` records exactly whether a recognised event was read. */
  lemma {:induction false} StartedMeansRecognised(parse: Parser, st: Client, lines: seq<string>)
    requires !st.crashed
    ensures HandleAll(parse, st, lines).crashed <==> SomeCrash(parse, lines)
    ensures !SomeCrash(parse, lines) ==>
      (HandleAll(parse, st, lines).pipelineStarted <==> st.pipelineStarted || SomeEvent(parse, lines))
    decreases lines
  {
    if lines != [] {
      var raw, rest := lines[0], lines[1..];
      assert forall line :: line in lines <==> line == raw || line in rest;
      assert SomeCrash(parse, lines) <==> Crashes(parse, raw) || SomeCrash(parse, rest);
      assert SomeEvent(parse, lines) <==> Recognised(parse, raw) || SomeEvent(parse, rest);
      if Crashes(parse, raw) {
        CrashStays(parse, HandleEvent(parse, st, raw), rest);
      } else {
        StartedMeansRecognised(parse, HandleEvent(parse, st, raw), rest);
      }
    }
  }

  lemma {:induction false} CrashStays(parse: Parser, st: Client, lines: seq<string>)
    requires st.crashed
    ensures HandleAll(parse, st, lines) == st
    decreases lines
  {
    if lines != [] {
      CrashStays(parse, st, lines[1..]);
    }
  }

  /**
   The error that allows a second request is thrown exactly when the stream ended without any
   stage, task, done or error event and nothing threw on the way.
   */
  lemma RetryableMeansNoEvent(parse: Parser, text: string)
    ensures OutcomeOf(parse, text) == StreamError(false) <==> !SomeEvent(parse, Lines(text)) && !SomeCrash(parse, Lines(text))
  {
    StartedMeansRecognised(parse, FRESH, Lines(text));
    NoEventNoResult(parse, FRESH, Lines(text));
  }

  lemma {:induction false} NoEventNoResult(parse: Parser, st: Client, lines: seq<string>)
    ensures !HandleAll(parse, st, lines).pipelineStarted ==>
      HandleAll(parse, st, lines).finalResult == st.finalResult && HandleAll(parse, st, lines).streamError == st.streamError
    ensures st.pipelineStarted ==> HandleAll(parse, st, lines).pipelineStarted
    decreases lines
  {
    if lines != [] {
      NoEventNoResult(parse, HandleEvent(parse, st, lines[0]), lines[1..]);
    }
  }

  /** More text never takes an event back once its line is complete. */
  lemma EventStays(parse: Parser, received: string, more: string)
    requires SomeEvent(parse, Lines(received))
    ensures SomeEvent(parse, Lines(received + "\n" + more))
  {
    LinesAtNewline(received, more);
    var line :| line in Lines(received) && Recognised(parse, line);
    assert line in Lines(received + "\n" + more);
  }

  // --------------------------------------------------------- how a call ends

  /** The result of the last done event, if there is one. */
  function LastDone(parse: Parser, lines: seq<string>): Option<Json> {
    if lines == [] then None
    else
      var last := lines[|lines| - 1];
      if IsData(last) && parse(Trim(last[5..])).Done? then Some(parse(Trim(last[5..])).result)
      else LastDone(parse, lines[..|lines| - 1])
  }

  /** The message of the last error event, if there is one. */
  function LastError(parse: Parser, lines: seq<string>): Option<string> {
    if lines == [] then None
    else
      var last := lines[|lines| - 1];
      if IsData(last) && parse(Trim(last[5..])).Failure? then
        var message := parse(Trim(last[5..])).message;
        Some(if message.Some? then message.value else DEFAULT_ERROR)
      else LastError(parse, lines[..|lines| - 1])
  }

  /** Line k is the last line with a done event, and carries this result. */
  ghost predicate DoneLast(parse: Parser, lines: seq<string>, k: nat, result: Json) {
    k < |lines| && EventAt(parse, lines, k) == Done(result)
    && forall j :: k < j < |lines| ==> !EventAt(parse, lines, j).Done?
  }

  /** Line k is the last line with an error event, and this is its message. */
  ghost predicate ErrorLast(parse: Parser, lines: seq<string>, k: nat, message: string) {
    k < |lines| && MessageOf(EventAt(parse, lines, k)) == Some(message)
    && forall j :: k < j < |lines| ==> MessageOf(EventAt(parse, lines, j)) == None
  }

  /** The message of an error event; one without a message has a default. */
  ghost function MessageOf(e: Event): Option<string> {
    match e
    case Failure(Some(message)) => Some(message)
    case Failure(None) => Some("The Executive Agent encountered an error.")
    case _ => None
  }

  /** The event of a line; a line without data is like one that says something else. */
  ghost function EventAt(parse: Parser, lines: seq<string>, k: int): Event
    requires 0 <= k < |lines|
  {
    if |lines[k]| >= 5 && lines[k][..5] == "data:" then parse(Trim(lines[k][5..])) else Other
  }

  lemma {:induction false} LastDoneExactly(parse: Parser, lines: seq<string>, result: Json)
    ensures LastDone(parse, lines) == Some(result) <==> exists k: nat :: DoneLast(parse, lines, k, result)
    decreases |lines|
  {
    hide Trim;
    if lines != [] {
      var n := |lines| - 1;
      var init := lines[..n];
      LastDoneExactly(parse, init, result);
      assert forall k :: 0 <= k < n ==> EventAt(parse, lines, k) == EventAt(parse, init, k);
      assert IsData(lines[n]) <==> |lines[n]| >= 5 && lines[n][..5] == "data:";
      if EventAt(parse, lines, n).Done? {
        assert DoneLast(parse, lines, n, EventAt(parse, lines, n).result);
      } else {
        assert forall k: nat :: DoneLast(parse, lines, k, result) <==> DoneLast(parse, init, k, result);
      }
    }
  }

  lemma {:induction false} LastErrorExactly(parse: Parser, lines: seq<string>, message: string)
    ensures LastError(parse, lines) == Some(message) <==> exists k: nat :: ErrorLast(parse, lines, k, message)
    decreases |lines|
  {
    if lines != [] {
      var n := |lines| - 1;
      var init := lines[..n];
      LastErrorExactly(parse, init, message);
      LastErrorStep(parse, lines);
      assert forall k :: 0 <= k < n ==> EventAt(parse, lines, k) == EventAt(parse, init, k);
      hide LastError, EventAt, MessageOf;
      if MessageOf(EventAt(parse, lines, n)) == None {
        assert forall k: nat :: ErrorLast(parse, lines, k, message) <==> ErrorLast(parse, init, k, message);
      } else {
        assert LastError(parse, lines) == Some(message) <==> ErrorLast(parse, lines, n, message);
      }
    }
  }

  lemma LastErrorStep(parse: Parser, lines: seq<string>)
    requires lines != []
    ensures var message := MessageOf(EventAt(parse, lines, |lines| - 1));
      LastError(parse, lines) == if message == None then LastError(parse, lines[..|lines| - 1]) else message
  {
    hide Trim;
    var last := lines[|lines| - 1];
    assert IsData(last) <==> |last| >= 5 && last[..5] == "data:";
  }

  lemma HandleLast(parse: Parser, st: Client, lines: seq<string>)
    requires lines != []
    ensures HandleAll(parse, st, lines) == HandleEvent(parse, HandleAll(parse, st, lines[..|lines| - 1]), lines[|lines| - 1])
  {
    var init, last := lines[..|lines| - 1], lines[|lines| - 1];
    assert lines == init + [last] && [last][1..] == [];
    HandleConcat(parse, st, init, [last]);
    var before := HandleAll(parse, st, init);
    assert HandleAll(parse, before, [last]) == HandleAll(parse, HandleEvent(parse, before, last), []);
  }

  lemma {:induction false} StateMeansLast(parse: Parser, lines: seq<string>)
    ensures var st := HandleAll(parse, FRESH, lines);
      !st.crashed ==>
        && st.finalResult == (if LastDone(parse, lines).Some? then LastDone(parse, lines).value else Null)
        && st.streamError == (if LastError(parse, lines).Some? then LastError(parse, lines).value else "")
    decreases |lines|
  {
    hide HandleAll, Trim;
    if lines == [] {
      HandleNothing(parse, FRESH);
    } else {
      HandleLast(parse, FRESH, lines);
      StateMeansLast(parse, lines[..|lines| - 1]);
    }
  }

  lemma HandleNothing(parse: Parser, st: Client)
    ensures HandleAll(parse, st, []) == st
  {
  }

  /**
   Exactly when a call resolves, and with what: nothing throws, the last done event carries a
   result other than null, and the last error event, if any, has an empty message.
   */
  lemma ResolvesExactly(parse: Parser, text: string, result: Json)
    ensures var lines := Lines(text);
      OutcomeOf(parse, text) == Resolved(result) <==>
        && !SomeCrash(parse, lines)
        && result != Null && LastDone(parse, lines) == Some(result)
        && (LastError(parse, lines) == None || LastError(parse, lines) == Some(""))
  {
    hide Lines, HandleAll, LastDone, LastError;
    StartedMeansRecognised(parse, FRESH, Lines(text));
    StateMeansLast(parse, Lines(text));
  }

  /** And exactly when an exception other than a stream error leaves the call. */
  lemma EscapesExactly(parse: Parser, text: string)
    ensures OutcomeOf(parse, text) == Escaped <==> SomeCrash(parse, Lines(text))
  {
    hide Lines, HandleAll;
    StartedMeansRecognised(parse, FRESH, Lines(text));
  }

  /** The last done event carries a result other than null, and no error event with a message counts. */
  predicate HasResult(parse: Parser, lines: seq<string>) {
    LastDone(parse, lines) != None && LastDone(parse, lines) != Some(Null)
    && (LastError(parse, lines) == None || LastError(parse, lines) == Some(""))
  }

  /** So a call that ends without a result has started exactly if there was an event. */
  lemma OutcomeCases(parse: Parser, text: string)
    ensures var lines := Lines(text);
      OutcomeOf(parse, text) ==
        if SomeCrash(parse, lines) then Escaped
        else if HasResult(parse, lines) then Resolved(LastDone(parse, lines).value)
        else StreamError(SomeEvent(parse, lines))
  {
    hide Lines, HandleAll, LastDone, LastError, SomeCrash, SomeEvent;
    StartedMeansRecognised(parse, FRESH, Lines(text));
    StateMeansLast(parse, Lines(text));
  }

  /** Such as the literal null. */
  lemma NullEscapes(parse: Parser)
    requires parse("null") == NullEvent
    ensures OutcomeOf(parse, "data:null\n\n") == Escaped
  {
    OneNullLine();
    hide Lines, Trim;
    assert "data:null"[5..] == "null" && Trim("null") == "null";
    assert "data:null" in Lines("data:null\n\n") && Crashes(parse, "data:null");
    EscapesExactly(parse, "data:null\n\n");
  }

  lemma OneNullLine()
    ensures Lines("data:null\n\n") == ["data:null"] && Trim("null") == "null"
  {
    hide Lines;
    TrimNull();
    hide Trim;
    assert "data:null\n\n" == "data:null" + "\n\n" + "";
    LinesAtFrameEnd("data:null", "");
    BlankHasNoLines("");
    OneTrimmedLine("data:null");
  }

  lemma TrimNull()
    ensures Trim("data:null") == "data:null" && Trim("null") == "null"
  {
  }

  /** An error event with an empty message does not keep a later, or earlier, result from counting. */
  lemma EmptyErrorIsIgnored(parse: Parser, result: Json)
    requires parse("e") == Failure(Some("")) && parse("d") == Done(result) && result != Null
    ensures HandleAll(parse, FRESH, ["data:e", "data:d"]) == Client(result, "", true, false)
    ensures OutcomeOf(parse, "data:e\n\ndata:d\n\n") == Resolved(result)
  {
    ErrorThenDone();
    TrimLetters();
    var st := Client(Null, "", true, false);
    HandleEmptyError(parse);
    HandleDone(parse, st, result);
    hide HandleEvent, Lines, OutcomeOf;
    TwoLines(parse, FRESH, "data:e", "data:d");
    Concludes(parse, "data:e\n\ndata:d\n\n");
  }

  lemma Concludes(parse: Parser, text: string)
    ensures OutcomeOf(parse, text) == Conclude(HandleAll(parse, FRESH, Lines(text)))
  {
  }

  lemma TwoLines(parse: Parser, st: Client, a: string, b: string)
    ensures HandleAll(parse, st, [a, b]) == HandleEvent(parse, HandleEvent(parse, st, a), b)
  {
    hide HandleEvent;
    var lines, s1 := [a, b], HandleEvent(parse, st, a);
    assert lines[1..] == [b] && [b][1..] == [];
    assert HandleAll(parse, st, lines) == HandleAll(parse, s1, [b]);
    assert HandleAll(parse, s1, [b]) == HandleAll(parse, HandleEvent(parse, s1, b), []);
  }

  lemma HandleEmptyError(parse: Parser)
    requires parse("e") == Failure(Some(""))
    ensures HandleEvent(parse, FRESH, "data:e") == Client(Null, "", true, false)
  {
    hide Trim;
    TrimLetters();
    assert "data:e"[5..] == "e";
  }

  lemma HandleDone(parse: Parser, st: Client, result: Json)
    requires parse("d") == Done(result) && !st.crashed
    ensures HandleEvent(parse, st, "data:d") == st.(pipelineStarted := true, finalResult := result)
  {
    hide Trim;
    TrimLetters();
    assert "data:d"[5..] == "d";
  }

  lemma TrimLetters()
    ensures Trim("e") == "e" && Trim("d") == "d" && Trim("data:e") == "data:e" && Trim("data:d") == "data:d"
  {
  }

  lemma ErrorThenDone()
    ensures Lines("data:e\n\ndata:d\n\n") == ["data:e", "data:d"]
  {
    hide Lines, Trim;
    var text: string := "data:d\n\n";
    assert "data:e\n\ndata:d\n\n" == "data:e" + "\n\n" + text && text == "data:d" + "\n\n" + "";
    LinesAtFrameEnd("data:e", text);
    LinesAtFrameEnd("data:d", "");
    BlankHasNoLines("");
    TrimLetters();
    OneTrimmedLine("data:e");
    OneTrimmedLine("data:d");
  }

  lemma OneTrimmedLine(line: string)
    requires '\n' !in line && Trim(line) == line != ""
    ensures Lines(line) == [line]
  {
    TrimBlank(line);
    LineExactly(line);
  }

  /** A line is handed on trimmed, unless it is blank. */
  lemma LineExactly(line: string)
    requires '\n' !in line
    ensures Lines(line) == if Blank(line) then [] else [Trim(line)]
  {
    hide Trim;
    TrimBlank(line);
    SplitOne(line, '\n');
    var lines := [line];
    assert lines[1..] == [] && Kept(lines[1..]) == [];
    assert Kept(lines) == (if Trim(line) == "" then [] else [Trim(line)]) + Kept(lines[1..]);
  }
}
