/**
 Line wrapping of tools/pdf_engine.js: `textWidth` and the greedy `wrap`.
 Lengths are real numbers; font sizes are not negative.
 */
module PdfWrap {
  import opened Sequences
  import opened Text

  /** Helvetica widths of the characters 32 to 126, in thousandths of an em, by rows of the ASCII table. */
  const WIDTHS: seq<nat> := ROW2 + (ROW3 + (ROW4 + (ROW5 + (ROW6 + ROW7))))

  const ROW2: seq<nat> := [278, 278, 355, 556, 556, 889, 667, 191, 333, 333, 389, 584, 278, 333, 278, 278]
  const ROW3: seq<nat> := [556, 556, 556, 556, 556, 556, 556, 556, 556, 556, 278, 278, 584, 584, 584, 556]
  const ROW4: seq<nat> := [1015, 667, 667, 722, 722, 667, 611, 778, 722, 278, 500, 667, 556, 833, 722, 778]
  const ROW5: seq<nat> := [667, 778, 722, 667, 611, 722, 667, 944, 667, 667, 611, 278, 278, 278, 469, 556]
  const ROW6: seq<nat> := [333, 556, 556, 500, 556, 556, 278, 556, 556, 222, 222, 500, 222, 833, 556, 556]
  const ROW7: seq<nat> := [556, 556, 333, 500, 278, 556, 500, 722, 500, 500, 500, 334, 260, 334, 584]

  function CharUnits(ch: char): nat {
    var c := ch as int;
    if 32 <= c <= 126 then WIDTHS[c - 32]
    else if c == 0x2013 || c == 0x2014 then 500
    else if c == 0x2022 then 350
    else if 0x2018 <= c <= 0x201d then 300
    else 556
  }

  // The widths in the Adobe font metrics of Helvetica, class by class within a row.

  lemma Row2Widths(c: char)
    ensures c in " !,./" ==> CharUnits(c) == 278
    ensures c in "\"" ==> CharUnits(c) == 355
    ensures c in "#$" ==> CharUnits(c) == 556
    ensures c in "%" ==> CharUnits(c) == 889
    ensures c in "&" ==> CharUnits(c) == 667
    ensures c in "'" ==> CharUnits(c) == 191
    ensures c in "()-" ==> CharUnits(c) == 333
    ensures c in "*" ==> CharUnits(c) == 389
    ensures c in "+" ==> CharUnits(c) == 584
  {
    RowAt(c, 2, ROW2);
    hide WIDTHS;
  }

  lemma Row3Widths(c: char)
    ensures c in "0123456789?" ==> CharUnits(c) == 556
    ensures c in ":;" ==> CharUnits(c) == 278
    ensures c in "<=>" ==> CharUnits(c) == 584
  {
    RowAt(c, 3, ROW3);
    hide WIDTHS;
  }

  lemma Row4Widths(c: char)
    ensures c in "@" ==> CharUnits(c) == 1015
    ensures c in "ABEK" ==> CharUnits(c) == 667
    ensures c in "CDHN" ==> CharUnits(c) == 722
    ensures c in "F" ==> CharUnits(c) == 611
    ensures c in "GO" ==> CharUnits(c) == 778
    ensures c in "I" ==> CharUnits(c) == 278
    ensures c in "J" ==> CharUnits(c) == 500
    ensures c in "L" ==> CharUnits(c) == 556
    ensures c in "M" ==> CharUnits(c) == 833
  {
    RowAt(c, 4, ROW4);
    hide WIDTHS;
  }

  lemma Row5Widths(c: char)
    ensures c in "PSVXY" ==> CharUnits(c) == 667
    ensures c in "Q" ==> CharUnits(c) == 778
    ensures c in "RU" ==> CharUnits(c) == 722
    ensures c in "TZ" ==> CharUnits(c) == 611
    ensures c in "W" ==> CharUnits(c) == 944
    ensures c in "[\\]" ==> CharUnits(c) == 278
    ensures c in "^" ==> CharUnits(c) == 469
    ensures c in "_" ==> CharUnits(c) == 556
  {
    RowAt(c, 5, ROW5);
    hide WIDTHS;
  }

  lemma Row6Widths(c: char)
    ensures c in "`" ==> CharUnits(c) == 333
    ensures c in "abdeghno" ==> CharUnits(c) == 556
    ensures c in "ck" ==> CharUnits(c) == 500
    ensures c in "f" ==> CharUnits(c) == 278
    ensures c in "ijl" ==> CharUnits(c) == 222
    ensures c in "m" ==> CharUnits(c) == 833
  {
    RowAt(c, 6, ROW6);
    hide WIDTHS;
  }

  lemma Row7Widths(c: char)
    ensures c in "pqu" ==> CharUnits(c) == 556
    ensures c in "r" ==> CharUnits(c) == 333
    ensures c in "svxyz" ==> CharUnits(c) == 500
    ensures c in "t" ==> CharUnits(c) == 278
    ensures c in "w" ==> CharUnits(c) == 722
    ensures c in "{}" ==> CharUnits(c) == 334
    ensures c in "|" ==> CharUnits(c) == 260
    ensures c in "~" ==> CharUnits(c) == 584
  {
    RowAt(c, 7, ROW7);
    hide WIDTHS;
  }

  lemma RowAt(c: char, row: nat, widths: seq<nat>)
    requires (row, widths) in {(2, ROW2), (3, ROW3), (4, ROW4), (5, ROW5), (6, ROW6), (7, ROW7)}
    ensures 16 * row <= c as int < 16 * row + |widths| ==> CharUnits(c) == widths[c as int - 16 * row]
  {
    RowLengths();
    hide ROW2, ROW3, ROW4, ROW5, ROW6, ROW7;
  }

  lemma RowLengths()
    ensures |ROW2| == |ROW3| == |ROW4| == |ROW5| == |ROW6| == 16 && |ROW7| == 15
  {
  }

  /** And of the characters beyond ASCII; the dashes and double quotes are wider than this in the font. */
  lemma OtherWidths(c: char)
    ensures c in "\U{2013}\U{2014}" ==> CharUnits(c) == 500
    ensures c == '\U{2022}' ==> CharUnits(c) == 350
    ensures c in "\U{2018}\U{2019}\U{201A}\U{201B}\U{201C}\U{201D}" ==> CharUnits(c) == 300
    ensures !(' ' <= c <= '~') && c !in "\U{2013}\U{2014}\U{2018}\U{2019}\U{201A}\U{201B}\U{201C}\U{201D}\U{2022}" ==>
      CharUnits(c) == 556
  {
  }

  function Units(s: string): nat {
    if s == "" then 0 else Units(s[..|s| - 1]) + CharUnits(s[|s| - 1])
  }

  function WidthOf(units: nat, size: real): real {
    units as real * size / 1000.0
  }

  /** A thousand units at size 1 are one point. */
  lemma WidthScale(units: nat, size: real)
    ensures 1000.0 * WidthOf(units, size) == units as real * size
  {
  }

  method TextWidth(s: string, size: real) returns (width: real)
    ensures width == WidthOf(Units(s), size)
  {
    hide CharUnits;
    var w := 0;
    for i := 0 to |s|
      invariant w == Units(s[..i])
    {
      assert s[..i + 1][..i] == s[..i];
      w := w + CharUnits(s[i]);
    }
    assert s[..|s|] == s;
    width := w as real * size / 1000.0;
  }

  lemma {:induction false} UnitsConcat(a: string, b: string)
    ensures Units(a + b) == Units(a) + Units(b)
    decreases |b|
  {
    if b == "" {
      assert a + b == a;
    } else {
      assert (a + b)[..|a + b| - 1] == a + b[..|b| - 1];
      UnitsConcat(a, b[..|b| - 1]);
    }
  }

  lemma WidthMonotone(a: nat, b: nat, size: real)
    requires a <= b && size >= 0.0
    ensures WidthOf(a, size) <= WidthOf(b, size)
  {
    var x, y := a as real, b as real;
    assert x * size <= y * size by {
      assert (y - x) * size >= 0.0;
    }
  }

  // ------------------------------------------------------------------- greedy

  /** The column a text has to fit. */
  datatype Column = Column(size: real, width: real)

  predicate Fits(col: Column, s: string) {
    WidthOf(Units(s), col.size) <= col.width
  }

  /** A text fits if it is no wider than the column; it may be as wide. */
  lemma FitsExactly(col: Column, s: string)
    ensures Fits(col, s) <==> Units(s) as real * col.size <= 1000.0 * col.width
  {
    hide Units;
  }

  /** `wrap` from the middle: the line being filled, and the words still to come. */
  function WrapFrom(col: Column, cur: string, words: seq<string>): seq<string>
    decreases words
  {
    if words == [] then (if cur != "" then [cur] else []) else
      var t := if cur != "" then cur + [' '] + words[0] else words[0];
      if Fits(col, t) || cur == "" then WrapFrom(col, t, words[1..]) else [cur] + WrapFrom(col, words[0], words[1..])
  }

  function Wrap(col: Column, text: string): seq<string> {
    WrapFrom(col, "", Split(text, ' '))
  }

  method WrapText(col: Column, text: string) returns (lines: seq<string>)
    ensures lines == Wrap(col, text)
  {
    var words := Split(text, ' ');
    lines := [];
    var curLine := "";
    for i := 0 to |words|
      invariant lines + WrapFrom(col, curLine, words[i..]) == Wrap(col, text)
    {
      var w := words[i];
      assert words[i..][0] == w && words[i..][1..] == words[i + 1..];
      var t := if curLine != "" then curLine + [' '] + w else w;
      var width := TextWidth(t, col.size);
      if width <= col.width || curLine == "" {
        curLine := t;
      } else {
        assert lines + ([curLine] + WrapFrom(col, w, words[i + 1..])) == (lines + [curLine]) + WrapFrom(col, w, words[i + 1..]);
        lines := lines + [curLine];
        curLine := w;
      }
    }
    if curLine != "" {
      lines := lines + [curLine];
    }
  }

  // ------------------------------------------------- every line fits, for any text

  predicate OneWord(line: string) {
    ' ' !in line
  }

  predicate Acceptable(col: Column, line: string) {
    Fits(col, line) || OneWord(line)
  }

  lemma {:induction false} WrappedLinesFit(col: Column, cur: string, words: seq<string>)
    requires Acceptable(col, cur) && forall i :: 0 <= i < |words| ==> OneWord(words[i])
    ensures forall line :: line in WrapFrom(col, cur, words) ==> Acceptable(col, line) && line != ""
    decreases words
  {
    if words != [] {
      var w, rest := words[0], words[1..];
      assert forall i :: 0 <= i < |rest| ==> rest[i] == words[i + 1];
      var t := if cur != "" then cur + [' '] + w else w;
      if Fits(col, t) || cur == "" {
        WrappedLinesFit(col, t, rest);
      } else {
        WrappedLinesFit(col, w, rest);
      }
    }
  }

  /** For any text whatever, no line is empty and each fits the column unless it is a single word. */
  lemma WrapFits(col: Column, text: string)
    ensures forall line :: line in Wrap(col, text) ==> Acceptable(col, line) && line != ""
  {
    WrappedLinesFit(col, "", Split(text, ' '));
  }

  // ------------------------------------------- no word is lost or moved, for any text

  /** The words of a text, not counting the empty ones between adjacent spaces. */
  function Words(s: string): seq<string> {
    NonEmpty(Split(s, ' '))
  }

  function WordsOfLines(lines: seq<string>): seq<string> {
    if lines == [] then [] else Words(lines[0]) + WordsOfLines(lines[1..])
  }

  lemma WordsOfWord(w: string)
    requires OneWord(w)
    ensures Words(w) == NonEmpty([w]) == if w == "" then [] else [w]
  {
    SplitOne(w, ' ');
    assert [w][1..] == [];
  }

  lemma {:induction false} WrapFromKeepsWords(col: Column, cur: string, words: seq<string>)
    requires forall i :: 0 <= i < |words| ==> OneWord(words[i])
    ensures WordsOfLines(WrapFrom(col, cur, words)) == Words(cur) + NonEmpty(words)
    decreases words
  {
    hide Words, Fits, NonEmpty;
    NoWords();
    if words == [] {
      if cur != "" {
        assert [cur][1..] == [];
      }
    } else {
      var w, rest := words[0], words[1..];
      assert forall i :: 0 <= i < |rest| ==> rest[i] == words[i + 1];
      WordsOfWord(w);
      WordsConcat(cur, w);
      NonEmptyConcat([w], rest);
      assert words == [w] + rest;
      var t := if cur != "" then cur + [' '] + w else w;
      if Fits(col, t) || cur == "" {
        WrapFromKeepsWords(col, t, rest);
      } else {
        WrapFromKeepsWords(col, w, rest);
        var lines := WrapFrom(col, w, rest);
        assert ([cur] + lines)[1..] == lines;
      }
    }
  }

  lemma NoWords()
    ensures Words("") == [] && NonEmpty([]) == []
  {
    WordsOfWord("");
  }

  lemma WordsConcat(a: string, b: string)
    ensures Words(a + [' '] + b) == Words(a) + Words(b)
  {
    SplitConcat(a, ' ', b);
    NonEmptyConcat(Split(a, ' '), Split(b, ' '));
  }

  /** For any text whatever, the lines hold exactly its words, in order. */
  lemma WrapKeepsWords(col: Column, text: string)
    ensures WordsOfLines(Wrap(col, text)) == Words(text)
  {
    WrapFromKeepsWords(col, "", Split(text, ' '));
    WordsOfWord("");
  }

  // ---------------------------------------------------------- the fewest lines

  /** Single-spaced: no leading, trailing or double space, and at least one word. */
  predicate SingleSpaced(text: string) {
    "" !in Split(text, ' ')
  }

  /** Another way to break the text at some of its spaces, by the same rule for a line. */
  predicate IsWrapping(col: Column, text: string, lines: seq<string>) {
    lines != [] && Join(lines, ' ') == text && forall i :: 0 <= i < |lines| ==> Acceptable(col, lines[i])
  }

  predicate Words1(words: seq<string>) {
    forall i :: 0 <= i < |words| ==> OneWord(words[i]) && words[i] != ""
  }

  predicate GroupOk(col: Column, group: seq<string>) {
    group != [] && (|group| == 1 || Fits(col, Join(group, ' ')))
  }

  predicate GroupsOk(col: Column, groups: seq<seq<string>>) {
    forall i :: 0 <= i < |groups| ==> GroupOk(col, groups[i])
  }

  /** Shorter runs of words fit wherever longer ones do. */
  lemma PartFits(col: Column, a: seq<string>, b: seq<string>, c: seq<string>)
    requires col.size >= 0.0 && b != [] && Fits(col, Join(a + b + c, ' '))
    ensures Fits(col, Join(b, ' '))
  {
    var ab := a + b;
    if c != [] {
      JoinConcat(ab, c, ' ');
      UnitsConcat(Join(ab, ' ') + [' '], Join(c, ' '));
      UnitsConcat(Join(ab, ' '), [' ']);
    } else {
      assert ab + c == ab;
    }
    if a != [] {
      JoinConcat(a, b, ' ');
      UnitsConcat(Join(a, ' ') + [' '], Join(b, ' '));
    } else {
      assert ab == b;
    }
    WidthMonotone(Units(Join(b, ' ')), Units(Join(a + b + c, ' ')), col.size);
  }

  /** Leaving out the first words of a wrapping never takes more lines. */
  lemma {:induction false} DropWords(col: Column, groups: seq<seq<string>>, k: nat) returns (fewer: seq<seq<string>>)
    requires col.size >= 0.0 && GroupsOk(col, groups) && k <= |Flatten(groups)|
    ensures GroupsOk(col, fewer) && Flatten(fewer) == Flatten(groups)[k..] && |fewer| <= |groups|
    decreases |groups|
  {
    hide Fits, Join;
    fewer := groups;
    if k > 0 {
      var first, rest := groups[0], groups[1..];
      assert GroupOk(col, first);
      assert forall i :: 0 <= i < |rest| ==> rest[i] == groups[i + 1];
      if k >= |first| {
        fewer := DropWords(col, rest, k - |first|);
        assert Flatten(groups)[k..] == Flatten(rest)[k - |first|..];
      } else {
        var tail := first[k..];
        assert first == first[..k] + tail + [];
        PartFits(col, first[..k], tail, []);
        fewer := [tail] + rest;
        assert fewer[1..] == rest;
        assert Flatten(groups)[k..] == tail + Flatten(rest);
      }
    }
  }

  /** Greedy filling stays ahead of every other wrapping of the same words. */
  lemma {:induction false} GreedyIsShortest(col: Column, cur: seq<string>, words: seq<string>, groups: seq<seq<string>>)
    requires col.size >= 0.0 && cur != [] && Words1(cur) && Words1(words)
    requires GroupsOk(col, groups) && Flatten(groups) == cur + words
    ensures |WrapFrom(col, Join(cur, ' '), words)| <= |groups|
    decreases |words|
  {
    hide Fits, Split, Flatten, GroupsOk;
    JoinNonEmpty(cur);
    if words == [] {
      SomeGroup(cur + words, groups);
    } else {
      var w, rest := words[0], words[1..];
      assert forall i :: 0 <= i < |rest| ==> rest[i] == words[i + 1];
      var longer := cur + [w];
      assert words == [w] + rest;
      JoinConcat(cur, [w], ' ');
      if Fits(col, Join(longer, ' ')) {
        Assoc(cur, [w], rest);
        GreedyIsShortest(col, longer, rest, groups);
      } else {
        var fewer := OtherGroups(col, cur, w, rest, groups);
        GreedyIsShortest(col, [w], rest, fewer);
      }
    }
  }

  lemma SomeGroup(words: seq<string>, groups: seq<seq<string>>)
    requires Flatten(groups) == words != []
    ensures groups != []
  {
  }

  /** Once greedy filling closes a line, every other wrapping has used a line too and has no fewer words left. */
  lemma OtherGroups(col: Column, cur: seq<string>, w: string, rest: seq<string>, groups: seq<seq<string>>)
    returns (fewer: seq<seq<string>>)
    requires col.size >= 0.0 && cur != [] && !Fits(col, Join(cur + [w], ' '))
    requires GroupsOk(col, groups) && Flatten(groups) == cur + ([w] + rest)
    ensures GroupsOk(col, fewer) && Flatten(fewer) == [w] + rest && |fewer| < |groups|
  {
    hide Fits, GroupOk;
    FirstGroupIsShort(col, cur, w, rest, groups);
    var first, others := groups[0], groups[1..];
    assert forall i :: 0 <= i < |others| ==> others[i] == groups[i + 1];
    Drop(first, Flatten(others));
    hide Flatten;
    fewer := DropWords(col, others, |cur| - |first|);
    Drop(cur, [w] + rest);
  }

  lemma JoinNonEmpty(words: seq<string>)
    requires words != [] && Words1(words)
    ensures Join(words, ' ') != ""
  {
    assert words[0] != "";
  }

  /** A first line cannot hold more words than the longest line that fits. */
  lemma FirstGroupIsShort(col: Column, cur: seq<string>, w: string, rest: seq<string>, groups: seq<seq<string>>)
    requires col.size >= 0.0 && cur != [] && !Fits(col, Join(cur + [w], ' '))
    requires GroupsOk(col, groups) && Flatten(groups) == cur + ([w] + rest)
    ensures groups != [] && 1 <= |groups[0]| <= |cur|
  {
    hide *;
    FirstGroup(col, groups);
    var first := groups[0];
    if |first| > |cur| {
      var longer := cur + [w];
      assert cur + ([w] + rest) == longer + rest;
      CommonPrefix(first, Flatten(groups[1..]), longer, rest);
      var beyond := first[|longer|..];
      assert first == [] + longer + beyond;
      PartFits(col, [], longer, beyond);
    }
  }

  lemma FirstGroup(col: Column, groups: seq<seq<string>>)
    requires GroupsOk(col, groups) && Flatten(groups) != []
    ensures groups != [] && Flatten(groups) == groups[0] + Flatten(groups[1..])
    ensures groups[0] != [] && (|groups[0]| == 1 || Fits(col, Join(groups[0], ' ')))
  {
    hide Fits, Join;
    assert GroupOk(col, groups[0]);
  }

  lemma CommonPrefix(a: seq<string>, b: seq<string>, p: seq<string>, q: seq<string>)
    requires a + b == p + q && |p| <= |a|
    ensures a == p + a[|p|..]
  {
    assert a == (a + b)[..|a|];
    assert p == (p + q)[..|p|];
  }

  /** The words of a line, line by line. */
  function Groups(lines: seq<string>): seq<seq<string>> {
    if lines == [] then [] else [Split(lines[0], ' ')] + Groups(lines[1..])
  }

  lemma {:induction false} GroupsOfLines(col: Column, lines: seq<string>)
    requires lines != [] && forall i :: 0 <= i < |lines| ==> Acceptable(col, lines[i])
    ensures |Groups(lines)| == |lines| && Flatten(Groups(lines)) == Split(Join(lines, ' '), ' ')
    ensures GroupsOk(col, Groups(lines))
  {
    var first := Split(lines[0], ' ');
    JoinSplit(lines[0], ' ');
    if OneWord(lines[0]) {
      SplitOne(lines[0], ' ');
    }
    if |lines| == 1 {
      assert Groups(lines[1..]) == [] && Groups(lines) == [first] && [first][1..] == [];
      assert first + Flatten([]) == first;
    } else {
      GroupsOfLines(col, lines[1..]);
      SplitConcat(lines[0], ' ', Join(lines[1..], ' '));
      var groups := Groups(lines);
      assert groups[1..] == Groups(lines[1..]);
    }
  }

  /** On single-spaced text `wrap` uses the fewest lines of any wrapping. */
  lemma WrapIsShortest(col: Column, text: string, lines: seq<string>)
    requires col.size >= 0.0 && SingleSpaced(text) && IsWrapping(col, text, lines)
    ensures |Wrap(col, text)| <= |lines|
  {
    var words := Split(text, ' ');
    assert forall i :: 0 <= i < |words| ==> words[i] in words;
    GroupsOfLines(col, lines);
    var w, rest := words[0], words[1..];
    assert [w] + rest == words;
    GreedyIsShortest(col, [w], rest, Groups(lines));
  }

  lemma {:induction false} JoinWrapFrom(col: Column, cur: string, words: seq<string>)
    requires cur != "" && Words1(words)
    ensures WrapFrom(col, cur, words) != []
    ensures Join(WrapFrom(col, cur, words), ' ') == Join([cur] + words, ' ')
    decreases words
  {
    if words == [] {
      assert [cur] + words == [cur];
    } else {
      var w, rest := words[0], words[1..];
      assert forall i :: 0 <= i < |rest| ==> rest[i] == words[i + 1];
      var t := cur + [' '] + w;
      assert ([cur] + words)[1..] == words && words == [w] + rest;
      if Fits(col, t) {
        JoinWrapFrom(col, t, rest);
        JoinFront(cur, w, rest);
        assert [cur] + words == [cur, w] + rest;
      } else {
        JoinWrapFrom(col, w, rest);
        var lines := WrapFrom(col, w, rest);
        assert ([cur] + lines)[1..] == lines;
      }
    }
  }

  lemma JoinFront(a: string, b: string, rest: seq<string>)
    ensures Join([a + [' '] + b] + rest, ' ') == Join([a, b] + rest, ' ')
  {
    assert [a, b][1..] == [b];
    if rest == [] {
      assert [a + [' '] + b] + rest == [a + [' '] + b] && [a, b] + rest == [a, b];
    } else {
      JoinConcat([a, b], rest, ' ');
      JoinConcat([a + [' '] + b], rest, ' ');
    }
  }

  /** On single-spaced text `wrap` is itself a wrapping: its lines joined by spaces are the text. */
  lemma WrapIsWrapping(col: Column, text: string)
    requires SingleSpaced(text)
    ensures IsWrapping(col, text, Wrap(col, text))
  {
    var words := Split(text, ' ');
    assert forall i :: 0 <= i < |words| ==> words[i] in words;
    var w, rest := words[0], words[1..];
    assert [w] + rest == words;
    JoinWrapFrom(col, w, rest);
    JoinSplit(text, ' ');
    WrapFits(col, text);
    var lines := Wrap(col, text);
    assert forall i :: 0 <= i < |lines| ==> lines[i] in lines;
  }
}
