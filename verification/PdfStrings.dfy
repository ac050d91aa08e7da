/**
 Literal strings of tools/pdf_engine.js: `esc` and `enc`, against the reader of
 section 7.3.4.2 of ISO 32000-1.  A byte is written as the character with its value.
 */
module PdfStrings {
  import opened Sequences
  import opened Common

  // ------------------------------------------------------------------- writing

  /** `replace` of every occurrence of one character. */
  function ReplaceChar(s: string, c: char, sub: string): string {
    if s == "" then "" else (if s[0] == c then sub else [s[0]]) + ReplaceChar(s[1..], c, sub)
  }

  function Esc(s: string): string {
    ReplaceChar(ReplaceChar(ReplaceChar(s, '\\', "\\\\"), '(', "\\("), ')', "\\)")
  }

  /** One character of WinAnsi text. */
  function EncChar(ch: char): char {
    var c := ch as int;
    if c == 0x2013 then 0x96 as char
    else if c == 0x2014 then 0x97 as char
    else if c == 0x2022 then 0x95 as char
    else if c == 0x2018 then 0x91 as char
    else if c == 0x2019 then 0x92 as char
    else if c == 0x201c then 0x93 as char
    else if c == 0x201d then 0x94 as char
    else if c <= 255 then ch
    else '?'
  }

  function Enc(s: string): (bytes: string)
    ensures |bytes| == |s|
  {
    seq(|s|, i requires 0 <= i < |s| => EncChar(s[i]))
  }

  method Encode(s: string) returns (out: string)
    ensures out == Enc(s)
  {
    out := "";
    for i := 0 to |s|
      invariant out == Enc(s[..i])
    {
      out := out + [EncChar(s[i])];
    }
    assert s[..|s|] == s;
  }

  /** Every character becomes one byte, and characters that are bytes stay what they are. */
  lemma EncIsBytes(s: string)
    ensures forall i :: 0 <= i < |s| ==> Enc(s)[i] as int <= 255
    ensures (forall c :: c in s ==> c as int <= 255) ==> Enc(s) == s
  {
    if forall c :: c in s ==> c as int <= 255 {
      forall i | 0 <= i < |s|
        ensures Enc(s)[i] == s[i]
      {
        assert s[i] in s;
      }
    }
  }

  lemma EncConcat(a: string, b: string)
    ensures Enc(a + b) == Enc(a) + Enc(b)
  {
  }

  // ------------------------------------------------- the three replacements at once

  function EscChar(c: char): string {
    if c == '\\' then "\\\\" else if c == '(' then "\\(" else if c == ')' then "\\)" else [c]
  }

  function EscEach(s: string): string {
    if s == "" then "" else EscChar(s[0]) + EscEach(s[1..])
  }

  lemma {:induction false} ReplaceConcat(a: string, b: string, c: char, sub: string)
    ensures ReplaceChar(a + b, c, sub) == ReplaceChar(a, c, sub) + ReplaceChar(b, c, sub)
  {
    if a == "" {
      assert a + b == b;
    } else {
      assert (a + b)[0] == a[0] && (a + b)[1..] == a[1..] + b;
      ReplaceConcat(a[1..], b, c, sub);
    }
  }

  lemma ReplaceOne(x: char, c: char, sub: string)
    ensures ReplaceChar([x], c, sub) == if x == c then sub else [x]
  {
    assert [x][1..] == "";
  }

  lemma ReplaceTwo(x: char, y: char, c: char, sub: string)
    requires x != c && y != c
    ensures ReplaceChar([x, y], c, sub) == [x, y]
  {
    assert [x, y][1..] == [y];
    ReplaceOne(y, c, sub);
  }

  lemma EscOne(c: char)
    ensures Esc([c]) == EscChar(c)
  {
    ReplaceOne(c, '\\', "\\\\");
    ReplaceOne(c, '(', "\\(");
    ReplaceOne(c, ')', "\\)");
    ReplaceTwo('\\', '\\', '(', "\\(");
    ReplaceTwo('\\', '\\', ')', "\\)");
    ReplaceTwo('\\', '(', ')', "\\)");
  }

  /** The later replacements leave the backslashes of the earlier ones alone. */
  lemma {:induction false} EscIsEscEach(s: string)
    ensures Esc(s) == EscEach(s)
  {
    if s != "" {
      var c, rest := s[0], s[1..];
      assert s == [c] + rest;
      ReplaceConcat([c], rest, '\\', "\\\\");
      var a1, b1 := ReplaceChar([c], '\\', "\\\\"), ReplaceChar(rest, '\\', "\\\\");
      ReplaceConcat(a1, b1, '(', "\\(");
      ReplaceConcat(ReplaceChar(a1, '(', "\\("), ReplaceChar(b1, '(', "\\("), ')', "\\)");
      EscOne(c);
      EscIsEscEach(rest);
    }
  }

  /** Escaping before encoding or after it makes no difference: no other character encodes to one that is escaped. */
  lemma {:induction false} EncOfEsc(s: string)
    ensures Enc(EscEach(s)) == EscEach(Enc(s))
  {
    if s != "" {
      EncOfEsc(s[1..]);
      EncConcat(EscChar(s[0]), EscEach(s[1..]));
      assert Enc(s)[0] == EncChar(s[0]) && Enc(s)[1..] == Enc(s[1..]);
      assert Enc(EscChar(s[0])) == EscChar(EncChar(s[0]));
    }
  }

  // ------------------------------------------------------------------- reading

  predicate IsOctal(c: char) {
    '0' <= c <= '7'
  }

  function OctalValue(c: char): nat
    requires IsOctal(c)
  {
    c as int - '0' as int
  }

  /** One to three octal digits at the start of `s`: their number and value, high-order overflow ignored. */
  function ReadOctal(s: string): (r: (nat, char))
    requires s != "" && IsOctal(s[0])
    ensures 1 <= r.0 <= |s|
  {
    if |s| > 1 && IsOctal(s[1]) then
      if |s| > 2 && IsOctal(s[2]) then (3, ((OctalValue(s[0]) * 64 + OctalValue(s[1]) * 8 + OctalValue(s[2])) % 256) as char)
      else (2, (OctalValue(s[0]) * 8 + OctalValue(s[1])) as char)
    else (1, OctalValue(s[0]) as char)
  }

  datatype Token = End | Bad | Piece(text: string, len: nat, depth: nat)

  /**
   What the string goes on with, after the opening parenthesis (section 7.3.4.2 of ISO 32000-1):
   escapes, balanced parentheses, line continuation, and any end-of-line marker read as a line feed.
   */
  function NextToken(s: string, depth: nat): (t: Token)
    ensures t.Piece? ==> 1 <= t.len <= |s|
  {
    if s == "" then Bad
    else if s[0] == ')' then if depth == 0 then End else Piece(")", 1, depth - 1)
    else if s[0] == '(' then Piece("(", 1, depth + 1)
    else if s[0] == '\\' then NextEscape(s, depth)
    else if s[0] == '\r' then Piece("\n", if |s| > 1 && s[1] == '\n' then 2 else 1, depth)
    else Piece([s[0]], 1, depth)
  }

  function NextEscape(s: string, depth: nat): (t: Token)
    requires s != ""
    ensures t.Piece? ==> 1 <= t.len <= |s|
  {
    if |s| < 2 then Bad
    else if s[1] == 'n' then Piece("\n", 2, depth)
    else if s[1] == 'r' then Piece("\r", 2, depth)
    else if s[1] == 't' then Piece("\t", 2, depth)
    else if s[1] == 'b' then Piece([8 as char], 2, depth)
    else if s[1] == 'f' then Piece([12 as char], 2, depth)
    else if IsOctal(s[1]) then
      var (n, c) := ReadOctal(s[1..]);
      Piece([c], 1 + n, depth)
    else if s[1] == '\r' then Piece("", if |s| > 2 && s[2] == '\n' then 3 else 2, depth)
    else if s[1] == '\n' then Piece("", 2, depth)
    else Piece([s[1]], 2, depth)
  }

  datatype Literal = Literal(text: string, rest: string)

  function Cons(c: string, r: Option<Literal>): Option<Literal> {
    if r.None? then None else Some(Literal(c + r.value.text, r.value.rest))
  }

  function ReadLiteral(s: string, depth: nat): Option<Literal>
    decreases |s|
  {
    match NextToken(s, depth)
    case Bad => None
    case End => Some(Literal("", s[1..]))
    case Piece(text, len, depth') => Cons(text, ReadLiteral(s[len..], depth'))
  }

  /** Line ends as a literal string keeps them. */
  function NormalizeLineEnds(s: string): string
    decreases |s|
  {
    if s == "" then ""
    else if s[0] == '\r' then "\n" + NormalizeLineEnds(if |s| > 1 && s[1] == '\n' then s[2..] else s[1..])
    else [s[0]] + NormalizeLineEnds(s[1..])
  }

  lemma ReadStep(s: string, depth: nat, more: string)
    requires NextToken(s, depth).Piece? && more == s[NextToken(s, depth).len..]
    ensures ReadLiteral(s, depth) == Cons(NextToken(s, depth).text, ReadLiteral(more, NextToken(s, depth).depth))
  {
    hide NextToken;
  }

  lemma EscapedToken(c: char, more: string)
    requires c == '\\' || c == '(' || c == ')'
    ensures NextToken(['\\', c] + more, 0) == Piece([c], 2, 0)
  {
    var all := ['\\', c] + more;
    assert all[0] == '\\' && all[1] == c;
  }

  lemma ReadOne(c: char, more: string)
    requires c != '\r' || more == "" || more[0] != '\n'
    ensures ReadLiteral(EscChar(c) + more, 0) == Cons(if c == '\r' then "\n" else [c], ReadLiteral(more, 0))
  {
    hide ReadLiteral, Cons;
    var all := EscChar(c) + more;
    if c == '\\' || c == '(' || c == ')' {
      assert EscChar(c) == ['\\', c];
      EscapedToken(c, more);
      assert all[2..] == more;
      ReadStep(all, 0, more);
    } else {
      assert all[0] == c && all[1..] == more;
      assert more != "" ==> all[1] == more[0];
      assert NextToken(all, 0) == Piece(if c == '\r' then "\n" else [c], 1, 0);
      ReadStep(all, 0, more);
    }
  }

  lemma ReadLineEnd(more: string)
    ensures ReadLiteral("\r\n" + more, 0) == Cons("\n", ReadLiteral(more, 0))
  {
    hide ReadLiteral;
    var all := "\r\n" + more;
    assert all[0] == '\r' && all[1] == '\n' && all[2..] == more;
    ReadStep(all, 0, more);
  }

  lemma ReadEnd(rest: string)
    ensures ReadLiteral(")" + rest, 0) == Some(Literal("", rest))
  {
    assert (")" + rest)[1..] == rest;
  }

  /** Reading an escaped string gives the text with its line ends normalised, and stops right behind it. */
  lemma {:induction false} ReadEscEach(s: string, rest: string)
    ensures ReadLiteral(EscEach(s) + ")" + rest, 0) == Some(Literal(NormalizeLineEnds(s), rest))
    decreases |s|
  {
    hide ReadLiteral, EscChar;
    if s == "" {
      assert EscEach(s) + ")" + rest == ")" + rest;
      ReadEnd(rest);
    } else if s[0] == '\r' && |s| > 1 && s[1] == '\n' {
      EscLineEnd(s);
      var more := EscEach(s[2..]) + ")" + rest;
      Assoc("\r\n", EscEach(s[2..]), ")");
      Assoc("\r\n", EscEach(s[2..]) + ")", rest);
      ReadLineEnd(more);
      ReadEscEach(s[2..], rest);
    } else {
      var more := EscEach(s[1..]) + ")" + rest;
      EscStep(s);
      Assoc(EscChar(s[0]), EscEach(s[1..]), ")");
      Assoc(EscChar(s[0]), EscEach(s[1..]) + ")", rest);
      NotNewline(s[1..], rest);
      ReadOne(s[0], more);
      ReadEscEach(s[1..], rest);
    }
  }

  lemma EscStep(s: string)
    requires s != ""
    ensures EscEach(s) == EscChar(s[0]) + EscEach(s[1..])
  {
  }

  lemma EscLineEnd(s: string)
    requires |s| > 1 && s[0] == '\r' && s[1] == '\n'
    ensures EscEach(s) == "\r\n" + EscEach(s[2..])
  {
    hide EscEach, EscChar;
    var rest := s[1..];
    assert rest[0] == '\n' && rest[1..] == s[2..];
    EscStep(s);
    EscStep(rest);
    PlainLineEnd(EscEach(s[2..]));
  }

  lemma PlainLineEnd(more: string)
    ensures EscChar('\r') + (EscChar('\n') + more) == "\r\n" + more
  {
  }

  /** What follows a character starts with a line feed only if the text goes on with one. */
  lemma NotNewline(s: string, rest: string)
    ensures var more := EscEach(s) + ")" + rest;
      |more| > 0 && (more[0] == '\n' ==> s != "" && s[0] == '\n')
  {
  }

  lemma {:induction false} NormalizedIsSame(s: string)
    ensures NormalizeLineEnds(s) == s <==> '\r' !in s
    decreases |s|
  {
    if s != "" {
      if s[0] != '\r' {
        NormalizedIsSame(s[1..]);
        assert s == [s[0]] + s[1..];
        assert '\r' in s <==> '\r' in s[1..];
        assert NormalizeLineEnds(s)[1..] == NormalizeLineEnds(s[1..]);
      } else {
        assert NormalizeLineEnds(s)[0] == '\n';
      }
    }
  }

  /** The string that is drawn is the text itself exactly when it has no carriage return. */
  lemma EscRoundTrip(s: string, rest: string)
    ensures ReadLiteral(Esc(s) + ")" + rest, 0) == Some(Literal(s, rest)) <==> '\r' !in s
  {
    EscIsEscEach(s);
    ReadEscEach(s, rest);
    NormalizedIsSame(s);
  }

  lemma EncKeepsReturns(s: string)
    requires '\r' !in s
    ensures '\r' !in Enc(s)
  {
    forall i | 0 <= i < |s|
      ensures Enc(s)[i] != '\r'
    {
      assert s[i] in s;
    }
  }

  /** And so it is after encoding: what is read is the encoded text. */
  lemma EncodedRoundTrip(s: string, rest: string)
    requires '\r' !in s
    ensures ReadLiteral(Enc(Esc(s)) + ")" + rest, 0) == Some(Literal(Enc(s), rest))
  {
    hide ReadLiteral, EscEach, Esc, NormalizeLineEnds, Enc;
    EscIsEscEach(s);
    EncOfEsc(s);
    EncKeepsReturns(s);
    ReadEscEach(Enc(s), rest);
    NormalizedIsSame(Enc(s));
  }

  // ------------------------------------------------------------ what the bytes show

  /** The codes 0x80 to 0x9f of WinAnsiEncoding (annex D.2 of ISO 32000-1); 0 where none is assigned. */
  const WIN_ANSI: seq<int> := [
    0x20ac, 0, 0x201a, 0x0192, 0x201e, 0x2026, 0x2020, 0x2021, 0x02c6, 0x2030, 0x0160, 0x2039, 0x0152, 0, 0x017d, 0,
    0, 0x2018, 0x2019, 0x201c, 0x201d, 0x2022, 0x2013, 0x2014, 0x02dc, 0x2122, 0x0161, 0x203a, 0x0153, 0, 0x017e, 0x0178]

  /**
   The code point shown for a byte in WinAnsiEncoding: unassigned codes above 0x20 show a bullet, 0xa0
   is a space, 0xad a hyphen, and the codes below 0x20 show nothing.
   */
  function WinAnsi(b: char): Option<int>
    requires b as int <= 255
  {
    var n := b as int;
    if n < 0x20 then None
    else if n == 0x7f then Some(0x2022)
    else if 0x80 <= n < 0xa0 then Some(if WIN_ANSI[n - 0x80] == 0 then 0x2022 else WIN_ANSI[n - 0x80])
    else if n == 0xa0 then Some(0x20)
    else if n == 0xad then Some(0x2d)
    else Some(n)
  }

  /** Printable ASCII, Latin-1 without its two blanks, and seven marks: what the writer can show. */
  predicate Survives(c: char) {
    var n := c as int;
    || 0x20 <= n <= 0x7e || (0xa1 <= n <= 0xff && n != 0xad)
    || n in {0x2013, 0x2014, 0x2018, 0x2019, 0x201c, 0x201d, 0x2022}
  }

  lemma ByteOfChar(c: char)
    ensures EncChar(c) as int <= 255
  {
  }

  /** A character is shown as itself exactly if it survives. */
  lemma ShownExactly(c: char)
    ensures EncChar(c) as int <= 255 && (WinAnsi(EncChar(c)) == Some(c as int) <==> Survives(c))
  {
    SevenMarks();
    if 0x80 <= c as int < 0xa0 {
      HighCodes(c);
    }
  }

  lemma SevenMarks()
    ensures WIN_ANSI[0x11] == 0x2018 && WIN_ANSI[0x12] == 0x2019 && WIN_ANSI[0x13] == 0x201c && WIN_ANSI[0x14] == 0x201d
    ensures WIN_ANSI[0x15] == 0x2022 && WIN_ANSI[0x16] == 0x2013 && WIN_ANSI[0x17] == 0x2014
  {
  }

  lemma HighCodes(b: char)
    requires 0x80 <= b as int < 0xa0
    ensures WinAnsi(b).Some? && WinAnsi(b).value > 255
  {
    assert forall i :: 0 <= i < 32 ==> WIN_ANSI[i] == 0 || WIN_ANSI[i] > 255;
  }

  /** The twenty characters that WinAnsiEncoding has and the writer prints as question marks. */
  lemma LostMarks(b: char)
    requires b as int <= 255 && WinAnsi(b).Some? && WinAnsi(b).value < 0xd800
    ensures var c := WinAnsi(b).value as char;
      && (EncChar(c) == '?' <==> c == '?' || c as int in {
            0x20ac, 0x201a, 0x0192, 0x201e, 0x2026, 0x2020, 0x2021, 0x02c6, 0x2030, 0x0160,
            0x2039, 0x0152, 0x017d, 0x02dc, 0x2122, 0x0161, 0x203a, 0x0153, 0x017e, 0x0178})
      && (EncChar(c) != '?' ==> Survives(c))
  {
  }

  /** The text shown for a string of bytes, by code points; None if one of them shows nothing. */
  function ShownText(bytes: string): Option<seq<int>>
    requires forall i :: 0 <= i < |bytes| ==> bytes[i] as int <= 255
  {
    if bytes == "" then Some([])
    else
      var last :- WinAnsi(bytes[|bytes| - 1]);
      var before :- ShownText(bytes[..|bytes| - 1]);
      Some(before + [last])
  }

  function CodePoints(s: string): seq<int> {
    seq(|s|, i requires 0 <= i < |s| => s[i] as int)
  }

  lemma {:induction false} ShownTextExactly(s: string)
    requires forall i :: 0 <= i < |s| ==> Enc(s)[i] as int <= 255
    ensures ShownText(Enc(s)) == Some(CodePoints(s)) <==> forall i :: 0 <= i < |s| ==> Survives(s[i])
    decreases |s|
  {
    hide EncChar, WinAnsi, Survives;
    if s == "" {
      assert Enc(s) == "" && CodePoints(s) == [];
    } else {
      var init, last := s[..|s| - 1], s[|s| - 1];
      assert Enc(s)[..|s| - 1] == Enc(init) && Enc(s)[|s| - 1] == EncChar(last);
      assert CodePoints(s) == CodePoints(init) + [last as int];
      ShownTextExactly(init);
      ShownExactly(last);
      assert ShownText(Enc(s)) == ShownOneMore(ShownText(Enc(init)), WinAnsi(EncChar(last)));
      OneMoreExactly(ShownText(Enc(init)), WinAnsi(EncChar(last)), CodePoints(init), last as int);
    }
  }

  function ShownOneMore(before: Option<seq<int>>, last: Option<int>): Option<seq<int>> {
    if before.None? || last.None? then None else Some(before.value + [last.value])
  }

  lemma OneMoreExactly(before: Option<seq<int>>, last: Option<int>, init: seq<int>, n: int)
    ensures ShownOneMore(before, last) == Some(init + [n]) <==> before == Some(init) && last == Some(n)
  {
    if ShownOneMore(before, last) == Some(init + [n]) {
      var all := init + [n];
      assert all[|all| - 1] == n && all[..|all| - 1] == init;
      assert (before.value + [last.value])[..|all| - 1] == before.value;
    }
  }

  /**
   From the text to the page: what is drawn for an escaped and encoded string is the text itself
   exactly if each of its characters survives.
   */
  lemma DrawnExactly(s: string, rest: string)
    requires '\r' !in s
    ensures ReadLiteral(Enc(Esc(s)) + ")" + rest, 0) == Some(Literal(Enc(s), rest))
    ensures forall i :: 0 <= i < |s| ==> Enc(s)[i] as int <= 255
    ensures ShownText(Enc(s)) == Some(CodePoints(s)) <==> forall i :: 0 <= i < |s| ==> Survives(s[i])
  {
    hide Enc, Esc, ReadLiteral;
    EncodedRoundTrip(s, rest);
    EncIsBytes(s);
    ShownTextExactly(s);
  }

  // ------------------------------------------------- without an encoding in the font

  /** StandardEncoding above ASCII (annex D.2 of ISO 32000-1); the other codes up there are unassigned. */
  function StandardSign(n: int): Option<int> {
    match n
    case 0xa1 => Some(0x00a1)
    case 0xa2 => Some(0x00a2)
    case 0xa3 => Some(0x00a3)
    case 0xa4 => Some(0x2044)
    case 0xa5 => Some(0x00a5)
    case 0xa6 => Some(0x0192)
    case 0xa7 => Some(0x00a7)
    case 0xa8 => Some(0x00a4)
    case 0xa9 => Some(0x0027)
    case 0xaa => Some(0x201c)
    case 0xab => Some(0x00ab)
    case 0xac => Some(0x2039)
    case 0xad => Some(0x203a)
    case 0xae => Some(0xfb01)
    case 0xaf => Some(0xfb02)
    case 0xb1 => Some(0x2013)
    case 0xb2 => Some(0x2020)
    case 0xb3 => Some(0x2021)
    case 0xb4 => Some(0x00b7)
    case 0xb6 => Some(0x00b6)
    case 0xb7 => Some(0x2022)
    case 0xb8 => Some(0x201a)
    case 0xb9 => Some(0x201e)
    case 0xba => Some(0x201d)
    case 0xbb => Some(0x00bb)
    case 0xbc => Some(0x2026)
    case 0xbd => Some(0x2030)
    case 0xbf => Some(0x00bf)
    case 0xc1 => Some(0x0060)
    case 0xc2 => Some(0x00b4)
    case 0xc3 => Some(0x02c6)
    case 0xc4 => Some(0x02dc)
    case 0xc5 => Some(0x00af)
    case 0xc6 => Some(0x02d8)
    case 0xc7 => Some(0x02d9)
    case 0xc8 => Some(0x00a8)
    case 0xca => Some(0x02da)
    case 0xcb => Some(0x00b8)
    case 0xcd => Some(0x02dd)
    case 0xce => Some(0x02db)
    case 0xcf => Some(0x02c7)
    case 0xd0 => Some(0x2014)
    case 0xe1 => Some(0x00c6)
    case 0xe3 => Some(0x00aa)
    case 0xe8 => Some(0x0141)
    case 0xe9 => Some(0x00d8)
    case 0xea => Some(0x0152)
    case 0xeb => Some(0x00ba)
    case 0xf1 => Some(0x00e6)
    case 0xf5 => Some(0x0131)
    case 0xf8 => Some(0x0142)
    case 0xf9 => Some(0x00f8)
    case 0xfa => Some(0x0153)
    case 0xfb => Some(0x00df)
    case _ => None
  }

  /** The code point shown for a byte in StandardEncoding, which fonts that name no encoding use. */
  function Standard(b: char): Option<int>
    requires b as int <= 255
  {
    var n := b as int;
    if n == 0x27 then Some(0x2019)
    else if n == 0x60 then Some(0x2018)
    else if 0x20 <= n <= 0x7e then Some(n)
    else StandardSign(n)
  }

  /**
   The font dictionaries that are written name no encoding.  A reader that takes this at its word
   shows only ASCII without the straight quote and the grave accent, and nine Latin-1 signs, as
   themselves; the dashes, curly quotes and bullets that the writer encodes show nothing.
   */
  lemma StandardExactly(c: char)
    ensures EncChar(c) as int <= 255
    ensures Standard(EncChar(c)) == Some(c as int) <==>
      (' ' <= c <= '~' && c != '\'' && c != '`') || c as int in {0xa1, 0xa2, 0xa3, 0xa5, 0xa7, 0xab, 0xb6, 0xbb, 0xbf}
    ensures c as int in {0x2013, 0x2014, 0x2018, 0x2019, 0x201c, 0x201d, 0x2022} ==> Standard(EncChar(c)) == None
  {
  }
}
