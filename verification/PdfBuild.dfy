/**
 File assembly of tools/pdf_engine.js (`build`), proved against the reader of PdfReader.
 A page is its final content stream; a byte is the character with its value.
 */
module PdfBuild {
  import opened Common
  import opened PdfStrings
  import opened PdfReader
  import opened Sequences

  // ------------------------------------------------------------------- numbers

  function DigitChar(d: nat): char
    requires d < 10
  {
    (d + '0' as int) as char
  }

  /** `String(n)` */
  function Digits(n: nat): string {
    if n < 10 then [DigitChar(n)] else Digits(n / 10) + [DigitChar(n % 10)]
  }

  lemma {:induction false} DigitsValue(n: nat)
    ensures Digits(n) != "" && AllDigits(Digits(n)) && Value(Digits(n)) == n
  {
    if n >= 10 {
      DigitsValue(n / 10);
      var s := Digits(n);
      assert s[..|s| - 1] == Digits(n / 10);
    } else {
      assert Digits(n)[..0] == "";
    }
  }

  lemma {:induction false} LeadingDigitsOf(d: string, rest: string)
    requires AllDigits(d) && (rest == "" || !IsDigit(rest[0]))
    ensures LeadingDigits(d + rest) == |d|
  {
    if d == "" {
      assert d + rest == rest;
    } else {
      assert (d + rest)[0] == d[0] && (d + rest)[1..] == d[1..] + rest;
      LeadingDigitsOf(d[1..], rest);
    }
  }

  /** A number is read back whatever follows it, as long as that is not a digit. */
  lemma ReadDigits(n: nat, rest: string)
    requires rest == "" || !IsDigit(rest[0])
    ensures ReadNat(Digits(n) + rest) == Some((n, rest))
  {
    hide Value, Digits, LeadingDigits;
    DigitsValue(n);
    LeadingDigitsOf(Digits(n), rest);
    var s := Digits(n) + rest;
    assert s[..|Digits(n)|] == Digits(n) && s[|Digits(n)|..] == rest;
  }

  function Zeros(n: nat): string {
    if n == 0 then "" else "0" + Zeros(n - 1)
  }

  /** `padStart(10, "0")` */
  function Pad10(s: string): string {
    if |s| < 10 then Zeros(10 - |s|) + s else s
  }

  lemma {:induction false} ZerosValue(k: nat, s: string)
    requires AllDigits(s)
    ensures |Zeros(k)| == k && AllDigits(Zeros(k) + s) && Value(Zeros(k) + s) == Value(s)
    decreases k + |s|
  {
    hide Value, AllDigits;
    var z := Zeros(k) + s;
    if k > 0 {
      ZerosValue(k - 1, s);
      assert z == "0" + (Zeros(k - 1) + s);
      LeadingZero(Zeros(k - 1) + s);
    } else {
      assert z == s;
    }
  }

  lemma {:induction false} LeadingZero(s: string)
    requires AllDigits(s)
    ensures AllDigits("0" + s) && Value("0" + s) == Value(s)
    decreases |s|
  {
    var z := "0" + s;
    if s == "" {
      assert z[..0] == "";
    } else {
      LeadingZero(s[..|s| - 1]);
      assert z[..|z| - 1] == "0" + s[..|s| - 1];
    }
  }

  const TEN_DIGITS: nat := 10_000_000_000

  function Power10(k: nat): nat {
    if k == 0 then 1 else 10 * Power10(k - 1)
  }

  lemma {:induction false} DigitsLength(n: nat, k: nat)
    requires k > 0
    ensures |Digits(n)| <= k <==> n < Power10(k)
    decreases k
  {
    if k == 1 {
      DigitsValue(n / 10);
    } else if n >= 10 {
      DigitsLength(n / 10, k - 1);
    } else {
      DigitsLength(n, k - 1);
    }
  }

  lemma Power10Ten()
    ensures Power10(10) == TEN_DIGITS
  {
    assert Power10(5) == 100_000;
  }

  // -------------------------------------------------------------------- writing

  /** The comment line is written as UTF-8, so its four high characters take two bytes each. */
  const HEADER: string := "%PDF-1.4\n%" + [0xC3 as char, 0xA2 as char, 0xC3 as char, 0xA3 as char,
                                           0xC3 as char, 0x8F as char, 0xC3 as char, 0x93 as char] + "\n"

  const CATALOG: string := "<< /Type /Catalog /Pages "
  const KIDS: string := "<< /Type /Pages /Kids ["
  const COUNT: string := "] /Count "
  const CLOSE: string := " >>"
  const LENGTH: string := "<< /Length "
  const STREAM: string := " >>\nstream\n"
  const ENDSTREAM: string := "\nendstream\nendobj\n"
  const ENDOBJ: string := "\nendobj\n"
  const OBJ: string := " 0 obj\n"
  const FONT: string := "<< /Type /Font /Subtype /Type1 "
  const BASE_FONT: string := "/BaseFont /"
  const PAGE: string := "<< /Type /Page /Parent "
  const MEDIA_BOX: string := " /MediaBox ["
  const RESOURCES: string := "] /Resources << /Font << /F1 "
  const F2: string := " /F2 "
  const F3: string := " /F3 "
  const CONTENTS: string := " >> >> /Contents "

  /** US Letter, in points. */
  const WIDTH: nat := 612
  const HEIGHT: nat := 792

  /** A number, or a reference, and what follows it. */
  function Num(n: nat, rest: string): string {
    Digits(n) + rest
  }

  function Ref(n: nat, rest: string): string {
    Digits(n) + (" 0 R" + rest)
  }

  /** The references to `n` objects in a row. */
  function Refs(first: nat, n: nat): string
    decreases n
  {
    if n == 0 then ""
    else if n == 1 then Ref(first, "")
    else Ref(first, " " + Refs(first + 1, n - 1))
  }

  function FontDict(name: string): string {
    FONT + (BASE_FONT + (name + CLOSE))
  }

  function FontsText(contents: nat, tail: string): string {
    RESOURCES + Ref(3, F2 + Ref(4, F3 + Ref(5, CONTENTS + Ref(contents, CLOSE + tail))))
  }

  function PageText(contents: nat, tail: string): string {
    PAGE + Ref(2, MEDIA_BOX + Num(0, " " + Num(0, " " + Num(WIDTH, " " + Num(HEIGHT, FontsText(contents, tail))))))
  }

  function Total(n: nat): nat {
    6 + 2 * n
  }

  /** `bodies[num]`: 1 catalog, 2 page tree, 3 to 5 fonts, then the pages, then their content streams. */
  function Body(pages: seq<string>, num: nat): string
    requires 1 <= num < Total(|pages|)
  {
    var n := |pages|;
    if num == 1 then CATALOG + Ref(2, CLOSE)
    else if num == 2 then KIDS + (Refs(6, n) + (COUNT + Num(n, CLOSE)))
    else if num == 3 then FontDict("Helvetica")
    else if num == 4 then FontDict("Helvetica-Bold")
    else if num == 5 then FontDict("Helvetica-Oblique")
    else if num < 6 + n then PageText(num + n, "")
    else pages[num - 6 - n]
  }

  function ObjectHeader(num: nat): string {
    Digits(num) + OBJ
  }

  /** What is written for object `num`. */
  function ObjectText(pages: seq<string>, num: nat): string
    requires 1 <= num < Total(|pages|)
  {
    var bdy := Enc(Body(pages, num));
    if num >= 6 + |pages| then
      ObjectHeader(num) + (LENGTH + (Digits(|bdy|) + (STREAM + (bdy + ENDSTREAM))))
    else
      ObjectHeader(num) + (bdy + ENDOBJ)
  }

  /** The file up to object `k`. */
  function Prefix(pages: seq<string>, k: nat): string
    requires 1 <= k <= Total(|pages|)
  {
    if k == 1 then HEADER else Prefix(pages, k - 1) + ObjectText(pages, k - 1)
  }

  function Entry(offset: nat): string {
    Pad10(Digits(offset)) + " 00000 n \n"
  }

  const FREE_ENTRY := "0000000000 65535 f \n"

  /** The first `k` entries of the cross-reference table. */
  function Entries(pages: seq<string>, k: nat): string
    requires 1 <= k <= Total(|pages|)
  {
    if k == 1 then FREE_ENTRY else Entries(pages, k - 1) + Entry(|Prefix(pages, k - 1)|)
  }

  const TRAILER := "trailer\n<< /Size "
  const ROOT := " /Root "
  const END_TRAILER := " >>\n"
  const STARTXREF := "startxref\n"
  const EOF := "\n%%EOF"

  function Trailer(total: nat, xrefStart: nat): string {
    TRAILER + Num(total, ROOT + Ref(1, END_TRAILER + (STARTXREF + Num(xrefStart, EOF))))
  }

  function XrefText(pages: seq<string>): string {
    var total := Total(|pages|);
    "xref\n0 " + (Digits(total) + ("\n" + (Entries(pages, total) + Trailer(total, |Prefix(pages, total)|))))
  }

  function File(pages: seq<string>): string {
    Prefix(pages, Total(|pages|)) + Enc(XrefText(pages))
  }

  /** The buffers of one object and the sum of their lengths. */
  method WriteObject(pages: seq<string>, num: nat) returns (text: string, len: nat)
    requires 1 <= num < Total(|pages|)
    ensures text == ObjectText(pages, num) && len == |text|
  {
    hide Body, Digits, Enc, LENGTH, STREAM, ENDSTREAM, ENDOBJ, OBJ;
    var hdr := Digits(num) + OBJ;
    var bdy := Encode(Body(pages, num));
    if num >= 6 + |pages| {
      var digits := Digits(|bdy|);
      var pre := LENGTH + (digits + STREAM);
      var post := ENDSTREAM;
      text, len := hdr + pre + bdy + post, |hdr| + |pre| + |bdy| + |post|;
      assert pre + (bdy + post) == LENGTH + (digits + (STREAM + (bdy + post)));
      assert hdr + pre + bdy + post == hdr + (pre + (bdy + post));
    } else {
      var end := ENDOBJ;
      text, len := hdr + bdy + end, |hdr| + |bdy| + |end|;
      assert hdr + bdy + end == hdr + (bdy + end);
    }
  }

  lemma NextPart(pages: seq<string>, k: nat)
    requires 1 <= k < Total(|pages|)
    ensures Prefix(pages, k + 1) == Prefix(pages, k) + ObjectText(pages, k)
    ensures Entries(pages, k + 1) == Entries(pages, k) + Entry(|Prefix(pages, k)|)
  {
  }

  /** The offsets of the objects below `n` are their positions. */
  ghost predicate OffsetsUpTo(pages: seq<string>, offsets: seq<nat>, n: nat) {
    |offsets| == Total(|pages|) && n <= |offsets| && forall num :: 1 <= num < n ==> offsets[num] == |Prefix(pages, num)|
  }

  ghost predicate OffsetsFit(pages: seq<string>, offsets: seq<nat>) {
    OffsetsUpTo(pages, offsets, Total(|pages|))
  }

  lemma NextOffset(pages: seq<string>, offsets: seq<nat>, num: nat)
    requires OffsetsUpTo(pages, offsets, num) && 1 <= num < Total(|pages|)
    ensures OffsetsUpTo(pages, offsets[num := |Prefix(pages, num)|], num + 1)
  {
    hide Prefix;
  }

  lemma FirstEntry(pages: seq<string>)
    ensures Entries(pages, 1) == FREE_ENTRY
  {
    hide FREE_ENTRY;
  }

  lemma OffsetAt(pages: seq<string>, offsets: seq<nat>, num: nat)
    requires OffsetsFit(pages, offsets) && 1 <= num < Total(|pages|)
    ensures num < |offsets| && offsets[num] == |Prefix(pages, num)|
  {
    hide Prefix;
  }

  lemma NoOffsets(pages: seq<string>, offsets: seq<nat>)
    requires |offsets| == Total(|pages|)
    ensures OffsetsUpTo(pages, offsets, 1) && Prefix(pages, 1) == HEADER
  {
  }

  /** The loop over the objects: chunks, positions and offsets. */
  method WriteObjects(pages: seq<string>) returns (chunks: string, offsets: array<nat>)
    ensures chunks == Prefix(pages, Total(|pages|)) && fresh(offsets) && OffsetsFit(pages, offsets[..])
  {
    hide ObjectText, HEADER, Prefix, OffsetsUpTo;
    var total := Total(|pages|);
    offsets := new nat[total](_ => 0);
    chunks := HEADER;
    var pos := |chunks|;
    NoOffsets(pages, offsets[..]);
    for num := 1 to total
      invariant chunks == Prefix(pages, num) && pos == |chunks|
      invariant OffsetsUpTo(pages, offsets[..], num)
    {
      ghost var known := offsets[..];
      NextOffset(pages, known, num);
      NextPart(pages, num);
      offsets[num] := pos;
      assert offsets[..] == known[num := pos];
      var text, len := WriteObject(pages, num);
      chunks := chunks + text;
      pos := pos + len;
    }
  }

  /** The loop over the offsets. */
  method WriteEntries(pages: seq<string>, offsets: seq<nat>) returns (entries: string)
    requires OffsetsFit(pages, offsets)
    ensures entries == Entries(pages, Total(|pages|))
  {
    hide Entry, Entries, Prefix, OffsetsFit, FREE_ENTRY;
    FirstEntry(pages);
    entries := FREE_ENTRY;
    for i := 1 to Total(|pages|)
      invariant entries == Entries(pages, i)
    {
      NextPart(pages, i);
      OffsetAt(pages, offsets, i);
      entries := entries + Entry(offsets[i]);
    }
  }

  /** `build`: one pass over the objects, then the table and the trailer with the position of the table. */
  method Build(pages: seq<string>) returns (buf: string, offsets: array<nat>)
    ensures buf == File(pages)
    ensures fresh(offsets) && OffsetsFit(pages, offsets[..])
  {
    hide Prefix, Entries, Digits, Trailer, Enc, OffsetsFit;
    var chunks: string;
    chunks, offsets := WriteObjects(pages);
    var entries := WriteEntries(pages, offsets[..]);
    var total, xrefStart := Total(|pages|), |chunks|;
    var encoded := Encode("xref\n0 " + (Digits(total) + ("\n" + (entries + Trailer(total, xrefStart)))));
    buf := chunks + encoded;
  }
}
