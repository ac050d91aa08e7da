/**
 A reader of PDF files, written from ISO 32000-1 alone: header (section 7.5.2), cross-reference
 table (section 7.5.4), startxref and trailer (section 7.5.5), page tree (section 7.7.3), fonts
 (section 9.6.2) and stream lengths (section 7.3.8).  It shares no definition with the writer in
 PdfBuild.  It expects dictionary keys in one order, so that each key is one keyword to look for.
 A byte is the character with its value.
 */
module PdfReader {
  import opened Common

  // ------------------------------------------------------------------- numbers

  predicate IsDigit(c: char) {
    48 <= c as int <= 57
  }

  function DigitValue(c: char): nat
    requires IsDigit(c)
  {
    c as int - 48
  }

  predicate AllDigits(s: string) {
    forall i :: 0 <= i < |s| ==> IsDigit(s[i])
  }

  function Value(s: string): nat
    requires AllDigits(s)
  {
    if s == "" then 0 else Value(s[..|s| - 1]) * 10 + DigitValue(s[|s| - 1])
  }

  function LeadingDigits(s: string): (k: nat)
    ensures k <= |s| && AllDigits(s[..k]) && (k < |s| ==> !IsDigit(s[k]))
  {
    if s == "" || !IsDigit(s[0]) then 0 else
      var k := 1 + LeadingDigits(s[1..]);
      assert s[..k] == [s[0]] + s[1..][..k - 1];
      k
  }

  function TrailingDigits(s: string): (k: nat)
    ensures k <= |s| && AllDigits(s[k..]) && (k > 0 ==> !IsDigit(s[k - 1]))
  {
    if s == "" || !IsDigit(s[|s| - 1]) then |s| else
      var k := TrailingDigits(s[..|s| - 1]);
      assert s[k..] == s[..|s| - 1][k..] + [s[|s| - 1]];
      k
  }

  function ReadNat(s: string): Option<(nat, string)> {
    var k := LeadingDigits(s);
    if k == 0 then None else Some((Value(s[..k]), s[k..]))
  }

  // ---------------------------------------------------------------- primitives

  function Expect(s: string, keyword: string): Option<string> {
    if keyword <= s then Some(s[|keyword|..]) else None
  }

  /** A number and the keyword behind it. */
  function ReadNatThen(s: string, keyword: string): Option<(nat, string)> {
    var r :- ReadNat(s);
    var rest :- Expect(r.1, keyword);
    Some((r.0, rest))
  }

  /** An indirect reference of generation 0. */
  function ReadRef(s: string): Option<(nat, string)> {
    ReadNatThen(s, " 0 R")
  }

  /** A reference and the keyword behind it. */
  function ReadRefThen(s: string, keyword: string): Option<(nat, string)> {
    var r :- ReadRef(s);
    var rest :- Expect(r.1, keyword);
    Some((r.0, rest))
  }

  /** References separated by spaces, up to and including the closing bracket. */
  function ReadRefs(s: string): Option<(seq<nat>, string)>
    decreases |s|
  {
    if "]" <= s then Some(([], s[1..])) else
      var r :- ReadRef(s);
      var rest := if " " <= r.1 then r.1[1..] else r.1;
      if |rest| >= |s| then None else
        var more :- ReadRefs(rest);
        Some(([r.0] + more.0, more.1))
  }

  // -------------------------------------------------------------- the file

  const START_XREF: string := "startxref\n"
  const END_OF_FILE: string := "\n%%EOF"

  /** The version, and a comment of at least four bytes that are no ASCII. */
  predicate HasHeader(file: string) {
    "%PDF-1.4\n%" <= file && |file| >= 14 && forall i :: 10 <= i < 14 ==> 128 <= file[i] as int <= 255
  }

  /** The last lines are startxref, the byte position of the table, and %%EOF. */
  function ReadStartXref(file: string): Option<nat> {
    if |file| < |END_OF_FILE| || file[|file| - |END_OF_FILE|..] != END_OF_FILE then None else
      var s := file[..|file| - |END_OF_FILE|];
      var k := TrailingDigits(s);
      if k == |s| || k < |START_XREF| || s[k - |START_XREF|..k] != START_XREF then None else Some(Value(s[k..]))
  }

  datatype Table = Table(total: nat, entries: nat)

  /** One subsection from object 0; `entries` is the position of the first entry. */
  function ReadTable(file: string): Option<Table> {
    var x :- ReadStartXref(file);
    if x > |file| then None else
      var r :- Expect(file[x..], "xref\n0 ");
      var t :- ReadNatThen(r, "\n");
      if |t.1| > |file| then None else Some(Table(t.0, |file| - |t.1|))
  }

  /** Object 0 heads the list of free objects, with generation 65535. */
  predicate HasFreeEntry(file: string, t: Table) {
    t.total > 0 && t.entries + 20 <= |file| && file[t.entries..t.entries + 20] == "0000000000 65535 f \n"
  }

  /** An entry has exactly 20 bytes: a ten-digit offset, generation 00000, the keyword n, two end-of-line bytes. */
  function ReadEntry(file: string, t: Table, num: nat): Option<nat> {
    var at := t.entries + 20 * num;
    if num >= t.total || at + 20 > |file| then None else
      var e := file[at..at + 20];
      if AllDigits(e[..10]) && e[10..] == " 00000 n \n" then Some(Value(e[..10])) else None
  }

  /** The file from behind the header of object `num`. */
  function OpenObject(file: string, t: Table, num: nat): Option<string> {
    var offset :- ReadEntry(file, t, num);
    if offset > |file| then None else
      var header :- ReadNatThen(file[offset..], " 0 obj\n");
      if header.0 == num then Some(header.1) else None
  }

  const SIZE_KEY: string := "trailer\n<< /Size "
  const ROOT_KEY: string := " /Root "

  function ReadRoot(file: string, t: Table): Option<nat> {
    var at := t.entries + 20 * t.total;
    if at > |file| then None else
      var r :- Expect(file[at..], SIZE_KEY);
      var size :- ReadNatThen(r, ROOT_KEY);
      var root :- ReadRefThen(size.1, " >>\n");
      if size.0 == t.total then Some(root.0) else None
  }

  // ----------------------------------------------------------------- page tree

  const CATALOG_KEY: string := "<< /Type /Catalog /Pages "
  const KIDS_KEY: string := "<< /Type /Pages /Kids ["
  const COUNT_KEY: string := " /Count "
  const END_DICT: string := " >>"

  /** The number of the root node, its kids, and the number of leaves it claims. */
  datatype Tree = Tree(num: nat, kids: seq<nat>, count: nat)

  function ReadTree(file: string, t: Table): Option<Tree> {
    var root :- ReadRoot(file, t);
    var catalog :- OpenObject(file, t, root);
    var r :- Expect(catalog, CATALOG_KEY);
    var tree :- ReadRefThen(r, END_DICT);
    var node :- OpenObject(file, t, tree.0);
    var s :- Expect(node, KIDS_KEY);
    var kids :- ReadRefs(s);
    var c :- Expect(kids.1, COUNT_KEY);
    var count :- ReadNatThen(c, END_DICT);
    Some(Tree(tree.0, kids.0, count.0))
  }

  const FONT_KEY: string := "<< /Type /Font /Subtype /Type1 "
  const BASE_FONT_KEY: string := "/BaseFont /"

  function NameLength(s: string): (k: nat)
    ensures k <= |s| && ' ' !in s[..k] && (k < |s| ==> s[k] == ' ')
  {
    if s == "" || s[0] == ' ' then 0 else
      var k := 1 + NameLength(s[1..]);
      assert s[..k] == [s[0]] + s[1..][..k - 1];
      k
  }

  /** The name of a standard font; the dictionary ends behind it. */
  function ReadFont(file: string, t: Table, num: nat): Option<string> {
    var s :- OpenObject(file, t, num);
    var r :- Expect(s, FONT_KEY);
    var b :- Expect(r, BASE_FONT_KEY);
    var k := NameLength(b);
    var end :- Expect(b[k..], END_DICT);
    Some(b[..k])
  }

  const PARENT_KEY: string := "<< /Type /Page /Parent "
  const BOX_KEY: string := " /MediaBox ["
  const F1_KEY: string := "] /Resources << /Font << /F1 "
  const F2_KEY: string := " /F2 "
  const F3_KEY: string := " /F3 "
  const CONTENTS_KEY: string := " >> >> /Contents "

  /** A page object: its parent, its box, the objects of its three fonts, and its content stream. */
  datatype Leaf = Leaf(parent: nat, box: (nat, nat, nat, nat), f1: nat, f2: nat, f3: nat, contents: nat)

  function ReadLeaf(page: string): Option<Leaf> {
    var s :- Expect(page, PARENT_KEY);
    var parent :- ReadRefThen(s, BOX_KEY);
    var left :- ReadNatThen(parent.1, " ");
    var bottom :- ReadNatThen(left.1, " ");
    var right :- ReadNatThen(bottom.1, " ");
    var top :- ReadNatThen(right.1, F1_KEY);
    var f1 :- ReadRefThen(top.1, F2_KEY);
    var f2 :- ReadRefThen(f1.1, F3_KEY);
    var f3 :- ReadRefThen(f2.1, CONTENTS_KEY);
    var contents :- ReadRefThen(f3.1, END_DICT);
    Some(Leaf(parent.0, (left.0, bottom.0, right.0, top.0), f1.0, f2.0, f3.0, contents.0))
  }

  const LENGTH_KEY: string := "<< /Length "
  const STREAM_KEY: string := " >>\nstream\n"
  const END_STREAM: string := "\nendstream\nendobj\n"

  /** Exactly Length bytes between the keywords. */
  function ReadStream(s: string): Option<string> {
    var r :- Expect(s, LENGTH_KEY);
    var length :- ReadNatThen(r, STREAM_KEY);
    if length.0 > |length.1| then None else
      var end :- Expect(length.1[length.0..], END_STREAM);
      Some(length.1[..length.0])
  }

  // ------------------------------------------------------------------ the pages

  /** What a page shows: its size in points, the fonts /F1, /F2 and /F3, and its content. */
  datatype Page = Page(width: nat, height: nat, f1: string, f2: string, f3: string, content: string)

  /** The number of pages, if the file is well formed and all its kids are leaves of the root node. */
  function ReadPageCount(file: string): Option<nat> {
    var t :- ReadTable(file);
    var tree :- ReadTree(file, t);
    if HasHeader(file) && HasFreeEntry(file, t) && tree.count == |tree.kids| then Some(tree.count) else None
  }

  /** Page i, found from the end of the file. */
  function ReadPage(file: string, i: nat): Option<Page> {
    var t :- ReadTable(file);
    var tree :- ReadTree(file, t);
    if i >= |tree.kids| then None else
      var page :- OpenObject(file, t, tree.kids[i]);
      var leaf :- ReadLeaf(page);
      var f1 :- ReadFont(file, t, leaf.f1);
      var f2 :- ReadFont(file, t, leaf.f2);
      var f3 :- ReadFont(file, t, leaf.f3);
      var stream :- OpenObject(file, t, leaf.contents);
      var content :- ReadStream(stream);
      if leaf.parent != tree.num || leaf.box.0 != 0 || leaf.box.1 != 0 then None
      else Some(Page(leaf.box.2, leaf.box.3, f1, f2, f3, content))
  }
}
