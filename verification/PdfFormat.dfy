/** The files that PdfBuild writes, read by PdfReader. */
module PdfFormat {
  import opened Common
  import opened Sequences
  import opened PdfStrings
  import opened PdfReader
  import opened PdfBuild

  lemma ExpectConcat(keyword: string, rest: string)
    ensures Expect(keyword + rest, keyword) == Some(rest)
  {
    var s := keyword + rest;
    assert s[|keyword|..] == rest && s[..|keyword|] == keyword;
  }

  predicate Bytes(s: string) {
    forall c :: c in s ==> c as int <= 255
  }

  lemma BytesConcat(a: string, b: string)
    ensures Bytes(a + b) <==> Bytes(a) && Bytes(b)
  {
    assert forall c :: c in a + b <==> c in a || c in b;
  }

  lemma DigitsBytes(n: nat)
    ensures Bytes(Digits(n)) && Bytes(Pad10(Digits(n)))
  {
    hide Digits;
    DigitsValue(n);
    var d := Digits(n);
    if |d| < 10 {
      ZerosValue(10 - |d|, d);
    }
    forall c | c in Pad10(d)
      ensures c as int <= 255
    {
      var i :| 0 <= i < |Pad10(d)| && Pad10(d)[i] == c;
      assert IsDigit(c);
    }
    forall c | c in d
      ensures c as int <= 255
    {
      var i :| 0 <= i < |d| && d[i] == c;
      assert IsDigit(c);
    }
  }

  lemma NumBytes(n: nat, rest: string)
    requires Bytes(rest)
    ensures Bytes(Num(n, rest))
  {
    hide Digits, Bytes;
    DigitsBytes(n);
    BytesConcat(Digits(n), rest);
  }

  lemma RefBytes(n: nat, rest: string)
    requires Bytes(rest)
    ensures Bytes(Ref(n, rest))
  {
    hide Digits, Bytes;
    DigitsBytes(n);
    assert Bytes(" 0 R") by { RefKeywordBytes(); }
    BytesConcat(" 0 R", rest);
    BytesConcat(Digits(n), " 0 R" + rest);
  }

  lemma RefKeywordBytes()
    ensures Bytes(" 0 R")
  {
  }

  lemma {:induction false} RefsBytes(first: nat, n: nat)
    ensures Bytes(Refs(first, n))
    decreases n
  {
    hide Ref, Bytes;
    NothingBytes();
    if n == 1 {
      RefBytes(first, "");
    } else if n > 1 {
      RefsBytes(first + 1, n - 1);
      BytesConcat(" ", Refs(first + 1, n - 1));
      RefBytes(first, " " + Refs(first + 1, n - 1));
    }
  }

  lemma NothingBytes()
    ensures Bytes("") && Bytes(" ")
  {
  }

  // one keyword a lemma: the solver spells each of them out

  lemma CountBytes()
    ensures Bytes(COUNT)
  {
  }

  lemma CloseBytes()
    ensures Bytes(CLOSE)
  {
  }

  lemma CatalogBytes()
    ensures Bytes(CATALOG)
  {
  }

  lemma KidsBytes()
    ensures Bytes(KIDS)
  {
  }

  lemma FontBytes()
    ensures Bytes(FONT)
  {
  }

  lemma BaseFontBytes()
    ensures Bytes(BASE_FONT)
  {
  }

  lemma FontNameBytes()
    ensures Bytes("Helvetica") && Bytes("Helvetica-Bold") && Bytes("Helvetica-Oblique")
  {
  }

  lemma FontDictBytes(name: string)
    requires Bytes(name)
    ensures Bytes(FontDict(name))
  {
    hide FONT, BASE_FONT, CLOSE, Bytes;
    FontBytes();
    BaseFontBytes();
    CloseBytes();
    BytesConcat(name, CLOSE);
    BytesConcat(BASE_FONT, name + CLOSE);
    BytesConcat(FONT, BASE_FONT + (name + CLOSE));
  }

  lemma PageBytes()
    ensures Bytes(PAGE)
  {
  }

  lemma MediaBoxBytes()
    ensures Bytes(MEDIA_BOX)
  {
  }

  lemma ResourcesBytes()
    ensures Bytes(RESOURCES)
  {
  }

  lemma FontKeyBytes()
    ensures Bytes(F2) && Bytes(F3)
  {
  }

  lemma ContentsBytes()
    ensures Bytes(CONTENTS)
  {
  }

  lemma FontsTextBytes(contents: nat, tail: string)
    requires Bytes(tail)
    ensures Bytes(FontsText(contents, tail))
  {
    hide RESOURCES, F2, F3, CONTENTS, CLOSE, Ref, Bytes;
    CloseBytes();
    ContentsBytes();
    FontKeyBytes();
    ResourcesBytes();
    BytesConcat(CLOSE, tail);
    RefBytes(contents, CLOSE + tail);
    var d := Ref(contents, CLOSE + tail);
    BytesConcat(CONTENTS, d);
    RefBytes(5, CONTENTS + d);
    var c := Ref(5, CONTENTS + d);
    BytesConcat(F3, c);
    RefBytes(4, F3 + c);
    var b := Ref(4, F3 + c);
    BytesConcat(F2, b);
    RefBytes(3, F2 + b);
    BytesConcat(RESOURCES, Ref(3, F2 + b));
  }

  lemma SpaceNumBytes(n: nat, rest: string)
    requires Bytes(rest)
    ensures Bytes(" " + Num(n, rest))
  {
    hide Num, Bytes;
    NothingBytes();
    NumBytes(n, rest);
    BytesConcat(" ", Num(n, rest));
  }

  lemma PageTextBytes(contents: nat, tail: string)
    requires Bytes(tail)
    ensures Bytes(PageText(contents, tail))
  {
    hide PAGE, MEDIA_BOX, FontsText, Num, Ref, Bytes;
    PageBytes();
    MediaBoxBytes();
    FontsTextBytes(contents, tail);
    var fonts := FontsText(contents, tail);
    SpaceNumBytes(HEIGHT, fonts);
    SpaceNumBytes(WIDTH, " " + Num(HEIGHT, fonts));
    var size := " " + Num(WIDTH, " " + Num(HEIGHT, fonts));
    SpaceNumBytes(0, size);
    NumBytes(0, " " + Num(0, size));
    var box := Num(0, " " + Num(0, size));
    BytesConcat(MEDIA_BOX, box);
    RefBytes(2, MEDIA_BOX + box);
    BytesConcat(PAGE, Ref(2, MEDIA_BOX + box));
  }

  /** Everything but the content streams is left as it is by the encoding. */
  lemma BodyBytes(pages: seq<string>, num: nat)
    requires 1 <= num < 6 + |pages|
    ensures Enc(Body(pages, num)) == Body(pages, num)
  {
    hide Num, Ref, PageText, FontDict, Refs, Enc, CATALOG, KIDS, COUNT, CLOSE, Bytes;
    var n := |pages|;
    CloseBytes();
    if num == 1 {
      CatalogBytes();
      RefBytes(2, CLOSE);
      BytesConcat(CATALOG, Ref(2, CLOSE));
    } else if num == 2 {
      var count := COUNT + Num(n, CLOSE);
      KidsBytes();
      CountBytes();
      RefsBytes(6, n);
      NumBytes(n, CLOSE);
      BytesConcat(COUNT, Num(n, CLOSE));
      BytesConcat(Refs(6, n), count);
      BytesConcat(KIDS, Refs(6, n) + count);
    } else if num <= 5 {
      FontNameBytes();
      FontDictBytes("Helvetica");
      FontDictBytes("Helvetica-Bold");
      FontDictBytes("Helvetica-Oblique");
    } else {
      NothingBytes();
      PageTextBytes(num + n, "");
    }
    EncOfBytes(Body(pages, num));
  }

  lemma EncOfBytes(s: string)
    requires Bytes(s)
    ensures Enc(s) == s
  {
    EncIsBytes(s);
  }

  lemma {:induction false} EntriesBytes(pages: seq<string>, k: nat)
    requires 1 <= k <= Total(|pages|)
    ensures Bytes(Entries(pages, k))
    decreases k
  {
    hide Digits, Prefix, Pad10;
    if k > 1 {
      EntriesBytes(pages, k - 1);
      var off := |Prefix(pages, k - 1)|;
      DigitsBytes(off);
      BytesConcat(Pad10(Digits(off)), " 00000 n \n");
      BytesConcat(Entries(pages, k - 1), Entry(off));
    }
  }

  lemma TrailerWordBytes()
    ensures Bytes(TRAILER)
  {
  }

  lemma RootBytes()
    ensures Bytes(ROOT) && Bytes(END_TRAILER)
  {
  }

  lemma StartXrefBytes()
    ensures Bytes(STARTXREF) && Bytes(EOF)
  {
  }

  lemma TrailerBytes(total: nat, x: nat)
    ensures Bytes(Trailer(total, x))
  {
    hide Num, Ref, Bytes, TRAILER, ROOT, END_TRAILER, STARTXREF, EOF;
    TrailerWordBytes();
    RootBytes();
    StartXrefBytes();
    NumBytes(x, EOF);
    var last := STARTXREF + Num(x, EOF);
    BytesConcat(STARTXREF, Num(x, EOF));
    BytesConcat(END_TRAILER, last);
    RefBytes(1, END_TRAILER + last);
    var root := Ref(1, END_TRAILER + last);
    BytesConcat(ROOT, root);
    NumBytes(total, ROOT + root);
    BytesConcat(TRAILER, Num(total, ROOT + root));
  }

  lemma XrefKeywordBytes()
    ensures Bytes("\n") && Bytes("xref\n0 ")
  {
  }

  lemma XrefBytes(pages: seq<string>)
    ensures Enc(XrefText(pages)) == XrefText(pages)
  {
    hide Digits, Prefix, Entries, Trailer, Enc, Bytes;
    XrefKeywordBytes();
    var total := Total(|pages|);
    var t := Trailer(total, |Prefix(pages, total)|);
    DigitsBytes(total);
    EntriesBytes(pages, total);
    TrailerBytes(total, |Prefix(pages, total)|);
    BytesConcat(Entries(pages, total), t);
    BytesConcat("\n", Entries(pages, total) + t);
    BytesConcat(Digits(total), "\n" + (Entries(pages, total) + t));
    BytesConcat("xref\n0 ", Digits(total) + ("\n" + (Entries(pages, total) + t)));
    EncOfBytes(XrefText(pages));
  }

  /** Every object is where its offset says. */
  lemma {:induction false} PrefixContains(pages: seq<string>, num: nat, k: nat) returns (tail: string)
    requires 1 <= num < k <= Total(|pages|)
    ensures Prefix(pages, k) == Prefix(pages, num) + (ObjectText(pages, num) + tail)
    decreases k
  {
    hide ObjectText;
    if k == num + 1 {
      tail := "";
      assert ObjectText(pages, num) + "" == ObjectText(pages, num);
    } else {
      var before := PrefixContains(pages, num, k - 1);
      var last := ObjectText(pages, k - 1);
      tail := before + last;
      Assoc(Prefix(pages, num), ObjectText(pages, num) + before, last);
      Assoc(ObjectText(pages, num), before, last);
    }
  }

  lemma ObjectAtOffset(pages: seq<string>, num: nat) returns (tail: string)
    requires 1 <= num < Total(|pages|)
    ensures |Prefix(pages, num)| < |Prefix(pages, Total(|pages|))| <= |File(pages)|
    ensures File(pages)[|Prefix(pages, num)|..] == ObjectText(pages, num) + tail
  {
    hide Prefix, Enc, XrefText, ObjectText;
    var inner := PrefixContains(pages, num, Total(|pages|));
    ObjectNotEmpty(pages, num);
    var before, text, xref := Prefix(pages, num), ObjectText(pages, num), Enc(XrefText(pages));
    tail := inner + xref;
    Assoc(before, text + inner, xref);
    Assoc(text, inner, xref);
    assert File(pages) == before + (text + tail);
    Drop(before, text + tail);
  }

  lemma ObjectNotEmpty(pages: seq<string>, num: nat)
    requires 1 <= num < Total(|pages|)
    ensures |ObjectText(pages, num)| > 0
  {
    DigitsValue(num);
  }

  /** An entry has its 20 bytes, and says what it should, exactly when the offset has at most ten digits. */
  lemma EntryShape(offset: nat)
    ensures |Entry(offset)| == 20 <==> offset < 10_000_000_000
    ensures offset < 10_000_000_000 ==>
      AllDigits(Entry(offset)[..10]) && Value(Entry(offset)[..10]) == offset && Entry(offset)[10..] == " 00000 n \n"
  {
    hide Digits, Value, Zeros;
    var d := Digits(offset);
    DigitsValue(offset);
    DigitsLength(offset, 10);
    Power10Ten();
    if |d| < 10 {
      ZerosValue(10 - |d|, d);
    }
    if |d| <= 10 {
      assert Entry(offset)[..10] == Pad10(d);
      assert Entry(offset)[10..] == " 00000 n \n";
    }
  }

  lemma {:induction false} EntriesAt(pages: seq<string>, k: nat, num: nat)
    requires 1 <= num < k <= Total(|pages|) && |Prefix(pages, k - 1)| < TEN_DIGITS
    ensures |Entries(pages, k)| == 20 * k
    ensures Entries(pages, k)[20 * num..20 * num + 20] == Entry(|Prefix(pages, num)|)
    decreases k
  {
    hide Entry, Prefix, AllDigits, Value;
    var off := |Prefix(pages, k - 1)|;
    EntryShape(off);
    if num < k - 1 {
      PrefixGrows(pages, k - 2);
      EntriesAt(pages, k - 1, num);
    } else {
      if k > 2 {
        PrefixGrows(pages, k - 2);
      }
      EntriesLength(pages, k - 1);
    }
  }

  lemma {:induction false} EntriesLength(pages: seq<string>, k: nat)
    requires 1 <= k <= Total(|pages|) && (k > 1 ==> |Prefix(pages, k - 1)| < TEN_DIGITS)
    ensures |Entries(pages, k)| == 20 * k
    decreases k
  {
    hide Entry, Prefix, AllDigits, Value;
    if k > 1 {
      if k > 2 {
        PrefixGrows(pages, k - 2);
      }
      EntryShape(|Prefix(pages, k - 1)|);
      EntriesLength(pages, k - 1);
    }
  }

  lemma PrefixGrows(pages: seq<string>, k: nat)
    requires 1 <= k < Total(|pages|)
    ensures |Prefix(pages, k)| < |Prefix(pages, k + 1)|
  {
    ObjectNotEmpty(pages, k);
  }

  // the end of the file

  lemma {:induction false} TrailingDigitsOf(s: string, d: string)
    requires AllDigits(d) && s != "" && !IsDigit(s[|s| - 1])
    ensures TrailingDigits(s + d) == |s|
    decreases |d|
  {
    if d == "" {
      assert s + d == s;
    } else {
      assert (s + d)[..|s + d| - 1] == s + d[..|d| - 1];
      TrailingDigitsOf(s, d[..|d| - 1]);
    }
  }

  lemma StartXrefIsRead(before: string, x: nat)
    ensures ReadStartXref(before + (STARTXREF + Num(x, EOF))) == Some(x)
  {
    EndWords();
    var d, head := Digits(x), before + STARTXREF;
    assert head[|head| - 1] == '\n';
    hide Digits, Value, TrailingDigits, STARTXREF, EOF, START_XREF, END_OF_FILE;
    DigitsValue(x);
    TrailingDigitsOf(head, d);
    Assoc(before, STARTXREF, d + EOF);
    Assoc(head, d, EOF);
    Drop(head + d, EOF);
    Drop(head, d);
    Middle(before, STARTXREF, d);
  }

  lemma EndWords()
    ensures STARTXREF == START_XREF && EOF == END_OF_FILE
  {
  }

  lemma Middle(a: string, b: string, c: string)
    ensures (a + b + c)[|a|..|a| + |b|] == b
  {
  }

  function TableOf(pages: seq<string>): Table {
    var total := Total(|pages|);
    Table(total, |Prefix(pages, total)| + 7 + |Digits(total)| + 1)
  }

  /** The file around its table. */
  lemma FileShape(pages: seq<string>)
    ensures var total := Total(|pages|);
      var x := |Prefix(pages, total)|;
      var rest := Entries(pages, total) + Trailer(total, x);
      && x <= |File(pages)| && File(pages)[x..] == "xref\n0 " + (Digits(total) + ("\n" + rest))
      && TableOf(pages).entries + |rest| == |File(pages)|
      && File(pages)[TableOf(pages).entries..] == rest
  {
    hide Prefix, Entries, Trailer, Enc, Digits;
    XrefBytes(pages);
    var total := Total(|pages|);
    var x := |Prefix(pages, total)|;
    var rest := Entries(pages, total) + Trailer(total, x);
    var intro := "xref\n0 " + (Digits(total) + "\n");
    assert XrefText(pages) == intro + rest;
    assert File(pages) == (Prefix(pages, total) + intro) + rest;
    assert File(pages)[x..] == XrefText(pages);
    assert File(pages)[TableOf(pages).entries..] == rest;
  }

  lemma StartXrefOfFile(pages: seq<string>)
    ensures ReadStartXref(File(pages)) == Some(|Prefix(pages, Total(|pages|))|)
  {
    hide ReadStartXref, Prefix, Entries, Enc, Digits, Num, File, TableOf, TRAILER, ROOT, END_TRAILER, STARTXREF, EOF;
    FileShape(pages);
    var total, file := Total(|pages|), File(pages);
    var x, at := |Prefix(pages, total)|, TableOf(pages).entries;
    var last := STARTXREF + Num(x, EOF);
    var mid := TrailerBefore(total, x);
    var entries := Entries(pages, total);
    Assoc(entries, mid, last);
    Assoc(file[..at], entries + mid, last);
    assert file == file[..at] + file[at..];
    StartXrefIsRead(file[..at] + (entries + mid), x);
  }

  lemma TrailerBefore(total: nat, x: nat) returns (mid: string)
    ensures Trailer(total, x) == mid + (STARTXREF + Num(x, EOF))
  {
    hide Digits, TRAILER, ROOT, END_TRAILER, STARTXREF, EOF;
    var last := STARTXREF + Num(x, EOF);
    mid := TRAILER + Num(total, ROOT + Ref(1, END_TRAILER));
    Assoc(" 0 R", END_TRAILER, last);
    Assoc(Digits(1), " 0 R" + END_TRAILER, last);
    Assoc(ROOT, Ref(1, END_TRAILER), last);
    Assoc(Digits(total), ROOT + Ref(1, END_TRAILER), last);
    Assoc(TRAILER, Num(total, ROOT + Ref(1, END_TRAILER)), last);
  }

  /** startxref leads to the table. */
  lemma TableIsRead(pages: seq<string>)
    ensures ReadTable(File(pages)) == Some(TableOf(pages))
  {
    hide ReadStartXref, Prefix, Entries, Trailer, Enc, Digits, File, ReadNatThen, Expect;
    FileShape(pages);
    StartXrefOfFile(pages);
    var total, file := Total(|pages|), File(pages);
    var rest := Entries(pages, total) + Trailer(total, |Prefix(pages, total)|);
    ExpectConcat("xref\n0 ", Digits(total) + ("\n" + rest));
    NumThenIsRead(total, "\n", rest);
  }

  /** The last object begins below ten billion bytes. */
  ghost predicate Small(pages: seq<string>) {
    |Prefix(pages, Total(|pages|) - 1)| < 10_000_000_000
  }

  lemma {:induction false} PrefixMonotone(pages: seq<string>, j: nat, k: nat)
    requires 1 <= j <= k <= Total(|pages|)
    ensures |Prefix(pages, j)| <= |Prefix(pages, k)|
    decreases k
  {
    hide Prefix;
    if j < k {
      PrefixMonotone(pages, j, k - 1);
      PrefixGrows(pages, k - 1);
    }
  }

  /** All entries have the 20 bytes that section 7.5.4 of ISO 32000-1 demands, exactly for small files. */
  lemma TableShape(pages: seq<string>)
    ensures (forall num :: 1 <= num < Total(|pages|) ==> |Entry(|Prefix(pages, num)|)| == 20) <==> Small(pages)
  {
    hide Prefix, Entry;
    var last := Total(|pages|) - 1;
    forall num | 1 <= num <= last
      ensures |Prefix(pages, num)| <= |Prefix(pages, last)|
      ensures |Entry(|Prefix(pages, num)|)| == 20 <==> |Prefix(pages, num)| < TEN_DIGITS
    {
      PrefixMonotone(pages, num, last);
      EntryShape(|Prefix(pages, num)|);
    }
    assert 1 <= last < Total(|pages|);
  }

  /** Every entry of the table is the byte position of its object's header. */
  lemma EntryIsRead(pages: seq<string>, num: nat)
    requires Small(pages) && 1 <= num < Total(|pages|)
    ensures ReadEntry(File(pages), TableOf(pages), num) == Some(|Prefix(pages, num)|)
  {
    hide Prefix, Entries, Entry, Trailer, Enc, Digits, File, Value, TableOf, AllDigits;
    FileShape(pages);
    var total, file, t := Total(|pages|), File(pages), TableOf(pages);
    assert t.total == total by { TableTotal(pages); }
    EntriesAt(pages, total, num);
    var tail := ObjectAtOffset(pages, num);
    EntryShape(|Prefix(pages, num)|);
    SliceOfTail(file, t.entries, 20 * num, 20);
    SliceOfConcat(Entries(pages, total), Trailer(total, |Prefix(pages, total)|), 20 * num, 20);
  }

  lemma SliceOfTail(s: string, a: nat, b: nat, n: nat)
    requires a + b + n <= |s|
    ensures s[a..][b..b + n] == s[a + b..a + b + n]
  {
  }

  lemma SliceOfConcat(s: string, t: string, b: nat, n: nat)
    requires b + n <= |s|
    ensures (s + t)[b..b + n] == s[b..b + n]
  {
  }

  lemma TableTotal(pages: seq<string>)
    ensures TableOf(pages).total == Total(|pages|)
  {
  }

  /** What stands behind the header of object `num`. */
  function ObjectBody(pages: seq<string>, num: nat): string
    requires 1 <= num < Total(|pages|)
  {
    var bdy := Enc(Body(pages, num));
    if num >= 6 + |pages| then
      LENGTH + (Digits(|bdy|) + (STREAM + (bdy + ENDSTREAM)))
    else bdy + ENDOBJ
  }

  lemma ObjectOpens(pages: seq<string>, num: nat) returns (tail: string)
    requires Small(pages) && 1 <= num < Total(|pages|)
    ensures OpenObject(File(pages), TableOf(pages), num) == Some(ObjectBody(pages, num) + tail)
  {
    hide Prefix, Enc, Digits, File, TableOf, ReadEntry, ReadNatThen, Body, LENGTH, STREAM, ENDSTREAM, ENDOBJ;
    EntryIsRead(pages, num);
    tail := ObjectAtOffset(pages, num);
    var inner := ObjectBody(pages, num) + tail;
    ObjectTextOpens(pages, num, tail);
    hide ObjectText, ObjectBody;
    NumThenIsRead(num, " 0 obj\n", inner);
  }

  lemma ObjectTextOpens(pages: seq<string>, num: nat, tail: string)
    requires 1 <= num < Total(|pages|)
    ensures ObjectText(pages, num) + tail == Num(num, " 0 obj\n" + (ObjectBody(pages, num) + tail))
  {
    hide Enc, Digits, Body, LENGTH, STREAM, ENDSTREAM, ENDOBJ;
    Assoc(ObjectHeader(num), ObjectBody(pages, num), tail);
    Assoc(Digits(num), OBJ, ObjectBody(pages, num) + tail);
  }

  // ------------------------------------------------------------------ primitives

  lemma NumThenIsRead(n: nat, keyword: string, rest: string)
    requires keyword != "" && !IsDigit(keyword[0])
    ensures ReadNatThen(Num(n, keyword + rest), keyword) == Some((n, rest))
  {
    hide ReadNat, Digits, Expect;
    ReadDigits(n, keyword + rest);
    ExpectConcat(keyword, rest);
  }

  lemma RefIsRead(n: nat, rest: string)
    ensures ReadRef(Ref(n, rest)) == Some((n, rest))
  {
    hide Digits, ReadNatThen;
    NumThenIsRead(n, " 0 R", rest);
  }

  lemma RefThenIsRead(n: nat, keyword: string, rest: string)
    ensures ReadRefThen(Ref(n, keyword + rest), keyword) == Some((n, rest))
  {
    hide Ref, ReadRef, Expect;
    RefIsRead(n, keyword + rest);
    ExpectConcat(keyword, rest);
  }

  lemma RefTail(n: nat, rest: string, tail: string)
    ensures Ref(n, rest) + tail == Ref(n, rest + tail)
  {
    hide Digits;
    Assoc(Digits(n), " 0 R" + rest, tail);
    Assoc(" 0 R", rest, tail);
  }

  lemma NumTail(n: nat, rest: string, tail: string)
    ensures Num(n, rest) + tail == Num(n, rest + tail)
  {
    hide Digits;
    Assoc(Digits(n), rest, tail);
  }

  lemma RefNotBracket(n: nat, rest: string)
    ensures !("]" <= Ref(n, rest)) && |Ref(n, rest)| > |rest|
  {
    hide Digits;
    DigitsValue(n);
    assert Ref(n, rest)[0] == Digits(n)[0];
  }

  lemma {:induction false} RefsAreRead(first: nat, n: nat, rest: string)
    ensures ReadRefs(Refs(first, n) + ("]" + rest)) == Some((seq(n, i => first + i), rest))
    decreases n
  {
    hide ReadRef, Ref;
    var last := "]" + rest;
    assert last[1..] == rest;
    if n == 0 {
      assert "" + last == last;
      assert seq(n, i => first + i) == [];
    } else if n == 1 {
      RefTail(first, "", last);
      assert "" + last == last;
      RefIsRead(first, last);
      RefNotBracket(first, last);
      assert !(" " <= last);
      assert ReadRefs(last) == Some(([], rest));
      assert seq(n, i => first + i) == [first] + [];
    } else {
      var more := Refs(first + 1, n - 1) + last;
      RefTail(first, " " + Refs(first + 1, n - 1), last);
      Assoc(" ", Refs(first + 1, n - 1), last);
      RefIsRead(first, " " + more);
      RefNotBracket(first, " " + more);
      assert (" " + more)[1..] == more;
      RefsAreRead(first + 1, n - 1, rest);
      assert seq(n, i => first + i) == [first] + seq(n - 1, i => first + 1 + i);
    }
  }

  // --------------------------------------------------------- trailer, catalog, tree

  lemma RootWords()
    ensures TRAILER == SIZE_KEY && ROOT == ROOT_KEY && END_TRAILER == " >>\n"
    ensures ROOT != "" && !IsDigit(ROOT[0])
  {
  }

  lemma RootIsRead(pages: seq<string>)
    requires Small(pages)
    ensures ReadRoot(File(pages), TableOf(pages)) == Some(1)
  {
    hide Prefix, Entries, Enc, Num, Ref, File, TableOf, ReadNatThen, ReadRefThen, Expect;
    hide TRAILER, ROOT, END_TRAILER, STARTXREF, EOF, SIZE_KEY, ROOT_KEY;
    FileShape(pages);
    TableTotal(pages);
    RootWords();
    var total, file, t := Total(|pages|), File(pages), TableOf(pages);
    EntriesLength(pages, total);
    var x := |Prefix(pages, total)|;
    var last := STARTXREF + Num(x, EOF);
    var root := Ref(1, END_TRAILER + last);
    var at := t.entries + 20 * total;
    Drop(Entries(pages, total), Trailer(total, x));
    assert file[at..] == file[t.entries..][20 * total..];
    ExpectConcat(TRAILER, Num(total, ROOT + root));
    NumThenIsRead(total, ROOT, root);
    RefThenIsRead(1, END_TRAILER, last);
  }

  lemma CatalogWords()
    ensures CATALOG == CATALOG_KEY && CLOSE == END_DICT
  {
  }

  lemma CatalogIsRead(pages: seq<string>) returns (catalog: string, refs: string, rest: string)
    requires Small(pages)
    ensures OpenObject(File(pages), TableOf(pages), 1) == Some(catalog)
    ensures Expect(catalog, CATALOG_KEY) == Some(refs) && ReadRefThen(refs, END_DICT) == Some((2, rest))
  {
    hide Small, Prefix, Enc, Ref, File, TableOf, ReadRefThen, OpenObject, Expect, CATALOG, CATALOG_KEY, CLOSE, END_DICT, ENDOBJ;
    CatalogWords();
    var tail := ObjectOpens(pages, 1);
    BodyBytes(pages, 1);
    rest := ENDOBJ + tail;
    refs := Ref(2, CLOSE + rest);
    catalog := CATALOG + refs;
    Assoc(CLOSE, ENDOBJ, tail);
    RefTail(2, CLOSE, rest);
    Assoc(CATALOG, Ref(2, CLOSE), rest);
    Assoc(CATALOG + Ref(2, CLOSE), ENDOBJ, tail);
    assert ObjectBody(pages, 1) + tail == catalog;
    ExpectConcat(CATALOG, refs);
    RefThenIsRead(2, CLOSE, rest);
  }

  lemma TreeWords()
    ensures KIDS == KIDS_KEY && COUNT == "]" + COUNT_KEY
    ensures CLOSE == END_DICT && CLOSE != "" && !IsDigit(CLOSE[0])
  {
  }

  lemma NodeIsRead(pages: seq<string>) returns (node: string, kids: string, c: string, rest: string)
    requires Small(pages)
    ensures OpenObject(File(pages), TableOf(pages), 2) == Some(node) && Expect(node, KIDS_KEY) == Some(kids)
    ensures ReadRefs(kids) == Some((seq(|pages|, i => 6 + i), COUNT_KEY + c))
    ensures Expect(COUNT_KEY + c, COUNT_KEY) == Some(c) && ReadNatThen(c, END_DICT) == Some((|pages|, rest))
  {
    hide Small, Prefix, Enc, Num, File, TableOf, ReadRefs, ReadNatThen, OpenObject, Expect, Refs;
    hide KIDS, COUNT, CLOSE, ENDOBJ, KIDS_KEY, COUNT_KEY, END_DICT;
    TreeWords();
    var n := |pages|;
    var tail := ObjectOpens(pages, 2);
    BodyBytes(pages, 2);
    rest := ENDOBJ + tail;
    c := Num(n, CLOSE + rest);
    kids := Refs(6, n) + ("]" + (COUNT_KEY + c));
    node := KIDS + kids;
    var count := Num(n, CLOSE);
    NumTail(n, CLOSE, rest);
    Assoc("]", COUNT_KEY, c);
    Assoc(COUNT, count, rest);
    Assoc(Refs(6, n), COUNT + count, rest);
    Assoc(KIDS, Refs(6, n) + (COUNT + count), rest);
    Assoc(KIDS + (Refs(6, n) + (COUNT + count)), ENDOBJ, tail);
    assert ObjectBody(pages, 2) + tail == node;
    ExpectConcat(KIDS, kids);
    RefsAreRead(6, n, COUNT_KEY + c);
    ExpectConcat(COUNT_KEY, c);
    NumThenIsRead(n, CLOSE, rest);
  }

  /** Root, Pages, Kids and Count lead to the page objects, in order, and their number. */
  lemma TreeIsRead(pages: seq<string>)
    requires Small(pages)
    ensures ReadTree(File(pages), TableOf(pages)) == Some(Tree(2, seq(|pages|, i => 6 + i), |pages|))
  {
    hide Small, Prefix, File, TableOf, ReadRoot, ReadRefThen, ReadNatThen, ReadRefs, OpenObject, Expect;
    hide CATALOG_KEY, KIDS_KEY, COUNT_KEY, END_DICT;
    RootIsRead(pages);
    var catalog, refs, rest := CatalogIsRead(pages);
    var node, kids, c, end := NodeIsRead(pages);
  }

  // ----------------------------------------------------------------------- fonts

  lemma FontWords()
    ensures FONT == FONT_KEY && BASE_FONT == BASE_FONT_KEY
    ensures CLOSE == END_DICT && CLOSE != "" && CLOSE[0] == ' '
  {
  }

  lemma {:induction false} NameIsRead(name: string, rest: string)
    requires ' ' !in name && rest != "" && rest[0] == ' '
    ensures NameLength(name + rest) == |name|
  {
    var s := name + rest;
    if name == "" {
      assert s == rest;
    } else {
      assert s[0] == name[0] && s[1..] == name[1..] + rest;
      NameIsRead(name[1..], rest);
    }
  }

  /** A font object is read as the font it names. */
  lemma FontIsRead(pages: seq<string>, num: nat, name: string)
    requires Small(pages) && 3 <= num <= 5 && Body(pages, num) == FontDict(name) && ' ' !in name
    ensures ReadFont(File(pages), TableOf(pages), num) == Some(name)
  {
    hide Small, Prefix, Enc, File, TableOf, Body, NameLength, OpenObject, Expect;
    hide FONT, BASE_FONT, CLOSE, ENDOBJ, FONT_KEY, BASE_FONT_KEY, END_DICT;
    FontWords();
    var tail := ObjectOpens(pages, num);
    BodyBytes(pages, num);
    var rest := ENDOBJ + tail;
    Assoc(CLOSE, ENDOBJ, tail);
    Assoc(name, CLOSE, rest);
    Assoc(BASE_FONT, name + CLOSE, rest);
    Assoc(FONT, BASE_FONT + (name + CLOSE), rest);
    Assoc(FontDict(name), ENDOBJ, tail);
    var b := name + (CLOSE + rest);
    ExpectConcat(FONT, BASE_FONT + b);
    ExpectConcat(BASE_FONT, b);
    assert (CLOSE + rest)[0] == ' ';
    NameIsRead(name, CLOSE + rest);
    Drop(name, CLOSE + rest);
    ExpectConcat(CLOSE, rest);
  }

  /** The three fonts. */
  lemma FontsAreRead(pages: seq<string>)
    requires Small(pages)
    ensures ReadFont(File(pages), TableOf(pages), 3) == Some("Helvetica")
    ensures ReadFont(File(pages), TableOf(pages), 4) == Some("Helvetica-Bold")
    ensures ReadFont(File(pages), TableOf(pages), 5) == Some("Helvetica-Oblique")
  {
    hide Small, Prefix, File, TableOf, ReadFont, FontDict;
    NamesHaveNoSpace();
    FontIsRead(pages, 3, "Helvetica");
    FontIsRead(pages, 4, "Helvetica-Bold");
    FontIsRead(pages, 5, "Helvetica-Oblique");
  }

  lemma NamesHaveNoSpace()
    ensures ' ' !in "Helvetica" && ' ' !in "Helvetica-Bold" && ' ' !in "Helvetica-Oblique"
  {
  }

  // ----------------------------------------------------------------- page objects

  lemma PageTextTail(contents: nat, tail: string)
    ensures PageText(contents, "") + tail == PageText(contents, tail)
  {
    hide Ref, Num, PAGE, MEDIA_BOX, RESOURCES, F2, F3, CONTENTS, CLOSE;
    assert CLOSE + "" == CLOSE;
    RefTail(contents, CLOSE, tail);
    var d := Ref(contents, CLOSE);
    Assoc(CONTENTS, d, tail);
    RefTail(5, CONTENTS + d, tail);
    var c := Ref(5, CONTENTS + d);
    Assoc(F3, c, tail);
    RefTail(4, F3 + c, tail);
    var b := Ref(4, F3 + c);
    Assoc(F2, b, tail);
    RefTail(3, F2 + b, tail);
    Assoc(RESOURCES, Ref(3, F2 + b), tail);
    assert FontsText(contents, "") + tail == FontsText(contents, tail);
    hide FontsText;
    var fonts := FontsText(contents, "");
    BoxTail(fonts, tail);
  }

  lemma BoxTail(fonts: string, tail: string)
    ensures PAGE + Ref(2, MEDIA_BOX + Num(0, " " + Num(0, " " + Num(WIDTH, " " + Num(HEIGHT, fonts))))) + tail
         == PAGE + Ref(2, MEDIA_BOX + Num(0, " " + Num(0, " " + Num(WIDTH, " " + Num(HEIGHT, fonts + tail)))))
  {
    hide Ref, Num, PAGE, MEDIA_BOX;
    NumTail(HEIGHT, fonts, tail);
    var d := Num(HEIGHT, fonts);
    Assoc(" ", d, tail);
    NumTail(WIDTH, " " + d, tail);
    var c := Num(WIDTH, " " + d);
    Assoc(" ", c, tail);
    NumTail(0, " " + c, tail);
    var b := Num(0, " " + c);
    Assoc(" ", b, tail);
    NumTail(0, " " + b, tail);
    var a := Num(0, " " + b);
    Assoc(MEDIA_BOX, a, tail);
    RefTail(2, MEDIA_BOX + a, tail);
    Assoc(PAGE, Ref(2, MEDIA_BOX + a), tail);
  }

  lemma PageWords()
    ensures PAGE == PARENT_KEY && MEDIA_BOX == BOX_KEY && CLOSE == END_DICT
    ensures F2 == F2_KEY && F3 == F3_KEY && CONTENTS == CONTENTS_KEY
    ensures RESOURCES == F1_KEY && RESOURCES != "" && !IsDigit(RESOURCES[0])
  {
  }

  lemma LeafIsRead(contents: nat, tail: string)
    ensures ReadLeaf(PageText(contents, tail)) == Some(Leaf(2, (0, 0, 612, 792), 3, 4, 5, contents))
  {
    hide Ref, Num, ReadRefThen, ReadNatThen, Expect;
    hide PAGE, MEDIA_BOX, RESOURCES, F2, F3, CONTENTS, CLOSE;
    hide PARENT_KEY, BOX_KEY, F1_KEY, F2_KEY, F3_KEY, CONTENTS_KEY, END_DICT;
    PageWords();
    var d := Ref(contents, CLOSE + tail);
    var c := Ref(5, CONTENTS + d);
    var b := Ref(4, F3 + c);
    var a := Ref(3, F2 + b);
    var top := Num(HEIGHT, RESOURCES + a);
    var right := Num(WIDTH, " " + top);
    var bottom := Num(0, " " + right);
    var left := Num(0, " " + bottom);
    ExpectConcat(PAGE, Ref(2, MEDIA_BOX + left));
    RefThenIsRead(2, MEDIA_BOX, left);
    NumThenIsRead(0, " ", bottom);
    NumThenIsRead(0, " ", right);
    NumThenIsRead(WIDTH, " ", top);
    NumThenIsRead(HEIGHT, RESOURCES, a);
    RefThenIsRead(3, F2, b);
    RefThenIsRead(4, F3, c);
    RefThenIsRead(5, CONTENTS, d);
    RefThenIsRead(contents, CLOSE, tail);
  }

  /** Each page object has the root node as its parent, US Letter as its box, and names the three fonts and its own stream. */
  lemma PageObjectIsRead(pages: seq<string>, i: nat) returns (page: string)
    requires Small(pages) && i < |pages|
    ensures OpenObject(File(pages), TableOf(pages), 6 + i) == Some(page)
    ensures ReadLeaf(page) == Some(Leaf(2, (0, 0, 612, 792), 3, 4, 5, 6 + |pages| + i))
  {
    hide Small, Prefix, Enc, File, TableOf, ReadLeaf, OpenObject, PageText, ENDOBJ;
    var num, contents := 6 + i, 6 + |pages| + i;
    var tail := ObjectOpens(pages, num);
    BodyBytes(pages, num);
    Assoc(PageText(contents, ""), ENDOBJ, tail);
    PageTextTail(contents, ENDOBJ + tail);
    page := PageText(contents, ENDOBJ + tail);
    LeafIsRead(contents, ENDOBJ + tail);
  }

  lemma Reassociate(a: string, b: string, c: string, d: string, e: string, f: string)
    ensures a + (b + (c + (d + e))) + f == a + (b + (c + (d + (e + f))))
  {
    Assoc(a, b + (c + (d + e)), f);
    Assoc(b, c + (d + e), f);
    Assoc(c, d + e, f);
    Assoc(d, e, f);
  }

  lemma StreamWords()
    ensures LENGTH == LENGTH_KEY && ENDSTREAM == END_STREAM
    ensures STREAM == STREAM_KEY && STREAM != "" && !IsDigit(STREAM[0])
  {
  }

  lemma StreamIsRead(bdy: string, tail: string)
    ensures ReadStream(LENGTH + (Digits(|bdy|) + (STREAM + (bdy + ENDSTREAM))) + tail) == Some(bdy)
  {
    hide Digits, ReadNatThen, Expect, LENGTH, STREAM, ENDSTREAM, LENGTH_KEY, STREAM_KEY, END_STREAM;
    StreamWords();
    var data := bdy + (ENDSTREAM + tail);
    Reassociate(LENGTH, Digits(|bdy|), STREAM, bdy, ENDSTREAM, tail);
    ExpectConcat(LENGTH, Digits(|bdy|) + (STREAM + data));
    NumThenIsRead(|bdy|, STREAM, data);
    assert data[|bdy|..] == ENDSTREAM + tail && data[..|bdy|] == bdy;
    ExpectConcat(ENDSTREAM, tail);
  }

  /** And its Length is the number of bytes between the keywords. */
  lemma PageStreamIsRead(pages: seq<string>, i: nat) returns (stream: string)
    requires Small(pages) && i < |pages|
    ensures OpenObject(File(pages), TableOf(pages), 6 + |pages| + i) == Some(stream)
    ensures ReadStream(stream) == Some(Enc(pages[i]))
  {
    hide Small, Prefix, Enc, Digits, File, TableOf, ReadStream, OpenObject, LENGTH, STREAM, ENDSTREAM;
    var contents := 6 + |pages| + i;
    var tail := ObjectOpens(pages, contents);
    assert Body(pages, contents) == pages[i];
    StreamIsRead(Enc(pages[i]), tail);
    stream := ObjectBody(pages, contents) + tail;
  }

  // ----------------------------------------------------------------- the whole file

  lemma {:induction false} HeaderFirst(pages: seq<string>, k: nat)
    requires 1 <= k <= Total(|pages|)
    ensures HEADER <= Prefix(pages, k)
    decreases k
  {
    hide HEADER, ObjectText;
    if k > 1 {
      HeaderFirst(pages, k - 1);
    }
  }

  lemma HeaderIsRead(rest: string)
    ensures HasHeader(HEADER + rest)
  {
  }

  /** The four characters of the comment are written in UTF-8. */
  lemma HeaderComment(k: nat)
    requires k < 4
    ensures var code := [0xe2, 0xe3, 0xcf, 0xd3][k];
      |HEADER| == 19 && HEADER[10 + 2 * k] as int == 0xc0 + code / 64 && HEADER[11 + 2 * k] as int == 0x80 + code % 64
  {
  }

  lemma FreeEntryIsRead(pages: seq<string>)
    requires Small(pages)
    ensures HasFreeEntry(File(pages), TableOf(pages))
  {
    hide Prefix, Entries, Trailer, Enc, Digits, File, TableOf, FREE_ENTRY;
    FileShape(pages);
    TableTotal(pages);
    var total, file, t := Total(|pages|), File(pages), TableOf(pages);
    EntriesLength(pages, total);
    FreeEntryFirst(pages, total);
    FreeEntryWord();
    assert file[t.entries..t.entries + 20] == file[t.entries..][..20];
  }

  lemma FreeEntryWord()
    ensures FREE_ENTRY == "0000000000 65535 f \n" && |FREE_ENTRY| == 20
  {
  }

  lemma {:induction false} FreeEntryFirst(pages: seq<string>, k: nat)
    requires 1 <= k <= Total(|pages|)
    ensures FREE_ENTRY <= Entries(pages, k)
    decreases k
  {
    hide FREE_ENTRY, Entry, Prefix;
    if k > 1 {
      FreeEntryFirst(pages, k - 1);
    }
  }

  /** The file is well formed, and announces exactly the pages it has. */
  lemma PageCountIsRead(pages: seq<string>)
    requires Small(pages)
    ensures ReadPageCount(File(pages)) == Some(|pages|)
  {
    hide Small, Prefix, Enc, XrefText, TableOf, ReadTable, ReadTree, HasHeader, HasFreeEntry, HEADER;
    TableIsRead(pages);
    TreeIsRead(pages);
    FreeEntryIsRead(pages);
    var before := Prefix(pages, Total(|pages|));
    HeaderFirst(pages, Total(|pages|));
    assert before == HEADER + before[|HEADER|..];
    Assoc(HEADER, before[|HEADER|..], Enc(XrefText(pages)));
    HeaderIsRead(before[|HEADER|..] + Enc(XrefText(pages)));
  }

  /**
   Following startxref, the table, Root, Kids, Font and Contents, and cutting out Length bytes,
   gives for every page US Letter, the three fonts and exactly the page's encoded content, for
   any number of pages and any contents.
   */
  lemma PageIsRead(pages: seq<string>, i: nat)
    requires Small(pages) && i < |pages|
    ensures ReadPage(File(pages), i)
         == Some(Page(612, 792, "Helvetica", "Helvetica-Bold", "Helvetica-Oblique", Enc(pages[i])))
  {
    hide Small, Prefix, Enc, File, TableOf, ReadTable, ReadTree, ReadLeaf, ReadFont, ReadStream, OpenObject;
    TableIsRead(pages);
    TreeIsRead(pages);
    FontsAreRead(pages);
    var page := PageObjectIsRead(pages, i);
    var stream := PageStreamIsRead(pages, i);
  }
}
