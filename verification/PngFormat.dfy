/** What the strict reader makes of the writer's files, and the decoder of what the reader accepts. */
module PngFormat {
  import opened Sequences
  import opened Common
  import opened BigEndians
  import opened Crc32
  import opened Png
  import PngReader

  // -------------------------------------------------------------- the two CRCs

  lemma TurnIsShift(c: bv32)
    ensures PngReader.Turn(c) == Shift(c)
  {
    assert PngReader.POLY == POLYNOMIAL;
  }

  lemma {:induction false} TurnsAreShifts(c: bv32, n: nat)
    ensures PngReader.Turns(c, n) == Shifts(c, n)
    decreases n
  {
    hide PngReader.Turn, Shift;
    if n > 0 {
      TurnIsShift(c);
      TurnsAreShifts(Shift(c), n - 1);
    }
  }

  lemma MixIn(c: bv32, b: byte)
    ensures c ^ (b as bv32) == Xor(c, Wide(b))
  {
  }

  lemma {:induction false} TakenIsRegister(c: bv32, s: seq<byte>)
    ensures PngReader.Taken(c, s) == Register(c, s)
    decreases s
  {
    hide PngReader.Turns, FeedByte, Shifts, Shift8, Xor, Wide;
    if s != [] {
      MixIn(c, s[0]);
      var mixed := Xor(c, Wide(s[0]));
      TurnsAreShifts(mixed, 8);
      EightShifts(mixed);
      FeedByteIsShift8(c, s[0]);
      TakenIsRegister(FeedByte(c, s[0]), s[1..]);
    }
  }

  lemma Complement(c: bv32)
    ensures !c == Xor(c, 0xffffffff)
  {
  }

  /** The table-driven CRC is the one that the format asks for. */
  lemma CheckIsCrc(s: seq<byte>)
    ensures PngReader.Check(s) == Crc(s)
  {
    hide PngReader.Taken, Register, Xor;
    TakenIsRegister(0xffffffff, s);
    Complement(Register(0xffffffff, s));
  }

  // ---------------------------------------------------------------- one chunk

  lemma ValueIsBigEndian(s: seq<byte>)
    requires |s| >= 4
    ensures PngReader.Value(s[..4]) == ReadBigEndian(s)
  {
  }

  /** Where the parts of a chunk are in the file. */
  lemma ChunkSlices(kind: seq<byte>, data: seq<byte>, rest: seq<byte>)
    requires |kind| == 4 && |data| < U32
    ensures var s := Chunk(kind, data) + rest; var n := |data|;
      && |s| == 12 + n + |rest|
      && PngReader.Value(s[..4]) == n
      && s[4..8] == kind && s[8..8 + n] == data && s[4..8 + n] == kind + data
      && s[8 + n..12 + n] == RegisterBytes(Crc(kind + data))
      && s[12 + n..] == rest
  {
    hide BigEndian, ReadBigEndian, RegisterBytes, Crc, PngReader.Value;
    var s, crc := Chunk(kind, data) + rest, RegisterBytes(Crc(kind + data));
    assert s == BigEndian(|data|) + (kind + data + crc + rest);
    BigEndianRoundTrip(|data|, kind + data + crc + rest);
    ValueIsBigEndian(s);
  }

  /** The reader takes a chunk off the front, unless it is longer than the format allows. */
  lemma ReadsChunk(kind: seq<byte>, data: seq<byte>, rest: seq<byte>)
    requires |kind| == 4 && |data| < U32
    ensures var parts := PngReader.Parts(rest);
      PngReader.Parts(Chunk(kind, data) + rest) ==
        if |data| <= 2147483647 && parts.Some? then Some([PngReader.Part(kind, data)] + parts.value) else None
  {
    hide Chunk, RegisterBytes, Crc, PngReader.Value, PngReader.Check;
    ChunkSlices(kind, data, rest);
    var crc := Crc(kind + data);
    CheckIsCrc(kind + data);
    RegisterBytesRead(crc);
    ValueIsBigEndian(RegisterBytes(crc));
    assert RegisterBytes(crc)[..4] == RegisterBytes(crc);
  }

  // ------------------------------------------------------------- the whole file

  lemma ReadsSize(w: nat, h: nat)
    requires w < U32 && h < U32
    ensures PngReader.Size(PngReader.Part(IHDR, HeaderData(w, h))) ==
      if 0 < w < 0x8000_0000 && 0 < h < 0x8000_0000 then Some((w, h)) else None
  {
    hide BigEndian, ReadBigEndian, PngReader.Value;
    var data := HeaderData(w, h);
    HeaderRoundTrip(w, h);
    ValueIsBigEndian(data);
    ValueIsBigEndian(data[4..]);
    assert data[4..][..4] == data[4..8];
    assert data[8..] == [8, 6, 0, 0, 0];
  }

  /** The reader takes the filter bytes out of the scanlines again. */
  lemma {:induction false} ReadsRows(stride: nat, rgba: seq<byte>, rows: nat)
    requires rows * stride <= |rgba|
    ensures PngReader.Rows(Scanlines(stride, rgba, rows), stride, rows) == Some(rgba[..rows * stride])
    decreases rows
  {
    hide Scanlines;
    if rows == 0 {
      NoScanlines(stride, rgba);
      assert rgba[..0] == [];
    } else {
      RowFits(rows - 1, rows, stride);
      ScanlinesStep(stride, rgba, rows - 1);
      ReadsRows(stride, rgba, rows - 1);
      var from := (rows - 1) * stride;
      LastRow(Scanlines(stride, rgba, rows - 1), rgba, from, stride);
    }
  }

  lemma LastRow(before: seq<byte>, rgba: seq<byte>, from: nat, stride: nat)
    requires from + stride <= |rgba|
    ensures var raw := before + [0] + rgba[from..from + stride]; var at := |raw| - stride - 1;
      at == |before| && raw[..at] == before && raw[at] == 0 && raw[at + 1..] == rgba[from..from + stride]
    ensures rgba[..from + stride] == rgba[..from] + rgba[from..from + stride]
  {
  }

  lemma ReadsBody(data: seq<byte>)
    ensures PngReader.Body([PngReader.Part(IDAT, data), PngReader.Part(IEND, [])]) == Some(data)
  {
    var end := [PngReader.Part(IEND, [])];
    assert IDAT == [73, 68, 65, 84] && IEND == [73, 69, 78, 68];
    assert PngReader.Body(end) == Some([]);
    assert [PngReader.Part(IDAT, data), PngReader.Part(IEND, [])][1..] == end && data + [] == data;
  }

  /** The reader's view of the chunks of a written file. */
  lemma ReadsParts(w: nat, h: nat, data: seq<byte>)
    requires w < U32 && h < U32 && |data| < U32
    ensures PngReader.Parts(Chunk(IHDR, HeaderData(w, h)) + (Chunk(IDAT, data) + (Chunk(IEND, []) + []))) ==
      if |data| < 0x8000_0000
      then Some([PngReader.Part(IHDR, HeaderData(w, h)), PngReader.Part(IDAT, data), PngReader.Part(IEND, [])])
      else None
  {
    hide Chunk, HeaderData, PngReader.Parts;
    var end := Chunk(IEND, []) + [];
    var rest := Chunk(IDAT, data) + end;
    NoParts();
    ReadsChunk(IEND, [], []);
    ReadsChunk(IDAT, data, end);
    ReadsChunk(IHDR, HeaderData(w, h), rest);
    var a, b, c := PngReader.Part(IHDR, HeaderData(w, h)), PngReader.Part(IDAT, data), PngReader.Part(IEND, []);
    assert [c] + [] == [c] && [b] + [c] == [b, c] && [a] + [b, c] == [a, b, c];
  }

  lemma NoParts()
    ensures PngReader.Parts([]) == Some([])
  {
  }

  /**
   A written file reads back as the picture, if it has pixels and no dimension and no chunk is
   over the limit of the format; otherwise it is no PNG file.
   */
  lemma WrittenFileIsRead(img: Image, deflate: Codec, inflate: Decoder)
    requires InversePair(deflate, inflate)
    requires img.Valid() && Encode(img, deflate).Some?
    ensures var file := Encode(img, deflate).value;
      PngReader.Read(file, inflate) ==
        if 0 < img.w < 0x8000_0000 && 0 < img.h < 0x8000_0000 && |file| - 57 < 0x8000_0000
        then Some(PngReader.Picture(img.w, img.h, img.px))
        else None
  {
    hide Chunk, HeaderData, Scanlines, PngReader.Parts, PngReader.Size, PngReader.Body, PngReader.Rows;
    var file := Encode(img, deflate).value;
    var data := deflate(Scanlines(img.w * 4, img.px, img.h));
    var chunks := Chunk(IHDR, HeaderData(img.w, img.h)) + (Chunk(IDAT, data) + (Chunk(IEND, []) + []));
    assert file == SIGNATURE + chunks;
    assert SIGNATURE == [137, 80, 78, 71, 13, 10, 26, 10];
    FileLength(img.w, img.h, data);
    ReadsParts(img.w, img.h, data);
    ReadsSize(img.w, img.h);
    ReadsBody(data);
    ReadsRows(img.w * 4, img.px, img.h);
    assert img.px[..img.h * (img.w * 4)] == img.px;
  }

  lemma FileLength(w: nat, h: nat, data: seq<byte>)
    requires w < U32 && h < U32 && |data| < U32
    ensures |Chunk(IHDR, HeaderData(w, h)) + (Chunk(IDAT, data) + (Chunk(IEND, []) + []))| == 49 + |data|
  {
    hide BigEndian, RegisterBytes, Crc, HeaderData;
  }

  // ------------------------------------------------------ the decoder on PNG files

  lemma WalkPart(s: seq<byte>, st: Parsed) returns (rest: seq<byte>)
    requires s != [] && PngReader.Parts(s).Some?
    ensures |rest| < |s| && PngReader.Parts(s).value != []
    ensures PngReader.Parts(rest) == Some(PngReader.Parts(s).value[1..])
    ensures var part := PngReader.Parts(s).value[0];
      var next := Absorb(st, part.kind, part.data);
      Walk(s, st) == if next.None? then None else Walk(rest, next.value)
  {
    hide Absorb, PngReader.Value, PngReader.Check, ReadBigEndian, Walk, Slice;
    ValueIsBigEndian(s);
    var n := ReadBigEndian(s);
    rest := s[12 + n..];
    WalkStep(s, st, n);
  }

  lemma WalkStep(s: seq<byte>, st: Parsed, n: nat)
    requires |s| >= 12 + n && ReadBigEndian(s) == n
    ensures var next := Absorb(st, s[4..8], s[8..8 + n]);
      Walk(s, st) == if next.None? then None else Walk(s[12 + n..], next.value)
  {
    hide Absorb, ReadBigEndian;
    assert Slice(s, 12 + n, 12 + n + |s|) == s[12 + n..];
    assert Slice(s, 4, 8) == s[4..8] && Slice(s, 8, 8 + n) == s[8..8 + n];
  }

  lemma {:induction false} WalkBody(s: seq<byte>, st: Parsed)
    requires PngReader.Parts(s).Some? && PngReader.Body(PngReader.Parts(s).value).Some?
    ensures Walk(s, st) == Some(st.(idat := st.idat + PngReader.Body(PngReader.Parts(s).value).value))
    decreases |s|
  {
    hide PngReader.Parts, Walk, IsType;
    NoParts();
    TypesDiffer();
    assert IDAT == [73, 68, 65, 84] && IEND == [73, 69, 78, 68];
    var parts := PngReader.Parts(s).value;
    var rest := WalkPart(s, st);
    if parts == [PngReader.Part(IEND, [])] {
      assert st.idat + [] == st.idat;
      assert parts[1..] == [];
      WalkEnd(rest, st);
    } else {
      WalkBody(rest, st.(idat := st.idat + parts[0].data));
      Assoc(st.idat, parts[0].data, PngReader.Body(parts[1..]).value);
    }
  }

  lemma WalkEnd(s: seq<byte>, st: Parsed)
    requires PngReader.Parts(s) == Some([])
    ensures Walk(s, st) == Some(st)
  {
    if s != [] {
      var rest := WalkPart(s, st);
      assert false;
    }
  }

  lemma {:induction false} RowsAreUnscanned(raw: seq<byte>, part: seq<byte>, stride: nat, rows: nat)
    requires part <= raw && |part| == rows * (stride + 1) && PngReader.Rows(part, stride, rows).Some?
    ensures PngReader.Rows(part, stride, rows).value == Unscan(stride, raw, rows)
    decreases rows
  {
    hide Unscan, BytesFrom;
    if rows == 0 {
      UnscanStep(stride, raw, 0);
    } else {
      RowFits(rows - 1, rows, stride);
      UnscanStep(stride, raw, rows - 1);
      var at := |part| - stride - 1;
      RowsAreUnscanned(raw, part[..at], stride, rows - 1);
      RowBytes(raw, part, at + 1, stride);
    }
  }

  lemma RowBytes(raw: seq<byte>, part: seq<byte>, from: nat, n: nat)
    requires part <= raw && from + n == |part|
    ensures BytesFrom(raw, from, n) == part[from..]
  {
  }

  lemma {:induction false} RowsLength(raw: seq<byte>, stride: nat, height: nat)
    requires PngReader.Rows(raw, stride, height).Some?
    ensures |raw| == height * (stride + 1)
    decreases height
  {
    if height > 0 {
      RowsLength(raw[..|raw| - stride - 1], stride, height - 1);
    }
  }

  /** Every picture that the strict reader accepts, the decoder decodes to the same pixels. */
  lemma DecodesWhatIsRead(file: seq<byte>, inflate: Decoder)
    requires PngReader.Read(file, inflate).Some?
    ensures var p := PngReader.Read(file, inflate).value;
      Decode(file, inflate) == Some(Image(p.width, p.height, p.pixels))
  {
    hide PngReader.Parts, PngReader.Size, PngReader.Body, PngReader.Rows, Walk, Absorb, Unscan;
    var chunks := file[8..];
    assert Slice(file, 8, 8 + |file|) == chunks;
    NoParts();
    var parts := PngReader.Parts(chunks).value;
    var size := PngReader.Size(parts[0]).value;
    var data := PngReader.Body(parts[1..]).value;
    var rest := WalkPart(chunks, Parsed(0, 0, []));
    AbsorbsSize(parts[0]);
    WalkBody(rest, Parsed(size.0, size.1, []));
    assert [] + data == data;
    var raw, stride := inflate(data).value, 4 * size.0;
    RowsLength(raw, stride, size.1);
    RowsAreUnscanned(raw, raw, stride, size.1);
  }

  lemma AbsorbsSize(part: PngReader.Part)
    requires PngReader.Size(part).Some?
    ensures var size := PngReader.Size(part).value;
      Absorb(Parsed(0, 0, []), part.kind, part.data) == Some(Parsed(size.0, size.1, []))
  {
    hide IsType, ReadBigEndian, PngReader.Value;
    assert part.kind == IHDR;
    TypesDiffer();
    ValueIsBigEndian(part.data);
    ValueIsBigEndian(part.data[4..]);
    assert part.data[4..][..4] == part.data[4..8];
  }
}
