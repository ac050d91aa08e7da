/**
 The PNG writer of tools/canvas_render.js and the decoder and cropper of
 tools/canvas_crop.js.  `deflate` and `inflate` are parameters; the only thing
 assumed of them is that inflating what was deflated gives it back.
 */
module Png {
  import opened Sequences
  import opened Common
  import opened Crc32
  import opened BigEndians

  type Codec = seq<byte> -> seq<byte>
  type Decoder = seq<byte> -> Option<seq<byte>>

  ghost predicate InversePair(deflate: Codec, inflate: Decoder) {
    forall s :: inflate(deflate(s)) == Some(s)
  }

  const SIGNATURE: seq<byte> := [0x89, 0x50, 0x4e, 0x47, 0x0d, 0x0a, 0x1a, 0x0a]
  const IHDR: seq<byte> := [0x49, 0x48, 0x44, 0x52]
  const IDAT: seq<byte> := [0x49, 0x44, 0x41, 0x54]
  const IEND: seq<byte> := [0x49, 0x45, 0x4e, 0x44]

  /** `writeUInt32BE` of a CRC register. */
  function RegisterBytes(c: bv32): (s: seq<byte>)
    ensures |s| == 4
  {
    [((c >> 24) & 0xff) as byte, ((c >> 16) & 0xff) as byte, ((c >> 8) & 0xff) as byte, (c & 0xff) as byte]
  }

  lemma RegisterBytesInjective(c: bv32, d: bv32)
    requires RegisterBytes(c) == RegisterBytes(d)
    ensures c == d
  {
    var s, t := RegisterBytes(c), RegisterBytes(d);
    assert s[0] == t[0] && s[1] == t[1] && s[2] == t[2] && s[3] == t[3];
    JoinBytes(c);
    JoinBytes(d);
  }

  lemma JoinBytes(c: bv32)
    ensures (((((c >> 24) & 0xff) as byte) as bv32) << 24) | (((((c >> 16) & 0xff) as byte) as bv32) << 16)
            | (((((c >> 8) & 0xff) as byte) as bv32) << 8) | (((c & 0xff) as byte) as bv32) == c
  {
  }

  /** The k-th byte of a register, counted from the most significant. */
  function Digit(c: bv32, k: nat): int
    requires k < 4
  {
    match k
    case 0 => ((c >> 24) & 0xff) as int
    case 1 => ((c >> 16) & 0xff) as int
    case 2 => ((c >> 8) & 0xff) as int
    case _ => (c & 0xff) as int
  }

  lemma TopDigit(c: bv32)
    ensures c as int == Digit(c, 0) * 0x100_0000 + (c & 0xff_ffff) as int
  {
  }

  lemma LowDigits(c: bv32)
    ensures (c & 0xff_ffff) as int == Digit(c, 1) * 0x1_0000 + (c & 0xffff) as int
    ensures (c & 0xffff) as int == Digit(c, 2) * 0x100 + Digit(c, 3)
  {
  }

  lemma DigitsAreBytes(c: bv32)
    ensures RegisterBytes(c)[0] as int == Digit(c, 0)
    ensures RegisterBytes(c)[1] as int == Digit(c, 1)
    ensures RegisterBytes(c)[2] as int == Digit(c, 2)
    ensures RegisterBytes(c)[3] as int == Digit(c, 3)
  {
  }

  /** The stored bytes are the register, most significant byte first. */
  lemma RegisterBytesRead(c: bv32)
    ensures ReadBigEndian(RegisterBytes(c)) == c as int
  {
    hide RegisterBytes, Digit;
    TopDigit(c);
    LowDigits(c);
    DigitsAreBytes(c);
  }

  // ------------------------------------------------------------------ writing

  /** `chunk`: length, type, data, CRC of type and data. */
  function Chunk(kind: seq<byte>, data: seq<byte>): seq<byte>
    requires |data| < U32
  {
    BigEndian(|data|) + (kind + data) + RegisterBytes(Crc(kind + data))
  }

  method MakeChunk(table: array<bv32>, kind: seq<byte>, data: seq<byte>) returns (c: Option<seq<byte>>)
    requires IsCrcTable(table[..])
    ensures c == if |data| < U32 then Some(Chunk(kind, data)) else None
  {
    if |data| >= U32 {
      return None;  // writeUInt32BE throws
    }
    var body := kind + data;
    var crc := ComputeCrc(table, body);
    c := Some(BigEndian(|data|) + body + RegisterBytes(crc));
  }

  /** The first `rows` scanlines: a zero filter byte, then `stride` bytes of pixels. */
  function Scanlines(stride: nat, rgba: seq<byte>, rows: nat): (raw: seq<byte>)
    requires rows * stride <= |rgba|
    ensures |raw| == rows * (stride + 1)
  {
    if rows == 0 then [] else
      assert rows * stride == (rows - 1) * stride + stride;
      assert rows * (stride + 1) == (rows - 1) * (stride + 1) + (stride + 1);
      Scanlines(stride, rgba, rows - 1) + [0] + rgba[(rows - 1) * stride..rows * stride]
  }

  /** Bit depth 8, colour type 6 (RGBA), no interlace. */
  function HeaderData(w: int, h: int): (s: seq<byte>)
    requires 0 <= w < U32 && 0 <= h < U32
    ensures |s| == 13
  {
    BigEndian(w) + BigEndian(h) + [8, 6, 0, 0, 0]
  }

  datatype Image = Image(w: nat, h: nat, px: seq<byte>) {
    predicate Valid() {
      |px| == h * (w * 4)
    }
  }

  /** The file `writePNG` writes, or None when a length or dimension does not fit in 32 bits. */
  function Encode(img: Image, deflate: Codec): Option<seq<byte>>
    requires img.Valid()
  {
    if img.w >= U32 || img.h >= U32 then None else
      var data := deflate(Scanlines(img.w * 4, img.px, img.h));
      if |data| >= U32 then None else
        Some(SIGNATURE + Chunk(IHDR, HeaderData(img.w, img.h)) + Chunk(IDAT, data) + Chunk(IEND, []))
  }

  /** `source.copy(target, at, from, from + n)` */
  method Copy(target: array<byte>, at: nat, source: seq<byte>, from: nat, n: nat)
    requires at + n <= target.Length && from + n <= |source|
    modifies target
    ensures target[..at + n] == old(target[..at]) + source[from..from + n]
    ensures target[at + n..] == old(target[at + n..])
  {
    for k := 0 to n
      invariant target[..at + k] == old(target[..at]) + source[from..from + k]
      invariant target[at + n..] == old(target[at + n..])
    {
      target[at + k] := source[from + k];
      assert target[..at + k + 1] == target[..at + k] + [source[from + k]];
    }
  }

  lemma NoScanlines(stride: nat, rgba: seq<byte>)
    ensures 0 * stride == 0 && Scanlines(stride, rgba, 0) == []
  {
  }

  lemma ScanlinesStep(stride: nat, rgba: seq<byte>, y: nat)
    requires y * stride + stride <= |rgba|
    ensures (y + 1) * stride == y * stride + stride
    ensures Scanlines(stride, rgba, y + 1) == Scanlines(stride, rgba, y) + [0] + rgba[y * stride..y * stride + stride]
  {
  }

  /** One scanline further: the two positions, and what the buffer holds up to the first. */
  lemma NextScanline(stride: nat, h: nat, rgba: seq<byte>, y: nat, at: nat, from: nat)
    requires |rgba| == h * stride && y < h && at == y * (stride + 1) && from == y * stride
    ensures at + stride + 1 == (y + 1) * (stride + 1) <= h * (stride + 1)
    ensures from + stride == (y + 1) * stride <= |rgba|
    ensures Scanlines(stride, rgba, y + 1) == Scanlines(stride, rgba, y) + [0] + rgba[from..from + stride]
  {
    hide Scanlines;
    RowFits(y, h, stride);
    ScanlinesStep(stride, rgba, y);
  }

  /** The loop that fills `raw` in place. */
  method FillScanlines(stride: nat, h: nat, rgba: seq<byte>) returns (raw: array<byte>)
    requires |rgba| == h * stride
    ensures fresh(raw) && raw[..] == Scanlines(stride, rgba, h)
  {
    hide Scanlines;
    NoScanlines(stride, rgba);
    raw := new byte[h * (stride + 1)](_ => 0);
    var at, from := 0, 0;
    for y := 0 to h
      invariant at == y * (stride + 1) && from == y * stride
      invariant raw.Length == h * (stride + 1)
      invariant from <= |rgba| && at <= raw.Length && raw[..at] == Scanlines(stride, rgba, y)
    {
      NextScanline(stride, h, rgba, y, at, from);
      ghost var done := raw[..at];
      raw[at] := 0;
      assert raw[..at + 1] == done + [0];
      Copy(raw, at + 1, rgba, from, stride);
      at, from := at + stride + 1, from + stride;
    }
    assert raw[..] == raw[..at];
  }

  lemma RowFits(y: nat, h: nat, stride: nat)
    requires y < h
    ensures y * stride + stride <= h * stride
    ensures y * (stride + 1) + stride + 1 <= h * (stride + 1)
    ensures (y + 1) * stride == y * stride + stride
    ensures (y + 1) * (stride + 1) == y * (stride + 1) + stride + 1
  {
    MulMono(y + 1, h, stride);
    MulMono(y + 1, h, stride + 1);
  }

  lemma MulMono(a: nat, b: nat, c: nat)
    requires a <= b
    ensures a * c <= b * c
  {
  }

  /** `writePNG` */
  method WritePng(table: array<bv32>, img: Image, deflate: Codec) returns (file: Option<seq<byte>>)
    requires IsCrcTable(table[..]) && img.Valid()
    ensures file == Encode(img, deflate)
    ensures file == None <==>
      img.w > 0xffff_ffff || img.h > 0xffff_ffff || |deflate(Scanlines(img.w * 4, img.px, img.h))| > 0xffff_ffff
  {
    if img.w >= U32 || img.h >= U32 {
      return None;
    }
    var raw := FillScanlines(img.w * 4, img.h, img.px);
    var header := MakeChunk(table, IHDR, HeaderData(img.w, img.h));
    var data := MakeChunk(table, IDAT, deflate(raw[..]));
    var end := MakeChunk(table, IEND, []);
    if data.None? {
      return None;
    }
    file := Some(SIGNATURE + header.value + data.value + end.value);
  }

  // ----------------------------------------------------------------- decoding

  /** `buf.slice(from, to)` clamps both ends to the buffer. */
  function Slice(s: seq<byte>, from: nat, to: nat): seq<byte>
    requires from <= to
  {
    if from >= |s| then [] else if to >= |s| then s[from..] else s[from..to]
  }

  /** `toString("ascii")` drops the high bit of every byte before the comparison. */
  predicate IsType(s: seq<byte>, kind: seq<byte>) {
    |s| == |kind| && forall i :: 0 <= i < |s| ==> s[i] & 0x7f == kind[i]
  }

  datatype Parsed = Parsed(w: nat, h: nat, idat: seq<byte>)

  /** What one chunk contributes; None when the header chunk is too short to read. */
  function Absorb(st: Parsed, kind: seq<byte>, data: seq<byte>): Option<Parsed> {
    if IsType(kind, IHDR) then
      if |data| < 8 then None else Some(st.(w := ReadBigEndian(data), h := ReadBigEndian(data[4..])))
    else if IsType(kind, IDAT) then Some(st.(idat := st.idat + data))
    else Some(st)
  }

  /** The chunk walk from the current position; `s` is the rest of the file. */
  function Walk(s: seq<byte>, st: Parsed): Option<Parsed>
    decreases |s|
  {
    if s == [] then Some(st)
    else if |s| < 4 then None
    else
      var len := ReadBigEndian(s);
      var next := Absorb(st, Slice(s, 4, 8), Slice(s, 8, 8 + len));
      if next.None? then None else Walk(Slice(s, 12 + len, 12 + len + |s|), next.value)
  }

  lemma SliceOfSlice(s: seq<byte>, pos: nat, from: nat, to: nat)
    requires from <= to
    ensures Slice(Slice(s, pos, pos + |s|), from, to) == Slice(s, pos + from, pos + to)
    ensures Slice(Slice(s, pos, pos + |s|), from, from + |Slice(s, pos, pos + |s|)|) == Slice(s, pos + from, pos + from + |s|)
  {
  }

  /** The low seven bits of every byte. */
  function Ascii(s: seq<byte>): seq<byte> {
    seq(|s|, i requires 0 <= i < |s| => s[i] & 0x7f)
  }

  /** A header needs eight bytes, for the two dimensions; compressed data is collected; any other chunk is skipped. */
  lemma AbsorbExactly(st: Parsed, kind: seq<byte>, data: seq<byte>)
    ensures Ascii(kind) == [0x49, 0x48, 0x44, 0x52] ==>
      Absorb(st, kind, data) ==
        if |data| < 8 then None else Some(Parsed(ReadBigEndian(data[..4]), ReadBigEndian(data[4..8]), st.idat))
    ensures Ascii(kind) == [0x49, 0x44, 0x41, 0x54] ==> Absorb(st, kind, data) == Some(Parsed(st.w, st.h, st.idat + data))
    ensures Ascii(kind) != [0x49, 0x48, 0x44, 0x52] && Ascii(kind) != [0x49, 0x44, 0x41, 0x54] ==>
      Absorb(st, kind, data) == Some(st)
  {
    assert IsType(kind, IHDR) <==> Ascii(kind) == IHDR;
    assert IsType(kind, IDAT) <==> Ascii(kind) == IDAT;
    assert IHDR[1] != IDAT[1];
  }

  /** Bytes too few for a length are an error; a last chunk that is cut short counts as far as it goes. */
  lemma WalkTail(s: seq<byte>, st: Parsed)
    ensures 0 < |s| < 4 ==> Walk(s, st) == None
    ensures 4 <= |s| < 8 + ReadBigEndian(s) ==>
      Walk(s, st) == Absorb(st, if |s| < 8 then s[4..] else s[4..8], if |s| < 8 then [] else s[8..])
  {
    hide Absorb, ReadBigEndian;
    if 4 <= |s| < 8 + ReadBigEndian(s) {
      var len := ReadBigEndian(s);
      assert Slice(s, 4, 8) == if |s| < 8 then s[4..] else s[4..8];
      assert Slice(s, 8, 8 + len) == if |s| < 8 then [] else s[8..];
      assert Slice(s, 12 + len, 12 + len + |s|) == [];
    }
  }

  method WalkChunks(buf: seq<byte>) returns (r: Option<Parsed>)
    ensures r == Walk(Slice(buf, 8, 8 + |buf|), Parsed(0, 0, []))
  {
    hide ReadBigEndian, Absorb;
    var pos := 8;
    var st := Parsed(0, 0, []);
    while pos < |buf|
      invariant 8 <= pos
      invariant Walk(Slice(buf, 8, 8 + |buf|), Parsed(0, 0, [])) == Walk(Slice(buf, pos, pos + |buf|), st)
      decreases |buf| - pos
    {
      ghost var s := Slice(buf, pos, pos + |buf|);
      if pos + 4 > |buf| {
        return None;  // readUInt32BE throws
      }
      var len := ReadBigEndian(buf[pos..]);
      assert s == buf[pos..];
      var kind := Slice(buf, pos + 4, pos + 8);
      var data := Slice(buf, pos + 8, pos + 8 + len);
      SliceOfSlice(buf, pos, 4, 8);
      SliceOfSlice(buf, pos, 8, 8 + len);
      SliceOfSlice(buf, pos, 12 + len, 12 + len);
      var next := Absorb(st, kind, data);
      if next.None? {
        return None;
      }
      st := next.value;
      pos := pos + 12 + len;
    }
    r := Some(st);
  }

  /** Reading past the end of a buffer gives `undefined`, which is stored as 0. */
  function ByteAt(s: seq<byte>, i: int): byte {
    if 0 <= i < |s| then s[i] else 0
  }

  function BytesFrom(s: seq<byte>, from: int, n: nat): (r: seq<byte>)
    ensures |r| == n && forall k :: 0 <= k < n ==> r[k] == ByteAt(s, from + k)
  {
    seq(n, k requires 0 <= k < n => ByteAt(s, from + k))
  }

  lemma FourMore(s: seq<byte>, from: int, n: nat)
    ensures BytesFrom(s, from, n + 4)
         == BytesFrom(s, from, n) + [ByteAt(s, from + n), ByteAt(s, from + n + 1), ByteAt(s, from + n + 2), ByteAt(s, from + n + 3)]
  {
  }

  /** The pixel bytes of the first `rows` rows; the filter byte is skipped, whatever it is. */
  function Unscan(stride: nat, raw: seq<byte>, rows: nat): (px: seq<byte>)
    ensures |px| == rows * stride
  {
    if rows == 0 then [] else
      assert rows * stride == (rows - 1) * stride + stride;
      Unscan(stride, raw, rows - 1) + BytesFrom(raw, (rows - 1) * (stride + 1) + 1, stride)
  }

  function Decode(file: seq<byte>, inflate: Decoder): (r: Option<Image>)
    ensures r.Some? ==> r.value.Valid()
  {
    var parsed := Walk(Slice(file, 8, 8 + |file|), Parsed(0, 0, []));
    if parsed.None? then None else
      var raw := inflate(parsed.value.idat);
      if raw.None? then None else
        Some(Image(parsed.value.w, parsed.value.h, Unscan(parsed.value.w * 4, raw.value, parsed.value.h)))
  }

  method PutPixel(px: array<byte>, o: nat, r: byte, g: byte, b: byte, a: byte)
    requires o + 4 <= px.Length
    modifies px
    ensures px[..o + 4] == old(px[..o]) + [r, g, b, a]
  {
    px[o], px[o + 1], px[o + 2], px[o + 3] := r, g, b, a;
  }

  /** One row of the decoded picture, four bytes at a time. */
  method FillRow(px: array<byte>, start: nat, raw: seq<byte>, row: int, w: nat)
    requires start + w * 4 <= px.Length
    modifies px
    ensures px[..start + w * 4] == old(px[..start]) + BytesFrom(raw, row, w * 4)
  {
    hide ByteAt, BytesFrom;
    NoBytes(raw, row);
    for x := 0 to w
      invariant px[..start + x * 4] == old(px[..start]) + BytesFrom(raw, row, x * 4)
    {
      var o := start + x * 4;
      FourMore(raw, row, x * 4);
      PutPixel(px, o, ByteAt(raw, row + x * 4), ByteAt(raw, row + x * 4 + 1), ByteAt(raw, row + x * 4 + 2), ByteAt(raw, row + x * 4 + 3));
    }
  }

  lemma NoBytes(s: seq<byte>, from: int)
    ensures BytesFrom(s, from, 0) == []
  {
  }

  lemma UnscanStep(stride: nat, raw: seq<byte>, y: nat)
    ensures Unscan(stride, raw, 0) == []
    ensures Unscan(stride, raw, y + 1) == Unscan(stride, raw, y) + BytesFrom(raw, y * (stride + 1) + 1, stride)
  {
  }

  /** The nested loops that fill `px` in place. */
  method FillPixels(w: nat, h: nat, raw: seq<byte>) returns (px: array<byte>)
    ensures fresh(px) && px[..] == Unscan(w * 4, raw, h)
  {
    hide Unscan, BytesFrom, ByteAt;
    var stride := w * 4;
    UnscanStep(stride, raw, 0);
    px := new byte[h * stride](_ => 0);
    var o, row := 0, 1;
    for y := 0 to h
      invariant px.Length == h * stride && o == y * stride && row == y * (stride + 1) + 1
      invariant o <= px.Length && px[..o] == Unscan(stride, raw, y)
    {
      RowFits(y, h, stride);
      UnscanStep(stride, raw, y);
      FillRow(px, o, raw, row, w);
      o, row := o + stride, row + stride + 1;
    }
    assert px[..] == px[..o];
  }

  method DecodePng(file: seq<byte>, inflate: Decoder) returns (r: Option<Image>)
    ensures r == Decode(file, inflate)
  {
    var parsed := WalkChunks(file);
    if parsed.None? {
      return None;
    }
    var raw := inflate(parsed.value.idat);
    if raw.None? {
      return None;
    }
    var px := FillPixels(parsed.value.w, parsed.value.h, raw.value);
    r := Some(Image(parsed.value.w, parsed.value.h, px[..]));
  }

  // ------------------------------------------------------ the walk undoes chunks

  datatype ChunkData = ChunkData(kind: seq<byte>, data: seq<byte>) {
    predicate Valid() {
      |kind| == 4 && |data| < U32
    }
  }

  function Chunks(cs: seq<ChunkData>): seq<byte>
    requires forall c :: c in cs ==> c.Valid()
  {
    if cs == [] then [] else
      assert cs[0] in cs && cs[0].Valid();
      Chunk(cs[0].kind, cs[0].data) + Chunks(cs[1..])
  }

  function AbsorbAll(st: Parsed, cs: seq<ChunkData>): Option<Parsed>
    decreases cs
  {
    if cs == [] then Some(st) else
      var next := Absorb(st, cs[0].kind, cs[0].data);
      if next.None? then None else AbsorbAll(next.value, cs[1..])
  }

  lemma ChunkParts(kind: seq<byte>, data: seq<byte>, rest: seq<byte>)
    requires |kind| == 4 && |data| < U32
    ensures var s := Chunk(kind, data) + rest;
      |s| == 12 + |data| + |rest| && ReadBigEndian(s) == |data| && Slice(s, 4, 8) == kind
      && Slice(s, 8, 8 + |data|) == data && Slice(s, 12 + |data|, 12 + |data| + |s|) == rest
  {
    hide BigEndian, ReadBigEndian, RegisterBytes, Crc;
    var s := Chunk(kind, data) + rest;
    var tail := RegisterBytes(Crc(kind + data)) + rest;
    assert s == BigEndian(|data|) + (kind + (data + tail));
    BigEndianRoundTrip(|data|, kind + (data + tail));
    assert s[4..8] == kind && s[8..8 + |data|] == data && s[12 + |data|..] == rest;
  }

  /** Walking the bytes of any list of chunks absorbs exactly those chunks, in order. */
  lemma {:induction false} WalkUndoesChunks(cs: seq<ChunkData>, st: Parsed)
    requires forall c :: c in cs ==> c.Valid()
    ensures Walk(Chunks(cs), st) == AbsorbAll(st, cs)
    decreases cs
  {
    hide Chunk, Absorb, ReadBigEndian, Slice;
    if cs != [] {
      assert cs[0] in cs;
      var kind, data := cs[0].kind, cs[0].data;
      ChunkParts(kind, data, Chunks(cs[1..]));
      var next := Absorb(st, kind, data);
      if next.Some? {
        WalkUndoesChunks(cs[1..], next.value);
      }
    }
  }

  // ------------------------------------------------------------ the round trip

  lemma {:induction false} ScanlineAt(stride: nat, rgba: seq<byte>, rows: nat, y: nat, k: nat)
    requires rows * stride <= |rgba| && y < rows && k < stride
    ensures y * (stride + 1) + 1 + k < rows * (stride + 1) && y * stride + k < rows * stride
    ensures Scanlines(stride, rgba, rows)[y * (stride + 1) + 1 + k] == rgba[y * stride + k]
  {
    RowFits(y, rows, stride);
    assert rows * stride == (rows - 1) * stride + stride;
    if y < rows - 1 {
      ScanlineAt(stride, rgba, rows - 1, y, k);
    }
  }

  /** Unpacking the scanlines gives back the pixels. */
  lemma {:induction false} UnscanScanlines(stride: nat, rgba: seq<byte>, h: nat, rows: nat)
    requires |rgba| == h * stride && rows <= h
    ensures rows * stride <= |rgba|
    ensures Unscan(stride, Scanlines(stride, rgba, h), rows) == rgba[..rows * stride]
  {
    hide Scanlines, BytesFrom;
    MulMono(rows, h, stride);
    if rows > 0 {
      UnscanScanlines(stride, rgba, h, rows - 1);
      var from := (rows - 1) * stride;
      RowFits(rows - 1, h, stride);
      UnscanRow(stride, rgba, h, rows - 1, from);
      assert rgba[..rows * stride] == rgba[..from] + rgba[from..from + stride];
    }
  }

  lemma UnscanRow(stride: nat, rgba: seq<byte>, h: nat, y: nat, from: nat)
    requires |rgba| == h * stride && y < h && from == y * stride && from + stride <= |rgba|
    ensures BytesFrom(Scanlines(stride, rgba, h), y * (stride + 1) + 1, stride) == rgba[from..from + stride]
  {
    hide Scanlines;
    var raw, base := Scanlines(stride, rgba, h), y * (stride + 1) + 1;
    forall k | 0 <= k < stride
      ensures BytesFrom(raw, base, stride)[k] == rgba[from..from + stride][k]
    {
      ScanlineAt(stride, rgba, h, y, k);
    }
  }

  lemma TypesDiffer()
    ensures IsType(IHDR, IHDR) && IsType(IDAT, IDAT) && !IsType(IDAT, IHDR) && !IsType(IEND, IHDR) && !IsType(IEND, IDAT)
  {
    assert IDAT[1] & 0x7f != IHDR[1];
    assert IEND[1] & 0x7f != IHDR[1];
    assert IEND[1] & 0x7f != IDAT[1];
  }

  lemma HeaderRoundTrip(w: int, h: int)
    requires 0 <= w < U32 && 0 <= h < U32
    ensures ReadBigEndian(HeaderData(w, h)) == w && ReadBigEndian(HeaderData(w, h)[4..]) == h
  {
    hide BigEndian, ReadBigEndian;
    assert HeaderData(w, h) == BigEndian(w) + (BigEndian(h) + [8, 6, 0, 0, 0]);
    BigEndianRoundTrip(w, BigEndian(h) + [8, 6, 0, 0, 0]);
    assert HeaderData(w, h)[4..] == BigEndian(h) + [8, 6, 0, 0, 0];
    BigEndianRoundTrip(h, [8, 6, 0, 0, 0]);
  }

  function DataChunks(parts: seq<seq<byte>>): (cs: seq<ChunkData>)
    requires forall p :: p in parts ==> |p| < U32
    ensures forall c :: c in cs ==> c.Valid()
  {
    if parts == [] then [ChunkData(IEND, [])] else
      assert parts[0] in parts;
      [ChunkData(IDAT, parts[0])] + DataChunks(parts[1..])
  }

  /** However the compressed data is cut into IDAT chunks, the walk collects all of it. */
  lemma {:induction false} CollectData(st: Parsed, parts: seq<seq<byte>>)
    requires forall p :: p in parts ==> |p| < U32
    ensures AbsorbAll(st, DataChunks(parts)) == Some(st.(idat := st.idat + Flatten(parts)))
    decreases parts
  {
    hide IsType, IHDR, IDAT, IEND;
    TypesDiffer();
    var cs := DataChunks(parts);
    if parts == [] {
      assert st.idat + Flatten(parts) == st.idat;
      assert cs[1..] == [];
      assert AbsorbAll(st, cs) == AbsorbAll(st, cs[1..]);
    } else {
      assert cs[1..] == DataChunks(parts[1..]);
      CollectData(st.(idat := st.idat + parts[0]), parts[1..]);
      Assoc(st.idat, parts[0], Flatten(parts[1..]));
    }
  }

  /** A file with the header, compressed data in any number of IDAT chunks, and the end chunk. */
  function SplitFile(w: nat, h: nat, parts: seq<seq<byte>>): seq<byte>
    requires w < U32 && h < U32 && forall p :: p in parts ==> |p| < U32
  {
    SIGNATURE + (Chunk(IHDR, HeaderData(w, h)) + Chunks(DataChunks(parts)))
  }

  lemma WalkSplitFile(w: nat, h: nat, parts: seq<seq<byte>>)
    requires w < U32 && h < U32 && forall p :: p in parts ==> |p| < U32
    ensures var file := SplitFile(w, h, parts);
      Walk(Slice(file, 8, 8 + |file|), Parsed(0, 0, [])) == Some(Parsed(w, h, Flatten(parts)))
  {
    hide IsType, ReadBigEndian, Chunk, HeaderData, BigEndian;
    var cs := DataChunks(parts);
    var file := SplitFile(w, h, parts);
    var rest := Chunk(IHDR, HeaderData(w, h)) + Chunks(cs);
    assert Slice(file, 8, 8 + |file|) == rest;
    ChunkParts(IHDR, HeaderData(w, h), Chunks(cs));
    TypesDiffer();
    HeaderRoundTrip(w, h);
    WalkUndoesChunks(cs, Parsed(w, h, []));
    CollectData(Parsed(w, h, []), parts);
    assert [] + Flatten(parts) == Flatten(parts);
  }

  /** Cutting the compressed data into any number of IDAT chunks does not change what is decoded. */
  lemma DecodeSplitFile(img: Image, parts: seq<seq<byte>>, deflate: Codec, inflate: Decoder)
    requires InversePair(deflate, inflate)
    requires img.Valid() && img.w < U32 && img.h < U32 && forall p :: p in parts ==> |p| < U32
    requires Flatten(parts) == deflate(Scanlines(img.w * 4, img.px, img.h))
    ensures Decode(SplitFile(img.w, img.h, parts), inflate) == Some(img)
  {
    hide Walk, SplitFile;
    WalkSplitFile(img.w, img.h, parts);
    UnscanScanlines(img.w * 4, img.px, img.h, img.h);
    assert img.px[..img.h * (img.w * 4)] == img.px;
  }

  /** Decoding what `writePNG` produced gives back the width, the height and every pixel. */
  lemma DecodeEncode(img: Image, deflate: Codec, inflate: Decoder)
    requires InversePair(deflate, inflate)
    requires img.Valid() && Encode(img, deflate).Some?
    ensures Decode(Encode(img, deflate).value, inflate) == Some(img)
  {
    hide Decode, Chunk, HeaderData;
    var data := deflate(Scanlines(img.w * 4, img.px, img.h));
    OneDataChunk(data);
    DecodeSplitFile(img, [data], deflate, inflate);
    assert SplitFile(img.w, img.h, [data]) == Encode(img, deflate).value;
  }

  lemma OneDataChunk(data: seq<byte>)
    requires |data| < U32
    ensures Flatten([data]) == data
    ensures Chunks(DataChunks([data])) == Chunk(IDAT, data) + Chunk(IEND, [])
  {
    hide Chunk;
    assert [data][1..] == [] && DataChunks([]) == [ChunkData(IEND, [])];
    var cs := DataChunks([data]);
    assert cs == [ChunkData(IDAT, data), ChunkData(IEND, [])];
    var end := cs[1..];
    assert end == [ChunkData(IEND, [])] && end[1..] == [];
    assert Chunks(cs) == Chunk(IDAT, data) + Chunks(end) == Chunk(IDAT, data) + (Chunk(IEND, []) + []);
  }

  // ----------------------------------------------------------------- cropping

  /** The four bytes the cropper reads for pixel (x, y) of a picture that is `w` wide. */
  function PixelAt(px: seq<byte>, w: nat, x: int, y: int): seq<byte> {
    BytesFrom(px, (y * w + x) * 4, 4)
  }

  /** The first `rows` rows of the crop: one run of pixels per row, with no regard for the row's end. */
  function CropRows(px: seq<byte>, w: nat, x0: int, y0: int, cw: nat, rows: nat): (crop: seq<byte>)
    ensures |crop| == rows * (cw * 4)
  {
    if rows == 0 then [] else
      assert rows * (cw * 4) == (rows - 1) * (cw * 4) + cw * 4;
      CropRows(px, w, x0, y0, cw, rows - 1) + BytesFrom(px, ((y0 + rows - 1) * w + x0) * 4, cw * 4)
  }

  lemma BytesOfLeft(a: seq<byte>, b: seq<byte>, i: nat, n: nat)
    requires i + n <= |a|
    ensures BytesFrom(a + b, i, n) == BytesFrom(a, i, n)
  {
  }

  lemma BytesOfRight(a: seq<byte>, b: seq<byte>, i: nat, n: nat)
    ensures BytesFrom(a + b, |a| + i, n) == BytesFrom(b, i, n)
  {
  }

  lemma BytesOfBytes(s: seq<byte>, from: int, m: nat, i: nat, n: nat)
    requires i + n <= m
    ensures BytesFrom(BytesFrom(s, from, m), i, n) == BytesFrom(s, from + i, n)
  {
  }

  method FillCrop(px: seq<byte>, w: nat, x0: int, y0: int, cw: nat, ch: nat) returns (crop: array<byte>)
    ensures fresh(crop) && crop[..] == CropRows(px, w, x0, y0, cw, ch)
  {
    var stride := cw * 4;
    crop := new byte[ch * stride](_ => 0);
    var d := 0;
    for y := 0 to ch
      invariant crop.Length == ch * stride && d == y * stride
      invariant d <= crop.Length && crop[..d] == CropRows(px, w, x0, y0, cw, y)
    {
      RowFits(y, ch, stride);
      FillRow(crop, d, px, ((y0 + y) * w + x0) * 4, cw);
      d := d + stride;
    }
    assert crop[..] == crop[..d];
  }

  /** The file the crop tool writes; None stands for every exception it can end in. */
  function CropFile(file: seq<byte>, x0: int, y0: int, x1: int, y1: int, deflate: Codec, inflate: Decoder): Option<seq<byte>> {
    var img := Decode(file, inflate);
    if img.None? || x1 < x0 || y1 < y0 then None else
      Encode(Image(x1 - x0, y1 - y0, CropRows(img.value.px, img.value.w, x0, y0, x1 - x0, y1 - y0)), deflate)
  }

  method CropPng(table: array<bv32>, file: seq<byte>, x0: int, y0: int, x1: int, y1: int, deflate: Codec, inflate: Decoder)
    returns (r: Option<seq<byte>>)
    requires IsCrcTable(table[..])
    ensures r == CropFile(file, x0, y0, x1, y1, deflate, inflate)
  {
    hide Decode, Encode, CropRows, IsCrcTable;
    var img := DecodePng(file, inflate);
    if img.None? || x1 < x0 || y1 < y0 {
      return None;  // inflate, Buffer.alloc or writeUInt32BE throws
    }
    var crop := FillCrop(img.value.px, img.value.w, x0, y0, x1 - x0, y1 - y0);
    r := WritePng(table, Image(x1 - x0, y1 - y0, crop[..]), deflate);
  }

  /** There is no crop exactly if the file cannot be decoded, the rectangle is reversed, or a length does not fit in 32 bits. */
  lemma CropFails(file: seq<byte>, x0: int, y0: int, x1: int, y1: int, deflate: Codec, inflate: Decoder)
    ensures CropFile(file, x0, y0, x1, y1, deflate, inflate) == None <==>
      || Decode(file, inflate) == None || x1 < x0 || y1 < y0 || x1 - x0 > 0xffff_ffff || y1 - y0 > 0xffff_ffff
      || CompressedSize(Decode(file, inflate).value, x0, y0, x1 - x0, y1 - y0, deflate) > 0xffff_ffff
  {
    hide Decode, CropRows, Scanlines;
  }

  function CompressedSize(img: Image, x0: int, y0: int, cw: nat, ch: nat, deflate: Codec): nat {
    |deflate(Scanlines(cw * 4, CropRows(img.px, img.w, x0, y0, cw, ch), ch))|
  }

  /** Pixel (x, y) of a crop is the source pixel x0 and y0 further on in row-major order. */
  lemma {:induction false} CropPixel(px: seq<byte>, w: nat, x0: int, y0: int, cw: nat, rows: nat, x: nat, y: nat)
    requires x < cw && y < rows
    ensures PixelAt(CropRows(px, w, x0, y0, cw, rows), cw, x, y) == PixelAt(px, w, x0 + x, y0 + y)
    decreases rows
  {
    hide BytesFrom;
    var stride, before := cw * 4, CropRows(px, w, x0, y0, cw, rows - 1);
    var row := BytesFrom(px, ((y0 + rows - 1) * w + x0) * 4, stride);
    assert CropRows(px, w, x0, y0, cw, rows) == before + row;
    hide CropRows;
    TimesFour(y, cw);
    var i := y * stride + x * 4;
    if y < rows - 1 {
      RowFits(y, rows - 1, stride);
      CropPixel(px, w, x0, y0, cw, rows - 1, x, y);
      BytesOfLeft(before, row, i, 4);
    } else {
      BytesOfRight(before, row, x * 4, 4);
      BytesOfBytes(px, ((y0 + y) * w + x0) * 4, stride, x * 4, 4);
    }
  }

  lemma TimesFour(y: nat, cw: nat)
    ensures y * (cw * 4) == y * cw * 4
  {
  }

  // ------------------------------------------------------- when a crop is right

  const CLEAR: seq<byte> := [0, 0, 0, 0]

  /** What a crop should show: the picture, and clear pixels around it. */
  function Wanted(px: seq<byte>, w: nat, h: nat, x: int, y: int): seq<byte> {
    if 0 <= x < w && 0 <= y < h then PixelAt(px, w, x, y) else CLEAR
  }

  ghost predicate CropIsRight(px: seq<byte>, w: nat, h: nat, x0: int, y0: int, cw: nat, ch: nat) {
    forall x: nat, y: nat :: x < cw && y < ch ==>
      PixelAt(CropRows(px, w, x0, y0, cw, ch), cw, x, y) == Wanted(px, w, h, x0 + x, y0 + y)
  }

  /** A column outside the picture whose offset is nevertheless inside the pixel data. */
  predicate Strays(w: nat, h: nat, x: int, y: int) {
    !(0 <= x < w) && 0 <= y * w + x < w * h
  }

  /** Pixel (x, y) of the rectangle that begins at (x0, y0). */
  predicate PixelStrays(w: nat, h: nat, x0: int, y0: int, x: nat, y: nat) {
    Strays(w, h, x0 + x, y0 + y)
  }

  predicate NoStray(w: nat, h: nat, x0: int, y0: int, cw: nat, ch: nat) {
    forall x: nat, y: nat :: x < cw && y < ch ==> !PixelStrays(w, h, x0, y0, x, y)
  }

  lemma RowMajor(w: nat, h: nat, x: int, y: int)
    requires 0 <= x < w
    ensures 0 <= y * w + x < w * h <==> 0 <= y < h
  {
    if 0 <= y < h {
      RowFits(y, h, w);
    } else if y < 0 {
      MulMono(1, -y, w);
    } else {
      MulMono(h, y, w);
    }
  }

  lemma OutsideIsClear(px: seq<byte>, w: nat, h: nat, x: int, y: int)
    requires |px| == w * h * 4 && !(0 <= y * w + x < w * h)
    ensures PixelAt(px, w, x, y) == CLEAR
  {
    var at := y * w + x;
    assert at >= w * h ==> at * 4 >= |px|;
  }

  /** What the crop reads for one pixel is what it should show, unless the pixel strays. */
  lemma ReadsWanted(px: seq<byte>, w: nat, h: nat, x: int, y: int)
    requires |px| == w * h * 4 && !Strays(w, h, x, y)
    ensures PixelAt(px, w, x, y) == Wanted(px, w, h, x, y)
  {
    hide PixelAt;
    if 0 <= x < w {
      RowMajor(w, h, x, y);
    }
    if !(0 <= y * w + x < w * h) {
      OutsideIsClear(px, w, h, x, y);
    }
  }

  function Ones(n: nat): seq<byte> {
    seq(n, _ => 1)
  }

  /** A straying pixel of an all-one picture is not clear. */
  lemma StrayShows(w: nat, h: nat, x: int, y: int)
    requires Strays(w, h, x, y)
    ensures PixelAt(Ones(w * h * 4), w, x, y) != Wanted(Ones(w * h * 4), w, h, x, y)
  {
    var px := Ones(w * h * 4);
    var at := (y * w + x) * 4;
    assert 0 <= at < |px|;
    assert PixelAt(px, w, x, y)[0] == ByteAt(px, at) == 1;
  }

  /**
   A crop is right for every picture of a given size exactly if none of its pixels strays: inside
   the picture it shows the picture, and outside it is clear.
   */
  lemma CropExactly(w: nat, h: nat, x0: int, y0: int, cw: nat, ch: nat)
    ensures (forall px: seq<byte> :: |px| == w * h * 4 ==> CropIsRight(px, w, h, x0, y0, cw, ch))
            <==> NoStray(w, h, x0, y0, cw, ch)
  {
    hide PixelAt, Wanted, CropRows, Strays;
    if NoStray(w, h, x0, y0, cw, ch) {
      forall px: seq<byte> | |px| == w * h * 4
        ensures CropIsRight(px, w, h, x0, y0, cw, ch)
      {
        forall x: nat, y: nat | x < cw && y < ch
          ensures PixelAt(CropRows(px, w, x0, y0, cw, ch), cw, x, y) == Wanted(px, w, h, x0 + x, y0 + y)
        {
          assert !PixelStrays(w, h, x0, y0, x, y);
          CropPixel(px, w, x0, y0, cw, ch, x, y);
          ReadsWanted(px, w, h, x0 + x, y0 + y);
        }
      }
    } else {
      var x: nat, y: nat :| x < cw && y < ch && PixelStrays(w, h, x0, y0, x, y);
      var px := Ones(w * h * 4);
      CropPixel(px, w, x0, y0, cw, ch, x, y);
      StrayShows(w, h, x0 + x, y0 + y);
      assert !CropIsRight(px, w, h, x0, y0, cw, ch);
    }
  }

  /**
   The same condition on the four coordinates alone.  `x0 / w` and `(x1 - 1) / w`, rounded down,
   count the picture widths between the picture and the rectangle's edges; a rectangle that is a
   width or more off shows rows of the picture, moved down or up by that many rows.
   */
  predicate RunsOver(w: nat, h: nat, x0: int, y0: int, x1: int, y1: int) {
    w > 0 && h > 0 && x0 < x1 && y0 < y1 &&
    var first, last := x0 / w, (x1 - 1) / w;
    || (last >= 1 && y0 + (if first > 1 then first else 1) < h && y1 - 1 + last >= 0)
    || (first <= -1 && y0 + first < h && y1 - 1 + (if last < -1 then last else -1) >= 0)
  }

  /** A pixel q widths to the right is read q rows further down. */
  lemma StraysByRows(w: nat, h: nat, x: int, y: int)
    requires w > 0
    ensures Strays(w, h, x, y) <==> x / w != 0 && 0 <= y + x / w < h
  {
    var q, c := x / w, x % w;
    assert x == q * w + c && y * w + x == (y + q) * w + c;
    RowMajor(w, h, c, y + q);
    if q == 0 {
      assert x == c;
    } else if q > 0 {
      MulMono(1, q, w);
    } else {
      MulMono(1, -q, w);
    }
  }

  lemma DivMono(a: int, b: int, w: nat)
    requires w > 0 && a <= b
    ensures a / w <= b / w
  {
    var q, r := a / w, b / w;
    assert a == q * w + a % w && b == r * w + b % w;
    if q > r {
      Products(r + 1, q, w);
      assert false;
    }
  }

  /** Every quotient between those of two numbers is the quotient of a number between them. */
  lemma QuotientBetween(a: int, b: int, w: nat, q: int) returns (x: int)
    requires w > 0 && a <= b && a / w <= q <= b / w
    ensures a <= x <= b && x / w == q
  {
    if q == a / w {
      x := a;
    } else {
      x := q * w;
      DivExact(x, q, w);
      assert a == a / w * w + a % w && b == b / w * w + b % w;
      Products(a / w + 1, q, w);
      Products(q, b / w, w);
    }
  }

  lemma DivExact(x: int, q: int, w: nat)
    requires w > 0 && q * w <= x < q * w + w
    ensures x / w == q
  {
    var d := x / w;
    assert x == d * w + x % w;
    if d > q {
      Products(q + 1, d, w);
      assert false;
    }
    if d < q {
      Products(d + 1, q, w);
      assert false;
    }
  }

  lemma Products(a: int, b: int, w: nat)
    requires a <= b
    ensures a * w <= b * w && (a - 1) * w + w == a * w
  {
  }

  lemma StrayNeedsWidth(w: nat, h: nat, x: int, y: int)
    requires Strays(w, h, x, y)
    ensures w > 0 && h > 0
  {
    assert (w == 0 || h == 0) ==> w * h == 0;
  }

  lemma StrayRunsOver(w: nat, h: nat, x0: int, y0: int, x1: int, y1: int, x: int, y: int)
    requires x0 <= x < x1 && y0 <= y < y1 && Strays(w, h, x, y)
    ensures RunsOver(w, h, x0, y0, x1, y1)
  {
    StrayNeedsWidth(w, h, x, y);
    hide Strays;
    StraysByRows(w, h, x, y);
    DivMono(x0, x, w);
    DivMono(x, x1 - 1, w);
  }

  /** A row and a quotient from their ranges with a sum inside the picture. */
  lemma SplitSum(lo: int, hi: int, y0: int, y1: int, h: nat) returns (q: int, y: int)
    requires lo <= hi && y0 < y1 && h > 0 && y0 + lo < h && y1 - 1 + hi >= 0
    ensures lo <= q <= hi && y0 <= y < y1 && 0 <= y + q < h
  {
    var sum := if y0 + lo > 0 then y0 + lo else 0;
    q := if sum - y0 <= hi then sum - y0 else hi;
    y := sum - q;
  }

  lemma RunsOverStrays(w: nat, h: nat, x0: int, y0: int, x1: int, y1: int) returns (x: int, y: int)
    requires RunsOver(w, h, x0, y0, x1, y1)
    ensures x0 <= x < x1 && y0 <= y < y1 && Strays(w, h, x, y)
  {
    hide Strays;
    var first, last := x0 / w, (x1 - 1) / w;
    DivMono(x0, x1 - 1, w);
    var q: int;
    if last >= 1 && y0 + (if first > 1 then first else 1) < h && y1 - 1 + last >= 0 {
      q, y := SplitSum(if first > 1 then first else 1, last, y0, y1, h);
    } else {
      q, y := SplitSum(first, if last < -1 then last else -1, y0, y1, h);
    }
    x := QuotientBetween(x0, x1 - 1, w, q);
    StraysByRows(w, h, x, y);
  }

  /** The two conditions agree. */
  lemma NoStrayExactly(w: nat, h: nat, x0: int, y0: int, cw: nat, ch: nat)
    ensures NoStray(w, h, x0, y0, cw, ch) <==> !RunsOver(w, h, x0, y0, x0 + cw, y0 + ch)
  {
    hide Strays, RunsOver;
    if !NoStray(w, h, x0, y0, cw, ch) {
      var x: nat, y: nat :| x < cw && y < ch && PixelStrays(w, h, x0, y0, x, y);
      StrayRunsOver(w, h, x0, y0, x0 + cw, y0 + ch, x0 + x, y0 + y);
    }
    if RunsOver(w, h, x0, y0, x0 + cw, y0 + ch) {
      var x, y := RunsOverStrays(w, h, x0, y0, x0 + cw, y0 + ch);
      var i: nat, j: nat := x - x0, y - y0;
      assert PixelStrays(w, h, x0, y0, i, j);
    }
  }

  /** A rectangle within the picture's columns never runs over. */
  lemma WithinColumns(w: nat, h: nat, x0: int, y0: int, x1: int, y1: int)
    requires 0 <= x0 <= x1 <= w
    ensures !RunsOver(w, h, x0, y0, x1, y1)
  {
  }

  /**
   Decoding the cropped file gives exactly the requested rectangle, clear where it leaves the
   picture, unless it runs over; a rectangle within the picture's columns never does.
   */
  lemma DecodeCrop(img: Image, file: seq<byte>, x0: int, y0: int, x1: int, y1: int, deflate: Codec, inflate: Decoder)
    returns (crop: Image)
    requires InversePair(deflate, inflate) && Decode(file, inflate) == Some(img)
    requires CropFile(file, x0, y0, x1, y1, deflate, inflate).Some?
    ensures Decode(CropFile(file, x0, y0, x1, y1, deflate, inflate).value, inflate) == Some(crop)
    ensures crop.w == x1 - x0 && crop.h == y1 - y0 && crop.Valid()
    ensures !RunsOver(img.w, img.h, x0, y0, x1, y1) ==> forall x: nat, y: nat :: x < crop.w && y < crop.h ==>
      PixelAt(crop.px, crop.w, x, y) == Wanted(img.px, img.w, img.h, x0 + x, y0 + y)
    ensures 0 <= x0 && x1 <= img.w ==> !RunsOver(img.w, img.h, x0, y0, x1, y1)
  {
    hide Decode, Encode, PixelAt, Wanted, RunsOver, NoStray;
    crop := Image(x1 - x0, y1 - y0, CropRows(img.px, img.w, x0, y0, x1 - x0, y1 - y0));
    DecodeEncode(crop, deflate, inflate);
    if 0 <= x0 && x1 <= img.w {
      WithinColumns(img.w, img.h, x0, y0, x1, y1);
    }
    if !RunsOver(img.w, img.h, x0, y0, x1, y1) {
      NoStrayExactly(img.w, img.h, x0, y0, crop.w, crop.h);
      assert |img.px| == img.w * img.h * 4;
      CropExactly(img.w, img.h, x0, y0, crop.w, crop.h);
      assert CropIsRight(img.px, img.w, img.h, x0, y0, crop.w, crop.h);
    }
  }

  /** Nothing is clamped: a pixel q widths to the right of the picture is read q rows further down. */
  lemma CropWraps(px: seq<byte>, w: nat, x0: int, y0: int, cw: nat, ch: nat, x: nat, y: nat)
    requires x < cw && y < ch && w > 0
    ensures PixelAt(CropRows(px, w, x0, y0, cw, ch), cw, x, y) == PixelAt(px, w, (x0 + x) % w, y0 + y + (x0 + x) / w)
  {
    hide CropRows, BytesFrom;
    CropPixel(px, w, x0, y0, cw, ch, x, y);
    var q, c := (x0 + x) / w, (x0 + x) % w;
    assert x0 + x == q * w + c && (y0 + y) * w + (x0 + x) == (y0 + y + q) * w + c;
  }

  // ---------------------------------------------------------------- integrity

  /** Changing any one byte of a chunk's type or data makes it disagree with the CRC stored behind it. */
  lemma TamperedChunk(kind: seq<byte>, data: seq<byte>, i: nat, b: byte)
    requires |kind| == 4 && |data| < U32 && i < 4 + |data| && (kind + data)[i] != b
    ensures var c := Chunk(kind, data);
      c[8 + |data|..] == RegisterBytes(Crc(kind + data)) != RegisterBytes(Crc(c[4 + i := b][4..8 + |data|]))
  {
    var body, c := kind + data, Chunk(kind, data);
    assert c[8 + |data|..] == RegisterBytes(Crc(body));
    assert c[4 + i := b][4..8 + |data|] == body[i := b];
    ByteChangeDetected(body, i, b);
    if RegisterBytes(Crc(body)) == RegisterBytes(Crc(body[i := b])) {
      RegisterBytesInjective(Crc(body), Crc(body[i := b]));
    }
  }
}
