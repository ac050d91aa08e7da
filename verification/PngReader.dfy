/**
 A strict reader of unfiltered RGBA pictures, written from RFC 2083 alone: it shares no
 definition with the writer in Png and checks every CRC.  The writer's files are exactly the
 ones it accepts, within the limits that the format sets.
 */
module PngReader {
  import opened Common

  type byte = bv8

  /** The greatest length and dimension, 2^31 - 1 (sections 3.2 and 4.1.1). */
  const LIMIT: nat := 2147483647

  datatype Picture = Picture(width: nat, height: nat, pixels: seq<byte>)

  /** Most significant byte first (section 2.1). */
  function Value(s: seq<byte>): (n: nat)
    requires |s| == 4
  {
    (s[0] as nat) * 16777216 + (s[1] as nat) * 65536 + (s[2] as nat) * 256 + (s[3] as nat)
  }

  // ------------------------------------------------------------------ the CRC

  /**
   The polynomial of section 3.4, from its exponents 26, 23, 22, 16, 12, 11, 10, 8, 7, 5, 4, 2, 1
   and 0; exponent 31 is the lowest bit.
   */
  const POLY: bv32 :=
    (1 << 5) | (1 << 8) | (1 << 9) | (1 << 15) | (1 << 19) | (1 << 20) | (1 << 21)
    | (1 << 23) | (1 << 24) | (1 << 26) | (1 << 27) | (1 << 29) | (1 << 30) | (1 << 31)

  function Turn(c: bv32): bv32 {
    if c & 1 == 1 then (c >> 1) ^ POLY else c >> 1
  }

  function Turns(c: bv32, n: nat): bv32
    decreases n
  {
    if n == 0 then c else Turns(Turn(c), n - 1)
  }

  function Taken(c: bv32, s: seq<byte>): bv32
    decreases s
  {
    if s == [] then c else Taken(Turns(c ^ (s[0] as bv32), 8), s[1..])
  }

  /** The register starts as all ones, and its complement is stored. */
  function Check(s: seq<byte>): bv32 {
    !Taken(0xffffffff, s)
  }

  // --------------------------------------------------------------- the chunks

  datatype Part = Part(kind: seq<byte>, data: seq<byte>)

  /** The chunks up to the end of the file (section 3.2), or None if one is cut short, too long or has a wrong CRC. */
  function Parts(s: seq<byte>): Option<seq<Part>> {
    if s == [] then Some([])
    else if |s| < 12 then None
    else
      var n := Value(s[..4]);
      if n > LIMIT || |s| < 12 + n || Value(s[8 + n..12 + n]) != Check(s[4..8 + n]) as int then None
      else
        var rest :- Parts(s[12 + n..]);
        Some([Part(s[4..8], s[8..8 + n])] + rest)
  }

  /** The data of consecutive IDAT chunks, followed by an empty IEND chunk and nothing else. */
  function Body(parts: seq<Part>): Option<seq<byte>> {
    if parts == [] then None
    else if parts == [Part([73, 69, 78, 68], [])] then Some([])
    else if parts[0].kind != [73, 68, 65, 84] then None
    else
      var rest :- Body(parts[1..]);
      Some(parts[0].data + rest)
  }

  /** The rows of a picture, each behind a zero for "no filter" (section 6). */
  function Rows(raw: seq<byte>, stride: nat, height: nat): Option<seq<byte>> {
    if height == 0 then if raw == [] then Some([]) else None
    else if |raw| < stride + 1 then None
    else
      var at := |raw| - stride - 1;
      if raw[at] != 0 then None
      else
        var before :- Rows(raw[..at], stride, height - 1);
        Some(before + raw[at + 1..])
  }

  /** Width and height from the header: bit depth 8, red, green, blue and alpha, not interlaced (section 4.1.1). */
  function Size(header: Part): Option<(nat, nat)> {
    if header.kind != [73, 72, 68, 82] || |header.data| != 13 || header.data[8..] != [8, 6, 0, 0, 0] then None
    else
      var w, h := Value(header.data[..4]), Value(header.data[4..8]);
      if 0 < w <= LIMIT && 0 < h <= LIMIT then Some((w, h)) else None
  }

  function Read(file: seq<byte>, inflate: seq<byte> -> Option<seq<byte>>): Option<Picture> {
    if |file| < 8 || file[..8] != [137, 80, 78, 71, 13, 10, 26, 10] then None
    else
      var parts :- Parts(file[8..]);
      if |parts| < 3 then None
      else
        var size :- Size(parts[0]);
        var data :- Body(parts[1..]);
        var raw :- inflate(data);
        var pixels :- Rows(raw, 4 * size.0, size.1);
        Some(Picture(size.0, size.1, pixels))
  }
}
