/** The four-byte big-endian integers of the PNG format (section 2.1 of RFC 2083). */
module BigEndians {

  const U32: int := 0x1_0000_0000

  function ToInt(b: bv8): (n: int)
    ensures 0 <= n < 0x100
  {
    b as int
  }

  lemma Double(b: bv8)
    requires ToInt(b) < 0x80
    ensures ToInt(b << 1) == 2 * ToInt(b)
    ensures ToInt((b << 1) | 1) == 2 * ToInt(b) + 1
  {
    SmallByte(b);
    DoubleCast(b);
  }

  lemma SmallByte(b: bv8)
    requires b as int < 0x80
    ensures b < 0x80
  {
  }

  lemma DoubleCast(b: bv8)
    requires b < 0x80
    ensures (b << 1) as int == 2 * (b as int)
    ensures ((b << 1) | 1) as int == 2 * (b as int) + 1
  {
  }

  /** The byte with a given value, built bit by bit. */
  function ToByte(n: int): (b: bv8)
    requires 0 <= n < 0x100
    ensures ToInt(b) == n
  {
    if n == 0 then 0 else
      var half := ToByte(n / 2);
      Double(half);
      if n % 2 == 0 then half << 1 else (half << 1) | 1
  }

  /** `writeUInt32BE` of a length or a dimension. */
  function BigEndian(n: int): (s: seq<bv8>)
    requires 0 <= n < U32
    ensures |s| == 4
  {
    [ToByte(n / 0x100_0000), ToByte(n / 0x1_0000 % 0x100), ToByte(n / 0x100 % 0x100), ToByte(n % 0x100)]
  }

  /** `readUInt32BE(0)` */
  function ReadBigEndian(s: seq<bv8>): (n: int)
    requires |s| >= 4
    ensures 0 <= n < U32
  {
    ToInt(s[0]) * 0x100_0000 + ToInt(s[1]) * 0x1_0000 + ToInt(s[2]) * 0x100 + ToInt(s[3])
  }

  lemma BigEndianRoundTrip(n: int, rest: seq<bv8>)
    requires 0 <= n < U32
    ensures ReadBigEndian(BigEndian(n) + rest) == n
  {
    hide ToByte, ToInt;
    BigEndianDigits(n);
    var s := BigEndian(n) + rest;
    assert s[0] == BigEndian(n)[0] && s[1] == BigEndian(n)[1] && s[2] == BigEndian(n)[2] && s[3] == BigEndian(n)[3];
  }

  lemma BigEndianDigits(n: int)
    requires 0 <= n < U32
    ensures 0 <= n / 0x100_0000 < 0x100
    ensures n == n / 0x100_0000 * 0x100_0000 + n / 0x1_0000 % 0x100 * 0x1_0000 + n / 0x100 % 0x100 * 0x100 + n % 0x100
  {
    assert n / 0x1_0000 / 0x100 == n / 0x100_0000;
    assert n / 0x100 / 0x100 == n / 0x1_0000;
  }
}
