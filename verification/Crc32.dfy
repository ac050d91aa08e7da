/**
 The CRC-32 of the PNG writer (tools/canvas_render.js and its copy in
 tools/canvas_crop.js).  The table-driven loops are proved equal to the
 bit-by-bit register of section 3.4 of RFC 2083, and every step of the register
 is shown to be reversible, which is what makes the check detect changes.

 The register operations are named functions, so that the proofs above them can
 `hide` the bit-vector arithmetic and reason with the laws proved here.
 */
module Crc32 {

  type byte = bv8

  const POLYNOMIAL: bv32 := 0xedb88320
  const ALL_ONES: bv32 := 0xffffffff

  function Xor(a: bv32, b: bv32): bv32 { a ^ b }

  function Half(c: bv32): bv32 { c >> 1 }

  predicate Low(c: bv32) { c & 1 == 1 }

  function LowByte(c: bv32): bv32 { c & 0xff }

  function DropByte(c: bv32): bv32 { c >> 8 }

  function Lift(c: bv32): bv32 { c << 8 }

  function Wide(b: byte): bv32 { b as bv32 }

  // ---------------------------------------------------------------- bit by bit

  /** One shift of the register with no data bit: the inner step of the table loop. */
  function Shift(c: bv32): bv32 {
    if Low(c) then Xor(POLYNOMIAL, Half(c)) else Half(c)
  }

  function Shift8(c: bv32): bv32 {
    Shift(Shift(Shift(Shift(Shift(Shift(Shift(Shift(c))))))))
  }

  predicate BitOf(b: byte, k: nat)
    requires k < 8
  {
    (b >> k) & 1 == 1
  }

  /** Section 3.4 of RFC 2083: feed one data bit, low bit of the register first. */
  function FeedBit(c: bv32, bit: bool): bv32 {
    if Low(c) != bit then Xor(Half(c), POLYNOMIAL) else Half(c)
  }

  /** The bits of a byte go in from the least significant to the most significant. */
  function FeedBits(c: bv32, b: byte, k: nat): bv32
    requires k <= 8
    decreases 8 - k
  {
    if k == 8 then c else FeedBits(FeedBit(c, BitOf(b, k)), b, k + 1)
  }

  function FeedAll(c: bv32, data: seq<byte>): bv32
    decreases data
  {
    if data == [] then c else FeedAll(FeedBits(c, data[0], 0), data[1..])
  }

  /** The register starts as all ones and is inverted at the end. */
  function BitwiseCrc(data: seq<byte>): bv32 {
    Xor(FeedAll(ALL_ONES, data), ALL_ONES)
  }

  // ------------------------------------------------------------- byte by byte

  /** What one table step does to the register. */
  function FeedByte(c: bv32, b: byte): bv32 {
    Xor(Shift8(LowByte(Xor(c, Wide(b)))), DropByte(c))
  }

  function Register(c: bv32, data: seq<byte>): bv32
    decreases data
  {
    if data == [] then c else Register(FeedByte(c, data[0]), data[1..])
  }

  /** The value `crc32` returns. */
  function Crc(data: seq<byte>): bv32 {
    Xor(Register(ALL_ONES, data), ALL_ONES)
  }

  // ------------------------------------------------- laws of the operations

  lemma XorCommutes(a: bv32, b: bv32)
    ensures Xor(a, b) == Xor(b, a)
  {
  }

  lemma XorAssociates(a: bv32, b: bv32, c: bv32)
    ensures Xor(Xor(a, b), c) == Xor(a, Xor(b, c))
  {
  }

  lemma XorTwice(a: bv32, b: bv32)
    ensures Xor(Xor(a, b), b) == a
  {
  }

  lemma XorZero(a: bv32)
    ensures Xor(a, 0) == a
  {
  }

  lemma XorLaws(a: bv32, b: bv32, c: bv32)
    ensures Xor(a, b) == Xor(b, a)
    ensures Xor(Xor(a, b), c) == Xor(a, Xor(b, c))
    ensures Xor(Xor(a, c), Xor(b, c)) == Xor(a, b)
  {
    hide *;
    XorCommutes(a, b);
    XorAssociates(a, b, c);
    XorAssociates(a, c, Xor(b, c));
    XorCommutes(c, Xor(b, c));
    XorTwice(b, c);
  }

  lemma HalfXor(a: bv32, b: bv32)
    ensures Half(Xor(a, b)) == Xor(Half(a), Half(b))
  {
  }

  lemma LowXor(a: bv32, b: bv32)
    ensures Low(Xor(a, b)) <==> Low(a) != Low(b)
  {
  }

  lemma XorCancel(x: bv32, y: bv32, z: bv32)
    requires Xor(x, z) == Xor(y, z)
    ensures x == y
  {
    hide *;
    XorTwice(x, z);
    XorTwice(y, z);
  }

  lemma ShiftXor(a: bv32, b: bv32)
    ensures Shift(Xor(a, b)) == Xor(Shift(a), Shift(b))
  {
    hide Xor, Half, Low;
    var x, y := Half(a), Half(b);
    HalfXor(a, b);
    LowXor(a, b);
    XorLaws(POLYNOMIAL, x, y);
    XorLaws(x, POLYNOMIAL, y);
    XorLaws(x, y, POLYNOMIAL);
    XorCommutes(POLYNOMIAL, y);
  }

  lemma Shift8Xor(a: bv32, b: bv32)
    ensures Shift8(Xor(a, b)) == Xor(Shift8(a), Shift8(b))
  {
    hide Xor, Shift;
    ShiftXor(a, b);
    var a1, b1 := Shift(a), Shift(b);
    ShiftXor(a1, b1);
    var a2, b2 := Shift(a1), Shift(b1);
    ShiftXor(a2, b2);
    var a3, b3 := Shift(a2), Shift(b2);
    ShiftXor(a3, b3);
    var a4, b4 := Shift(a3), Shift(b3);
    ShiftXor(a4, b4);
    var a5, b5 := Shift(a4), Shift(b4);
    ShiftXor(a5, b5);
    var a6, b6 := Shift(a5), Shift(b5);
    ShiftXor(a6, b6);
    ShiftXor(Shift(a6), Shift(b6));
  }

  /** Eight shifts of a register whose low byte is clear only move it down. */
  lemma Shift8High(x: bv32)
    requires LowByte(x) == 0
    ensures Shift8(x) == DropByte(x)
  {
  }

  lemma WideIsByte(b: byte)
    ensures Wide(b) <= 0xff
  {
  }

  lemma ClearLowByte(c: bv32)
    ensures LowByte(c & 0xffffff00) == 0 && DropByte(c & 0xffffff00) == DropByte(c)
  {
  }

  lemma TwoParts(x: bv32)
    ensures Xor(LowByte(x), x & 0xffffff00) == x
  {
  }

  lemma HighUntouched(c: bv32, d: bv32)
    requires d <= 0xff
    ensures Xor(c, d) & 0xffffff00 == c & 0xffffff00
  {
  }

  lemma SplitLowByte(c: bv32, b: byte) returns (high: bv32)
    ensures Xor(LowByte(Xor(c, Wide(b))), high) == Xor(c, Wide(b))
    ensures LowByte(high) == 0 && DropByte(high) == DropByte(c)
  {
    hide *;
    high := c & 0xffffff00;
    WideIsByte(b);
    ClearLowByte(c);
    TwoParts(Xor(c, Wide(b)));
    HighUntouched(c, Wide(b));
  }

  /** The table step is eight shifts of the register with the byte mixed in. */
  lemma FeedByteIsShift8(c: bv32, b: byte)
    ensures FeedByte(c, b) == Shift8(Xor(c, Wide(b)))
  {
    hide Xor, Shift8, LowByte, DropByte, Wide;
    var high := SplitLowByte(c, b);
    Shift8Xor(LowByte(Xor(c, Wide(b))), high);
    Shift8High(high);
  }

  /** Feeding the low bit of `d` is the same as mixing in all of `d` up front. */
  lemma PullBit(c: bv32, d: bv32)
    ensures Shift(Xor(c, d)) == Xor(FeedBit(c, Low(d)), Half(d))
  {
    hide Xor, Half, Low;
    HalfXor(c, d);
    LowXor(c, d);
    XorLaws(POLYNOMIAL, Half(c), Half(d));
  }

  lemma ByteHalves(b: byte) returns (d1: bv32, d2: bv32, d3: bv32, d4: bv32, d5: bv32, d6: bv32, d7: bv32)
    ensures d1 == Half(Wide(b)) && d2 == Half(d1) && d3 == Half(d2) && d4 == Half(d3)
    ensures d5 == Half(d4) && d6 == Half(d5) && d7 == Half(d6) && Half(d7) == 0
    ensures Low(Wide(b)) == BitOf(b, 0) && Low(d1) == BitOf(b, 1) && Low(d2) == BitOf(b, 2) && Low(d3) == BitOf(b, 3)
    ensures Low(d4) == BitOf(b, 4) && Low(d5) == BitOf(b, 5) && Low(d6) == BitOf(b, 6) && Low(d7) == BitOf(b, 7)
  {
    var d := b as bv32;
    d1, d2, d3, d4, d5, d6, d7 := d >> 1, d >> 2, d >> 3, d >> 4, d >> 5, d >> 6, d >> 7;
  }

  lemma FeedBitsIsShift8(c: bv32, b: byte)
    ensures FeedBits(c, b, 0) == Shift8(Xor(c, Wide(b)))
  {
    hide Xor, Half, Low, Wide, Shift, FeedBit, BitOf;
    var c1 := FeedBit(c, BitOf(b, 0));
    var c2 := FeedBit(c1, BitOf(b, 1));
    var c3 := FeedBit(c2, BitOf(b, 2));
    var c4 := FeedBit(c3, BitOf(b, 3));
    var c5 := FeedBit(c4, BitOf(b, 4));
    var c6 := FeedBit(c5, BitOf(b, 5));
    var c7 := FeedBit(c6, BitOf(b, 6));
    var c8 := FeedBit(c7, BitOf(b, 7));
    assert FeedBits(c, b, 0) == FeedBits(c1, b, 1) == FeedBits(c2, b, 2) == FeedBits(c3, b, 3)
        == FeedBits(c4, b, 4) == FeedBits(c5, b, 5) == FeedBits(c6, b, 6) == FeedBits(c7, b, 7) == FeedBits(c8, b, 8) == c8;
    var d1, d2, d3, d4, d5, d6, d7 := ByteHalves(b);
    PullBit(c, Wide(b));
    PullBit(c1, d1);
    PullBit(c2, d2);
    PullBit(c3, d3);
    PullBit(c4, d4);
    PullBit(c5, d5);
    PullBit(c6, d6);
    PullBit(c7, d7);
    XorZero(c8);
  }

  lemma {:induction false} TableIsBitwise(c: bv32, data: seq<byte>)
    ensures Register(c, data) == FeedAll(c, data)
    decreases data
  {
    hide FeedByte, FeedBits, Shift8, Xor, Wide;
    if data != [] {
      FeedByteIsShift8(c, data[0]);
      FeedBitsIsShift8(c, data[0]);
      TableIsBitwise(FeedByte(c, data[0]), data[1..]);
    }
  }

  /** The table-driven CRC is the bit-by-bit CRC, for every byte string. */
  lemma CrcIsBitwiseCrc(data: seq<byte>)
    ensures Crc(data) == BitwiseCrc(data)
  {
    hide Register, FeedAll, Xor;
    TableIsBitwise(ALL_ONES, data);
  }

  // ------------------------------------------------------------ the two loops

  function Shifts(c: bv32, n: nat): bv32
    decreases n
  {
    if n == 0 then c else Shifts(Shift(c), n - 1)
  }

  lemma EightShifts(c: bv32)
    ensures Shifts(c, 8) == Shift8(c)
  {
    hide Shift;
    var c4 := Shift(Shift(Shift(Shift(c))));
    assert Shifts(c, 8) == Shifts(Shift(Shift(c)), 6) == Shifts(c4, 4) == Shifts(Shift(Shift(c4)), 2);
  }

  lemma ShiftInline(c: bv32)
    ensures Shift(c) == if c & 1 != 0 then 0xedb88320 ^ (c >> 1) else c >> 1
  {
    assert c & 1 == 0 || c & 1 == 1;
  }

  /** Entry n of `CRC_TABLE`: n shifted eight times. */
  method TableEntry(n: bv32) returns (c: bv32)
    ensures c == Shift8(n)
  {
    hide Shift, Shift8;
    c := n;
    for k := 0 to 8
      invariant Shifts(n, 8) == Shifts(c, 8 - k)
    {
      ShiftInline(c);
      c := if c & 1 != 0 then 0xedb88320 ^ (c >> 1) else c >> 1;
    }
    EightShifts(n);
  }

  ghost predicate IsCrcTable(t: seq<bv32>) {
    |t| == 256 && forall n: bv32 :: n <= 0xff ==> Index(n) < 256 && t[Index(n)] == Shift8(n)
  }

  function Index(n: bv32): nat { n as int }

  lemma IndexOfInt(n: int)
    requires 0 <= n < 256
    ensures forall m: bv32 :: m <= 0xff && Index(m) == n ==> m == n as bv32
  {
    forall m: bv32 | m <= 0xff && Index(m) == n
      ensures m == n as bv32
    {
      assert (m as int) as bv32 == m;
    }
  }

  /** `CRC_TABLE` */
  method BuildTable() returns (t: array<bv32>)
    ensures fresh(t) && IsCrcTable(t[..])
  {
    hide Shift8, Index;
    t := new bv32[256];
    for n := 0 to 256
      invariant forall m: bv32 :: m <= 0xff && Index(m) < n ==> t[Index(m)] == Shift8(m)
    {
      IndexOfInt(n);
      t[n] := TableEntry(n as bv32);
    }
    SmallIndex();
  }

  lemma SmallIndex()
    ensures forall m: bv32 :: m <= 0xff ==> Index(m) < 256
  {
  }

  lemma MaskIsIndex(c: bv32, b: byte)
    ensures (c ^ (b as bv32)) & 0xff == LowByte(Xor(c, Wide(b)))
    ensures LowByte(Xor(c, Wide(b))) <= 0xff
  {
  }

  /** One iteration of the `crc32` loop. */
  method TableStep(table: array<bv32>, c: bv32, b: byte) returns (c': bv32)
    requires IsCrcTable(table[..])
    ensures c' == FeedByte(c, b)
  {
    hide Shift8, Index, LowByte, Wide;
    MaskIsIndex(c, b);
    var index := (c ^ (b as bv32)) & 0xff;
    assert Index(index) == index as int by { IndexIsInt(index); }
    c' := table[index as int] ^ (c >> 8);
  }

  lemma IndexIsInt(n: bv32)
    ensures Index(n) == n as int
  {
  }

  /** `crc32`: the table-driven loop computes the bit-by-bit CRC. */
  method ComputeCrc(table: array<bv32>, buf: seq<byte>) returns (crc: bv32)
    requires IsCrcTable(table[..])
    ensures crc == BitwiseCrc(buf) == Crc(buf)
  {
    hide IsCrcTable, FeedByte, FeedAll;
    var c := ALL_ONES;
    for i := 0 to |buf|
      invariant Register(c, buf[i..]) == Register(ALL_ONES, buf)
    {
      assert buf[i..][0] == buf[i] && buf[i..][1..] == buf[i + 1..];
      c := TableStep(table, c, buf[i]);
    }
    CrcIsBitwiseCrc(buf);
    crc := c ^ ALL_ONES;
  }

  // --------------------------------------------------- what the CRC detects

  function Unshift(c: bv32): bv32 {
    if c & 0x80000000 != 0 then ((c ^ POLYNOMIAL) << 1) | 1 else c << 1
  }

  function Unshift8(c: bv32): bv32 {
    Unshift(Unshift(Unshift(Unshift(Unshift(Unshift(Unshift(Unshift(c))))))))
  }

  lemma UnshiftShift(c: bv32)
    ensures Unshift(Shift(c)) == c
  {
  }

  /** Every step of the register can be undone. */
  lemma Unshift8Shift8(c: bv32)
    ensures Unshift8(Shift8(c)) == c
  {
    hide Shift, Unshift;
    var c1 := Shift(c);
    var c2 := Shift(c1);
    var c3 := Shift(c2);
    var c4 := Shift(c3);
    var c5 := Shift(c4);
    var c6 := Shift(c5);
    UnshiftShift(c);
    UnshiftShift(c1);
    UnshiftShift(c2);
    UnshiftShift(c3);
    UnshiftShift(c4);
    UnshiftShift(c5);
    UnshiftShift(c6);
    UnshiftShift(Shift(c6));
  }

  lemma Shift8Injective(x: bv32, y: bv32)
    requires Shift8(x) == Shift8(y)
    ensures x == y
  {
    hide *;
    Unshift8Shift8(x);
    Unshift8Shift8(y);
  }

  /** Registers that differ stay different, whatever bytes follow. */
  lemma {:induction false} RegisterInjective(c: bv32, c': bv32, data: seq<byte>)
    requires Register(c, data) == Register(c', data)
    ensures c == c'
    decreases data
  {
    hide FeedByte, Shift8, Xor, Wide;
    if data != [] {
      var b := data[0];
      RegisterInjective(FeedByte(c, b), FeedByte(c', b), data[1..]);
      FeedByteIsShift8(c, b);
      FeedByteIsShift8(c', b);
      Shift8Injective(Xor(c, Wide(b)), Xor(c', Wide(b)));
      XorCancel(c, c', Wide(b));
    }
  }

  lemma {:induction false} RegisterConcat(c: bv32, a: seq<byte>, b: seq<byte>)
    ensures Register(c, a + b) == Register(Register(c, a), b)
    decreases a
  {
    hide FeedByte;
    if a == [] {
      assert a + b == b;
    } else {
      assert (a + b)[0] == a[0] && (a + b)[1..] == a[1..] + b;
      RegisterConcat(FeedByte(c, a[0]), a[1..], b);
    }
  }

  /** If a change in the middle of the data goes unnoticed, the registers had already met at its end. */
  lemma UnnoticedChange(before: seq<byte>, s: seq<byte>, t: seq<byte>, after: seq<byte>) returns (c: bv32)
    requires Crc(before + s + after) == Crc(before + t + after)
    ensures Register(c, s) == Register(c, t)
  {
    hide Register, Xor;
    c := Register(ALL_ONES, before);
    RegisterConcat(ALL_ONES, before + s, after);
    RegisterConcat(ALL_ONES, before, s);
    RegisterConcat(ALL_ONES, before + t, after);
    RegisterConcat(ALL_ONES, before, t);
    XorCancel(Register(Register(c, s), after), Register(Register(c, t), after), ALL_ONES);
    RegisterInjective(Register(c, s), Register(c, t), after);
  }

  /** A byte that is still to come can be mixed into the register eight shifts early. */
  lemma MixEarly(x: bv32, y: bv32)
    requires Liftable(y)
    ensures Xor(Shift8(x), y) == Shift8(Xor(x, Lift(y)))
  {
    hide Shift8, Xor, DropByte, Lift, LowByte;
    Shift8Xor(x, Lift(y));
    LiftClear(y);
    Shift8High(Lift(y));
  }

  lemma LiftClear(y: bv32)
    ensures LowByte(Lift(y)) == 0
  {
  }

  /** Four bytes packed in the order the register consumes them. */
  function Word(b0: byte, b1: byte, b2: byte, b3: byte): bv32 {
    Xor(Wide(b0), Lift(Xor(Wide(b1), Lift(Xor(Wide(b2), Lift(Wide(b3)))))))
  }

  lemma WordInjective(a: byte, b: byte, c: byte, d: byte, a': byte, b': byte, c': byte, d': byte)
    requires Word(a, b, c, d) == Word(a', b', c', d')
    ensures a == a' && b == b' && c == c' && d == d'
  {
  }

  /** Nothing is lost by lifting a word of at most three bytes. */
  predicate Liftable(y: bv32) {
    DropByte(Lift(y)) == y
  }

  lemma WideLiftable(b: byte)
    ensures Liftable(Wide(b)) && Liftable(Lift(Wide(b))) && Liftable(Lift(Lift(Wide(b))))
  {
  }

  lemma LiftXor(x: bv32, y: bv32)
    ensures Lift(Xor(x, y)) == Xor(Lift(x), Lift(y))
  {
  }

  lemma DropByteXor(x: bv32, y: bv32)
    ensures DropByte(Xor(x, y)) == Xor(DropByte(x), DropByte(y))
  {
  }

  lemma PairLiftable(b: byte, b': byte)
    ensures Liftable(Lift(Xor(Wide(b), Lift(Wide(b')))))
  {
    hide Lift, DropByte, Xor, Wide;
    var x, y := Wide(b), Lift(Wide(b'));
    WideLiftable(b);
    WideLiftable(b');
    LiftXor(x, y);
    LiftXor(Lift(x), Lift(y));
    DropByteXor(Lift(Lift(x)), Lift(Lift(y)));
  }

  lemma XorLiftable(b: byte, x: bv32)
    requires Liftable(Lift(x))
    ensures Liftable(Xor(Wide(b), Lift(x)))
  {
  }

  /** Four table steps are thirty-two shifts of the register with the whole word mixed in. */
  lemma FourBytes(c: bv32, s: seq<byte>)
    requires |s| == 4
    ensures Register(c, s) == Shift8(Shift8(Shift8(Shift8(Xor(c, Word(s[0], s[1], s[2], s[3]))))))
  {
    hide FeedByte, Shift8, Xor, DropByte, Lift, LowByte, Wide;
    var c1 := FeedByte(c, s[0]);
    var c2 := FeedByte(c1, s[1]);
    var c3 := FeedByte(c2, s[2]);
    var c4 := FeedByte(c3, s[3]);
    assert Register(c, s) == Register(c1, s[1..]) == Register(c2, s[2..]) == Register(c3, s[3..]) == Register(c4, []) == c4 by {
      assert s[1..][1..] == s[2..] && s[2..][1..] == s[3..] && s[3..][1..] == [];
    }
    FeedByteIsShift8(c, s[0]);
    FeedByteIsShift8(c1, s[1]);
    FeedByteIsShift8(c2, s[2]);
    FeedByteIsShift8(c3, s[3]);
    WideLiftable(s[3]);
    XorLiftable(s[2], Wide(s[3]));
    PairLiftable(s[2], s[3]);
    XorLiftable(s[1], Xor(Wide(s[2]), Lift(Wide(s[3]))));
    var x3 := Wide(s[3]);
    var x2 := Xor(Wide(s[2]), Lift(x3));
    var x1 := Xor(Wide(s[1]), Lift(x2));
    MixEarly(Xor(c2, Wide(s[2])), x3);
    XorLaws(c2, Wide(s[2]), Lift(x3));
    MixEarly(Xor(c1, Wide(s[1])), x2);
    XorLaws(c1, Wide(s[1]), Lift(x2));
    MixEarly(Xor(c, Wide(s[0])), x1);
    XorLaws(c, Wide(s[0]), Lift(x1));
  }

  /** Replacing four consecutive bytes by any other four bytes always changes the CRC. */
  lemma WordChangeDetected(before: seq<byte>, s: seq<byte>, t: seq<byte>, after: seq<byte>)
    requires |s| == |t| == 4 && s != t
    ensures Crc(before + s + after) != Crc(before + t + after)
  {
    hide Crc, Register, Shift8, Word, Xor;
    if Crc(before + s + after) == Crc(before + t + after) {
      var c := UnnoticedChange(before, s, t, after);
      FourBytes(c, s);
      FourBytes(c, t);
      var x, y := Word(s[0], s[1], s[2], s[3]), Word(t[0], t[1], t[2], t[3]);
      var u, v := Xor(c, x), Xor(c, y);
      Shift8Injective(Shift8(Shift8(Shift8(u))), Shift8(Shift8(Shift8(v))));
      Shift8Injective(Shift8(Shift8(u)), Shift8(Shift8(v)));
      Shift8Injective(Shift8(u), Shift8(v));
      Shift8Injective(u, v);
      XorCommutes(c, x);
      XorCommutes(c, y);
      XorCancel(x, y, c);
      WordInjective(s[0], s[1], s[2], s[3], t[0], t[1], t[2], t[3]);
    }
  }

  lemma WideInjective(a: byte, b: byte)
    requires Wide(a) == Wide(b)
    ensures a == b
  {
  }

  /** Changing any single byte of the checked data always changes its CRC. */
  lemma ByteChangeDetected(data: seq<byte>, i: nat, b: byte)
    requires i < |data| && data[i] != b
    ensures Crc(data[i := b]) != Crc(data)
  {
    hide Crc, FeedByte, Shift8, Wide, Xor;
    var before, after := data[..i], data[i + 1..];
    assert data == before + [data[i]] + after && data[i := b] == before + [b] + after;
    if Crc(data[i := b]) == Crc(data) {
      var c := UnnoticedChange(before, [b], [data[i]], after);
      FeedByteIsShift8(c, b);
      FeedByteIsShift8(c, data[i]);
      Shift8Injective(Xor(c, Wide(b)), Xor(c, Wide(data[i])));
      XorCommutes(c, Wide(b));
      XorCommutes(c, Wide(data[i]));
      XorCancel(Wide(b), Wide(data[i]), c);
      WideInjective(b, data[i]);
    }
  }
}
