/**
 The pure integer expressions of the BME280 driver: how register bytes are
 packed into words and raw counts, how the control bytes are built from
 their bit fields, and the 16-bit sign conversion.  Each is written with
 the Python operators of module PyInt, and its contract gives the plain
 arithmetic value.
 */
module Packing {
  import opened PyInt

  /** A value read from or written to one 8-bit register */
  type Byte = x: int | 0 <= x < 256

  /** Reference meaning of a 16-bit two's-complement word */
  function Signed16(w: int): int {
    if w >= 0x8000 then w - 0x1_0000 else w
  }

  /** `(hi << 8) | lo`: a calibration word from its byte pair, or the raw humidity count */
  function Pack16(hi: Byte, lo: Byte): (w: int)
    ensures w == hi * 256 + lo
    ensures 0 <= w < 0x1_0000
  {
    assert Pow2(8) == 256 by { Pow2Values(); }
    OrDisjoint(hi, lo, 8);
    Or(Shl(hi, 8), lo)
  }

  /** `(msb << 12) | (lsb << 4) | (xlsb >> 4)`: a 20-bit raw pressure or temperature count */
  function Raw20(msb: Byte, lsb: Byte, xlsb: Byte): (v: int)
    ensures v == msb * 4096 + lsb * 16 + xlsb / 16
    ensures 0 <= v < 0x10_0000
  {
    Raw20Value(msb, lsb, xlsb);
    Or(Or(Shl(msb, 12), Shl(lsb, 4)), Shr(xlsb, 4))
  }

  lemma Raw20Value(msb: Byte, lsb: Byte, xlsb: Byte)
    ensures Or(Or(Shl(msb, 12), Shl(lsb, 4)), Shr(xlsb, 4)) == msb * 4096 + lsb * 16 + xlsb / 16
  {
    assert Pow2(4) == 16 && Pow2(12) == 4096 by { Pow2Values(); }
    var upper := Or(Shl(msb, 12), Shl(lsb, 4));
    assert upper == msb * 4096 + lsb * 16 by { OrDisjoint(msb, lsb * 16, 12); }
    var both := msb * 256 + lsb;
    assert Shl(both, 4) == upper;
    OrDisjoint(both, xlsb / 16, 4);
  }

  /** `(high << 5) | (middle << 2) | low`: the layout shared by the ctrl_meas
      register (osrs_t, osrs_p, mode) and the config register (t_sb, filter, spi3w_en) */
  function ControlByte(high: int, middle: int, low: int): (b: int)
    ensures 0 <= high && 0 <= middle < 8 && 0 <= low < 4 ==> b == high * 32 + middle * 4 + low
    ensures 0 <= high < 8 && 0 <= middle < 8 && 0 <= low < 4 ==> 0 <= b < 256
  {
    var b := Or(Or(Shl(high, 5), Shl(middle, 2)), low);
    if 0 <= high && 0 <= middle < 8 && 0 <= low < 4 then
      ControlByteValue(high, middle, low);
      b
    else
      b
  }

  lemma ControlByteValue(high: nat, middle: nat, low: nat)
    requires middle < 8 && low < 4
    ensures Or(Or(Shl(high, 5), Shl(middle, 2)), low) == high * 32 + middle * 4 + low
  {
    assert Pow2(2) == 4 && Pow2(5) == 32 by { Pow2Values(); }
    var upper := Or(Shl(high, 5), Shl(middle, 2));
    assert upper == high * 32 + middle * 4 by { OrDisjoint(high, middle * 4, 5); }
    var both := high * 8 + middle;
    assert Shl(both, 2) == upper;
    OrDisjoint(both, low, 2);
  }

  /** `x & 0x0F` and `0x0F & x` keep the low nibble */
  lemma LowNibbleMask(x: int)
    ensures And(x, 0x0F) == x % 16 && And(0x0F, x) == x % 16
  {
    assert Pow2(4) == 16 by { Pow2Values(); }
    AndLowMask(x, 4);
    BitwiseCommutes(AndOp, 0x0F, x);
  }

  /** `(hi << 4) | nibble` for a nibble below 16 */
  lemma OrNibble(hi: Byte, nibble: int)
    requires 0 <= nibble < 16
    ensures Or(Shl(hi, 4), nibble) == hi * 16 + nibble
  {
    assert Pow2(4) == 16 by { Pow2Values(); }
    OrDisjoint(hi, nibble, 4);
  }

  /** A word splits back into its byte pair: `w >> 8 == hi` and `w & 0xFF == lo` */
  lemma Pack16Splits(hi: Byte, lo: Byte)
    ensures Pack16(hi, lo) / 256 == hi && Pack16(hi, lo) % 256 == lo
  {
    DivModUnique(Pack16(hi, lo), 256, hi, lo);
  }

  /** A control byte splits back into its three fields, so the register read
      back by the sensor holds exactly the requested settings */
  lemma ControlByteFields(high: int, middle: int, low: int)
    requires 0 <= high < 8 && 0 <= middle < 8 && 0 <= low < 4
    ensures ControlByte(high, middle, low) / 32 == high
    ensures (ControlByte(high, middle, low) / 4) % 8 == middle
    ensures ControlByte(high, middle, low) % 4 == low
  {
    var b := ControlByte(high, middle, low);
    DivModUnique(b, 32, high, middle * 4 + low);
    DivModUnique(b, 4, high * 8 + middle, low);
    DivModUnique(high * 8 + middle, 8, high, middle);
  }

  /** `(hi << 4) | (0x0F & mixed)`: a 12-bit field whose low nibble is the low half of `mixed` */
  function LowNibbleField(hi: Byte, mixed: Byte): (w: int)
    ensures w == hi * 16 + mixed % 16
    ensures 0 <= w < 0x1000
  {
    LowNibbleMask(mixed);
    OrNibble(hi, mixed % 16);
    Or(Shl(hi, 4), And(0x0F, mixed))
  }

  /** `(hi << 4) | ((mixed >> 4) & 0x0F)`: a 12-bit field whose low nibble is the high half of `mixed` */
  function HighNibbleField(hi: Byte, mixed: Byte): (w: int)
    ensures w == hi * 16 + mixed / 16
    ensures 0 <= w < 0x1000
  {
    HighNibbleValue(hi, mixed);
    Or(Shl(hi, 4), And(Shr(mixed, 4), 0x0F))
  }

  lemma HighNibbleValue(hi: Byte, mixed: Byte)
    ensures Or(Shl(hi, 4), And(Shr(mixed, 4), 0x0F)) == hi * 16 + mixed / 16
  {
    HighNibbleShift(mixed);
    SmallNibbleMask(Shr(mixed, 4));
    OrNibble(hi, Shr(mixed, 4));
  }

  /** `mixed >> 4` is the high nibble of a byte */
  lemma HighNibbleShift(mixed: Byte)
    ensures Shr(mixed, 4) == mixed / 16 && 0 <= Shr(mixed, 4) < 16
  {
    assert Pow2(4) == 16 by { Pow2Values(); }
  }

  /** Masking a nibble with 0x0F leaves it as it is */
  lemma SmallNibbleMask(nibble: int)
    requires 0 <= nibble < 16
    ensures And(nibble, 0x0F) == nibble
  {
    LowNibbleMask(nibble);
  }

  /** Bit 15 of a 16-bit word is what the test `w & 0x8000` sees */
  lemma SignBitTest(w: int)
    requires 0 <= w < 0x1_0000
    ensures (And(w, 0x8000) != 0) == (w >= 0x8000)
  {
    assert Pow2(15) == 0x8000 by { Pow2Values(); }
    AndSingleBit(w, 15);
    var bit := (w / 0x8000) % 2;
    assert bit == if w >= 0x8000 then 1 else 0;
    assert And(w, 0x8000) == 0x8000 * bit;
  }

  /** `(-x ^ 0xFFFF) + 1`, evaluated on unbounded integers, is `x - 65536` */
  lemma NegXorIdentity(x: int)
    requires 0 < x < 0x1_0000
    ensures Xor(-x, 0xFFFF) + 1 == x - 0x1_0000
  {
    var p := Pow2(16);
    assert p == 0x1_0000 by { Pow2Values(); }
    DivModUnique(-x, p, -1, p - x);
    XorLowMask(-x, 16);
    assert Xor(-x, p - 1) == -p + (p - 1 - (p - x));
  }

  /** The driver's sign conversion of one calibration word:
      `if x & 0x8000: x = (-x ^ 0xFFFF) + 1`.
      On a 16-bit word it is the two's-complement reading; a word without
      bit 15 (in particular anything below 0x8000) is left as it is. */
  function SignFix(x: int): (r: int)
    ensures 0 <= x < 0x1_0000 ==> r == Signed16(x)
    ensures 0 <= x < 0x8000 ==> r == x
  {
    var r := if And(x, 0x8000) != 0 then Xor(-x, 0xFFFF) + 1 else x;
    if 0 <= x < 0x1_0000 then
      SignBitTest(x);
      if x >= 0x8000 then NegXorIdentity(x); r else r
    else
      r
  }

  /** The three raw counts of one measurement */
  datatype RawSample = RawSample(pressure: int, temperature: int, humidity: int)

  /** The 8-byte burst 0xF7..0xFE (pressure msb/lsb/xlsb, temperature
      msb/lsb/xlsb, humidity msb/lsb) decoded into raw counts */
  function Decode(data: seq<Byte>): (raw: RawSample)
    requires |data| == 8
    ensures raw.pressure == (data[0] as int) * 4096 + (data[1] as int) * 16 + data[2] / 16
    ensures raw.temperature == (data[3] as int) * 4096 + (data[4] as int) * 16 + data[5] / 16
    ensures raw.humidity == (data[6] as int) * 256 + data[7]
    ensures 0 <= raw.pressure < 0x10_0000 && 0 <= raw.temperature < 0x10_0000
    ensures 0 <= raw.humidity < 0x1_0000
  {
    RawSample(Raw20(data[0], data[1], data[2]), Raw20(data[3], data[4], data[5]), Pack16(data[6], data[7]))
  }

  /** The low nibble of each xlsb register is not part of the measurement */
  lemma DecodeIgnoresLowNibbles(data: seq<Byte>, p: Byte, t: Byte)
    requires |data| == 8 && p / 16 == data[2] / 16 && t / 16 == data[5] / 16
    ensures Decode(data[2 := p][5 := t]) == Decode(data)
  {
    var d := data[2 := p][5 := t];
    assert d[0] == data[0] && d[1] == data[1] && d[3] == data[3] && d[4] == data[4];
    assert d[6] == data[6] && d[7] == data[7];
  }

  /** The burst `50 3C 20 80 5A 10 63 A2` decodes to 0x503C2, 0x805A1 and 0x63A2 */
  lemma DecodeExample()
    ensures Decode([0x50, 0x3C, 0x20, 0x80, 0x5A, 0x10, 0x63, 0xA2]) == RawSample(0x503C2, 0x805A1, 0x63A2)
  {
  }
}
