/**
 The factory calibration of the BME280 as the driver builds it: the byte
 buffer read from the two trimming-parameter blocks, the 3 temperature,
 9 pressure and 6 humidity words assembled from fixed offsets of that
 buffer, and the sign conversion applied to selected index ranges.

 Everything here follows the driver's code, which differs from the
 datasheet's layout in five places: register 0xA1 is never read
 (CalibBytes), DIG_T[2] and DIG_P[8] stay unsigned (DigT, DigP), DIG_H[3]
 and DIG_H[4] are unsigned 12-bit fields (AssembleH, DigH), and DIG_H[5]
 is an unsigned byte (DigH).
 */
module Calibration {
  import opened Packing

  /** The driver's first block is `range(0x88, 0xA1)`: registers 0x88..0xA0, 25 bytes */
  const FirstBlockStart: int := 0x88
  const FirstBlockEnd: int := 0xA1
  /** The second block is `range(0xE1, 0xE8)`: registers 0xE1..0xE7, 7 bytes */
  const SecondBlockStart: int := 0xE1
  const SecondBlockEnd: int := 0xE8

  /** The calibration buffer: the first block, then the second, in register order */
  function CalibBytes(regs: seq<Byte>): (c: seq<Byte>)
    requires |regs| == 256
    ensures |c| == 25 + 7
    ensures forall i :: 0 <= i < 25 ==> c[i] == regs[0x88 + i]
    ensures forall i :: 25 <= i < 32 ==> c[i] == regs[0xE1 + (i - 25)]
    ensures c[24] == regs[0xA0]
  {
    regs[FirstBlockStart..FirstBlockEnd] + regs[SecondBlockStart..SecondBlockEnd]
  }

  /** The three temperature words, before sign conversion: pairs (c[1], c[0]), (c[3], c[2]), (c[5], c[4]) */
  function AssembleT(c: seq<Byte>): (w: seq<int>)
    requires |c| >= 32
    ensures |w| == 3
    ensures forall i :: 0 <= i < 3 ==> w[i] == (c[2 * i + 1] as int) * 256 + c[2 * i]
  {
    seq(3, i requires 0 <= i < 3 => Pack16(c[2 * i + 1], c[2 * i]))
  }

  /** The nine pressure words, before sign conversion: pairs (c[7], c[6]) .. (c[23], c[22]) */
  function AssembleP(c: seq<Byte>): (w: seq<int>)
    requires |c| >= 32
    ensures |w| == 9
    ensures forall i :: 0 <= i < 9 ==> w[i] == (c[2 * i + 7] as int) * 256 + c[2 * i + 6]
  {
    seq(9, i requires 0 <= i < 9 => Pack16(c[2 * i + 7], c[2 * i + 6]))
  }

  /** The six humidity words, before sign conversion, from their irregular offsets */
  function AssembleH(c: seq<Byte>): (w: seq<int>)
    requires |c| >= 32
    ensures |w| == 6
    ensures w[0] == c[24] && w[2] == c[27] && w[5] == c[31]
    ensures w[1] == (c[26] as int) * 256 + c[25]
    ensures w[3] == (c[28] as int) * 16 + c[29] % 16 && w[4] == (c[30] as int) * 16 + c[29] / 16
    ensures forall i :: 0 <= i < 6 && i != 1 ==> 0 <= w[i] < 0x1000
  {
    [c[24], Pack16(c[26], c[25]), c[27], LowNibbleField(c[28], c[29]), HighNibbleField(c[30], c[29]), c[31]]
  }

  /** The list after the loop `for i in range(lo, hi): s[i] = SignFix(s[i])` */
  function SignFixRange(s: seq<int>, lo: nat, hi: nat): seq<int>
    requires lo <= hi <= |s|
  {
    seq(|s|, i requires 0 <= i < |s| => if lo <= i < hi then SignFix(s[i]) else s[i])
  }

  /** The loop itself, rewriting one element at a time */
  method FixSigns(s: seq<int>, lo: nat, hi: nat) returns (r: seq<int>)
    requires lo <= hi <= |s|
    ensures r == SignFixRange(s, lo, hi)
    ensures forall i :: 0 <= i < |s| && !(lo <= i < hi) ==> r[i] == s[i]
  {
    r := s;
    var i := lo;
    while i < hi
      invariant lo <= i <= hi
      invariant |r| == |s|
      invariant forall j :: 0 <= j < |s| ==> r[j] == if lo <= j < i then SignFix(s[j]) else s[j]
    {
      r := r[i := SignFix(r[i])];
      i := i + 1;
    }
  }

  /** `s.append(w)` for each assembled word, then the sign-conversion loop over lo..hi-1 */
  method ExtendTable(s: seq<int>, words: seq<int>, lo: nat, hi: nat) returns (r: seq<int>)
    requires lo <= hi <= |s| + |words|
    ensures r == SignFixRange(s + words, lo, hi)
  {
    r := FixSigns(s + words, lo, hi);
  }

  /** DIG_T: only word 1 is sign-converted (`range(1, 2)`); word 2 keeps its
      unsigned value although the datasheet declares it signed */
  function DigT(c: seq<Byte>): (t: seq<int>)
    requires |c| >= 32
    ensures |t| == 3
    ensures t[0] == (c[1] as int) * 256 + c[0] && 0 <= t[0] < 0x1_0000
    ensures t[1] == Signed16((c[3] as int) * 256 + c[2]) && -0x8000 <= t[1] < 0x8000
    ensures t[2] == (c[5] as int) * 256 + c[4] && 0 <= t[2] < 0x1_0000
  {
    SignFixRange(AssembleT(c), 1, 2)
  }

  /** DIG_P: words 1..7 are sign-converted (`range(1, 8)`); words 0 and 8 keep
      their unsigned values (the datasheet declares word 8 signed) */
  function DigP(c: seq<Byte>): (p: seq<int>)
    requires |c| >= 32
    ensures |p| == 9
    ensures p[0] == (c[7] as int) * 256 + c[6] && 0 <= p[0] < 0x1_0000
    ensures forall i :: 1 <= i < 8 ==> p[i] == Signed16((c[2 * i + 7] as int) * 256 + c[2 * i + 6])
    ensures forall i :: 1 <= i < 8 ==> -0x8000 <= p[i] < 0x8000
    ensures p[8] == (c[23] as int) * 256 + c[22] && 0 <= p[8] < 0x1_0000
  {
    SignFixRange(AssembleP(c), 1, 8)
  }

  /** DIG_H: the conversion runs over all six words (`range(0, 6)`) but only
      word 1 can have bit 15 set, so only word 1 changes.  Words 3 and 4 stay
      unsigned 12-bit values and word 5 an unsigned byte, although the
      datasheet declares all three signed */
  function DigH(c: seq<Byte>): (h: seq<int>)
    requires |c| >= 32
    ensures |h| == 6
    ensures forall i :: 0 <= i < 6 && i != 1 ==> h[i] == AssembleH(c)[i]
    ensures h[0] == c[24] && h[2] == c[27] && h[5] == c[31]
    ensures h[1] == Signed16((c[26] as int) * 256 + c[25])
    ensures h[3] == (c[28] as int) * 16 + c[29] % 16 && h[4] == (c[30] as int) * 16 + c[29] / 16
  {
    SignFixRange(AssembleH(c), 0, 6)
  }

  /** Register 0xA1, where the datasheet puts dig_H1, is never read */
  lemma IgnoresRegisterA1(regs: seq<Byte>, v: Byte)
    requires |regs| == 256
    ensures CalibBytes(regs[0xA1 := v]) == CalibBytes(regs)
  {
    var c, c' := CalibBytes(regs), CalibBytes(regs[0xA1 := v]);
    assert forall i :: 0 <= i < 32 ==> c'[i] == c[i];
  }
}
