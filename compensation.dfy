/**
 The compensation formulas of the driver (the datasheet's floating-point
 formulas), over `real`.  Only their structure is modelled with care:
 the sentinel returns, the humidity clamp, and which value of the shared
 `t_fine` each step reads or produces.
 */
module Compensation {
  import opened Packing

  /** A Python number as a compensation step returns it: the integer 0 of a
      sentinel path, or a float (modelled as a real) */
  datatype Num = Int(i: int) | Float(x: real)

  /** The calibration tables DIG_T, DIG_P and DIG_H */
  datatype Tables = Tables(digT: seq<int>, digP: seq<int>, digH: seq<int>) {
    predicate Complete() {
      |digT| >= 3 && |digP| >= 9 && |digH| >= 6
    }
  }

  /** Three compensated values, in the order `read_data` returns them */
  datatype Telemetry = Telemetry(pressure: Num, temperature: real, humidity: Num)

  /** The value compensate_T stores in t_fine */
  function TFine(adcT: int, digT: seq<int>): real
    requires |digT| >= 3
  {
    var v1 := (adcT as real / 16384.0 - digT[0] as real / 1024.0) * digT[1] as real;
    var v2 := (adcT as real / 131072.0 - digT[0] as real / 8192.0) *
              (adcT as real / 131072.0 - digT[0] as real / 8192.0) * digT[2] as real;
    v1 + v2
  }

  /** The value v2 of compensate_P before the division (an offset built from DIG_P[3..5]) */
  function PressureOffset(tFine: real, digP: seq<int>): real
    requires |digP| >= 9
  {
    var v1 := tFine / 2.0 - 64000.0;
    var v2 := ((v1 / 4.0) * (v1 / 4.0)) / 2048.0 * digP[5] as real;
    var v2' := v2 + (v1 * digP[4] as real) * 2.0;
    v2' / 4.0 + digP[3] as real * 65536.0
  }

  /** The value v1 of compensate_P that the pressure is divided by */
  function PressureDivisor(tFine: real, digP: seq<int>): real
    requires |digP| >= 9
  {
    var v1 := tFine / 2.0 - 64000.0;
    var v1' := ((digP[2] as real * (((v1 / 4.0) * (v1 / 4.0)) / 8192.0)) / 8.0 +
                (digP[1] as real * v1) / 2.0) / 262144.0;
    ((32768.0 + v1') * digP[0] as real) / 32768.0
  }

  /** compensate_P: the integer 0 exactly when the divisor is zero, a float otherwise */
  function Pressure(tFine: real, digP: seq<int>, adcP: int): (r: Num)
    requires |digP| >= 9
    ensures r.Int? <==> PressureDivisor(tFine, digP) == 0.0
    ensures r.Int? ==> r.i == 0
  {
    var v1 := PressureDivisor(tFine, digP);
    if v1 == 0.0 then
      Int(0)
    else
      var p0 := ((1048576 - adcP) as real - PressureOffset(tFine, digP) / 4096.0) * 3125.0;
      var p1 := if p0 < 0x8000_0000 as real then (p0 * 2.0) / v1 else (p0 / v1) * 2.0;
      var w1 := (digP[8] as real * (((p1 / 8.0) * (p1 / 8.0)) / 8192.0)) / 4096.0;
      var w2 := ((p1 / 4.0) * digP[7] as real) / 8192.0;
      Float((p1 + (w1 + w2 + digP[6] as real) / 16.0) / 100.0)
  }

  /** The final saturation of the humidity to [0, 100] */
  function Clamp(v: real): (r: real)
    ensures 0.0 <= r <= 100.0
    ensures 0.0 <= v <= 100.0 ==> r == v
    ensures v > 100.0 ==> r == 100.0
    ensures v < 0.0 ==> r == 0.0
  {
    if v > 100.0 then 100.0 else if v < 0.0 then 0.0 else v
  }

  /** compensate_H: the integer 0 exactly when t_fine is 76800, otherwise a float in [0, 100] */
  function Humidity(tFine: real, digH: seq<int>, adcH: int): (r: Num)
    requires |digH| >= 6
    ensures r.Int? <==> tFine == 76800.0
    ensures r.Int? ==> r.i == 0
    ensures r.Float? ==> 0.0 <= r.x <= 100.0
  {
    var varH := tFine - 76800.0;
    if varH != 0.0 then
      var h1 := (adcH as real - (digH[3] as real * 64.0 + digH[4] as real / 16384.0 * varH)) *
                (digH[1] as real / 65536.0 *
                 (1.0 + digH[5] as real / 67108864.0 * varH * (1.0 + digH[2] as real / 67108864.0 * varH)));
      var h2 := h1 * (1.0 - digH[0] as real * h1 / 524288.0);
      Float(Clamp(h2))
    else
      Int(0)
  }

  /** What one `read_data` call computes from its 8 bytes and the t_fine held
      before the call: pressure first (with that old t_fine), then
      temperature (which produces the new t_fine), then humidity (with the
      new one).  The second component is the new t_fine. */
  function Sample(tFine: real, tables: Tables, data: seq<Byte>): (Telemetry, real)
    requires tables.Complete() && |data| == 8
  {
    var raw := Decode(data);
    var pressure := Pressure(tFine, tables.digP, raw.pressure);
    var tFine' := TFine(raw.temperature, tables.digT);
    var temperature := tFine' / 5120.0;
    var humidity := Humidity(tFine', tables.digH, raw.humidity);
    (Telemetry(pressure, temperature, humidity), tFine')
  }

  /** Because pressure is compensated before temperature, a sample's
      pressure does not depend on that sample's own temperature bytes
      (0xFA..0xFC): they only reach the t_fine of the next sample */
  lemma PressureIgnoresOwnTemperature(tFine: real, tables: Tables, data: seq<Byte>, a: Byte, b: Byte, c: Byte)
    requires tables.Complete() && |data| == 8
    ensures Sample(tFine, tables, data[3 := a][4 := b][5 := c]).0.pressure == Sample(tFine, tables, data).0.pressure
  {
    var d := data[3 := a][4 := b][5 := c];
    assert d[0] == data[0] && d[1] == data[1] && d[2] == data[2];
  }

  /** The t_fine a sample leaves behind depends on its temperature bytes
      only, not on its pressure or humidity bytes */
  lemma NewTFineIgnoresOtherBytes(tFine: real, tables: Tables, data: seq<Byte>, p0: Byte, p1: Byte, p2: Byte, h0: Byte, h1: Byte)
    requires tables.Complete() && |data| == 8
    ensures Sample(tFine, tables, data[0 := p0][1 := p1][2 := p2][6 := h0][7 := h1]).1 == Sample(tFine, tables, data).1
  {
    var d := data[0 := p0][1 := p1][2 := p2][6 := h0][7 := h1];
    assert d[3] == data[3] && d[4] == data[4] && d[5] == data[5];
  }

  predicate AllBursts(bursts: seq<seq<Byte>>) {
    forall k :: 0 <= k < |bursts| ==> |bursts[k]| == 8
  }

  /** The results of successive `read_data` calls on the given bursts, starting from t_fine = tFine */
  function Run(tFine: real, tables: Tables, bursts: seq<seq<Byte>>): seq<Telemetry>
    requires tables.Complete() && AllBursts(bursts)
    decreases |bursts|
  {
    if bursts == [] then []
    else
      var (out, tFine') := Sample(tFine, tables, bursts[0]);
      [out] + Run(tFine', tables, bursts[1..])
  }

  /** The t_fine that sample k of a run starts from: the initial one for the
      first sample, and for every later one the t_fine of the sample before */
  function TFineBefore(tFine: real, tables: Tables, bursts: seq<seq<Byte>>, k: nat): real
    requires tables.Complete() && AllBursts(bursts) && k < |bursts|
  {
    if k == 0 then tFine else TFine(Decode(bursts[k - 1]).temperature, tables.digT)
  }

  /** Because `read_data` compensates pressure before temperature, the
      pressure of sample k is computed with the t_fine of sample k - 1 (the
      initial t_fine for k == 0), while its humidity uses the t_fine of
      sample k itself */
  lemma {:induction false} PressureLagsOneSample(tFine: real, tables: Tables, bursts: seq<seq<Byte>>, k: nat)
    requires tables.Complete() && AllBursts(bursts) && k < |bursts|
    ensures |Run(tFine, tables, bursts)| == |bursts|
    ensures Run(tFine, tables, bursts)[k].pressure ==
            Pressure(TFineBefore(tFine, tables, bursts, k), tables.digP, Decode(bursts[k]).pressure)
    ensures Run(tFine, tables, bursts)[k].humidity ==
            Humidity(TFine(Decode(bursts[k]).temperature, tables.digT), tables.digH, Decode(bursts[k]).humidity)
    decreases k
  {
    var tFine' := Sample(tFine, tables, bursts[0]).1;
    if k == 0 {
      RunLength(tFine', tables, bursts[1..]);
    } else {
      PressureLagsOneSample(tFine', tables, bursts[1..], k - 1);
      assert bursts[1..][k - 1] == bursts[k];
      if k >= 2 {
        assert bursts[1..][k - 2] == bursts[k - 1];
      }
    }
  }

  lemma {:induction false} RunLength(tFine: real, tables: Tables, bursts: seq<seq<Byte>>)
    requires tables.Complete() && AllBursts(bursts)
    ensures |Run(tFine, tables, bursts)| == |bursts|
    decreases |bursts|
  {
    if bursts != [] {
      RunLength(Sample(tFine, tables, bursts[0]).1, tables, bursts[1..]);
    }
  }
}
