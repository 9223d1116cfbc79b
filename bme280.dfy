/**
 The BME280 driver object.

 The I2C bus is replaced by a register map (`regs`, one byte per register
 address) and a trace of the bus operations the driver issues (`trace`).
 A write updates the map; a read returns the byte the map holds.  The
 sensor's own updates of its data registers between two samples are
 modelled by the caller assigning a new map.
 */
module Bme280 {
  import opened Packing
  import opened Calibration
  import opened Compensation

  /** An 8-bit register address */
  type Reg = r: int | 0 <= r < 256

  /** The driver's default 7-bit I2C address */
  const I2cAddress: Reg := 0x76

  const CtrlHumReg: Reg := 0xF2
  const CtrlMeasReg: Reg := 0xF4
  const ConfigReg: Reg := 0xF5
  /** The burst read of the measurement is `range(0xF7, 0xFF)`: registers 0xF7..0xFE */
  const DataStart: Reg := 0xF7
  const DataEnd: int := 0xFF

  datatype BusOp = Read(reg: Reg) | Write(reg: Reg, value: Byte)

  /** Single-byte reads of registers lo, lo + 1, .., hi - 1, in that order */
  function ReadsOf(lo: int, hi: int): (ops: seq<BusOp>)
    requires 0 <= lo <= hi <= 256
    ensures |ops| == hi - lo
    ensures forall i :: 0 <= i < hi - lo ==> ops[i] == Read(lo + i)
  {
    seq(hi - lo, i requires 0 <= i < hi - lo => Read(lo + i))
  }

  lemma ReadsOfExtend(lo: int, hi: int)
    requires 0 <= lo <= hi < 256
    ensures ReadsOf(lo, hi + 1) == ReadsOf(lo, hi) + [Read(hi)]
  {
    assert ReadsOf(lo, hi + 1)[..hi - lo] == ReadsOf(lo, hi);
  }

  /** The reads of a calibration load: 0x88..0xA0, then 0xE1..0xE7 */
  function CalibReads(): seq<BusOp> {
    ReadsOf(FirstBlockStart, FirstBlockEnd) + ReadsOf(SecondBlockStart, SecondBlockEnd)
  }

  /** The writes of initialisation: humidity control, measurement control, config */
  function InitWrites(): seq<BusOp> {
    [Write(CtrlHumReg, 0x01), Write(CtrlMeasReg, 0x27), Write(ConfigReg, 0xA0)]
  }

  class BME280 {
    const address: Reg
    /** The fixed sampling profile: oversampling x1 on all three channels,
        normal mode, 1000 ms standby, filter off, 3-wire SPI off */
    const osrsT: int := 1
    const osrsP: int := 1
    const osrsH: int := 1
    const mode: int := 3
    const tSb: int := 5
    const filter: int := 0
    const spi3wEn: int := 0

    var regs: seq<Byte>
    var trace: seq<BusOp>
    var calib: seq<Byte>
    var digT: seq<int>
    var digP: seq<int>
    var digH: seq<int>
    var tFine: real

    predicate Valid()
      reads this
    {
      |regs| == 256 && |calib| >= 32 && |digT| >= 3 && |digP| >= 9 && |digH| >= 6
    }

    function Calibration(): (t: Tables)
      reads this
      requires Valid()
      ensures t.Complete()
    {
      Tables(digT, digP, digH)
    }

    /** `__init__`: three control writes, then one calibration load.  The
        source's `address` parameter defaults to I2cAddress (0x76); Dafny
        callers pass it explicitly. */
    constructor (address: Reg, regs: seq<Byte>)
      requires |regs| == 256
      ensures Valid()
      ensures this.address == address
      ensures tFine == 0.0
      ensures trace == InitWrites() + CalibReads()
      ensures this.regs == regs[CtrlHumReg := 0x01][CtrlMeasReg := 0x27][ConfigReg := 0xA0]
      ensures calib == CalibBytes(regs)
      ensures digT == DigT(calib) && digP == DigP(calib) && digH == DigH(calib)
    {
      this.address := address;
      this.regs := regs;
      trace := [];
      calib := [];
      digT, digP, digH := [], [], [];
      tFine := 0.0;
      new;
      WriteControlRegisters();
      ghost var initTrace := trace;
      assert initTrace == InitWrites();
      ghost var written := this.regs;
      assert written == regs[CtrlHumReg := 0x01][CtrlMeasReg := 0x27][ConfigReg := 0xA0];
      CalibUnaffectedByControlWrites(regs);
      assert CalibBytes(written) == CalibBytes(regs);
      assert calib == [] && digT == [] && digP == [] && digH == [];
      GetCalibParam();
      assert this.regs == written;
      assert calib == [] + CalibBytes(written);
      assert trace == initTrace + CalibReads();
      assert digT == SignFixRange([] + AssembleT(calib), 1, 2);
      TablesFromEmpty(calib);
      assert digT == DigT(calib);
      assert digP == DigP(calib);
      assert digH == DigH(calib);
    }

    /** The three writes of `__init__`: ctrl_hum, then ctrl_meas and config
        built from the sampling profile's bit fields */
    method WriteControlRegisters()
      requires |regs| == 256
      modifies this
      ensures regs == old(regs)[CtrlHumReg := 0x01][CtrlMeasReg := 0x27][ConfigReg := 0xA0]
      ensures trace == old(trace) + InitWrites()
      ensures calib == old(calib) && digT == old(digT) && digP == old(digP) && digH == old(digH)
      ensures tFine == old(tFine)
    {
      var ctrlMeas := ControlByte(osrsT, osrsP, mode);
      var config := ControlByte(tSb, filter, spi3wEn);
      var ctrlHum := osrsH;
      assert ctrlMeas == 0x27 && config == 0xA0;
      ghost var t0 := trace;
      WriteRegister(CtrlHumReg, ctrlHum);
      WriteRegister(CtrlMeasReg, ctrlMeas);
      WriteRegister(ConfigReg, config);
      AppendThree(t0, Write(CtrlHumReg, ctrlHum), Write(CtrlMeasReg, ctrlMeas), Write(ConfigReg, config));
    }

    /** `write_register`: one single-byte bus write */
    method WriteRegister(reg: Reg, data: Byte)
      requires |regs| == 256
      modifies this
      ensures regs == old(regs)[reg := data]
      ensures trace == old(trace) + [Write(reg, data)]
      ensures calib == old(calib) && digT == old(digT) && digP == old(digP) && digH == old(digH)
      ensures tFine == old(tFine)
    {
      regs := regs[reg := data];
      trace := trace + [Write(reg, data)];
    }

    /** One single-byte bus read */
    method ReadByte(reg: Reg) returns (b: Byte)
      requires |regs| == 256
      modifies this
      ensures regs == old(regs) && calib == old(calib)
      ensures b == regs[reg]
      ensures trace == old(trace) + [Read(reg)]
      ensures digT == old(digT) && digP == old(digP) && digH == old(digH)
      ensures tFine == old(tFine)
    {
      b := regs[reg];
      trace := trace + [Read(reg)];
    }

    /** One of the loops `for i in range(lo, hi): self.calib.append(<read of i>)` */
    method AppendBlock(lo: Reg, hi: int)
      requires lo <= hi <= 256 && |regs| == 256
      modifies this
      ensures regs == old(regs) && tFine == old(tFine)
      ensures digT == old(digT) && digP == old(digP) && digH == old(digH)
      ensures calib == old(calib) + regs[lo..hi]
      ensures trace == old(trace) + ReadsOf(lo, hi)
    {
      var i: int := lo;
      while i < hi
        invariant lo <= i <= hi
        invariant regs == old(regs) && tFine == old(tFine)
        invariant digT == old(digT) && digP == old(digP) && digH == old(digH)
        invariant calib == old(calib) + regs[lo..i]
        invariant trace == old(trace) + ReadsOf(lo, i)
      {
        var b := ReadByte(i);
        calib := calib + [b];
        ReadsOfExtend(lo, i);
        i := i + 1;
      }
    }

    /** The two read loops of `get_calib_param`: 0x88..0xA0, then 0xE1..0xE7 */
    method ReadCalibBlocks()
      requires |regs| == 256
      modifies this
      ensures regs == old(regs) && tFine == old(tFine)
      ensures digT == old(digT) && digP == old(digP) && digH == old(digH)
      ensures calib == old(calib) + CalibBytes(regs)
      ensures trace == old(trace) + CalibReads()
    {
      AppendBlock(FirstBlockStart, FirstBlockEnd);
      ghost var mid := calib;
      ghost var midTrace := trace;
      AppendBlock(SecondBlockStart, SecondBlockEnd);
      assert calib == mid + regs[SecondBlockStart..SecondBlockEnd];
      assert calib == old(calib) + (regs[FirstBlockStart..FirstBlockEnd] + regs[SecondBlockStart..SecondBlockEnd]);
      assert trace == midTrace + ReadsOf(SecondBlockStart, SecondBlockEnd);
      assert trace == old(trace) + (ReadsOf(FirstBlockStart, FirstBlockEnd) + ReadsOf(SecondBlockStart, SecondBlockEnd));
    }

    /** `get_calib_param`: 32 bytes read into `calib`, 3 + 9 + 6 words appended
        to the tables, then the sign conversion over index ranges 1..1, 1..7
        and 0..5 of the tables.  The words come from the first 32 bytes of
        `calib`, so a second call appends words built from the first call's bytes. */
    method GetCalibParam()
      requires |regs| == 256
      modifies this
      ensures regs == old(regs) && tFine == old(tFine)
      ensures trace == old(trace) + CalibReads()
      ensures calib == old(calib) + CalibBytes(regs)
      ensures digT == SignFixRange(old(digT) + AssembleT(calib), 1, 2)
      ensures digP == SignFixRange(old(digP) + AssembleP(calib), 1, 8)
      ensures digH == SignFixRange(old(digH) + AssembleH(calib), 0, 6)
    {
      ReadCalibBlocks();
      ExtendTables(calib);
    }

    /** The appends and sign-conversion loops of `get_calib_param`, over `calib` as it stands */
    method ExtendTables(c: seq<Byte>)
      requires |c| >= 32
      modifies this`digT, this`digP, this`digH
      ensures digT == SignFixRange(old(digT) + AssembleT(c), 1, 2)
      ensures digP == SignFixRange(old(digP) + AssembleP(c), 1, 8)
      ensures digH == SignFixRange(old(digH) + AssembleH(c), 0, 6)
    {
      digT := ExtendTable(digT, AssembleT(c), 1, 2);
      digP := ExtendTable(digP, AssembleP(c), 1, 8);
      digH := ExtendTable(digH, AssembleH(c), 0, 6);
    }

    /** `compensate_T`: the only writer of t_fine */
    method CompensateT(adcT: int) returns (temperature: real)
      requires Valid()
      modifies this
      ensures regs == old(regs) && trace == old(trace) && calib == old(calib)
      ensures digT == old(digT) && digP == old(digP) && digH == old(digH)
      ensures Valid()
      ensures tFine == TFine(adcT, digT)
      ensures temperature == tFine / 5120.0
    {
      tFine := TFine(adcT, digT);
      temperature := tFine / 5120.0;
    }

    /** `compensate_P`: reads t_fine as it stands, changes nothing */
    method CompensateP(adcP: int) returns (pressure: Num)
      requires Valid()
      ensures pressure == Pressure(tFine, digP, adcP)
      ensures pressure.Int? <==> PressureDivisor(tFine, digP) == 0.0
    {
      pressure := Pressure(tFine, digP, adcP);
    }

    /** `compensate_H`: reads t_fine as it stands, changes nothing */
    method CompensateH(adcH: int) returns (humidity: Num)
      requires Valid()
      ensures humidity == Humidity(tFine, digH, adcH)
      ensures humidity.Int? <==> tFine == 76800.0
      ensures humidity.Float? ==> 0.0 <= humidity.x <= 100.0
    {
      humidity := Humidity(tFine, digH, adcH);
    }

    /** The list comprehension of `read_data`: one read of each register 0xF7..0xFE */
    method BurstRead() returns (data: seq<Byte>)
      requires Valid()
      modifies this
      ensures regs == old(regs) && calib == old(calib) && tFine == old(tFine)
      ensures digT == old(digT) && digP == old(digP) && digH == old(digH)
      ensures Valid()
      ensures data == regs[DataStart..DataEnd]
      ensures trace == old(trace) + ReadsOf(DataStart, DataEnd)
    {
      data := [];
      var i := DataStart as int;
      while i < DataEnd
        invariant DataStart <= i <= DataEnd
        invariant regs == old(regs) && calib == old(calib) && tFine == old(tFine)
        invariant digT == old(digT) && digP == old(digP) && digH == old(digH)
        invariant data == regs[DataStart..i]
        invariant trace == old(trace) + ReadsOf(DataStart, i)
      {
        var b := ReadByte(i);
        data := data + [b];
        ReadsOfExtend(DataStart, i);
        i := i + 1;
      }
    }

    /** `read_data`: burst read of 0xF7..0xFE, decoding, then compensate_P,
        compensate_T and compensate_H in that order */
    method ReadData() returns (pressure: Num, temperature: real, humidity: Num)
      requires Valid()
      modifies this
      ensures regs == old(regs) && calib == old(calib)
      ensures digT == old(digT) && digP == old(digP) && digH == old(digH)
      ensures Valid()
      ensures trace == old(trace) + ReadsOf(DataStart, DataEnd)
      ensures (Telemetry(pressure, temperature, humidity), tFine) ==
              Sample(old(tFine), Calibration(), regs[DataStart..DataEnd])
    {
      var data := BurstRead();
      var raw := Decode(data);
      pressure := CompensateP(raw.pressure);
      temperature := CompensateT(raw.temperature);
      humidity := CompensateH(raw.humidity);
    }
  }

  /** Three appends of one operation each are one append of all three */
  lemma AppendThree(t: seq<BusOp>, a: BusOp, b: BusOp, c: BusOp)
    ensures t + [a] + [b] + [c] == t + [a, b, c]
  {
  }

  /** Appending the assembled words to the empty lists gives the tables */
  lemma TablesFromEmpty(c: seq<Byte>)
    requires |c| >= 32
    ensures SignFixRange([] + AssembleT(c), 1, 2) == DigT(c)
    ensures SignFixRange([] + AssembleP(c), 1, 8) == DigP(c)
    ensures SignFixRange([] + AssembleH(c), 0, 6) == DigH(c)
  {
    assert [] + AssembleT(c) == AssembleT(c);
    assert [] + AssembleP(c) == AssembleP(c);
    assert [] + AssembleH(c) == AssembleH(c);
  }

  /** The control registers lie outside both calibration blocks */
  lemma CalibUnaffectedByControlWrites(regs: seq<Byte>)
    requires |regs| == 256
    ensures CalibBytes(regs[CtrlHumReg := 0x01][CtrlMeasReg := 0x27][ConfigReg := 0xA0]) == CalibBytes(regs)
  {
    var written := regs[CtrlHumReg := 0x01][CtrlMeasReg := 0x27][ConfigReg := 0xA0];
    assert forall i :: 0 <= i < 32 ==> CalibBytes(written)[i] == CalibBytes(regs)[i];
  }

  /** Initialisation issues exactly three writes, before any read, with the
      control bytes of the fixed profile, and then reads 0x88..0xA0 and
      0xE1..0xE7 one register at a time */
  lemma InitTraceShape()
    ensures |InitWrites() + CalibReads()| == 3 + 25 + 7
    ensures forall k :: 0 <= k < 3 ==> (InitWrites() + CalibReads())[k].Write?
    ensures forall k :: 3 <= k < 35 ==> (InitWrites() + CalibReads())[k].Read?
    ensures forall k :: 3 <= k < 28 ==> (InitWrites() + CalibReads())[k] == Read(0x88 + (k - 3))
    ensures forall k :: 28 <= k < 35 ==> (InitWrites() + CalibReads())[k] == Read(0xE1 + (k - 28))
  {
    var first, second := ReadsOf(FirstBlockStart, FirstBlockEnd), ReadsOf(SecondBlockStart, SecondBlockEnd);
    var t := InitWrites() + (first + second);
    assert forall k :: 3 <= k < 28 ==> t[k] == first[k - 3];
    assert forall k :: 28 <= k < 35 ==> t[k] == second[k - 28];
  }
}
