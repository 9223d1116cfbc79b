# BME280 driver model

A Dafny model of the `BME280` class in `src/sensor/bosche.py`. This is the
Raspberry Pi driver for Bosch's BME280 temperature, pressure and humidity
sensor. The model covers the work that turns register bytes into values:

- the three control bytes written at start-up, and the order of those writes;
- the calibration load: it reads 25 + 7 trimming bytes, assembles the
  `DIG_T`, `DIG_P` and `DIG_H` words, and applies the two's-complement fix-up
  `(-x ^ 0xFFFF) + 1` over selected index ranges;
- decoding of the 8-byte measurement burst into the raw counts;
- the shared `t_fine` field: `compensate_T` writes it, while `compensate_P`
  and `compensate_H` read it;
- the humidity sentinel and its clamp to [0, 100].

Python's integers are unbounded two's-complement numbers. The module `PyInt`
defines `&`, `|` and `^` on them bit by bit (`Bitwise`), so every shift, mask
and the fix-up expression keep Python's meaning, negative operands included.
`<<` and `>>` are multiplication and floor division by a power of two.

The I2C bus becomes two things. One is a register map `regs` of 256 bytes,
one per register address. The other is a `trace` of the bus operations the
driver issues. A write updates the map; a read returns the byte the map
holds. The sensor changes its data registers between two samples; the model
has the caller assign a new map for that.

Modules, in dependency order:

- `PyInt`: Python's bit operators on unbounded integers, and their algebra.
- `Packing`: the pure expressions. These are byte pairs into words, the
  12-bit nibble fields, control bytes from bit fields, the sign fix-up, and
  the raw-sample decoding.
- `Calibration`: the calibration buffer, word assembly for the three tables,
  and the in-place sign-fix loop.
- `Compensation`: the compensation formulas over `real`, plus the structure
  of one sample and of a run of samples.
- `Bme280`: the driver object as a class. It holds the register map, bus
  trace, calibration buffer, three tables and `t_fine`.

The model follows the code as written. The code differs from the
datasheet's trimming-parameter layout (section 4.2.2 of the BME280
datasheet) in these places:

- The first block is `range(0x88, 0xA1)`. That is 25 registers, 0x88..0xA0,
  so register 0xA1 is never read. `DIG_H[0]` is taken from calibration byte
  24, which is register 0xA0, not 0xA1 (`CalibBytes`, `IgnoresRegisterA1`,
  `DigH`).
- `DIG_T[2]` and `DIG_P[8]` are declared signed by the datasheet, but the
  sign loops `range(1, 2)` and `range(1, 8)` skip them. They keep the unsigned
  value of their byte pair (`DigT`, `DigP`).
- `DIG_H[5]` is declared a signed byte by the datasheet, but it is taken as
  an unsigned byte (`DigH`).
- `DIG_H[3]` and `DIG_H[4]` (the datasheet's dig_H4 and dig_H5) are declared
  signed 12-bit values by the datasheet. The code builds them from nibbles as
  unsigned values in 0..4095, and the `& 0x8000` test of the `range(0, 6)`
  loop can never fire on them, so they stay unsigned (`AssembleH`, `DigH`).
- `read_data` calls `compensate_P` before `compensate_T`. Pressure is
  therefore compensated with the `t_fine` of the previous sample, or with
  0.0 on the first sample (`Sample`, `PressureLagsOneSample`).

## Model

| member | source | states |
|---|---|---|
| PyInt.Bitwise | src/sensor/bosche.py:36-37 | definition, no contract: AND, OR or XOR on unbounded two's-complement integers, bit by bit from the lowest bit, until both operands are 0 or -1 (all sign bits) |
| PyInt.And | src/sensor/bosche.py:96-97 | definition, no contract: Python's `a & b`, via Bitwise |
| PyInt.Or | src/sensor/bosche.py:77-79 | definition, no contract: Python's bitwise OR of a and b, via Bitwise |
| PyInt.Xor | src/sensor/bosche.py:103 | definition, no contract: Python's `a ^ b`, via Bitwise |
| PyInt.Shl | src/sensor/bosche.py:123 | definition, no contract: Python's `a << k`, that is `a * 2^k` |
| PyInt.Shr | src/sensor/bosche.py:97 | definition, no contract: Python's `a >> k`, that is floor division by 2^k |
| PyInt.OrDisjoint | src/sensor/bosche.py:77-79 | OR-ing a value below 2^k into the k clear low bits of `a << k` is the sum `a * 2^k + b` |
| PyInt.AndLowMask | src/sensor/bosche.py:96 | masking with `2^k - 1` gives the remainder modulo 2^k, for negative values too |
| PyInt.AndSingleBit | src/sensor/bosche.py:102 | `x & 2^k` is 2^k when bit k of x is set and 0 otherwise |
| PyInt.XorLowMask | src/sensor/bosche.py:103 | XOR with `2^k - 1` flips the low k bits and keeps every higher bit, for negative x too |
| PyInt.BitwiseCommutes | src/sensor/bosche.py:96 | AND, OR and XOR are commutative, so `0x0F & x` is `x & 0x0F` |
| Packing.Pack16 | src/sensor/bosche.py:77-98 | `hi << 8` OR-ed with `lo` is `hi * 256 + lo`, a 16-bit unsigned word |
| Packing.Pack16Splits | src/sensor/bosche.py:77-98 | the word gives back its pair: the quotient by 256 is `hi` and the remainder is `lo` |
| Packing.Raw20 | src/sensor/bosche.py:123-124 | `msb << 12`, `lsb << 4` and `xlsb >> 4` OR-ed together are `msb * 4096 + lsb * 16 + xlsb / 16`, below 2^20 |
| Packing.ControlByte | src/sensor/bosche.py:36-37 | `high << 5`, `middle << 2` and `low` OR-ed together are `high * 32 + middle * 4 + low` when the fields fit, and a byte when the high field has 3 bits |
| Packing.ControlByteFields | src/sensor/bosche.py:36-37 | a control byte splits back into the three fields it was built from |
| Packing.LowNibbleField | src/sensor/bosche.py:96 | `hi << 4` OR-ed with `0x0F & mixed` is `hi * 16 + mixed % 16`, below 4096 |
| Packing.HighNibbleField | src/sensor/bosche.py:97 | `hi << 4` OR-ed with `(mixed >> 4) & 0x0F` is `hi * 16 + mixed / 16`, below 4096 |
| Packing.SignBitTest | src/sensor/bosche.py:102 | for a 16-bit word, `w & 0x8000` is non-zero exactly when `w >= 0x8000` |
| Packing.NegXorIdentity | src/sensor/bosche.py:103 | on unbounded integers `(-x ^ 0xFFFF) + 1` is `x - 65536` for 0 < x < 65536 |
| Packing.SignFix | src/sensor/bosche.py:101-111 | the fix-up of one element is the two's-complement reading of a 16-bit word, and leaves values below 0x8000 unchanged |
| Packing.Decode | src/sensor/bosche.py:121-125 | the 8-byte burst gives the 20-bit pressure, 20-bit temperature and 16-bit humidity counts, each as plain arithmetic on its bytes and each in range |
| Packing.DecodeIgnoresLowNibbles | src/sensor/bosche.py:123-124 | the low nibbles of the two xlsb bytes do not affect the decoded sample |
| Calibration.CalibBytes | src/sensor/bosche.py:68-72 | the buffer holds exactly 32 bytes: 0x88..0xA0 at indices 0..24, then 0xE1..0xE7 at 25..31; byte 24 is register 0xA0 |
| Calibration.IgnoresRegisterA1 | src/sensor/bosche.py:68 | changing register 0xA1 does not change the calibration buffer |
| Calibration.AssembleT | src/sensor/bosche.py:77-79 | three words, word i being `c[2i+1] * 256 + c[2i]` |
| Calibration.AssembleP | src/sensor/bosche.py:82-90 | nine words, word i being `c[2i+7] * 256 + c[2i+6]` |
| Calibration.AssembleH | src/sensor/bosche.py:93-98 | six words from bytes 24..31 at their irregular offsets; every word except word 1 is below 4096 |
| Calibration.SignFixRange | src/sensor/bosche.py:101-111 | definition, no contract: the list after a sign loop over lo..hi-1, that is SignFix at each index in the range and the old element elsewhere |
| Calibration.FixSigns | src/sensor/bosche.py:101-111 | the index loop equals the fix-up applied to positions lo..hi-1, and every other position is kept |
| Calibration.ExtendTable | src/sensor/bosche.py:77-111 | appending the words and then running the sign loop over lo..hi-1 gives the fix-up of the extended list over that range |
| Calibration.DigT | src/sensor/bosche.py:77-79 | after the `range(1, 2)` loop, word 1 is signed and words 0 and 2 keep their unsigned 16-bit values |
| Calibration.DigP | src/sensor/bosche.py:82-90 | after the `range(1, 8)` loop, words 1..7 are signed and words 0 and 8 keep their unsigned 16-bit values |
| Calibration.DigH | src/sensor/bosche.py:93-111 | the `range(0, 6)` loop changes only word 1; words 0, 2 and 5 stay unsigned bytes and words 3 and 4 stay 12-bit fields |
| Compensation.TFine | src/sensor/bosche.py:175-179 | definition, no contract: the real-valued `v1 + v2` of compensate_T from the raw temperature and DIG_T[0..2] |
| Compensation.PressureOffset | src/sensor/bosche.py:142-145 | definition, no contract: the value v2 of compensate_P from `t_fine` and DIG_P[3..5] |
| Compensation.PressureDivisor | src/sensor/bosche.py:142-149 | definition, no contract: the final v1 of compensate_P from `t_fine` and DIG_P[0..2], the value compared with 0 at line 151 |
| Compensation.Pressure | src/sensor/bosche.py:141-165 | compensate_P returns the integer 0 exactly when its divisor v1 is zero, and a float otherwise |
| Compensation.Clamp | src/sensor/bosche.py:205-208 | the result lies in [0, 100], equals the input inside that range, and is the nearer bound outside it |
| Compensation.Humidity | src/sensor/bosche.py:192-210 | compensate_H returns the integer 0 exactly when `t_fine` is 76800.0, and otherwise a float in [0, 100] |
| Compensation.PressureIgnoresOwnTemperature | src/sensor/bosche.py:127-128 | changing a sample's temperature bytes (burst bytes 3..5) never changes that sample's pressure, because pressure is compensated before compensate_T runs |
| Compensation.NewTFineIgnoresOtherBytes | src/sensor/bosche.py:128 | the `t_fine` a sample leaves behind depends only on its temperature bytes, not on its pressure or humidity bytes |
| Compensation.Sample | src/sensor/bosche.py:121-131 | definition, no contract: one `read_data` call on 8 bytes and the incoming `t_fine`; decode, pressure with the incoming `t_fine`, then the new `t_fine` and temperature, then humidity with the new `t_fine`; also returns the new `t_fine` |
| Compensation.Run | src/sensor/bosche.py:114-131 | definition, no contract: successive `read_data` calls on a list of bursts, each starting from the `t_fine` the previous one left |
| Compensation.PressureLagsOneSample | src/sensor/bosche.py:127-129 | in a run of samples, pressure k uses the `t_fine` of sample k - 1 (the initial value for k = 0) and humidity k uses that of sample k |
| Compensation.RunLength | src/sensor/bosche.py:114-131 | a run yields one result per burst |
| Bme280.InitTraceShape | src/sensor/bosche.py:40-44 | the start-up trace is three writes, then 32 single-byte reads of 0x88..0xA0 and 0xE1..0xE7 in register order |
| Bme280.CalibUnaffectedByControlWrites | src/sensor/bosche.py:40-44 | the three control writes do not change the calibration buffer |
| Bme280.BME280.constructor | src/sensor/bosche.py:22-44 | traces the writes 0xF2 <- 1, 0xF4 <- 0x27 and 0xF5 <- 0xA0 and then the calibration reads; `t_fine` is 0.0 and the tables are DigT, DigP and DigH of the 32 bytes read |
| Bme280.BME280.WriteControlRegisters | src/sensor/bosche.py:36-42 | computes ctrl_meas 0x27 and config 0xA0 from the sampling profile and writes ctrl_hum, ctrl_meas and config in that order |
| Bme280.BME280.WriteRegister | src/sensor/bosche.py:46-50 | one write: the register takes the byte and the write is appended to the trace |
| Bme280.BME280.ReadByte | src/sensor/bosche.py:69 | one read: returns the register's byte, appends the read to the trace and changes nothing else |
| Bme280.BME280.AppendBlock | src/sensor/bosche.py:68-72 | the read loop appends registers lo..hi-1 to `calib` in order, one traced read each |
| Bme280.BME280.ReadCalibBlocks | src/sensor/bosche.py:68-72 | the two loops append exactly the 32 calibration bytes and trace their 32 reads |
| Bme280.BME280.GetCalibParam | src/sensor/bosche.py:53-111 | appends the 32 bytes, and appends the words built from the first 32 bytes of `calib`; the sign loops then run over the resulting lists; `t_fine` and the map are untouched |
| Bme280.BME280.ExtendTables | src/sensor/bosche.py:76-111 | the three tables become the sign fix-up of the old lists extended by the assembled words |
| Bme280.BME280.CompensateT | src/sensor/bosche.py:168-182 | writes `t_fine` as the temperature formula of the calibration and returns `t_fine / 5120` |
| Bme280.BME280.CompensateP | src/sensor/bosche.py:134-165 | reads `t_fine` without changing any state; returns 0 exactly when the divisor is zero |
| Bme280.BME280.CompensateH | src/sensor/bosche.py:185-210 | reads `t_fine` without changing any state; returns 0 exactly at `t_fine` = 76800.0, otherwise a value in [0, 100] |
| Bme280.BME280.BurstRead | src/sensor/bosche.py:121 | reads registers 0xF7..0xFE in order and returns their 8 bytes |
| Bme280.BME280.ReadData | src/sensor/bosche.py:114-131 | one call returns `Sample` of the incoming `t_fine` and the 8 data bytes, and leaves `t_fine` as that sample's new value; only the trace and `t_fine` change |

## Left out

- The smbus2 transport (`smbus.SMBus(1)`, `read_byte_data`, `write_byte_data`) is left out. Bus errors and timing go with it. The bus is the register map plus the trace; the `address` field is stored but not interpreted.
- The `BME280` constructor takes the initial register contents as a parameter, because the model has no sensor behind the bus.
- IEEE-754 arithmetic is not modelled. The compensation formulas are computed over `real`, with no rounding, NaN or infinity. Only their structure is proved: the sentinels, the clamp, and which `t_fine` each step uses.
- Compensation.Pressure does not state the compensated value itself. Its contract is limited to the zero-divisor sentinel, because a floating-point result cannot be stated exactly over `real`.
- Python's int/float distinction is reduced to the two return shapes of the compensations: the integer 0 of a sentinel, or a float.
- `DIG_T`, `DIG_P` and `DIG_H` are module-level lists in the source, shared by every driver object. The model keeps them as fields of a single object, so sharing between several objects is not modelled.
- Within one object, repeated calibration loads are followed as written: the lists keep growing, and the words are built from the first 32 bytes of `calib`.
- The in-place element loops rewrite Python lists. The model writes them as a loop over a `seq` whose result is assigned back to the field, so aliasing of those lists is not modelled.
- The module constants `BME280_REGISTER_DIG_T1`, `BME280_REGISTER_PRESSURE_DATA` and `BME280_REGISTER_HUMIDITY_DATA` are not modelled. The driver never uses them.
- `src/publisher.py`, `src/subscriber.py` and `src/main.py` are not part of this model. They hold MQTT and database glue and the polling loop with its printing.
