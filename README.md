# BME280 driver model

A Dafny model of `bme280.py`, a small Python driver for the Bosch BME280
temperature, humidity and pressure sensor on an I²C bus. The driver:

- starts one forced conversion;
- polls the ctrl_meas register (0xF4) until the "measuring" bit clears;
- reads the factory trimming words and the raw samples one byte at a time;
- turns them into degrees Celsius, percent relative humidity and pascals.

The model has five modules.

- `Bits`: Python's `<<`, `>>`, `&` and `|` on non-negative integers. The
  integers are arbitrary-precision, as in Python, with no width and no
  wrap-around. The lemmas give masks and disjoint ors in closed form.
- `Codec`: the integer decoders the driver writes with those operators:
  - `int.from_bytes(..., 'little', signed=...)` for the 16-bit and 8-bit
    trimming words;
  - the two 12-bit humidity fields H4 and H5, packed around register 0xE5;
  - the 20-bit temperature and pressure samples and the 16-bit humidity
    sample.

  Each decoder is written with the driver's own shifts and masks. Lemmas
  give its closed form, its range and the known answers.
- `Compensation`: the compensation formulas over `real`. What is claimed is
  their structure:
  - t_fine vanishes at the T1 reading;
  - humidity returns the sentinel 0 when `t_fine == 76800`, and its result
    is clamped to [0, 100];
  - pressure returns the sentinel 0 when its stage-one denominator is 0, and
    otherwise divides by that nonzero value.
- `Bus`: the bus as a class `SimBus`. Its answers to single-byte reads are a
  fixed script, consumed in order, and every transfer is appended to a log.
- `Bme280`: the driver's functions as methods on a `SimBus`:
  - the forced-conversion poll loop, a `while` loop whose `decreases` is the
    number of answers left;
  - the three readers, as straight-line sequences of reads.

  Each method states the exact log of register accesses it produces. It
  also states its result in terms of the decoders and formulas above.

## Model

| member | source | states |
|---|---|---|
| Bus.SimBus.ReadByteData | bme280.py:38 | a read returns the next scripted answer, advances the cursor by one and logs exactly that read |
| Bus.SimBus.WriteByteData | bme280.py:35 | a write consumes no answer and logs exactly that write |
| Codec.FromBytesRange | bme280.py:49-51 | `from_bytes` of n > 0 bytes lies in [0, 2^(8n)) unsigned and in [-2^(8n-1), 2^(8n-1)) signed |
| Codec.U16LEValue | bme280.py:49 | the unsigned little-endian word is lo + 256·hi, within [0, 65535] |
| Codec.I16LEValue | bme280.py:50-51 | the signed word is lo + 256·hi, minus 65536 exactly when hi ≥ 0x80; it lies within [-32768, 32767] |
| Codec.I16LEKnownAnswers | bme280.py:50-51 | (0xFF, 0xFF) decodes to -1, (0x00, 0x80) to -32768 and (0x01, 0x00) to 1 |
| Codec.I8Value | bme280.py:81 | the signed byte is b - 256 when b ≥ 0x80 and b otherwise; it lies within [-128, 127] |
| Codec.Raw20Value | bme280.py:57 | the 20-bit sample is msb·4096 + lsb·16 + xlsb/16; only the high nibble of xlsb is used, and the sample is below 2^20 |
| Codec.Raw20KnownAnswer | bme280.py:134 | bytes 0x12, 0x34, 0x50 assemble to 0x12345; pressure uses the same rule as temperature |
| Codec.Raw16Value | bme280.py:85 | the humidity sample is msb·256 + lsb, at most 0xFFFF, with no xlsb byte |
| Codec.H4LowByte | bme280.py:72 | the low byte handed to `from_bytes` for H4 is the low nibble of 0xE5 moved to the top, a multiple of 16 |
| Codec.H4ClosedForm | bme280.py:72-74 | H4 is exactly the sign-extended 12-bit value E4·16 + (E5 mod 16), an integer in [-2048, 2047] |
| Codec.HighNibble | bme280.py:76 | masking a byte with 0xF0 keeps its high nibble in place |
| Codec.H5Bytes | bme280.py:75-78 | the two bytes for H5 are the high nibbles of 0xE5 and 0xE6 joined, and the low nibble of 0xE6 moved up (zero low nibble); both are bytes |
| Codec.H5ClosedForm | bme280.py:75-79 | H5 as the code computes it is exactly the sign-extended 12-bit value (E5 div 16)·256 + E6, an integer in [-2048, 2047] |
| Codec.H5DatasheetClosedForm | bme280.py:75-79 | the datasheet layout decodes to the sign-extended 12-bit value E6·16 + E5 div 16 |
| Codec.H5DiffersFromDatasheet | bme280.py:75-79 | with E5 = 0x20 and E6 = 0x03 the datasheet gives H5 = 50 and the code gives 515 |
| Codec.H6Value | bme280.py:80-81 | H6 is register 0xE7 as a signed byte, within [-128, 127] |
| Compensation.FineTemperatureZeroAtT1 | bme280.py:59-61 | at the raw reading 16·T1, t_fine is 0 for any T2 and T3 |
| Compensation.ClampPercent | bme280.py:93-96 | the clamp result is in [0, 100]; values inside are kept, values above become 100 and values below become 0 |
| Compensation.ClampPercentIdempotent | bme280.py:93-96 | clamping twice is clamping once |
| Compensation.Humidity | bme280.py:87-97 | t_fine = 76800 gives exactly 0; any other t_fine gives the clamped polynomial; the result is always within [0, 100] |
| Compensation.HumidityZeroH2 | bme280.py:89-92 | with H2 = 0 the humidity is 0 whatever the other inputs are |
| Compensation.Pressure | bme280.py:142-151 | a zero stage-one denominator gives exactly 0; otherwise the result is the refined quotient by that nonzero denominator |
| Compensation.PressureDenominatorZero | bme280.py:140-141 | the denominator is 0 exactly when P1 = 0 or the P2/P3 correction equals -32768 |
| Compensation.PressureZeroP1 | bme280.py:141-147 | a part whose P1 word is 0 always yields the sentinel 0 |
| Bme280.SetNormalMode | bme280.py:31-32 | exactly one write of 0x27 to 0xF4; no answer consumed |
| Bme280.BusyBit | bme280.py:38 | `status & 0x02` is nonzero exactly when bit 1 of the status byte is set |
| Bme280.PollCount | bme280.py:36-38 | the number of polls is at least 1 and within the script; the last status polled is clear and every earlier one busy |
| Bme280.PollCountExact | bme280.py:36-38 | N busy answers followed by a clear one give exactly N + 1 polls |
| Bme280.PollLogContents | bme280.py:35-38 | the poll log keeps the earlier log and adds one read of 0xF4 per poll, with the answers in order |
| Bme280.PollAdvance | bme280.py:37-38 | after a busy answer the loop goes on with one more poll counted; after a clear answer it stops at exactly the count |
| Bme280.MeasureForced | bme280.py:34-38 | the log gains one write of 0x26 to 0xF4, then exactly PollCount reads of 0xF4; exactly that many answers are consumed |
| Bme280.TemperatureCalibrationOf | bme280.py:49-51 | T1 is the unsigned word lo + 256·hi in [0, 65535]; T2 and T3 are signed 16-bit |
| Bme280.ReadTemperature | bme280.py:40-63 | logs reads of 0x88 to 0x8D, then 0xFA, 0xFB and 0xFC, in that order; t_fine is the formula on the decoded words and the 20-bit sample, and temperature·5120 = t_fine |
| Bme280.HumidityCalibrationOf | bme280.py:67-81 | H1 and H3 are the raw bytes; H2 is signed 16-bit; H6 is a signed byte; H4 and H5 have the closed forms above |
| Bme280.ReadHumidity | bme280.py:65-97 | logs reads of 0xA1, 0xE1, 0xE2, 0xE3, 0xE5, 0xE4, 0xE6, 0xE5 (a second time), 0xE7, then 0xFE before 0xFD; the result is the humidity formula on those bytes, 0 when t_fine = 76800, and within [0, 100] |
| Bme280.PressureCalibrationOf | bme280.py:120-128 | P1 is the unsigned word lo + 256·hi in [0, 65535]; P2 to P9 are signed 16-bit |
| Bme280.ReadPressure | bme280.py:99-151 | logs reads of 0x8E to 0x9F, then 0xF7, 0xF8 and 0xF9, in that order; the result is the pressure formula on those bytes, and 0 whenever the stage-one denominator is 0 |

## Left out

- Bus setup and the module-level run (bme280.py:153-166) are left out. This covers opening `SMBus(1)`, the fixed address 0x76 and the `print` formatting. They are I/O done at import time.
- The unused `ctypes` import (bme280.py:29) is left out.
- `smbus` itself is a foreign library and is replaced by `SimBus`.
  - `SimBus` answers reads from a script in order, not from a register map. So the two reads of 0xE5 in the humidity reader may return different bytes. The model is more general than a real part here, not less.
  - Bus errors and NACKs are not modelled.
- Bme280.ReadTemperature, Bme280.ReadHumidity and Bme280.ReadPressure require the script to hold at least 9, 11 and 21 answers. A real bus always answers a read; a shorter script is outside the model.
- Bme280.MeasureForced requires some answer in the script to report the conversion finished. The driver's endless wait on a sensor that never finishes is not modelled.
- IEEE-754 rounding, overflow, NaN and infinities are not modelled (bme280.py:59-62, 89-92, 136-150).
  - `Compensation` computes over exact `real`, and the decoded words enter it as exact integers.
  - Nothing is claimed about the numeric accuracy of the polynomials. There are no known-answer values such as 25.08 °C.
  - Compensation.Humidity: the guard `var_h != 0` is modelled as `t_fine != 76800`. For finite doubles the subtraction is zero exactly when the operands are equal.
- Compensation.Humidity and Compensation.Pressure return `0.0` where the driver returns the integer `0` (bme280.py:91, bme280.py:147). The value is the same; the Python type differs.

## Findings

| source | as written | input that shows it | evidently intended | confidence | as-written member | corrected member |
|---|---|---|---|---|---|---|
| bme280.py:75-79 | H5 takes the high nibble of 0xE5 as its top 4 bits and all of 0xE6 below them, i.e. the 12-bit value (E5 >> 4) << 8 \| E6 | E5 = 0x20, E6 = 0x03: the code gives H5 = 515 | the layout in the trimming-parameter table of the Bosch BME280 datasheet (section 4.2.2): E6 as bits 11..4 and the high nibble of E5 as bits 3..0, i.e. E6 << 4 \| E5 >> 4, which gives 50 on the same bytes | high; not executed | Codec.H5DiffersFromDatasheet | Codec.H5DatasheetClosedForm |

The humidity reader (`Bme280.HumidityCalibrationOf`, `Bme280.ReadHumidity`)
keeps the decoder as the driver writes it, `Codec.H5`. Its log and result
are therefore those of the driver. `Codec.H5Datasheet` is the corrected
decoder, and its closed form is proved beside it.
