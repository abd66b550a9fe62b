/** The BME280 driver: one forced conversion, then the temperature,
    humidity and pressure readers. Each reader issues a fixed sequence of
    single-byte register reads on the bus and feeds the bytes it gets to
    the decoders of `Codec` and the formulas of `Compensation`. */
module Bme280 {
  import opened Bits
  import opened Bus
  import Codec
  import C = Compensation

  /** Control register ctrl_meas; its bit 0x02 reads as "measuring". */
  const CTRL_MEAS: byte := 0xF4
  /** ctrl_meas value that starts one forced conversion. */
  const FORCED_MODE: byte := 0x26
  const BUSY_MASK: nat := 0x02
  /** ctrl_meas value that selects normal mode. */
  const NORMAL_MODE: byte := 0x27

  /** Put the sensor in normal mode: one write of 0x27 to ctrl_meas. */
  method SetNormalMode(bus: SimBus, device: byte)
    modifies bus
    ensures bus.log == old(bus.log) + [Write(device, CTRL_MEAS, NORMAL_MODE)]
    ensures bus.cursor == old(bus.cursor)
  {
    bus.WriteByteData(device, CTRL_MEAS, NORMAL_MODE);
  }

  /** A status byte read from ctrl_meas says the conversion still runs. */
  predicate Busy(status: byte)
  {
    And(status, BUSY_MASK) != 0
  }

  /** Busy tests exactly bit 1 of the status byte. */
  lemma BusyBit(status: byte)
    ensures Busy(status) <==> (status / 2) % 2 == 1
  {
    ShiftValues(1);
    ShiftValues(status);
    AndShiftedMask(status, 1, 1);
    var bit := (status / 2) % 2;
    assert And(status / 2, 1) == bit by {
      Pow2Values();
      AndLowMask(status / 2, 1);
    }
    ShiftValues(bit);
  }

  /** Some answer in the script reports the conversion finished. */
  predicate ConversionEnds(answers: seq<byte>)
  {
    |answers| > 0 && (!Busy(answers[0]) || ConversionEnds(answers[1..]))
  }

  /** The number of status reads the poll loop makes against a script: one
      past the busy answers that lead it. */
  function PollCount(answers: seq<byte>): (n: nat)
    requires ConversionEnds(answers)
    ensures 1 <= n <= |answers|
    ensures !Busy(answers[n - 1])
    ensures forall j :: 0 <= j < n - 1 ==> Busy(answers[j])
  {
    if !Busy(answers[0]) then 1 else 1 + PollCount(answers[1..])
  }

  /** Status answers busy for N polls and then clear: N + 1 reads. */
  lemma PollCountExact(answers: seq<byte>, busyPolls: nat)
    requires busyPolls < |answers| && !Busy(answers[busyPolls])
    requires forall j :: 0 <= j < busyPolls ==> Busy(answers[j])
    ensures ConversionEnds(answers)
    ensures PollCount(answers) == busyPolls + 1
  {
    ConversionEndsAt(answers, busyPolls);
  }

  /** A clear answer anywhere in the script ends the conversion. */
  lemma {:induction false} ConversionEndsAt(answers: seq<byte>, i: nat)
    requires i < |answers| && !Busy(answers[i])
    ensures ConversionEnds(answers)
  {
    if i > 0 && Busy(answers[0]) {
      ConversionEndsAt(answers[1..], i - 1);
    }
  }

  /** A log `before`, followed by the poll loop's n reads of ctrl_meas,
      answered by the first n answers. */
  function PollLog(before: seq<Access>, device: byte, answers: seq<byte>, n: nat): (t: seq<Access>)
    requires n <= |answers|
    ensures |t| == |before| + n
  {
    if n == 0 then before else PollLog(before, device, answers, n - 1) + [Read(device, CTRL_MEAS, answers[n - 1])]
  }

  /** The poll log keeps what came before and adds exactly one read of
      ctrl_meas per poll, answered in order. */
  lemma {:induction false} PollLogContents(before: seq<Access>, device: byte, answers: seq<byte>, n: nat)
    requires n <= |answers|
    ensures PollLog(before, device, answers, n)[..|before|] == before
    ensures forall i :: 0 <= i < n ==>
      PollLog(before, device, answers, n)[|before| + i] == Read(device, CTRL_MEAS, answers[i])
  {
    if n > 0 {
      PollLogContents(before, device, answers, n - 1);
    }
  }

  /** The poll loop's bookkeeping: after `polls` busy answers, either the
      next answer is busy and the count moves on, or it is clear and the
      loop stops with one more read. */
  lemma PollAdvance(answers: seq<byte>, polls: nat)
    requires polls < |answers| && ConversionEnds(answers[polls..])
    requires ConversionEnds(answers) && PollCount(answers) == polls + PollCount(answers[polls..])
    ensures Busy(answers[polls]) ==>
      && polls + 1 < |answers| && ConversionEnds(answers[polls + 1..])
      && PollCount(answers) == polls + 1 + PollCount(answers[polls + 1..])
    ensures !Busy(answers[polls]) ==> PollCount(answers) == polls + 1
  {
    assert answers[polls..][1..] == answers[polls + 1..];
  }

  /** Start a forced conversion and poll ctrl_meas until bit 0x02 clears:
      one write of 0x26, then exactly PollCount reads of ctrl_meas. */
  method MeasureForced(bus: SimBus, device: byte)
    requires bus.cursor <= |bus.answers| && ConversionEnds(bus.answers[bus.cursor..])
    modifies bus
    ensures var statuses := bus.answers[old(bus.cursor)..];
      var n := PollCount(statuses);
      && bus.log == PollLog(old(bus.log) + [Write(device, CTRL_MEAS, FORCED_MODE)], device, statuses, n)
      && bus.cursor == old(bus.cursor) + n
  {
    ghost var c0 := bus.cursor;
    ghost var statuses := bus.answers[c0..];
    ghost var start := bus.log + [Write(device, CTRL_MEAS, FORCED_MODE)];
    bus.WriteByteData(device, CTRL_MEAS, FORCED_MODE);
    var conversionInProgress: nat := 0x2;
    ghost var polls := 0;
    while conversionInProgress != 0
      invariant polls <= |statuses| && bus.cursor == c0 + polls
      invariant statuses == bus.answers[c0..]
      invariant bus.log == PollLog(start, device, statuses, polls)
      invariant conversionInProgress != 0 ==>
        polls < |statuses| && ConversionEnds(statuses[polls..]) && PollCount(statuses) == polls + PollCount(statuses[polls..])
      invariant conversionInProgress == 0 ==> PollCount(statuses) == polls
      decreases |statuses| - polls
    {
      var status := bus.ReadByteData(device, CTRL_MEAS);
      conversionInProgress := And(status, BUSY_MASK);
      assert status == statuses[polls];
      PollAdvance(statuses, polls);
      polls := polls + 1;
    }
  }

  /** T1 unsigned, T2 and T3 signed, each from two bytes low byte first. */
  function TemperatureCalibrationOf(v: seq<byte>): (c: C.TemperatureCalibration)
    requires |v| == 6
    ensures c.t1 == (v[0] as int + 256 * v[1] as int) as real && 0.0 <= c.t1 <= 65535.0
    ensures -32768.0 <= c.t2 <= 32767.0 && -32768.0 <= c.t3 <= 32767.0
  {
    Codec.U16LEValue(v[0], v[1]);
    Codec.I16LEValue(v[2], v[3]);
    Codec.I16LEValue(v[4], v[5]);
    C.TemperatureCalibration(
      Codec.U16LE(v[0], v[1]) as real, Codec.I16LE(v[2], v[3]) as real, Codec.I16LE(v[4], v[5]) as real)
  }

  /** Read T1..T3 and the raw sample, and return the temperature in degrees
      Celsius with t_fine. */
  method ReadTemperature(bus: SimBus, device: byte) returns (temperature: real, tFine: real)
    requires bus.cursor + 9 <= |bus.answers|
    modifies bus
    ensures var v := bus.answers[old(bus.cursor)..];
      bus.log == old(bus.log)
      + [Read(device, 0x88, v[0])] + [Read(device, 0x89, v[1])] + [Read(device, 0x8A, v[2])]
      + [Read(device, 0x8B, v[3])] + [Read(device, 0x8C, v[4])] + [Read(device, 0x8D, v[5])]
      + [Read(device, 0xFA, v[6])] + [Read(device, 0xFB, v[7])] + [Read(device, 0xFC, v[8])]
    ensures bus.cursor == old(bus.cursor) + 9
    ensures var v := bus.answers[old(bus.cursor)..];
      var words := [v[0], v[1], v[2], v[3], v[4], v[5]];
      tFine == C.FineTemperature(Codec.Raw20(v[6], v[7], v[8]) as real, TemperatureCalibrationOf(words))
    ensures temperature * 5120.0 == tFine
  {
    ghost var v := bus.answers[bus.cursor..];
    var digT1l := bus.ReadByteData(device, 0x88);
    var digT1h := bus.ReadByteData(device, 0x89);
    var digT2l := bus.ReadByteData(device, 0x8A);
    var digT2h := bus.ReadByteData(device, 0x8B);
    var digT3l := bus.ReadByteData(device, 0x8C);
    var digT3h := bus.ReadByteData(device, 0x8D);
    var cal := TemperatureCalibrationOf([digT1l, digT1h, digT2l, digT2h, digT3l, digT3h]);
    var tempMsb := bus.ReadByteData(device, 0xFA);
    var tempLsb := bus.ReadByteData(device, 0xFB);
    var tempXlsb := bus.ReadByteData(device, 0xFC);
    var adcT := Codec.Raw20(tempMsb, tempLsb, tempXlsb);
    assert v[6] == tempMsb && v[7] == tempLsb && v[8] == tempXlsb;
    tFine := C.FineTemperature(adcT as real, cal);
    temperature := tFine / 5120.0;
  }

  /** H1 and H3 unsigned bytes, H2 signed 16-bit, H4 and H5 the 12-bit
      fields around 0xE5, H6 a signed byte. The bytes come in the reader's
      order: A1, E1, E2, E3, E5, E4, E6, E5, E7. */
  function HumidityCalibrationOf(v: seq<byte>): (c: C.HumidityCalibration)
    requires |v| == 9
    ensures c.h1 == v[0] as real && c.h3 == v[3] as real
    ensures -32768.0 <= c.h2 <= 32767.0 && -128.0 <= c.h6 <= 127.0
    ensures c.h4 == Codec.SignExtend12(v[5] as int * 16 + v[4] as int % 16) as real
    ensures c.h5 == Codec.SignExtend12((v[7] as int / 16) * 256 + v[6] as int) as real
  {
    Codec.I16LEValue(v[1], v[2]);
    Codec.H4ClosedForm(v[5], v[4]);
    Codec.H5ClosedForm(v[7], v[6]);
    Codec.H6Value(v[8]);
    C.HumidityCalibration(
      v[0] as real, Codec.I16LE(v[1], v[2]) as real, v[3] as real,
      Codec.H4(v[5], v[4]), Codec.H5(v[7], v[6]), Codec.H6(v[8]))
  }

  /** Read H1..H6 and the raw sample, and return the relative humidity in
      percent for the given t_fine. */
  method ReadHumidity(bus: SimBus, device: byte, tFine: real) returns (humidity: real)
    requires bus.cursor + 11 <= |bus.answers|
    modifies bus
    ensures var v := bus.answers[old(bus.cursor)..];
      bus.log == old(bus.log)
      + [Read(device, 0xA1, v[0])] + [Read(device, 0xE1, v[1])] + [Read(device, 0xE2, v[2])]
      + [Read(device, 0xE3, v[3])] + [Read(device, 0xE5, v[4])] + [Read(device, 0xE4, v[5])]
      + [Read(device, 0xE6, v[6])] + [Read(device, 0xE5, v[7])] + [Read(device, 0xE7, v[8])]
      + [Read(device, 0xFE, v[9])] + [Read(device, 0xFD, v[10])]
    ensures bus.cursor == old(bus.cursor) + 11
    ensures var v := bus.answers[old(bus.cursor)..];
      var words := [v[0], v[1], v[2], v[3], v[4], v[5], v[6], v[7], v[8]];
      humidity == C.Humidity(tFine, HumidityCalibrationOf(words), Codec.Raw16(v[10], v[9]) as real)
    ensures tFine == C.HUMIDITY_GUARD ==> humidity == 0.0
    ensures 0.0 <= humidity <= 100.0
  {
    ghost var v := bus.answers[bus.cursor..];
    var digH1 := bus.ReadByteData(device, 0xA1);
    var digH2l := bus.ReadByteData(device, 0xE1);
    var digH2h := bus.ReadByteData(device, 0xE2);
    var digH3 := bus.ReadByteData(device, 0xE3);
    var digH4l := bus.ReadByteData(device, 0xE5);
    var digH4h := bus.ReadByteData(device, 0xE4);
    var digH5l := bus.ReadByteData(device, 0xE6);
    var digH5h := bus.ReadByteData(device, 0xE5);
    var digH6raw := bus.ReadByteData(device, 0xE7);
    var cal := HumidityCalibrationOf([digH1, digH2l, digH2h, digH3, digH4l, digH4h, digH5l, digH5h, digH6raw]);
    var humLsb := bus.ReadByteData(device, 0xFE);
    var humMsb := bus.ReadByteData(device, 0xFD);
    var rawHum := Codec.Raw16(humMsb, humLsb) as real;
    assert v[9] == humLsb && v[10] == humMsb;
    humidity := C.Humidity(tFine, cal, rawHum);
  }

  predicate InInt16(x: real)
  {
    -32768.0 <= x <= 32767.0
  }

  /** P1 unsigned, P2..P9 signed, each from two bytes low byte first. */
  function PressureCalibrationOf(v: seq<byte>): (c: C.PressureCalibration)
    requires |v| == 18
    ensures c.p1 == (v[0] as int + 256 * v[1] as int) as real && 0.0 <= c.p1 <= 65535.0
    ensures InInt16(c.p2) && InInt16(c.p3) && InInt16(c.p4) && InInt16(c.p5)
    ensures InInt16(c.p6) && InInt16(c.p7) && InInt16(c.p8) && InInt16(c.p9)
  {
    Codec.U16LEValue(v[0], v[1]);
    Codec.I16LEValue(v[2], v[3]);
    Codec.I16LEValue(v[4], v[5]);
    Codec.I16LEValue(v[6], v[7]);
    Codec.I16LEValue(v[8], v[9]);
    Codec.I16LEValue(v[10], v[11]);
    Codec.I16LEValue(v[12], v[13]);
    Codec.I16LEValue(v[14], v[15]);
    Codec.I16LEValue(v[16], v[17]);
    C.PressureCalibration(
      Codec.U16LE(v[0], v[1]) as real,
      Codec.I16LE(v[2], v[3]) as real, Codec.I16LE(v[4], v[5]) as real,
      Codec.I16LE(v[6], v[7]) as real, Codec.I16LE(v[8], v[9]) as real,
      Codec.I16LE(v[10], v[11]) as real, Codec.I16LE(v[12], v[13]) as real,
      Codec.I16LE(v[14], v[15]) as real, Codec.I16LE(v[16], v[17]) as real)
  }

  /** Read P1..P9 and the raw sample, and return the pressure in pascals
      for the given t_fine. */
  method ReadPressure(bus: SimBus, device: byte, tFine: real) returns (pressure: real)
    requires bus.cursor + 21 <= |bus.answers|
    modifies bus
    ensures var v := bus.answers[old(bus.cursor)..];
      bus.log == old(bus.log)
      + [Read(device, 0x8E, v[0])] + [Read(device, 0x8F, v[1])] + [Read(device, 0x90, v[2])]
      + [Read(device, 0x91, v[3])] + [Read(device, 0x92, v[4])] + [Read(device, 0x93, v[5])]
      + [Read(device, 0x94, v[6])] + [Read(device, 0x95, v[7])] + [Read(device, 0x96, v[8])]
      + [Read(device, 0x97, v[9])] + [Read(device, 0x98, v[10])] + [Read(device, 0x99, v[11])]
      + [Read(device, 0x9A, v[12])] + [Read(device, 0x9B, v[13])] + [Read(device, 0x9C, v[14])]
      + [Read(device, 0x9D, v[15])] + [Read(device, 0x9E, v[16])] + [Read(device, 0x9F, v[17])]
      + [Read(device, 0xF7, v[18])] + [Read(device, 0xF8, v[19])] + [Read(device, 0xF9, v[20])]
    ensures bus.cursor == old(bus.cursor) + 21
    ensures var v := bus.answers[old(bus.cursor)..];
      var words := [v[0], v[1], v[2], v[3], v[4], v[5], v[6], v[7], v[8],
                    v[9], v[10], v[11], v[12], v[13], v[14], v[15], v[16], v[17]];
      && pressure == C.Pressure(tFine, PressureCalibrationOf(words), Codec.Raw20(v[18], v[19], v[20]) as real)
      && (C.PressureDenominator(tFine, PressureCalibrationOf(words)) == 0.0 ==> pressure == 0.0)
  {
    ghost var v := bus.answers[bus.cursor..];
    var digP1l := bus.ReadByteData(device, 0x8E);
    var digP1h := bus.ReadByteData(device, 0x8F);
    var digP2l := bus.ReadByteData(device, 0x90);
    var digP2h := bus.ReadByteData(device, 0x91);
    var digP3l := bus.ReadByteData(device, 0x92);
    var digP3h := bus.ReadByteData(device, 0x93);
    var digP4l := bus.ReadByteData(device, 0x94);
    var digP4h := bus.ReadByteData(device, 0x95);
    var digP5l := bus.ReadByteData(device, 0x96);
    var digP5h := bus.ReadByteData(device, 0x97);
    var digP6l := bus.ReadByteData(device, 0x98);
    var digP6h := bus.ReadByteData(device, 0x99);
    var digP7l := bus.ReadByteData(device, 0x9A);
    var digP7h := bus.ReadByteData(device, 0x9B);
    var digP8l := bus.ReadByteData(device, 0x9C);
    var digP8h := bus.ReadByteData(device, 0x9D);
    var digP9l := bus.ReadByteData(device, 0x9E);
    var digP9h := bus.ReadByteData(device, 0x9F);
    var cal := PressureCalibrationOf(
      [digP1l, digP1h, digP2l, digP2h, digP3l, digP3h,
       digP4l, digP4h, digP5l, digP5h, digP6l, digP6h,
       digP7l, digP7h, digP8l, digP8h, digP9l, digP9h]);
    var pressMsb := bus.ReadByteData(device, 0xF7);
    var pressLsb := bus.ReadByteData(device, 0xF8);
    var pressXlsb := bus.ReadByteData(device, 0xF9);
    var adcP := Codec.Raw20(pressMsb, pressLsb, pressXlsb);
    assert v[18] == pressMsb && v[19] == pressLsb && v[20] == pressXlsb;
    pressure := C.Pressure(tFine, cal, adcP as real);
  }
}
