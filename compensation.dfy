/** The floating-point compensation formulas of the driver, over `real`.
    The arithmetic is exact here, so nothing below speaks to the rounding of
    the driver's IEEE-754 doubles; what the model keeps is the shape of each
    formula, its division guard and its clamp. Calibration coefficients are
    the decoded words converted to floating point. */
module Compensation {

  datatype TemperatureCalibration = TemperatureCalibration(t1: real, t2: real, t3: real)

  datatype HumidityCalibration =
    HumidityCalibration(h1: real, h2: real, h3: real, h4: real, h5: real, h6: real)

  datatype PressureCalibration = PressureCalibration(
    p1: real, p2: real, p3: real, p4: real, p5: real,
    p6: real, p7: real, p8: real, p9: real)

  /** Fine temperature t_fine: the linear term in T2 plus the quadratic term
      in T3, both taken around the raw reading 16 * T1. */
  function FineTemperature(adcT: real, cal: TemperatureCalibration): real
  {
    var x1 := (adcT / 16384.0 - cal.t1 / 1024.0) * cal.t2;
    var d := adcT / 131072.0 - cal.t1 / 8192.0;
    var x2 := (d * d) * cal.t3;
    x1 + x2
  }

  /** T1 is the raw reading (divided by 16) at which t_fine, and with it
      the temperature, is zero, whatever T2 and T3 are. */
  lemma FineTemperatureZeroAtT1(cal: TemperatureCalibration)
    ensures FineTemperature(16.0 * cal.t1, cal) == 0.0
  {
    var d := 16.0 * cal.t1 / 131072.0 - cal.t1 / 8192.0;
    assert d == 0.0;
    assert (d * d) * cal.t3 == 0.0;
    assert 16.0 * cal.t1 / 16384.0 - cal.t1 / 1024.0 == 0.0;
  }

  /** The t_fine value at which the humidity formula would divide by zero. */
  const HUMIDITY_GUARD := 76800.0

  /** The humidity polynomial in var_h = t_fine - 76800, before clamping. */
  function HumidityPolynomial(varH: real, cal: HumidityCalibration, rawHum: real): real
  {
    var h := (rawHum - (cal.h4 * 64.0 + cal.h5 / 16384.0 * varH))
      * (cal.h2 / 65536.0 * (1.0 + cal.h6 / 67108864.0 * varH * (1.0 + cal.h3 / 67108864.0 * varH)));
    h * (1.0 - cal.h1 * h / 524288.0)
  }

  /** Relative humidity is limited to [0, 100] percent; values inside are
      kept, values above become 100 and values below become 0. */
  function ClampPercent(x: real): (r: real)
    ensures 0.0 <= r <= 100.0
    ensures 0.0 <= x <= 100.0 ==> r == x
    ensures x > 100.0 ==> r == 100.0
    ensures x < 0.0 ==> r == 0.0
  {
    if x > 100.0 then 100.0
    else if x < 0.0 then 0.0
    else x
  }

  lemma ClampPercentIdempotent(x: real)
    ensures ClampPercent(ClampPercent(x)) == ClampPercent(x)
  {
  }

  /** Relative humidity in percent: the sentinel 0 when t_fine is exactly
      76800, otherwise the clamped polynomial; always within [0, 100]. */
  function Humidity(tFine: real, cal: HumidityCalibration, rawHum: real): (r: real)
    ensures tFine == HUMIDITY_GUARD ==> r == 0.0
    ensures tFine != HUMIDITY_GUARD ==> r == ClampPercent(HumidityPolynomial(tFine - HUMIDITY_GUARD, cal, rawHum))
    ensures 0.0 <= r <= 100.0
  {
    var varH := tFine - HUMIDITY_GUARD;
    if varH != 0.0 then ClampPercent(HumidityPolynomial(varH, cal, rawHum))
    else 0.0
  }

  /** With H2 = 0 the polynomial is 0 before clamping, so the reading is 0
      whatever the other coefficients and the raw sample are. */
  lemma HumidityZeroH2(tFine: real, cal: HumidityCalibration, rawHum: real)
    requires cal.h2 == 0.0
    ensures Humidity(tFine, cal, rawHum) == 0.0
  {
  }

  /** var1 of the pressure formula: t_fine / 2 - 64000. */
  function PressureVar1(tFine: real): real
  {
    tFine / 2.0 - 64000.0
  }

  /** The stage-one offset (v_x2 after its third update): the terms in P4,
      P5 and P6. */
  function PressureOffset(tFine: real, cal: PressureCalibration): real
  {
    var x1 := PressureVar1(tFine);
    var x2 := x1 * x1 * cal.p6 / 32768.0;
    var x2' := x2 + x1 * cal.p5 * 2.0;
    x2' / 4.0 + cal.p4 * 65536.0
  }

  /** The stage-one scale (v_x1 after its third update): P1 corrected by
      the terms in P2 and P3. It is the denominator of stage two. */
  function PressureDenominator(tFine: real, cal: PressureCalibration): real
  {
    var x1 := PressureVar1(tFine);
    var y := (cal.p3 * x1 * x1 / 524288.0 + cal.p2 * x1) / 524288.0;
    (1.0 + y / 32768.0) * cal.p1
  }

  /** Stage two after the division: the terms in P7, P8 and P9. */
  function PressureRefine(p: real, cal: PressureCalibration): real
  {
    var x1 := cal.p9 * p * p / 2147483648.0;
    var x2 := p * cal.p8 / 32768.0;
    p + (x1 + x2 + cal.p7) / 16.0
  }

  /** Pressure in pascals: the sentinel 0 when the stage-one denominator is
      exactly 0, otherwise the refined quotient by that nonzero value. */
  function Pressure(tFine: real, cal: PressureCalibration, adcP: real): (r: real)
    ensures PressureDenominator(tFine, cal) == 0.0 ==> r == 0.0
    ensures PressureDenominator(tFine, cal) != 0.0 ==>
      r == PressureRefine((1048576.0 - adcP - PressureOffset(tFine, cal) / 4096.0) * 6250.0
                          / PressureDenominator(tFine, cal), cal)
  {
    var den := PressureDenominator(tFine, cal);
    var p := 1048576.0 - adcP;
    if den != 0.0 then PressureRefine((p - PressureOffset(tFine, cal) / 4096.0) * 6250.0 / den, cal)
    else 0.0
  }

  /** The denominator vanishes exactly when P1 is 0 or the P2/P3 correction
      is -1 (that is, y = -32768). */
  lemma PressureDenominatorZero(tFine: real, cal: PressureCalibration)
    ensures var x1 := PressureVar1(tFine);
      var y := (cal.p3 * x1 * x1 / 524288.0 + cal.p2 * x1) / 524288.0;
      PressureDenominator(tFine, cal) == 0.0 <==> cal.p1 == 0.0 || y == -32768.0
  {
  }

  /** A part whose P1 word reads 0 always yields the sentinel 0. */
  lemma PressureZeroP1(tFine: real, cal: PressureCalibration, adcP: real)
    requires cal.p1 == 0.0
    ensures Pressure(tFine, cal, adcP) == 0.0
  {
    PressureDenominatorZero(tFine, cal);
  }
}
