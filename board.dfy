// The fixed-point helpers of the QN9090 board support for the SR040 tracker:
// trimming the 32 MHz crystal against temperature (a linear interpolation in a
// table of load capacitances, normalised to the temperature recorded at test
// time), the non-linear fit term of the temperature sensor, the ADC millivolt
// and battery percentage conversions, and the byte order of the BLE MAC
// address. C's `int32_t` arithmetic is computed on unbounded integers; where
// the source relies on C's truncating division or on a narrowing cast, that is
// written out.
module Board {
  import opened Bytes

  /** Absolute zero, the "no measurement yet" temperature. */
  const TEMP_ZERO_K: int := -273
  const TEMP_ZERO_K_128TH_DEG: int := TEMP_ZERO_K * 128

  /** The temperature assumed when the test-time word is not valid. */
  const ATE_DEFAULT_TEMP: int := 23

  const LOAD_VS_TEMP_MIN: int := -40
  const LOAD_VS_TEMP_MAX: int := 130
  const LOAD_VS_TEMP_STEP: int := 5

  /** Load capacitance of the 32 MHz crystal in fF, from -40 °C to 130 °C in
      steps of 5 °C (the table used when the old calibration is not selected). */
  const LOAD_FF: seq<int> := [
    506, 687, 818, 900, 938, 933, 892, 819,
    720, 599, 461, 313, 158, 0, -156, -307,
    -451, -584, -705, -812, -903, -977, -1032, -1067,
    -1079, -1067, -1025, -950, -835, -673, -453, -163,
    212, 691, 1296]

  const INT32_MIN: int := -0x8000_0000
  const INT32_MAX: int := 0x7FFF_FFFF

  predicate FitsInt32(x: int)
  {
    INT32_MIN <= x <= INT32_MAX
  }

  function Abs(x: int): nat
  {
    if x < 0 then -x else x
  }

  lemma DivBounds(a: nat, b: int)
    requires b > 0
    ensures 0 <= (a / b) * b <= a < (a / b) * b + b
  {
  }

  /** C's division of signed integers: the quotient is truncated toward zero. */
  function CDiv(a: int, b: int): (q: int)
    requires b > 0
    ensures a >= 0 ==> 0 <= q * b <= a < q * b + b
    ensures a < 0 ==> q * b - b < a <= q * b <= 0
  {
    if a >= 0 then
      DivBounds(a, b);
      a / b
    else
      DivBounds(-a, b);
      assert -((-a) / b) * b == -(((-a) / b) * b);
      -((-a) / b)
  }

  /** The size of a product is the product of the sizes. */
  lemma AbsMul(x: int, y: int)
    ensures Abs(x * y) == Abs(x) * Abs(y)
  {
  }

  /** Products of sizes keep the order of their factors. */
  lemma MulLe(x: nat, y: nat, mx: nat, my: nat)
    requires x <= mx && y <= my
    ensures x * y <= mx * my
  {
    assert x * y <= mx * y <= mx * my;
  }

  /** Conversion of an unsigned value to `int16_t`: its low 16 bits read in
      two's complement. */
  function ToInt16(x: nat): (r: int)
    ensures -0x8000 <= r < 0x8000
    ensures (x - r) % 0x1_0000 == 0
  {
    var w := x % 0x1_0000;
    if w < 0x8000 then w else w - 0x1_0000
  }

  // ---------------------------------------------------------------------
  // Temperature recorded at test time (ATE)
  // ---------------------------------------------------------------------

  /** `i16GetAteTemp`: when bit 0 of the word is set, bits 16..1 hold the
      temperature in 1/128 °C as a signed 16-bit value, divided down to whole
      degrees with C's division; otherwise 23 °C is assumed. */
  function AteTemp(reg: u32): (t: int)
    ensures -256 <= t <= 255
  {
    if reg % 2 == 1 then CDiv(ToInt16(reg / 2), 128) else ATE_DEFAULT_TEMP
  }

  /** The word a tester stores for a valid reading of `v` 1/128 °C. */
  function AteWord(v: int): (reg: u32)
    requires -0x8000 <= v < 0x8000
  {
    (if v < 0 then v + 0x1_0000 else v) * 2 + 1
  }

  /** A valid word reads back as the stored value divided toward zero. */
  lemma AteTempRoundTrip(v: int)
    requires -0x8000 <= v < 0x8000
    ensures AteTemp(AteWord(v)) == CDiv(v, 128)
  {
    var reg := AteWord(v);
    assert reg / 2 == (if v < 0 then v + 0x1_0000 else v);
  }

  /** A valid word stored for a whole number of degrees reads back exactly. */
  lemma AteTempWholeDegrees(c: int)
    requires -256 <= c <= 255
    ensures AteTemp(AteWord(128 * c)) == c
  {
    AteTempRoundTrip(128 * c);
  }

  /** Bits above 16 do not change the reading, and an invalid word always
      gives 23 °C. */
  lemma AteTempIgnoresHighBits(reg: u32, k: nat)
    requires reg + 0x2_0000 * k < 0x1_0000_0000
    ensures AteTemp(reg + 0x2_0000 * k) == AteTemp(reg)
    ensures reg % 2 == 0 ==> AteTemp(reg) == ATE_DEFAULT_TEMP
  {
    var big := reg + 0x2_0000 * k;
    HalfShift(reg, 0x1_0000 * k);
    WordShift(reg / 2, k);
    assert ToInt16(big / 2) == ToInt16(reg / 2);
  }

  lemma HalfShift(x: nat, m: nat)
    ensures (x + 2 * m) % 2 == x % 2 && (x + 2 * m) / 2 == x / 2 + m
  {
  }

  lemma WordShift(x: nat, k: nat)
    ensures (x + 0x1_0000 * k) % 0x1_0000 == x % 0x1_0000
  {
  }

  // ---------------------------------------------------------------------
  // Load capacitance interpolation
  // ---------------------------------------------------------------------

  /** The temperature of table entry `a`. */
  function GridTemp(a: int): int
  {
    LOAD_VS_TEMP_MIN + LOAD_VS_TEMP_STEP * a
  }

  /** The lower index of the interpolation segment for `t`: the entry at or
      below `t`; the first segment below the table and the last at or above
      its top. */
  function IndexA(t: int): (a: nat)
    ensures a <= 33
    ensures t >= LOAD_VS_TEMP_MAX ==> a == 33
    ensures t < LOAD_VS_TEMP_MIN ==> a == 0
    ensures LOAD_VS_TEMP_MIN <= t < LOAD_VS_TEMP_MAX ==> GridTemp(a) <= t < GridTemp(a) + LOAD_VS_TEMP_STEP
  {
    if t >= LOAD_VS_TEMP_MAX then (LOAD_VS_TEMP_MAX - LOAD_VS_TEMP_MIN) / LOAD_VS_TEMP_STEP - 1
    else if t < LOAD_VS_TEMP_MIN then 0
    else (t - LOAD_VS_TEMP_MIN) / LOAD_VS_TEMP_STEP
  }

  /** A table of load capacitances at the 35 grid temperatures. */
  predicate IsLoadTable(tbl: seq<int>)
  {
    |tbl| == 35
  }

  /** The slope of segment `a`, in fF per °C, truncated toward zero. */
  function Slope(tbl: seq<int>, a: nat): int
    requires IsLoadTable(tbl) && a < 34
  {
    CDiv(tbl[a + 1] - tbl[a], LOAD_VS_TEMP_STEP)
  }

  /** The intercept that puts segment `a` through its lower table entry. */
  function Intercept(tbl: seq<int>, a: nat): int
    requires IsLoadTable(tbl) && a < 34
  {
    tbl[a] - Slope(tbl, a) * GridTemp(a)
  }

  /** The load capacitance at `t` on the straight line of its segment of
      `tbl`. */
  function Interpolate(tbl: seq<int>, t: int): int
    requires IsLoadTable(tbl)
  {
    var a := IndexA(t);
    t * Slope(tbl, a) + Intercept(tbl, a)
  }

  /** `iCapDeltaCalculation_MHz_x1000`: the interpolation in the crystal's
      table. */
  function CapDelta(t: int): int
  {
    Interpolate(LOAD_FF, t)
  }

  /** The line through one segment in the form the proofs use. */
  lemma OnSegment(tbl: seq<int>, t: int)
    requires IsLoadTable(tbl)
    ensures Interpolate(tbl, t) == tbl[IndexA(t)] + Slope(tbl, IndexA(t)) * (t - GridTemp(IndexA(t)))
  {
    var a := IndexA(t);
    var s := Slope(tbl, a);
    assert t * s - s * GridTemp(a) == s * (t - GridTemp(a));
  }

  /** The interpolation meets the table at every grid temperature below the
      top one, and at the top one too when the last difference is a multiple
      of the step. */
  lemma InterpolateAtGrid(tbl: seq<int>, k: nat)
    requires IsLoadTable(tbl) && k < |tbl|
    requires k == 34 ==> (tbl[34] - tbl[33]) % 5 == 0
    ensures Interpolate(tbl, GridTemp(k)) == tbl[k]
  {
    OnSegment(tbl, GridTemp(k));
    if k == 34 {
      assert IndexA(GridTemp(k)) == 33;
      var d := tbl[34] - tbl[33];
      assert d == (d / 5) * 5;
      if d >= 0 {
        assert Slope(tbl, 33) * 5 == d;
      } else {
        assert -d == ((-d) / 5) * 5;
        assert Slope(tbl, 33) * 5 == d;
      }
    } else {
      assert IndexA(GridTemp(k)) == k;
    }
  }

  /** The crystal's table is met at every grid temperature, 130 °C included. */
  lemma CapDeltaAtGrid(k: nat)
    requires k < |LOAD_FF|
    ensures CapDelta(GridTemp(k)) == LOAD_FF[k]
  {
    InterpolateAtGrid(LOAD_FF, k);
  }

  /** A quotient truncated toward zero is no larger than the dividend and
      has its sign. */
  lemma TruncatedSlope(d: int, s: int)
    requires s == CDiv(d, 5)
    ensures d >= 0 ==> 0 <= 5 * s <= d
    ensures d < 0 ==> d <= 5 * s <= 0
    ensures -4 <= 5 * s - d <= 4
  {
  }

  /** `x` lies between `p` and `q`, whichever is the larger. */
  predicate Between(x: int, p: int, q: int)
  {
    if p <= q then p <= x <= q else q <= x <= p
  }

  /** A step of `u` in [0, 5] along slope `s` from `f0` stays between `f0`
      and `f1` when `5 * s` lies between 0 and `f1 - f0`. */
  lemma StepBetween(f0: int, f1: int, s: int, u: int)
    requires 0 <= u <= 5
    requires f1 >= f0 ==> 0 <= 5 * s <= f1 - f0
    requires f1 < f0 ==> f1 - f0 <= 5 * s <= 0
    ensures Between(f0 + s * u, f0, f1)
  {
    if s >= 0 {
      assert 0 <= s * u <= s * 5;
    } else {
      assert s * 5 <= s * u <= 0;
    }
  }

  /** Within the table's range the result lies between the two entries of
      its segment. */
  lemma InterpolateBetween(tbl: seq<int>, t: int)
    requires IsLoadTable(tbl)
    requires LOAD_VS_TEMP_MIN <= t <= LOAD_VS_TEMP_MAX
    ensures Between(Interpolate(tbl, t), tbl[IndexA(t)], tbl[IndexA(t) + 1])
  {
    var a := IndexA(t);
    OnSegment(tbl, t);
    TruncatedSlope(tbl[a + 1] - tbl[a], Slope(tbl, a));
    StepBetween(tbl[a], tbl[a + 1], Slope(tbl, a), t - GridTemp(a));
  }

  lemma Scale5(s: int, u: int)
    ensures 5 * (s * u) == (5 * s) * u
  {
  }

  lemma Distrib(p: int, q: int, u: int)
    ensures p * u - q * u == (p - q) * u
  {
  }

  /** The error of a truncated slope over `u` degrees. */
  lemma StepError(d: int, s: int, u: nat)
    requires -4 <= 5 * s - d <= 4
    ensures Abs((5 * s - d) * u) <= 4 * u
  {
    AbsMul(5 * s - d, u);
    MulLe(Abs(5 * s - d), u, 4, u);
  }

  /** Within the table's range the result is off the exact straight line
      through the segment's entries by at most 4/5 fF per °C from the lower
      entry. */
  lemma InterpolateError(tbl: seq<int>, t: int)
    requires IsLoadTable(tbl)
    requires LOAD_VS_TEMP_MIN <= t <= LOAD_VS_TEMP_MAX
    ensures var a := IndexA(t);
            var u := t - GridTemp(a);
            Abs(5 * Interpolate(tbl, t) - (5 * tbl[a] + (tbl[a + 1] - tbl[a]) * u)) <= 4 * u
  {
    var a := IndexA(t);
    var s := Slope(tbl, a);
    var d := tbl[a + 1] - tbl[a];
    var u := t - GridTemp(a);
    OnSegment(tbl, t);
    assert Interpolate(tbl, t) == tbl[a] + s * u;
    Scale5(s, u);
    Distrib(5 * s, d, u);
    assert 5 * Interpolate(tbl, t) - (5 * tbl[a] + d * u) == (5 * s - d) * u;
    TruncatedSlope(d, s);
    StepError(d, s, u);
  }

  /** The segment slopes of the crystal's table. */
  lemma SlopeBounds(a: nat)
    requires a < 34
    ensures -31 <= Slope(LOAD_FF, a) <= 121
  {
  }

  /** The crystal's table entries. */
  lemma EntryBounds(a: nat)
    requires a < |LOAD_FF|
    ensures -1079 <= LOAD_FF[a] <= 1296
  {
  }

  /** For every temperature the callers can pass (a whole number of degrees
      from a 32-bit count of 1/128 °C) the C `int32_t` arithmetic does not
      overflow, so computing on unbounded integers changes nothing. */
  lemma CapDeltaFitsInt32(t: int)
    requires Abs(t) <= 0x100_0000
    ensures var a := IndexA(t);
            FitsInt32(t * Slope(LOAD_FF, a)) && FitsInt32(Intercept(LOAD_FF, a)) && FitsInt32(CapDelta(t))
  {
    var a := IndexA(t);
    var s := Slope(LOAD_FF, a);
    var g := GridTemp(a);
    SlopeBounds(a);
    EntryBounds(a);
    AbsMul(t, s);
    MulLe(Abs(t), Abs(s), 0x100_0000, 121);
    AbsMul(s, g);
    MulLe(Abs(s), Abs(g), 121, 125);
  }

  /** `Calculate_32MOscCapCompensation` at temperature `t` with the test-time
      word `reg`. As written (`intended` false) the delta at the test-time
      temperature is subtracted unless that temperature is 23 °C, whether 23
      was read or assumed; intended, it is subtracted whenever the word is
      valid. */
  function OscCapCompensation(t: int, reg: u32, intended: bool): int
  {
    var ate := AteTemp(reg);
    if (if intended then reg % 2 == 1 else ate != ATE_DEFAULT_TEMP) then
      CapDelta(t) - CapDelta(ate)
    else
      CapDelta(t)
  }

  /** The table is referenced to 25 °C: without a test-time reading, no
      correction is applied at 25 °C. */
  lemma CompensationWithoutAte(t: int, reg: u32, intended: bool)
    requires reg % 2 == 0
    ensures OscCapCompensation(t, reg, intended) == CapDelta(t)
    ensures OscCapCompensation(25, reg, intended) == 0
  {
    assert IndexA(25) == 13;
    CapDeltaAtGrid(13);
  }

  /** As written, a test-time reading other than 23 °C moves the reference:
      no correction is applied at the temperature read. */
  lemma CompensationNormalised(reg: u32)
    requires AteTemp(reg) != ATE_DEFAULT_TEMP
    ensures OscCapCompensation(AteTemp(reg), reg, false) == 0
  {
  }

  /** As written, a valid test-time reading of exactly 23 °C is taken for a
      missing one: at 23 °C the correction is 65 fF, not 0. */
  lemma AteAt23IsIgnored()
    ensures AteTemp(AteWord(23 * 128)) == 23
    ensures OscCapCompensation(23, AteWord(23 * 128), false) == 65
  {
    AteTempWholeDegrees(23);
    assert IndexA(23) == 12;
    assert Slope(LOAD_FF, 12) == -31;
  }

  /** Intended, every valid test-time reading moves the reference to the
      temperature read. */
  lemma CompensationIntendedNormalised(reg: u32)
    requires reg % 2 == 1
    ensures OscCapCompensation(AteTemp(reg), reg, true) == 0
  {
  }

  // ---------------------------------------------------------------------
  // Re-trimming the 32 MHz crystal when the temperature moves
  // ---------------------------------------------------------------------

  /** What `BOARD_tcxo32M_compensation_run` decides from the last reported
      temperature (1/128 °C) and the temperature of the previous trim: the
      temperature to trim for, and whether to trim. With no report yet it
      uses 25 °C and a change of 0. The change is never negative, so C's
      comparison of it with the unsigned threshold is the plain one. */
  function RunDecision(threshold: u32, lastReport: int, prev: int): (r: (int, bool))
    ensures lastReport == TEMP_ZERO_K_128TH_DEG ==> r == (25, threshold == 0)
    ensures CDiv(lastReport, 128) != TEMP_ZERO_K ==>
              r == (CDiv(lastReport, 128), Abs(CDiv(lastReport, 128) - prev) >= threshold)
  {
    var latest := CDiv(lastReport, 128);
    if latest == TEMP_ZERO_K then (25, 0 >= threshold)
    else (latest, Abs(latest - prev) >= threshold)
  }

  /** After a re-trim, the same report does not trigger another one unless
      the threshold is 0. */
  lemma RunSettles(threshold: u32, lastReport: int, prev: int)
    requires threshold > 0 && RunDecision(threshold, lastReport, prev).1
    ensures !RunDecision(threshold, lastReport, RunDecision(threshold, lastReport, prev).0).1
  {
  }

  /** From the power-on state, the first measured temperature is trimmed for
      whenever it differs from absolute zero by at least the threshold. */
  lemma FirstMeasurementTrims(threshold: u32, lastReport: int)
    requires CDiv(lastReport, 128) != TEMP_ZERO_K
    requires Abs(CDiv(lastReport, 128) - TEMP_ZERO_K) >= threshold
    ensures RunDecision(threshold, lastReport, TEMP_ZERO_K) == (CDiv(lastReport, 128), true)
  {
  }

  /** The static state of `BOARD_tcxo32M_compensation_run`: the temperature
      of the previous trim, and the capacitance deltas handed to
      `CLOCK_Xtal32M_Trim` so far. */
  class Tcxo32M {
    var prevCompensationTemp: int
    var trims: seq<int>

    constructor()
      ensures prevCompensationTemp == TEMP_ZERO_K && trims == []
    {
      prevCompensationTemp := TEMP_ZERO_K;
      trims := [];
    }

    /** `BOARD_tcxo32M_compensation_run`: when the decision is to trim, the
        temperature is remembered and the compensation for it is applied;
        otherwise nothing changes. The delay after trimming is left out. */
    method CompensationRun(threshold: u32, lastReport: int, ateReg: u32, intended: bool)
      modifies this
      ensures var (latest, trim) := RunDecision(threshold, lastReport, old(prevCompensationTemp));
              if trim then
                prevCompensationTemp == latest &&
                trims == old(trims) + [OscCapCompensation(latest, ateReg, intended)]
              else
                prevCompensationTemp == old(prevCompensationTemp) && trims == old(trims)
    {
      var delta := 0;
      var latest := CDiv(lastReport, 128);
      if latest == TEMP_ZERO_K {
        latest := 25;
      } else {
        delta := latest - prevCompensationTemp;
        delta := if delta < 0 then -delta else delta;
      }
      if delta >= threshold {
        prevCompensationTemp := latest;
        var capDelta := OscCapCompensation(latest, ateReg, intended);
        trims := trims + [capDelta];
      }
    }
  }

  // ---------------------------------------------------------------------
  // Non-linear fit term of the temperature sensor
  // ---------------------------------------------------------------------

  /** `compute_nlfit_corr`: with T = input >> 7 (an arithmetic shift, so a
      floor division), gain * ((T - offset)^2 >> 6) >> 6, the offset and the
      gain being signed bytes from the calibration sector. */
  function NlfitCorr(input: int, offset: int, gain: int): (r: int)
    requires -128 <= offset < 128 && -128 <= gain < 128
  {
    var t := input / 128;
    (gain * (((t - offset) * (t - offset)) / 64)) / 64
  }

  /** The correction has the sign of the gain and is zero at the offset. */
  lemma NlfitSign(input: int, offset: int, gain: int)
    requires -128 <= offset < 128 && -128 <= gain < 128
    ensures gain >= 0 ==> NlfitCorr(input, offset, gain) >= 0
    ensures gain <= 0 ==> NlfitCorr(input, offset, gain) <= 0
    ensures input / 128 == offset ==> NlfitCorr(input, offset, gain) == 0
  {
    var w := input / 128 - offset;
    SquareNonNegative(w);
    var q := (w * w) / 64;
    MulSign(gain, q);
    assert NlfitCorr(input, offset, gain) == (gain * q) / 64;
  }

  /** The correction is symmetric about the offset. */
  lemma NlfitSymmetric(x: int, y: int, offset: int, gain: int)
    requires -128 <= offset < 128 && -128 <= gain < 128
    requires x / 128 - offset == offset - y / 128
    ensures NlfitCorr(x, offset, gain) == NlfitCorr(y, offset, gain)
  {
    var u := x / 128 - offset;
    assert (y / 128 - offset) * (y / 128 - offset) == u * u;
  }

  /** With a non-negative gain, the correction grows with the distance from
      the offset. */
  lemma NlfitMonotone(x: int, y: int, offset: int, gain: int)
    requires -128 <= offset < 128 && 0 <= gain < 128
    requires Abs(x / 128 - offset) <= Abs(y / 128 - offset)
    ensures NlfitCorr(x, offset, gain) <= NlfitCorr(y, offset, gain)
  {
    var wx := x / 128 - offset;
    var wy := y / 128 - offset;
    AbsMul(wx, wx);
    AbsMul(wy, wy);
    MulLe(Abs(wx), Abs(wx), Abs(wy), Abs(wy));
    Div64Monotone(wx * wx, wy * wy);
    MulLe(gain, (wx * wx) / 64, gain, (wy * wy) / 64);
    Div64Monotone(gain * ((wx * wx) / 64), gain * ((wy * wy) / 64));
  }

  lemma Div64Monotone(p: int, q: int)
    requires 0 <= p <= q
    ensures 0 <= p / 64 <= q / 64
  {
  }

  lemma SquareNonNegative(w: int)
    ensures w * w >= 0
  {
    AbsMul(w, w);
  }

  /** A product with a non-negative factor has the sign of the other. */
  lemma MulSign(g: int, q: nat)
    ensures g >= 0 ==> g * q >= 0
    ensures g <= 0 ==> g * q <= 0
  {
  }

  /** The C `int32_t` arithmetic does not overflow while the temperature is
      within 32767 °C of the offset. */
  lemma NlfitFitsInt32(input: int, offset: int, gain: int)
    requires -128 <= offset < 128 && -128 <= gain < 128
    requires Abs(input / 128 - offset) < 0x8000
    ensures var t := input / 128;
            var sq := (t - offset) * (t - offset);
            FitsInt32(sq) && FitsInt32(gain * (sq / 64))
  {
    var u := input / 128 - offset;
    AbsMul(u, u);
    MulLe(Abs(u), Abs(u), 0x7FFF, 0x7FFF);
    var q := (u * u) / 64;
    assert 0 <= q <= 0x100_0000;
    AbsMul(gain, q);
    MulLe(Abs(gain), q, 128, 0x100_0000);
  }

  // ---------------------------------------------------------------------
  // ADC conversions
  // ---------------------------------------------------------------------

  const ADC0_FULL_RANGE_MV: nat := 3600
  const BATTERY_FULL_MV: nat := 3300
  const ADC0_MAX_RESOLUTION: nat := 12
  const U32_MOD: nat := 0x1_0000_0000

  /** `ADC_TO_MV` on the unsigned 32-bit result: x * 3600 >> 12. */
  function AdcToMv(x: u32): u32
  {
    ((x * ADC0_FULL_RANGE_MV) % U32_MOD) / 4096
  }

  /** `ADC_MV_TO_PERCENT` on unsigned 32-bit millivolts: mv * 100 / 3300. */
  function MvToPercent(mv: u32): u32
  {
    ((mv * 100) % U32_MOD) / BATTERY_FULL_MV
  }

  /** `BOARD_GetBatteryLevel`'s result: the percentage cast to `uint8_t`. */
  function BatteryLevel(result: u32): u8
  {
    MvToPercent(AdcToMv(result)) % 0x100
  }

  /** For a 12-bit reading the millivolts are the reading scaled to 3600 mV
      full range, rounded down, with no wrap-around. */
  lemma AdcToMvScales(x: u32)
    requires x < 4096
    ensures AdcToMv(x) * 4096 <= x * 3600 < (AdcToMv(x) + 1) * 4096
    ensures AdcToMv(x) < 3600
  {
    assert x * 3600 < U32_MOD;
    DivBounds(x * 3600, 4096);
  }

  /** The conversion keeps the order of 12-bit readings. */
  lemma AdcToMvMonotone(x: u32, y: u32)
    requires x <= y < 4096
    ensures AdcToMv(x) <= AdcToMv(y)
  {
    assert x * 3600 <= y * 3600 < U32_MOD;
  }

  /** For a 12-bit reading the level is the share of 3300 mV, rounded down;
      it reaches 100 exactly from 3300 mV, and can go up to 109. */
  lemma BatteryLevelScales(x: u32)
    requires x < 4096
    ensures var mv := AdcToMv(x);
            BatteryLevel(x) * 3300 <= mv * 100 < (BatteryLevel(x) + 1) * 3300
    ensures BatteryLevel(x) <= 109
    ensures BatteryLevel(x) >= 100 <==> AdcToMv(x) >= 3300
  {
    AdcToMvScales(x);
    var mv := AdcToMv(x);
    assert mv * 100 < U32_MOD;
    var pc := (mv * 100) / 3300;
    DivBounds(mv * 100, 3300);
    assert pc * 3300 <= 359900;
    assert pc <= 109;
    assert MvToPercent(mv) == pc;
    assert BatteryLevel(x) == pc;
  }

  /** A full-scale reading reports 109 %. */
  lemma FullScaleBattery()
    ensures BatteryLevel(4095) == 109
  {
  }

  // ---------------------------------------------------------------------
  // BLE MAC address
  // ---------------------------------------------------------------------

  const BLE_MACID_SZ: nat := 6
  /** The NXP organisationally unique identifier. */
  const NXP_OUI: seq<u8> := [0x00, 0x60, 0x37]

  predicate AllZero(s: seq<u8>)
  {
    forall i :: 0 <= i < |s| ==> s[i] == 0
  }

  function Reversed(s: seq<u8>): (r: seq<u8>)
    ensures |r| == |s|
    ensures forall i :: 0 <= i < |s| ==> r[i] == s[|s| - 1 - i]
  {
    if s == [] then [] else Reversed(s[1..]) + [s[0]]
  }

  /** Where `BOARD_Get_BLE_MAC_Id` takes its 8-byte word from, and its
      result: 0 for the customer's word (read back with a page state above
      1 and not all zero), 1 for the manufacturer's, otherwise a fresh word
      of two zero bytes, the NXP OUI and three random bytes, which is 2 when
      it was written to flash and -1 when that failed. */
  function MacSource(pgState: int, customer: seq<u8>, manufacturer: seq<u8>,
                     random: seq<u8>, writeOk: bool): (r: (int, seq<u8>))
    requires |customer| == 8 && |manufacturer| == 8 && |random| >= 3
    ensures |r.1| == 8 && -1 <= r.0 <= 2
  {
    if pgState > 1 && !AllZero(customer) then (0, customer)
    else if !AllZero(manufacturer) then (1, manufacturer)
    else (if writeOk then 2 else -1, [0, 0] + NXP_OUI + random[..3])
  }

  /** The address `BOARD_Get_BLE_MAC_Id` hands out: bytes 2 to 7 of the
      word in reverse order, or zeros on failure. */
  function MacAddress(pgState: int, customer: seq<u8>, manufacturer: seq<u8>,
                      random: seq<u8>, writeOk: bool): (mac: seq<u8>)
    requires |customer| == 8 && |manufacturer| == 8 && |random| >= 3
    ensures |mac| == BLE_MACID_SZ
  {
    var (res, buf) := MacSource(pgState, customer, manufacturer, random, writeOk);
    if res >= 0 then Reversed(buf[2..8]) else Zeros(BLE_MACID_SZ)
  }

  /** `BOARD_DisplayMCUUid`: the bytes in the order they are printed, last
      first. */
  function DisplayOrder(mac: seq<u8>): (shown: seq<u8>)
    requires |mac| == BLE_MACID_SZ
  {
    seq(BLE_MACID_SZ, i requires 0 <= i < BLE_MACID_SZ => mac[BLE_MACID_SZ - 1 - i])
  }

  /** Displaying the address shows bytes 2 to 7 of the stored word in their
      stored order. */
  lemma DisplayShowsStoredWord(pgState: int, customer: seq<u8>, manufacturer: seq<u8>,
                               random: seq<u8>, writeOk: bool)
    requires |customer| == 8 && |manufacturer| == 8 && |random| >= 3
    requires MacSource(pgState, customer, manufacturer, random, writeOk).0 >= 0
    ensures DisplayOrder(MacAddress(pgState, customer, manufacturer, random, writeOk)) ==
            MacSource(pgState, customer, manufacturer, random, writeOk).1[2..8]
  {
  }

  /** A freshly made address ends with the NXP OUI, reversed, after its three
      random bytes. */
  lemma FreshMacCarriesOui(customer: seq<u8>, manufacturer: seq<u8>, random: seq<u8>)
    requires |customer| == 8 && |manufacturer| == 8 && |random| >= 3
    requires AllZero(customer) && AllZero(manufacturer)
    ensures var mac := MacAddress(0, customer, manufacturer, random, true);
            mac == [random[2], random[1], random[0], 0x37, 0x60, 0x00]
  {
  }

  /** `BOARD_Get_BLE_MAC_Id`: the address is zeroed, the source word chosen,
      and on success its bytes 7 down to 2 are copied into the address. The
      flash reads and writes and the random number generator are parameters. */
  method GetBleMacId(macAddr: array<u8>, pgState: int, customer: seq<u8>, manufacturer: seq<u8>,
                     random: seq<u8>, writeOk: bool) returns (res: int)
    requires macAddr.Length == BLE_MACID_SZ
    requires |customer| == 8 && |manufacturer| == 8 && |random| >= 3
    modifies macAddr
    ensures res == MacSource(pgState, customer, manufacturer, random, writeOk).0
    ensures macAddr[..] == MacAddress(pgState, customer, manufacturer, random, writeOk)
  {
    forall k | 0 <= k < BLE_MACID_SZ {
      macAddr[k] := 0;
    }
    var buf: seq<u8>;
    res, buf := MacSource(pgState, customer, manufacturer, random, writeOk).0,
                MacSource(pgState, customer, manufacturer, random, writeOk).1;
    if res >= 0 {
      var i := 0;
      while i < BLE_MACID_SZ
        invariant 0 <= i <= BLE_MACID_SZ
        invariant forall k :: 0 <= k < i ==> macAddr[k] == buf[BLE_MACID_SZ + 1 - k]
      {
        macAddr[i] := buf[BLE_MACID_SZ + 1 - i];
        i := i + 1;
      }
      assert macAddr[..] == Reversed(buf[2..8]);
    } else {
      assert macAddr[..] == Zeros(BLE_MACID_SZ);
    }
  }
}
