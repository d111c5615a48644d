// The BMG160 gyroscope driver: the power-mode decoder, the bandwidth-dependent
// auto-sleep floor, sample assembly and range scaling, the dps selection,
// calibration averaging, the self-test verdict, the enable toggle and the
// I2C-failure cutoff of the polling work.
//
// Registers the driver decodes bit by bit (power mode, bandwidth, auto-sleep
// duration) are `bv8`; the rate registers of a block read, which sample
// assembly combines arithmetically as `unsigned char`, are `byte`
// (0 .. 255).  The enum values of the register header
// (modes, bandwidth codes, auto-sleep durations, range codes) are not part
// of this model; they are the fields of a `Consts` record.  The header's
// bit-slice macros are not part of this model either: where the driver
// extracts a field through them, the model takes the extracted field value.

module Bmg160 {
  import opened Wrappers
  import opened Bytes

  const EIO := 5
  /** Number of samples averaged by a calibration. */
  const CalibrationDataAmount := 20
  /** Once the failed-read counter exceeds this, the polling work stops. */
  const I2cFailLimit := 5
  /** Bytes the driver transfers to or from the calibration file (3 * sizeof(int)). */
  const CalFileSize := 12

  /** The driver's `s16`. */
  type s16 = x: int | -0x8000 <= x < 0x8000

  /** A three-axis sample or calibration offset (`struct bmg160_v`). */
  datatype Axes = Axes(x: s16, y: s16, z: s16)

  const Zero := Axes(0, 0, 0)

  datatype Axis = X | Y | Z

  function Coord(v: Axes, a: Axis): s16
  {
    match a
    case X => v.x
    case Y => v.y
    case Z => v.z
  }

  /** Enum values of the register header. */
  datatype Consts = Consts(
    modeNormal: bv8, modeDeepSuspend: bv8, modeSuspend: bv8,
    modeFastPowerup: bv8, modeAdvancedPowersaving: bv8,
    bwNoFilter: bv8, bw230Hz: bv8, bw116Hz: bv8, bw47Hz: bv8,
    bw23Hz: bv8, bw12Hz: bv8, bw64Hz: bv8, bw32Hz: bv8,
    noAutoSleepDur: bv8, autoSleep4ms: bv8, autoSleep5ms: bv8,
    autoSleep10ms: bv8, autoSleep20ms: bv8,
    range250Dps: int, range500Dps: int, range2000Dps: int)

  // ---------------------------------------------------------------------
  // Power mode
  // ---------------------------------------------------------------------

  /** Bit `i` of a register byte. */
  function Bit(b: bv8, i: bv8): bv8
    requires i < 8
  {
    (b >> i) & 1
  }

  /**
   * The mode `bmg160_get_mode` reports for the LPM1 byte `b1` and the LPM2
   * byte `b2`; None when it leaves `*mode` as it was.  The contract states
   * the decoding bit by bit: LPM2 bit 6 is advanced power saving, LPM1 bit 5
   * is deep suspend, LPM1 bit 7 is suspend or (with LPM2 bit 7) fast
   * power-up, and no bit set is normal; the one pattern the decoder does not
   * recognise is LPM2 bit 7 alone.
   */
  function DecodeMode(k: Consts, b1: bv8, b2: bv8): (m: Option<bv8>)
    ensures Bit(b2, 6) == 1 ==> m == Some(k.modeAdvancedPowersaving)
    ensures Bit(b2, 6) == 0 && Bit(b1, 5) == 1 ==> m == Some(k.modeDeepSuspend)
    ensures Bit(b2, 6) == 0 && Bit(b1, 5) == 0 && Bit(b1, 7) == 1 ==>
              m == Some(if Bit(b2, 7) == 1 then k.modeFastPowerup else k.modeSuspend)
    ensures Bit(b2, 6) == 0 && Bit(b1, 5) == 0 && Bit(b1, 7) == 0 ==>
              m == (if Bit(b2, 7) == 0 then Some(k.modeNormal) else None)
  {
    var lpm1 := (b1 & 0xA0) >> 5;
    var advanced := (b2 & 0x40) >> 6;
    var fastPowerup := (b2 & 0x80) >> 7;
    if advanced == 1 then Some(k.modeAdvancedPowersaving)
    else if lpm1 == 0 && fastPowerup == 0 then Some(k.modeNormal)
    else if lpm1 == 1 || lpm1 == 5 then Some(k.modeDeepSuspend)
    else if lpm1 == 4 && fastPowerup == 0 then Some(k.modeSuspend)
    else if lpm1 == 4 && fastPowerup == 1 then Some(k.modeFastPowerup)
    else None
  }

  /** The LPM1 selector the decoder extracts takes only the values 0, 1, 4 and 5. */
  lemma Lpm1Values(b1: bv8)
    ensures var lpm1 := (b1 & 0xA0) >> 5; lpm1 == 0 || lpm1 == 1 || lpm1 == 4 || lpm1 == 5
  {
  }

  /** The value left in `*mode` after the call, given the value it held before. */
  function ModeAfter(k: Consts, b1: bv8, b2: bv8, prior: bv8): (m: bv8)
    ensures DecodeMode(k, b1, b2).None? ==> m == prior
    ensures DecodeMode(k, b1, b2).Some? ==> m == DecodeMode(k, b1, b2).value
  {
    match DecodeMode(k, b1, b2)
    case None => prior
    case Some(mode) => mode
  }

  // ---------------------------------------------------------------------
  // Auto-sleep duration
  // ---------------------------------------------------------------------

  /** The bandwidth codes the auto-sleep switch names, in its order. */
  function Bandwidths(k: Consts): seq<bv8>
  {
    [k.bwNoFilter, k.bw230Hz, k.bw116Hz, k.bw47Hz, k.bw23Hz, k.bw12Hz, k.bw64Hz, k.bw32Hz]
  }

  /** The floor of each bandwidth in `Bandwidths`: 4, 4, 4, 5, 10, 20, 10, 20 ms. */
  function Floors(k: Consts): seq<bv8>
  {
    [k.autoSleep4ms, k.autoSleep4ms, k.autoSleep4ms, k.autoSleep5ms,
     k.autoSleep10ms, k.autoSleep20ms, k.autoSleep10ms, k.autoSleep20ms]
  }

  /** The switch's case labels are distinct, as C requires of them. */
  predicate DistinctBandwidths(k: Consts)
  {
    forall i, j :: 0 <= i < j < |Bandwidths(k)| ==> Bandwidths(k)[i] != Bandwidths(k)[j]
  }

  /** The shortest auto-sleep duration a bandwidth allows; None for an unknown bandwidth. */
  function AutoSleepFloor(k: Consts, bw: bv8): Option<bv8>
  {
    if bw == k.bwNoFilter || bw == k.bw230Hz || bw == k.bw116Hz then Some(k.autoSleep4ms)
    else if bw == k.bw47Hz then Some(k.autoSleep5ms)
    else if bw == k.bw23Hz || bw == k.bw64Hz then Some(k.autoSleep10ms)
    else if bw == k.bw12Hz || bw == k.bw32Hz then Some(k.autoSleep20ms)
    else None
  }

  /**
   * With distinct labels: 4 ms for no filter, 230 Hz and 116 Hz, 5 ms for
   * 47 Hz, 10 ms for 23 Hz and 64 Hz, 20 ms for 12 Hz and 32 Hz, and no
   * floor for any other bandwidth.
   */
  lemma AutoSleepFloorTable(k: Consts, bw: bv8)
    requires DistinctBandwidths(k)
    ensures AutoSleepFloor(k, k.bwNoFilter) == Some(k.autoSleep4ms)
    ensures AutoSleepFloor(k, k.bw230Hz) == Some(k.autoSleep4ms)
    ensures AutoSleepFloor(k, k.bw116Hz) == Some(k.autoSleep4ms)
    ensures AutoSleepFloor(k, k.bw47Hz) == Some(k.autoSleep5ms)
    ensures AutoSleepFloor(k, k.bw23Hz) == Some(k.autoSleep10ms)
    ensures AutoSleepFloor(k, k.bw12Hz) == Some(k.autoSleep20ms)
    ensures AutoSleepFloor(k, k.bw64Hz) == Some(k.autoSleep10ms)
    ensures AutoSleepFloor(k, k.bw32Hz) == Some(k.autoSleep20ms)
    ensures bw !in Bandwidths(k) ==> AutoSleepFloor(k, bw).None?
  {
    var b := Bandwidths(k);
    assert b[0] != b[3] && b[1] != b[3] && b[2] != b[3];
    assert b[0] != b[4] && b[1] != b[4] && b[2] != b[4] && b[3] != b[4];
    assert b[0] != b[5] && b[1] != b[5] && b[2] != b[5] && b[3] != b[5] && b[4] != b[5];
    assert b[0] != b[6] && b[1] != b[6] && b[2] != b[6] && b[3] != b[6] && b[4] != b[6];
    assert b[0] != b[7] && b[1] != b[7] && b[2] != b[7] && b[3] != b[7] && b[4] != b[7] && b[6] != b[7];
  }

  /**
   * The auto-sleep duration `bmg160_set_autosleepdur` writes for the
   * requested `duration` at bandwidth `bw`: the larger of the two when the
   * bandwidth has a floor, no auto-sleep when it has none.
   */
  function AutoSleepDur(k: Consts, duration: bv8, bw: bv8): (d: bv8)
    ensures AutoSleepFloor(k, bw).None? ==> d == k.noAutoSleepDur
    ensures AutoSleepFloor(k, bw).Some? ==>
              d >= duration && d >= AutoSleepFloor(k, bw).value &&
              (d == duration || d == AutoSleepFloor(k, bw).value)
  {
    match AutoSleepFloor(k, bw)
    case None => k.noAutoSleepDur
    case Some(floor) => if duration > floor then duration else floor
  }

  /** Writing back a duration that already respects the floor changes nothing. */
  lemma AutoSleepDurIdempotent(k: Consts, duration: bv8, bw: bv8)
    requires AutoSleepFloor(k, bw).Some?
    ensures AutoSleepDur(k, AutoSleepDur(k, duration, bw), bw) == AutoSleepDur(k, duration, bw)
  {
  }

  /** A longer request never yields a shorter duration. */
  lemma AutoSleepDurMonotone(k: Consts, d1: bv8, d2: bv8, bw: bv8)
    requires d1 <= d2
    ensures AutoSleepDur(k, d1, bw) <= AutoSleepDur(k, d2, bw)
  {
  }

  // ---------------------------------------------------------------------
  // Samples and scaling
  // ---------------------------------------------------------------------

  /** The six rate registers of one block read: LSB field then MSB for x, y and z. */
  datatype RateRegs = RateRegs(xLsb: byte, xMsb: byte, yLsb: byte, yMsb: byte, zLsb: byte, zMsb: byte)

  /** A register byte read as `signed char`. */
  function Int8(b: byte): (r: int)
    ensures -0x80 <= r < 0x80
    ensures r % 0x100 == b
  {
    if b < 0x80 then b else b - 0x100
  }

  lemma Split(h: int, l: int)
    requires 0 <= l < 0x100
    ensures (h * 0x100 + l) % 0x100 == l && (h * 0x100 + l) / 0x100 == h
  {
  }

  /**
   * One axis: the signed MSB shifted up eight bits, or-ed with the LSB
   * field.  The shifted MSB has its low eight bits clear, so the `|` is an
   * addition.  The result is the 16-bit two's complement value whose low
   * byte is the LSB and whose high byte is the MSB.
   */
  function Sample(msb: byte, lsb: byte): (v: s16)
    ensures v % 0x100 == lsb
    ensures (v / 0x100) % 0x100 == msb
  {
    var h := Int8(msb);
    var l := lsb;
    Split(h, l);
    h * 0x100 + l
  }

  /** The two bytes the chip stores for a 16-bit value. */
  function LowByte(v: s16): byte { v % 0x100 }
  function HighByte(v: s16): byte { (v / 0x100) % 0x100 }

  lemma SameResidue(a: int, b: int)
    requires -0x80 <= a < 0x80 && -0x80 <= b < 0x80 && a % 0x100 == b % 0x100
    ensures a == b
  {
  }

  /** Assembling the bytes of any 16-bit value gives that value back. */
  lemma SampleRoundTrip(v: s16)
    ensures Sample(HighByte(v), LowByte(v)) == v
  {
    var s := Sample(HighByte(v), LowByte(v));
    assert s % 0x100 == v % 0x100;
    assert (s / 0x100) % 0x100 == (v / 0x100) % 0x100;
    SameResidue(s / 0x100, v / 0x100);
  }

  /** Truncation of an `int` to `s16`, as storing into an `s16` field does. */
  function Wrap16(x: int): (r: s16)
    ensures (x - r) % 0x10000 == 0
    ensures -0x8000 <= x < 0x8000 ==> r == x
  {
    (x + 0x8000) % 0x10000 - 0x8000
  }

  /**
   * One axis scaled for the selected range and corrected by the offset
   * `cal`.  At 250 dps the sample is shifted right one bit (an arithmetic
   * shift, which is division by 2 rounding down), at 2000 dps left two
   * bits; the result is truncated to `s16`.
   */
  function Scale(k: Consts, dps: int, v: s16, cal: s16): s16
  {
    if dps == k.range250Dps then Wrap16(v / 2 - cal)
    else if dps == k.range2000Dps then Wrap16(v * 4 - cal)
    else Wrap16(v - cal)
  }

  /** At 250 dps the corrected value is half the sample rounded down, when the offset leaves no room for overflow. */
  lemma ScaleAt250(k: Consts, v: s16, cal: s16)
    requires -0x4000 <= cal <= 0x4000
    ensures var r := Scale(k, k.range250Dps, v, cal);
      2 * (r + cal) <= v <= 2 * (r + cal) + 1
  {
  }

  /** At 2000 dps the sample is multiplied by four, as long as the result fits in 16 bits. */
  lemma ScaleAt2000(k: Consts, v: s16, cal: s16)
    requires k.range2000Dps != k.range250Dps
    requires -0x8000 <= 4 * v - cal < 0x8000
    ensures Scale(k, k.range2000Dps, v, cal) == 4 * v - cal
  {
  }

  /** At 2000 dps a quarter of full scale already wraps: 0x2000 reads as -0x8000. */
  lemma ScaleAt2000Wraps(k: Consts)
    requires k.range2000Dps != k.range250Dps
    ensures Scale(k, k.range2000Dps, 0x2000, 0) == -0x8000
  {
  }

  /** At any other range the sample is only corrected by the offset. */
  lemma ScaleOtherRange(k: Consts, dps: int, v: s16, cal: s16)
    requires dps != k.range250Dps && dps != k.range2000Dps
    requires -0x8000 <= v - cal < 0x8000
    ensures Scale(k, dps, v, cal) == v - cal
  {
  }

  /** `bmg160_read_gyro_xyz`: assembly then scaling of the three axes. */
  function ReadAxes(k: Consts, regs: RateRegs, dps: int, cal: Axes): Axes
  {
    Axes(Scale(k, dps, Sample(regs.xMsb, regs.xLsb), cal.x),
         Scale(k, dps, Sample(regs.yMsb, regs.yLsb), cal.y),
         Scale(k, dps, Sample(regs.zMsb, regs.zLsb), cal.z))
  }

  /** An offset equal to the uncorrected scaled value corrects one axis to zero. */
  lemma ScaleAtOffset(k: Consts, dps: int, v: s16, cal: s16)
    requires Scale(k, dps, v, 0) == cal
    ensures Scale(k, dps, v, cal) == 0
  {
    var s := if dps == k.range250Dps then v / 2 else if dps == k.range2000Dps then v * 4 else v;
    assert Scale(k, dps, v, 0) == Wrap16(s);
    assert Scale(k, dps, v, cal) == Wrap16(s - cal);
    var t := (s - cal) / 0x10000;
    assert s - cal == 0x10000 * t;
    assert (0x10000 * t + 0x8000) % 0x10000 == 0x8000;
  }

  /**
   * With the offsets a calibration measured at rest, a reading at rest is
   * zero on every axis: the offset is applied once.
   */
  lemma ReadAtCalibrationPointIsZero(k: Consts, regs: RateRegs, dps: int, cal: Axes)
    requires ReadAxes(k, regs, dps, Zero) == cal
    ensures ReadAxes(k, regs, dps, cal) == Zero
  {
    ScaleAtOffset(k, dps, Sample(regs.xMsb, regs.xLsb), cal.x);
    ScaleAtOffset(k, dps, Sample(regs.yMsb, regs.yLsb), cal.y);
    ScaleAtOffset(k, dps, Sample(regs.zMsb, regs.zLsb), cal.z);
  }

  /** What `bmg160_work_func` reports as written: the corrected sample minus the offset once more. */
  function ReportAsWritten(gyro: Axes, cal: Axes): (r: (int, int, int))
    ensures r.0 + cal.x == gyro.x && r.1 + cal.y == gyro.y && r.2 + cal.z == gyro.z
  {
    (gyro.x - cal.x, gyro.y - cal.y, gyro.z - cal.z)
  }

  /**
   * As written, a reading at the calibration point is reported as minus the
   * offset, not zero: at 500 dps an x reading of 10 calibrates to the offset
   * 10, reads back corrected as 0, and is reported as -10.
   */
  lemma ReportAsWrittenSubtractsTwice(k: Consts, regs: RateRegs)
    requires k.range500Dps != k.range250Dps && k.range500Dps != k.range2000Dps
    requires regs == RateRegs(10, 0, 0, 0, 0, 0)
    ensures ReadAxes(k, regs, k.range500Dps, Zero) == Axes(10, 0, 0)
    ensures ReadAxes(k, regs, k.range500Dps, Axes(10, 0, 0)) == Zero
    ensures ReportAsWritten(Zero, Axes(10, 0, 0)) == (-10, 0, 0)
  {
    var dps := k.range500Dps;
    assert Sample(regs.xMsb, regs.xLsb) == 10 && Sample(regs.yMsb, regs.yLsb) == 0;
    ScaleOtherRange(k, dps, 10, 0);
    ScaleOtherRange(k, dps, 0, 0);
    ScaleOtherRange(k, dps, 10, 10);
  }

  // ---------------------------------------------------------------------
  // Range selection and self-test
  // ---------------------------------------------------------------------

  /** `bmg160_selftest_dps_store`: 250 and 2000 select their ranges, every other value 500 dps. */
  function DpsFromInput(k: Consts, newdps: int): (r: int)
    ensures r == k.range250Dps || r == k.range500Dps || r == k.range2000Dps
    ensures newdps == 250 ==> r == k.range250Dps
    ensures newdps == 2000 ==> r == k.range2000Dps
    ensures newdps != 250 && newdps != 2000 ==> r == k.range500Dps
  {
    if newdps == 250 then k.range250Dps
    else if newdps == 500 then k.range500Dps
    else if newdps == 2000 then k.range2000Dps
    else k.range500Dps
  }

  /** The full-scale rate in degrees per second of a range code. */
  function Degrees(k: Consts, range: int): int
  {
    if range == k.range250Dps then 250
    else if range == k.range2000Dps then 2000
    else 500
  }

  predicate DistinctRanges(k: Consts)
  {
    k.range250Dps != k.range500Dps && k.range250Dps != k.range2000Dps &&
    k.range500Dps != k.range2000Dps
  }

  /** Storing the degrees of a range selects that range again; only 250 and 2000 select their ranges. */
  lemma DpsRoundTrip(k: Consts, range: int, newdps: int)
    requires DistinctRanges(k)
    requires range == k.range250Dps || range == k.range500Dps || range == k.range2000Dps
    ensures DpsFromInput(k, Degrees(k, range)) == range
    ensures DpsFromInput(k, newdps) == k.range250Dps <==> newdps == 250
    ensures DpsFromInput(k, newdps) == k.range2000Dps <==> newdps == 2000
  {
  }

  /** The verdict of `bmg160_selftest_show` for the BIST-failure and rate-ok fields. */
  function SelftestVerdict(bistFail: bv8, rateOk: bv8): (r: int)
    ensures r == 1 || r == -EIO
    ensures r == 1 <==> bistFail == 0 && rateOk == 1
  {
    if bistFail == 0x00 && rateOk == 0x01 then 1 else -EIO
  }

  // ---------------------------------------------------------------------
  // Calibration averaging
  // ---------------------------------------------------------------------

  /** C division of an `int` by a positive divisor: truncation toward zero. */
  function TruncDiv(a: int, n: int): (q: int)
    requires n > 0
    ensures a >= 0 ==> 0 <= a - q * n < n
    ensures a < 0 ==> -n < a - q * n <= 0
  {
    if a >= 0 then a / n else -((-a) / n)
  }

  /** Sum of one coordinate over a run of samples. */
  function Sum(r: seq<Axes>, a: Axis): int
  {
    if |r| == 0 then 0 else Sum(r[..|r| - 1], a) + Coord(r[|r| - 1], a)
  }

  lemma {:induction false} SumBounds(r: seq<Axes>, a: Axis)
    ensures -0x8000 * |r| <= Sum(r, a) <= 0x7FFF * |r|
  {
    if |r| > 0 {
      SumBounds(r[..|r| - 1], a);
    }
  }

  /** A truncated mean of twenty 16-bit values is itself a 16-bit value. */
  lemma TruncDivBounds(s: int)
    requires -0x8000 * CalibrationDataAmount <= s <= 0x7FFF * CalibrationDataAmount
    ensures -0x8000 <= TruncDiv(s, CalibrationDataAmount) <= 0x7FFF
  {
  }

  /** The truncated mean of one coordinate over a calibration run. */
  function Mean(r: seq<Axes>, a: Axis): (m: s16)
    requires |r| == CalibrationDataAmount
  {
    SumBounds(r, a);
    TruncDivBounds(Sum(r, a));
    TruncDiv(Sum(r, a), CalibrationDataAmount)
  }

  /** The calibration offsets of a calibration run. */
  function Offsets(r: seq<Axes>): Axes
    requires |r| == CalibrationDataAmount
  {
    Axes(Mean(r, X), Mean(r, Y), Mean(r, Z))
  }

  /** Sum of a run whose every sample has coordinate `c`. */
  lemma {:induction false} SumConstant(r: seq<Axes>, a: Axis, c: int)
    requires forall i :: 0 <= i < |r| ==> Coord(r[i], a) == c
    ensures Sum(r, a) == c * |r|
  {
    if |r| > 0 {
      SumConstant(r[..|r| - 1], a, c);
    }
  }

  /** Truncating division undoes multiplication by the divisor. */
  lemma TruncDivExact(c: int)
    ensures TruncDiv(c * CalibrationDataAmount, CalibrationDataAmount) == c
  {
  }

  /** A constant run averages to its value: calibrating a perfectly still chip yields that reading. */
  lemma OffsetsOfConstantRun(r: seq<Axes>, v: Axes)
    requires |r| == CalibrationDataAmount
    requires forall i :: 0 <= i < |r| ==> r[i] == v
    ensures Offsets(r) == v
  {
    SumConstant(r, X, v.x);
    SumConstant(r, Y, v.y);
    SumConstant(r, Z, v.z);
    TruncDivExact(v.x);
    TruncDivExact(v.y);
    TruncDivExact(v.z);
  }

  /** The readings of one calibration run, taken with the offsets cleared. */
  function Readings(k: Consts, samples: seq<RateRegs>, dps: int): (r: seq<Axes>)
    ensures |r| == |samples|
    ensures forall i :: 0 <= i < |samples| ==> r[i] == ReadAxes(k, samples[i], dps, Zero)
  {
    seq(|samples|, i requires 0 <= i < |samples| => ReadAxes(k, samples[i], dps, Zero))
  }

  // ---------------------------------------------------------------------
  // The driver object
  // ---------------------------------------------------------------------

  /** What the driver does to the outside world, in order. */
  datatype GyroCall =
    | SetMode(mode: bv8)          // bmg160_set_mode
    | Report(v: Axes)             // one input event per axis, then a sync
    | StoreCalibration(v: Axes)   // the offsets written to the calibration file

  /** The outcome of reading the calibration file: the open failed, or the
      read returned `count`; when `count` is positive, `v` is what the read
      left in the offsets it reads into. */
  datatype CalRead = ReadOpenFailed(err: int) | Read(count: int, v: Axes)

  /** The outcome of writing the calibration file: the open failed, or `count` bytes were written. */
  datatype CalWrite = WriteOpenFailed(err: int) | Written(count: int)

  /** A value parsed by `kstrtou8`, or its error. */
  datatype ParsedU8 = ParseError(err: int) | Value(v: int)

  /** The result of `bmg160_open_calibration` with offsets `prev` before the
      call: the open error, -EIO when the offsets after the read are all
      zero or the read was short, otherwise the byte count. */
  function OpenCalibrationRet(file: CalRead, prev: Axes): int
  {
    match file
    case ReadOpenFailed(e) => e
    case Read(count, v) =>
      if CalibrationFrom(file, prev) == Zero then -EIO else if count != CalFileSize then -EIO else count
  }

  /** The offsets `bmg160_open_calibration` leaves, starting from `prev`:
      zero when the file cannot be opened, what the read stored when it
      read something, and `prev` when the read failed or read nothing. */
  function CalibrationFrom(file: CalRead, prev: Axes): Axes
  {
    match file
    case ReadOpenFailed(_) => Zero
    case Read(count, v) => if count <= 0 then prev else v
  }

  function CalibrateRet(file: CalWrite): int
  {
    match file
    case WriteOpenFailed(e) => e
    case Written(count) => if count != CalFileSize then -EIO else count
  }

  /** `struct bmg160_p`: the fields the modelled operations read and update. */
  class Gyro {
    const k: Consts
    var enable: int
    var workPending: bool
    var gyroDps: int
    var cal: Axes
    var gyroData: Axes
    var i2cFailCnt: int
    var hw: seq<GyroCall>

    /** Enable is 0 or 1, and the polling work is only queued while enabled. */
    ghost predicate Valid()
      reads this
    {
      (enable == 0 || enable == 1) && (workPending ==> enable == 1) && i2cFailCnt >= 0
    }

    /** The state `bmg160_probe` leaves: disabled, 500 dps, chip suspended. */
    constructor (k: Consts)
      ensures Valid()
      ensures this.k == k && enable == 0 && !workPending && gyroDps == k.range500Dps
      ensures cal == Zero && gyroData == Zero && i2cFailCnt == 0
      ensures hw == [SetMode(k.modeSuspend)]
    {
      this.k := k;
      enable := 0;
      workPending := false;
      gyroDps := k.range500Dps;
      cal := Zero;
      gyroData := Zero;
      i2cFailCnt := 0;
      hw := [SetMode(k.modeSuspend)];
    }

    /** `bmg160_open_calibration`: load the offsets, clear them when the
        file cannot be opened, and keep them when the read fails. */
    method OpenCalibration(file: CalRead) returns (ret: int)
      modifies this`cal
      ensures cal == CalibrationFrom(file, old(cal))
      ensures ret == OpenCalibrationRet(file, old(cal))
      ensures file.ReadOpenFailed? ==> cal == Zero && ret == file.err
      ensures file.Read? && file.count <= 0 ==> cal == old(cal) && ret == -EIO
      ensures file.Read? && file.count > 0 ==>
        cal == file.v && (ret == file.count <==> file.count == CalFileSize && file.v != Zero)
    {
      match file
      case ReadOpenFailed(e) =>
        cal := Zero;
        return e;
      case Read(count, v) =>
        if count > 0 {
          cal := v;
        }
        ret := if count != CalFileSize then -EIO else count;
        if cal == Zero {
          return -EIO;
        }
    }

    /**
     * `bmg160_set_enable`: only a real 0 -> 1 or 1 -> 0 transition does
     * anything; a repeated request leaves every field as it was.
     */
    method SetEnable(en: int, file: CalRead)
      requires Valid()
      modifies this
      ensures Valid()
      ensures enable == (if en != 0 then 1 else 0)
      ensures old(enable) == enable ==>
                workPending == old(workPending) && cal == old(cal) && hw == old(hw)
      ensures old(enable) == 0 && enable == 1 ==>
                cal == CalibrationFrom(file, old(cal)) && workPending &&
                hw == old(hw) + [SetMode(k.modeNormal)]
      ensures old(enable) == 1 && enable == 0 ==>
                cal == old(cal) && !workPending && hw == old(hw) + [SetMode(k.modeSuspend)]
      ensures gyroDps == old(gyroDps) && gyroData == old(gyroData) && i2cFailCnt == old(i2cFailCnt)
    {
      var preEnable := enable;
      if en != 0 {
        if preEnable == 0 {
          var calRet := OpenCalibration(file);
          hw := hw + [SetMode(k.modeNormal)];
          workPending := true;
          enable := 1;
        }
      } else {
        if preEnable == 1 {
          hw := hw + [SetMode(k.modeSuspend)];
          workPending := false;
          enable := 0;
        }
      }
    }

    /** `bmg160_enable_store`: a parse error is returned; only the values 0 and 1 act. */
    method EnableStore(parsed: ParsedU8, size: int, file: CalRead) returns (ret: int)
      requires Valid()
      modifies this
      ensures Valid()
      ensures ret == (if parsed.ParseError? then parsed.err else size)
      ensures parsed.Value? && (parsed.v == 0 || parsed.v == 1) ==> enable == parsed.v
      ensures !(parsed.Value? && (parsed.v == 0 || parsed.v == 1)) ==>
                enable == old(enable) && workPending == old(workPending) &&
                cal == old(cal) && hw == old(hw)
      ensures gyroDps == old(gyroDps) && gyroData == old(gyroData) && i2cFailCnt == old(i2cFailCnt)
    {
      if parsed.ParseError? {
        return parsed.err;
      }
      if parsed.v == 0 || parsed.v == 1 {
        SetEnable(parsed.v, file);
      }
      return size;
    }

    /** `bmg160_selftest_dps_store` on the parsed value. */
    method SelftestDpsStore(newdps: int)
      modifies this`gyroDps
      ensures gyroDps == DpsFromInput(k, newdps)
    {
      gyroDps := DpsFromInput(k, newdps);
    }

    /**
     * `bmg160_work_func`, one run of the polling work on the registers it
     * reads.  A failed read counts; once the count exceeds the limit the
     * run reports nothing and does not queue itself again.  Otherwise it
     * reports the corrected sample once (see the finding on the double
     * offset), stores it and queues itself again.
     */
    method WorkFunc(regs: RateRegs, readOk: bool)
      requires Valid() && workPending
      modifies this`i2cFailCnt, this`workPending, this`gyroData, this`hw
      ensures Valid()
      ensures i2cFailCnt == old(i2cFailCnt) + (if readOk then 0 else 1)
      ensures workPending <==> i2cFailCnt <= I2cFailLimit
      ensures i2cFailCnt > I2cFailLimit ==> hw == old(hw) && gyroData == old(gyroData)
      ensures i2cFailCnt <= I2cFailLimit ==>
                gyroData == ReadAxes(k, regs, gyroDps, cal) &&
                hw == old(hw) + [Report(ReadAxes(k, regs, gyroDps, cal))]
    {
      var gyro := ReadAxes(k, regs, gyroDps, cal);
      if !readOk {
        i2cFailCnt := i2cFailCnt + 1;
      }
      if i2cFailCnt > I2cFailLimit {
        workPending := false;
        return;
      }
      hw := hw + [Report(gyro)];
      gyroData := gyro;
      workPending := true;
    }

    /**
     * The sampling loop of `bmg160_do_calibrate`: one block read per
     * sample, each scaled at the current range with the offsets it reads
     * (cleared by then), summed per axis.
     */
    method SampleSums(samples: seq<RateRegs>) returns (sumX: int, sumY: int, sumZ: int)
      requires |samples| == CalibrationDataAmount && cal == Zero
      ensures sumX == Sum(Readings(k, samples, gyroDps), X)
      ensures sumY == Sum(Readings(k, samples, gyroDps), Y)
      ensures sumZ == Sum(Readings(k, samples, gyroDps), Z)
    {
      ghost var r := Readings(k, samples, gyroDps);
      sumX, sumY, sumZ := 0, 0, 0;
      var cnt := 0;
      while cnt < CalibrationDataAmount
        invariant 0 <= cnt <= CalibrationDataAmount
        invariant sumX == Sum(r[..cnt], X) && sumY == Sum(r[..cnt], Y) && sumZ == Sum(r[..cnt], Z)
      {
        var gyro := ReadAxes(k, samples[cnt], gyroDps, cal);
        assert r[..cnt + 1][..cnt] == r[..cnt];
        sumX := sumX + gyro.x;
        sumY := sumY + gyro.y;
        sumZ := sumZ + gyro.z;
        cnt := cnt + 1;
      }
      assert r[..cnt] == r;
    }

    /**
     * `bmg160_do_calibrate`.  Enabling clears the offsets, takes the
     * samples (with the work cancelled, or the chip woken, meanwhile) and
     * sets each offset to the truncated mean of its axis; disabling clears
     * the offsets.  The offsets are then written to the calibration file.
     */
    method DoCalibrate(en: int, samples: seq<RateRegs>, file: CalWrite) returns (ret: int)
      requires Valid() && |samples| == CalibrationDataAmount
      modifies this`cal, this`workPending, this`hw
      ensures Valid()
      ensures cal == (if en != 0 then Offsets(Readings(k, samples, gyroDps)) else Zero)
      ensures workPending == (if en != 0 then enable == 1 else old(workPending))
      ensures hw == old(hw) +
                (if en != 0 && enable != 1 then [SetMode(k.modeNormal), SetMode(k.modeSuspend)] else []) +
                (if file.Written? then [StoreCalibration(cal)] else [])
      ensures ret == CalibrateRet(file)
    {
      ghost var hw0 := hw;
      if en != 0 {
        cal := Zero;
        if enable == 1 {
          workPending := false;
        } else {
          hw := hw + [SetMode(k.modeNormal)];
        }
        ghost var r := Readings(k, samples, gyroDps);
        var sumX, sumY, sumZ := SampleSums(samples);
        if enable == 1 {
          workPending := true;
        } else {
          hw := hw + [SetMode(k.modeSuspend)];
        }
        cal := Axes(Wrap16(TruncDiv(sumX, CalibrationDataAmount)),
                    Wrap16(TruncDiv(sumY, CalibrationDataAmount)),
                    Wrap16(TruncDiv(sumZ, CalibrationDataAmount)));
        assert cal == Offsets(r) by {
          TruncDivBounds(sumX) by { SumBounds(r, X); }
          TruncDivBounds(sumY) by { SumBounds(r, Y); }
          TruncDivBounds(sumZ) by { SumBounds(r, Z); }
        }
      } else {
        cal := Zero;
      }
      ghost var hw1 := hw;
      match file
      case WriteOpenFailed(e) =>
        ret := e;
      case Written(count) =>
        hw := hw + [StoreCalibration(cal)];
        ret := if count != CalFileSize then -EIO else count;
      assert hw == hw1 + (if file.Written? then [StoreCalibration(cal)] else []);
    }
  }
}
