/** The integer part of the hardware layer of the ESPEED32 board
    (`ESPEED32/HAL.cpp`): ADC counts to millivolts through a resistor divider,
    ADC counts to motor milliamps, the TLE493D-W2B6 field words and their 3:1
    smoothing filter, and the PWM channel dispatch. The same divider, W2B6
    decoding, filter and dispatch appear unchanged in `ESPEED32_V2_06/HAL.cpp`. */
module Hal {
  import opened Settings

  /** C `uint32_t`. */
  type U32 = x: int | 0 <= x < 0x1_0000_0000

  /** Arithmetic in `uint32_t`: reduction modulo 2^32. */
  function ToU32(v: int): (r: U32)
    ensures 0 <= v < 0x1_0000_0000 ==> r == v
    ensures (v - r) % 0x1_0000_0000 == 0
  {
    v % 0x1_0000_0000
  }

  /** C integer division of a signed value by a positive one: the quotient
      is truncated toward zero, unlike Dafny's Euclidean `/`. */
  function CDiv(a: int, b: int): (r: int)
    requires b > 0
    ensures a >= 0 ==> r * b <= a < (r + 1) * b
    ensures a < 0 ==> (r - 1) * b < a <= r * b
  {
    if a >= 0 then a / b else -((-a) / b)
  }

  /** ADC full scale: 12 bits. */
  const ACD_RESOLUTION_STEPS := 4095
  /** Calibration of the ADC reference. */
  const VIN_CAL_SET := 1200
  const VIN_CAL_READ := 1108
  /** Calibrated ADC voltage range in millivolts; the C integer expression
      evaluates to 3574. */
  const ACD_VOLTAGE_RANGE_MVOLTS := (3300 * VIN_CAL_SET) / VIN_CAL_READ
  /** Resistors of the supply-voltage divider, in ohms. */
  const RVIFBL := 2200
  const RVIFBH := 10000

  lemma RangeIs3574()
    ensures ACD_VOLTAGE_RANGE_MVOLTS == 3574
  {
  }

  /** Millivolts at the ADC pin for a raw count, in `uint32_t` arithmetic. */
  function PinMillivolts(adcRaw: U32): (r: U32)
    ensures adcRaw <= ACD_RESOLUTION_STEPS ==> r <= ACD_VOLTAGE_RANGE_MVOLTS
  {
    ToU32(ACD_VOLTAGE_RANGE_MVOLTS * adcRaw) / ACD_RESOLUTION_STEPS
  }

  /** Within the ADC range the pin voltage is the exact scaled value rounded
      down: the largest number of millivolts whose count does not exceed the
      raw count. */
  lemma PinMillivoltsFloor(adcRaw: U32)
    requires adcRaw <= ACD_RESOLUTION_STEPS
    ensures var v := PinMillivolts(adcRaw);
            v * ACD_RESOLUTION_STEPS <= ACD_VOLTAGE_RANGE_MVOLTS * adcRaw
            < (v + 1) * ACD_RESOLUTION_STEPS
  {
    PinMillivoltsExact(adcRaw);
    var n := 3574 * adcRaw;
    assert n == 4095 * (n / 4095) + n % 4095;
  }

  /** Within the ADC range a larger count never reads as fewer millivolts. */
  lemma PinMillivoltsMonotone(a: U32, b: U32)
    requires a <= b <= ACD_RESOLUTION_STEPS
    ensures PinMillivolts(a) <= PinMillivolts(b)
  {
    RangeIs3574();
    PinMillivoltsExact(a);
    PinMillivoltsExact(b);
    MulMonotone(3574, a, b);
    DivMonotone(3574 * a, 3574 * b, 4095);
  }

  lemma PinMillivoltsExact(a: U32)
    requires a <= ACD_RESOLUTION_STEPS
    ensures PinMillivolts(a) == 3574 * a / 4095
  {
    RangeIs3574();
    MulMonotone(3574, a, 4095);
  }

  lemma DivMonotone(x: nat, y: nat, d: nat)
    requires x <= y && d > 0
    ensures x / d <= y / d
  {
    var qx, qy := x / d, y / d;
    assert x == d * qx + x % d && y == d * qy + y % d;
    if qx > qy {
      assert d * qx >= d * (qy + 1) by {
        MulMonotone(d, qy + 1, qx);
      }
      assert false;
    }
  }

  lemma MulMonotone(d: nat, a: nat, b: nat)
    requires a <= b
    ensures d * a <= d * b
  {
    assert d * b == d * a + d * (b - a);
  }

  /** `HAL_ReadVoltageDivider` after `analogRead`: the pin voltage scaled by
      the divider ratio `(rvfbl + rvfbh) / rvfbl`, every step in `uint32_t`,
      returned as `uint16_t`. A zero `rvfbl` divides by zero in C, so the
      caller must supply a positive one. */
  function ReadVoltageDivider(adcRaw: U32, rvfbl: U32, rvfbh: U32): (r: U16)
    requires rvfbl > 0
    ensures var pin := PinMillivolts(adcRaw);
            rvfbl + rvfbh < 0x1_0000_0000 && pin * (rvfbl + rvfbh) < 0x1_0000_0000
              && pin * (rvfbl + rvfbh) / rvfbl < 0x1_0000
            ==> r == pin * (rvfbl + rvfbh) / rvfbl && pin <= r
  {
    var pin := PinMillivolts(adcRaw);
    DividerNoWrap(pin, rvfbl, rvfbh);
    ToU16(ToU32(pin * ToU32(rvfbl + rvfbh)) / rvfbl)
  }

  /** When no step wraps, the `uint32_t` and `uint16_t` reductions change
      nothing and the ratio is at least one. */
  lemma DividerNoWrap(pin: nat, l: U32, h: U32)
    requires l > 0
    ensures l + h < 0x1_0000_0000 && pin * (l + h) < 0x1_0000_0000 && pin * (l + h) / l < 0x1_0000 ==>
              ToU16(ToU32(pin * ToU32(l + h)) / l) == pin * (l + h) / l >= pin
  {
    if l + h < 0x1_0000_0000 && pin * (l + h) < 0x1_0000_0000 && pin * (l + h) / l < 0x1_0000 {
      var n := pin * (l + h);
      assert ToU32(l + h) == l + h;
      assert ToU32(n) == n;
      MulDivAtLeast(pin, l, h);
    }
  }

  lemma MulDivAtLeast(p: nat, l: nat, h: nat)
    requires l > 0
    ensures p * (l + h) / l >= p
  {
    assert p * (l + h) == p * l + p * h;
    assert (p * l + p * h) / l == p + (p * h) / l by {
      DivAddMultiple(p * h, p, l);
    }
  }

  lemma DivAddMultiple(x: nat, p: nat, l: nat)
    requires l > 0
    ensures (p * l + x) / l == p + x / l
  {
    var q, m := x / l, x % l;
    assert x == l * q + m && 0 <= m < l;
    assert p * l + x == l * (p + q) + m;
    DivUnique(p * l + x, l, p + q, m);
  }

  /** Euclidean division has one quotient and remainder. */
  lemma DivUnique(n: nat, l: nat, q: nat, m: nat)
    requires l > 0 && m < l && n == l * q + m
    ensures n / l == q
  {
    var q', m' := n / l, n % l;
    assert l * (q' - q) == m - m' by {
      assert n == l * q' + m';
      MulSub(l, q', q);
    }
    MulBound(l, q' - q, m - m');
  }

  lemma MulSub(l: int, a: int, b: int)
    ensures l * (a - b) == l * a - l * b
  {
  }

  /** A multiple of `l` strictly between `-l` and `l` is zero. */
  lemma MulBound(l: int, k: int, e: int)
    requires l > 0 && l * k == e && -l < e < l
    ensures k == 0
  {
    if k >= 1 {
      MulMonotone(l, 1, k);
    }
  }

  /** With the board's resistors and any count of the 12-bit ADC, no step of
      the divider reading wraps: it is at most 19819 mV, at least the pin
      voltage, and a larger count never reads lower. */
  lemma BoardDivider(a: U32, b: U32)
    requires a <= b <= ACD_RESOLUTION_STEPS
    ensures ReadVoltageDivider(a, RVIFBL, RVIFBH) == PinMillivolts(a) * (RVIFBL + RVIFBH) / RVIFBL
    ensures PinMillivolts(a) <= ReadVoltageDivider(a, RVIFBL, RVIFBH) <= 19819
    ensures ReadVoltageDivider(a, RVIFBL, RVIFBH) <= ReadVoltageDivider(b, RVIFBL, RVIFBH)
  {
    BoardDividerExact(a);
    BoardDividerExact(b);
    PinMillivoltsMonotone(a, b);
    DivMonotone(PinMillivolts(a) * 12200, PinMillivolts(b) * 12200, 2200);
  }

  lemma BoardDividerExact(a: U32)
    requires a <= ACD_RESOLUTION_STEPS
    ensures ReadVoltageDivider(a, RVIFBL, RVIFBH) == PinMillivolts(a) * 12200 / 2200
    ensures PinMillivolts(a) <= ReadVoltageDivider(a, RVIFBL, RVIFBH) <= 19819
  {
    var pin := PinMillivolts(a);
    assert pin * 12200 <= 3574 * 12200;
    DivMonotone(pin * 12200, 3574 * 12200, 2200);
  }

  /** `HAL_ReadMotorCurrent` after `analogRead`: the pin voltage times 7.752
      (the BTN9960LV sense ratio through its 2.2 kOhm divider), in `uint32_t`,
      returned as `uint16_t`. */
  function ReadMotorCurrent(adcRaw: U32): (r: U16)
    ensures adcRaw <= ACD_RESOLUTION_STEPS ==>
              && r <= 27705
              && r * 1000 <= PinMillivolts(adcRaw) * 7752 < (r + 1) * 1000
  {
    var pin := PinMillivolts(adcRaw);
    CurrentFits(pin);
    ToU16(ToU32(pin * 7752) / 1000)
  }

  /** Within the calibrated range the scaled current fits both `uint32_t`
      and the `uint16_t` result. */
  lemma CurrentFits(pin: nat)
    ensures pin <= ACD_VOLTAGE_RANGE_MVOLTS ==> pin * 7752 < 0x1_0000_0000 && pin * 7752 / 1000 <= 27705
  {
    RangeIs3574();
    if pin <= 3574 {
      MulMonotone(7752, pin, 3574);
      DivMonotone(pin * 7752, 3574 * 7752, 1000);
    }
  }

  /** Within the ADC range the current reading is exact: 0 for a zero count,
      at most 27705 mA, the pin voltage times 7752/1000 rounded down, and a
      larger count never reads as less current. */
  lemma MotorCurrentInRange(a: U32, b: U32)
    requires a <= b <= ACD_RESOLUTION_STEPS
    ensures ReadMotorCurrent(a) * 1000 <= PinMillivolts(a) * 7752 < (ReadMotorCurrent(a) + 1) * 1000
    ensures ReadMotorCurrent(a) <= 27705
    ensures ReadMotorCurrent(0) == 0
    ensures ReadMotorCurrent(a) <= ReadMotorCurrent(b)
  {
    PinMillivoltsMonotone(a, b);
    MotorCurrentExact(a);
    MotorCurrentExact(b);
    DivMonotone(PinMillivolts(a) * 7752, PinMillivolts(b) * 7752, 1000);
  }

  lemma MotorCurrentExact(a: U32)
    requires a <= ACD_RESOLUTION_STEPS
    ensures ReadMotorCurrent(a) == PinMillivolts(a) * 7752 / 1000 <= 27705
  {
    var pin := PinMillivolts(a);
    DivMonotone(pin * 7752, 3574 * 7752, 1000);
  }

  /** A TLE493D register byte. */
  type Byte = bv8

  /** Sign extension of a 12-bit field value held in `0..4095`: values from
      2048 up are negative, as `if (x >= 2048) x -= 4096` makes them. */
  function Signed12(v: int): (r: int)
    requires 0 <= v < 4096
    ensures -2048 <= r < 2048
    ensures (r - v) % 4096 == 0
  {
    if v >= 2048 then v - 4096 else v
  }

  /** The X field of a W2B6 read: the eight bits of `data[0]` above the
      high nibble of `data[4]`, stored in an `int16_t`, then sign-extended
      from 12 bits. */
  function W2B6X(data: seq<Byte>): (r: int)
    requires |data| == 7
    ensures -2048 <= r < 2048
  {
    Field12(HighWord(data[0], data[4]))
  }

  /** The Y field: `data[1]` above the low nibble of `data[4]`. */
  function W2B6Y(data: seq<Byte>): (r: int)
    requires |data| == 7
    ensures -2048 <= r < 2048
  {
    Field12(LowWord(data[1], data[4]))
  }

  /** The 12-bit word after its assignment to `int16_t` (where it fits),
      sign-extended. */
  function Field12(w: int): (r: int)
    requires 0 <= w < 4096
    ensures r == Signed12(w)
  {
    var x := ToI16(w);
    if x >= 2048 then x - 4096 else x
  }

  /** `(hi << 4) | (lo >> 4)`: a byte above the high nibble of another.
      The or never carries, because the shifted byte has a zero low nibble,
      so the word is the byte times 16 plus the nibble (`HighWordBits`). */
  function HighWord(hi: Byte, lo: Byte): (w: int)
    ensures 0 <= w < 4096
  {
    (hi as int) * 16 + (lo as int) / 16
  }

  /** `(hi << 4) | (lo & 0x0F)`: a byte above the low nibble of another
      (`LowWordBits`). */
  function LowWord(hi: Byte, lo: Byte): (w: int)
    ensures 0 <= w < 4096
  {
    (hi as int) * 16 + (lo as int) % 16
  }

  /** The C expression of the X word, evaluated bitwise in 32-bit `int`,
      is `HighWord`. */
  lemma HighWordBits(hi: Byte, lo: Byte)
    ensures (((hi as bv32) << 4) | ((lo as bv32) >> 4)) as int == HighWord(hi, lo)
  {
    HighWordValue(hi, lo);
    NibbleHigh(lo);
  }

  /** The C expression of the Y word is `LowWord`. */
  lemma LowWordBits(hi: Byte, lo: Byte)
    ensures (((hi as bv32) << 4) | ((lo & 0x0F) as bv32)) as int == LowWord(hi, lo)
  {
    LowWordValue(hi, lo);
    NibbleLow(lo);
  }

  lemma HighWordValue(hi: Byte, lo: Byte)
    ensures (((hi as bv32) << 4) | ((lo as bv32) >> 4)) as int
            == (hi as int) * 16 + ((lo >> 4) as int)
  {
  }

  lemma LowWordValue(hi: Byte, lo: Byte)
    ensures (((hi as bv32) << 4) | ((lo & 0x0F) as bv32)) as int
            == (hi as int) * 16 + ((lo & 0x0F) as int)
  {
  }

  /** The X and Y fields are the 12-bit two's-complement values of the byte
      and nibble the data sheet places them in: reading them back modulo 4096
      gives the raw bits. */
  lemma W2B6Fields(data: seq<Byte>)
    requires |data| == 7
    ensures W2B6X(data) == Signed12((data[0] as int) * 16 + (data[4] as int) / 16)
    ensures W2B6Y(data) == Signed12((data[1] as int) * 16 + (data[4] as int) % 16)
    ensures (W2B6X(data) + 4096) % 4096 == (data[0] as int) * 16 + (data[4] as int) / 16
    ensures (W2B6Y(data) + 4096) % 4096 == (data[1] as int) * 16 + (data[4] as int) % 16
  {
    Signed12Bits(HighWord(data[0], data[4]));
    Signed12Bits(LowWord(data[1], data[4]));
  }

  /** Sign extension keeps the low twelve bits. */
  lemma Signed12Bits(v: int)
    requires 0 <= v < 4096
    ensures (Signed12(v) + 4096) % 4096 == v
  {
  }

  lemma NibbleHigh(b: Byte)
    ensures (b >> 4) as int == (b as int) / 16
  {
  }

  lemma NibbleLow(b: Byte)
    ensures (b & 0x0F) as int == (b as int) % 16
  {
  }

  /** One step of the moving-average filter, `avg = (avg * 3 + x) / 4` with
      C's truncating division: the new average lies between the old one and
      the sample, so it never overshoots. */
  function Smooth(avg: int, x: int): (r: int)
    ensures (avg <= x ==> avg <= r <= x) && (x <= avg ==> x <= r <= avg)
  {
    CDiv(avg * 3 + x, 4)
  }

  /** A steady sample is a fixed point of the filter. */
  lemma SmoothSteady(v: int)
    ensures Smooth(v, v) == v
  {
  }

  /** The filter after the samples `xs`, starting from the static zero. */
  function SmoothAll(xs: seq<int>): int
  {
    if |xs| == 0 then 0 else Smooth(SmoothAll(xs[..|xs| - 1]), xs[|xs| - 1])
  }

  /** Fed samples within `[lo, hi]` and started from zero inside it, the
      average stays within `[lo, hi]`; for decoded fields that is
      `[-2048, 2047]`, so the `int16_t` never overflows. */
  lemma {:induction false} SmoothAllBounded(xs: seq<int>, lo: int, hi: int)
    requires lo <= 0 <= hi
    requires forall k :: 0 <= k < |xs| ==> lo <= xs[k] <= hi
    ensures lo <= SmoothAll(xs) <= hi
  {
    if |xs| > 0 {
      SmoothAllBounded(xs[..|xs| - 1], lo, hi);
    }
  }

  /** The averages the trigger read keeps between calls. */
  datatype Averages = Averages(x: int, y: int)

  /** The integer part of one W2B6 trigger read: decode both fields and
      fold them into the averages. */
  function W2B6Step(avg: Averages, data: seq<Byte>): (r: Averages)
    requires |data| == 7
    ensures -2048 <= avg.x < 2048 ==> -2048 <= r.x < 2048
    ensures -2048 <= avg.y < 2048 ==> -2048 <= r.y < 2048
  {
    Averages(Smooth(avg.x, W2B6X(data)), Smooth(avg.y, W2B6Y(data)))
  }

  /** Frames read in a loop from the zero averages: after every read both
      averages are within the 12-bit range. */
  method RunW2B6(frames: seq<seq<Byte>>) returns (avg: Averages)
    requires forall k :: 0 <= k < |frames| ==> |frames[k]| == 7
    ensures -2048 <= avg.x < 2048 && -2048 <= avg.y < 2048
    ensures avg.x == SmoothAll(XSamples(frames))
  {
    avg := Averages(0, 0);
    var i := 0;
    while i < |frames|
      invariant 0 <= i <= |frames|
      invariant -2048 <= avg.x < 2048 && -2048 <= avg.y < 2048
      invariant avg.x == SmoothAll(XSamples(frames[..i]))
    {
      assert XSamples(frames[..i + 1]) == XSamples(frames[..i]) + [W2B6X(frames[i])] by {
        XSamplesSnoc(frames[..i], frames[i]);
        assert frames[..i + 1] == frames[..i] + [frames[i]];
      }
      SmoothAllSnoc(XSamples(frames[..i]), W2B6X(frames[i]));
      avg := W2B6Step(avg, frames[i]);
      i := i + 1;
    }
    assert frames[..i] == frames;
  }

  /** The decoded X fields of a run of reads. */
  function XSamples(frames: seq<seq<Byte>>): (r: seq<int>)
    requires forall k :: 0 <= k < |frames| ==> |frames[k]| == 7
    ensures |r| == |frames|
  {
    seq(|frames|, k requires 0 <= k < |frames| => W2B6X(frames[k]))
  }

  lemma XSamplesSnoc(frames: seq<seq<Byte>>, d: seq<Byte>)
    requires forall k :: 0 <= k < |frames| ==> |frames[k]| == 7
    requires |d| == 7
    ensures XSamples(frames + [d]) == XSamples(frames) + [W2B6X(d)]
  {
  }

  lemma SmoothAllSnoc(xs: seq<int>, x: int)
    ensures SmoothAll(xs + [x]) == Smooth(SmoothAll(xs), x)
  {
    assert (xs + [x])[..|xs|] == xs;
  }

  /** PWM channels and the half-bridge pins they drive. */
  const THR_IN_PWM_CHAN := 0
  const THR_INH_PWM_CHAN := 1
  const HB_IN_PIN := 26
  const HB_INH_PIN := 27

  /** What one `HALanalogWrite` call does to the PWM hardware. */
  datatype PwmWrite = Write(pin: int, duty: U32) | NoWrite

  /** `HALanalogWrite`: the input channel drives the IN pin, the inhibit
      channel the INH pin, with the value cast to `uint32_t`; any other
      channel writes nothing. */
  function AnalogWrite(pwmChan: int, value: int): (r: PwmWrite)
    ensures r.Write? <==> pwmChan == THR_IN_PWM_CHAN || pwmChan == THR_INH_PWM_CHAN
    ensures r.Write? ==> r.duty == ToU32(value)
    ensures r.Write? ==> (r.pin == HB_IN_PIN <==> pwmChan == THR_IN_PWM_CHAN)
    ensures r.Write? ==> (r.pin == HB_INH_PIN <==> pwmChan == THR_INH_PWM_CHAN)
  {
    if pwmChan == THR_IN_PWM_CHAN then Write(HB_IN_PIN, ToU32(value))
    else if pwmChan == THR_INH_PWM_CHAN then Write(HB_INH_PIN, ToU32(value))
    else NoWrite
  }

  /** The two channels never drive the same pin, and an 8-bit duty value
      reaches the pin unchanged. */
  lemma AnalogWriteSeparates(c1: int, c2: int, v1: int, v2: int)
    requires AnalogWrite(c1, v1).Write? && AnalogWrite(c2, v2).Write?
    requires 0 <= v1 < 256
    ensures AnalogWrite(c1, v1).pin == AnalogWrite(c2, v2).pin <==> c1 == c2
    ensures AnalogWrite(c1, v1).duty == v1
  {
  }
}
