/** What `ESPEED32_V2_06/HAL.cpp` adds to the shared hardware layer: the
    14-bit field words of the TLE493D-P3B6 sensor and the sign used to fold
    the angle. Its divider, W2B6 decoding, filter and PWM dispatch are the
    ones of module `Hal`. */
module HalV206 {
  import opened Settings
  import opened Hal

  /** Sign extension of a 14-bit field value held in `0..16383`. */
  function Signed14(v: int): (r: int)
    requires 0 <= v < 16384
    ensures -8192 <= r < 8192
    ensures (r - v) % 16384 == 0
  {
    if v >= 8192 then v - 16384 else v
  }

  /** One P3B6 field: the high byte in the top eight bits and the low six
      bits of the low byte below it, shifted up by two so that the sign bit
      lands in bit 15 of the `int16_t` cast, then shifted back arithmetically
      (`>> 2` on a negative `int` rounds down, as Dafny's `/` by a positive
      number does). */
  function P3B6Field(hi: Byte, lo: Byte): (r: int)
    ensures -8192 <= r < 8192
  {
    CastShift((hi as int) * 64 + (lo as int) % 64);
    ToI16(P3B6Word(hi, lo)) / 4
  }

  /** `(hi << 8) | ((lo & 0x3F) << 2)`: the or never carries, because the
      shifted byte has zero low bits (`P3B6WordBits`). */
  function P3B6Word(hi: Byte, lo: Byte): (w: int)
    ensures 0 <= w < 0x1_0000
  {
    (hi as int) * 256 + ((lo as int) % 64) * 4
  }

  /** The reading's X and Y fields from the four bytes read. */
  function P3B6X(buf: seq<Byte>): (r: int)
    requires |buf| == 4
    ensures -8192 <= r < 8192
  {
    P3B6Field(buf[0], buf[1])
  }

  function P3B6Y(buf: seq<Byte>): (r: int)
    requires |buf| == 4
    ensures -8192 <= r < 8192
  {
    P3B6Field(buf[2], buf[3])
  }

  /** The cast-and-shift trick is the 14-bit two's-complement value of the
      byte and six bits: sign-extending `hi * 64 + (lo & 0x3F)` from 14 bits,
      and reading the field modulo 16384 gives those bits back. */
  lemma P3B6FieldIs(hi: Byte, lo: Byte)
    ensures P3B6Field(hi, lo) == Signed14((hi as int) * 64 + (lo as int) % 64)
    ensures (P3B6Field(hi, lo) + 16384) % 16384 == (hi as int) * 64 + (lo as int) % 64
  {
    CastShift((hi as int) * 64 + (lo as int) % 64);
  }

  /** The C expression of the word, evaluated bitwise in 32-bit `int`, is
      `P3B6Word`. */
  lemma P3B6WordBits(hi: Byte, lo: Byte)
    ensures (((hi as bv32) << 8) | (((lo & 0x3F) as bv32) << 2)) as int == P3B6Word(hi, lo)
  {
    LowSix(lo);
    Word16(hi, lo);
  }

  lemma LowSix(lo: Byte)
    ensures (lo & 0x3F) as int == (lo as int) % 64
  {
  }

  lemma Word16(hi: Byte, lo: Byte)
    ensures (((hi as bv32) << 8) | (((lo & 0x3F) as bv32) << 2)) as int
            == (hi as int) * 256 + ((lo & 0x3F) as int) * 4
  {
  }

  /** Casting `4 * v` to `int16_t` and dividing by four sign-extends `v`
      from 14 bits. */
  lemma CastShift(v: int)
    requires 0 <= v < 16384
    ensures ToI16(4 * v) / 4 == Signed14(v)
    ensures (Signed14(v) + 16384) % 16384 == v
  {
    if v >= 8192 {
      assert ToI16(4 * v) == 4 * v - 0x1_0000;
      assert (4 * v - 0x1_0000) / 4 == v - 16384;
    } else {
      assert ToI16(4 * v) == 4 * v;
    }
  }

  /** `xSign`: -1 for a negative X, 1 otherwise. */
  function XSign(x: int): (r: int)
    ensures r == -1 || r == 1
    ensures r == -1 <==> x < 0
  {
    if x < 0 then -1 else 1
  }

  /** Folding Y by the sign of X makes `Y * xSign` non-negative exactly
      when Y and X lie on the same side of zero, or Y is zero. */
  lemma XSignFolds(x: int, y: int)
    ensures y * XSign(x) >= 0 <==> (y == 0 || (y > 0) == (x >= 0))
    ensures -8192 <= y < 8192 ==> -8192 <= y * XSign(x) <= 8192
  {
    if x < 0 {
      assert y * XSign(x) == -y;
    } else {
      assert y * XSign(x) == y;
    }
  }

  /** The integer part of one P3B6 trigger read: the two fields and the
      folded Y the angle is taken from. */
  datatype P3B6Reading = P3B6Reading(x: int, y: int, foldedY: int)

  function ReadP3B6(buf: seq<Byte>): (r: P3B6Reading)
    requires |buf| == 4
    ensures -8192 <= r.x < 8192 && -8192 <= r.y < 8192
    ensures r.foldedY == r.y * XSign(r.x)
  {
    var x := P3B6X(buf);
    var y := P3B6Y(buf);
    P3B6Reading(x, y, y * XSign(x))
  }

  /** The board's supply reading, with the resistors of `HAL.h`. */
  lemma SupplyReading(a: U32, b: U32)
    requires a <= b <= ACD_RESOLUTION_STEPS
    ensures ReadVoltageDivider(a, RVIFBL, RVIFBH) == PinMillivolts(a) * 12200 / 2200
    ensures PinMillivolts(a) <= ReadVoltageDivider(a, RVIFBL, RVIFBH) <= 19819
    ensures ReadVoltageDivider(a, RVIFBL, RVIFBH) <= ReadVoltageDivider(b, RVIFBL, RVIFBH)
  {
    BoardDivider(a, b);
  }
}
