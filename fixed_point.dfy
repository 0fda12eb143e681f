/**
 * The fixed-point register codec of the IO-module configuration code: a
 * physical value becomes the two 16-bit holding-register words of its value
 * in thousandths, rounded half away from zero, range-checked as a signed
 * 32-bit integer and split big-endian (high word first).
 */
module FixedPoint {
  import opened Wrappers
  import opened ByteCodec

  /** A Python float as this code looks at it: a finite real number, or inf / nan. */
  datatype Float = Finite(value: real) | NonFinite

  const MinInt32: int := -0x8000_0000
  const MaxInt32: int := 0x7FFF_FFFF

  predicate InInt32(n: int) {
    MinInt32 <= n <= MaxInt32
  }

  /** `value * 1000`; a non-finite value stays non-finite. */
  function Scaled(value: Float): Float {
    match value
    case Finite(x) => Finite(x * 1000.0)
    case NonFinite => NonFinite
  }

  /**
   * `math.floor(s + 0.5)` for `s >= 0` and `math.ceil(s - 0.5)` otherwise:
   * the nearest integer, halves going away from zero.
   */
  function RoundHalfAway(s: real): (n: int)
    ensures -0.5 <= n as real - s <= 0.5
    ensures s >= 0.0 ==> n >= 0
    ensures s <= 0.0 ==> n <= 0
  {
    if s >= 0.0 then (s + 0.5).Floor else -((0.5 - s).Floor)
  }

  /** `struct.unpack('>HH', struct.pack('>i', n))` for a value in the signed 32-bit range. */
  function PackWords(n: int): (w: (u16, u16))
    ensures w.0 * Pow16Bits + w.1 == n % Pow32
  {
    var u := n % Pow32;
    (u / Pow16Bits, u % Pow16Bits)
  }

  /** Two words read back high word first as a two's-complement 32-bit integer (`struct.unpack('>i', ...)`). */
  function Signed32(hi: u16, lo: u16): (n: int)
    ensures InInt32(n)
    ensures n % Pow32 == hi * Pow16Bits + lo
  {
    var u := hi * Pow16Bits + lo;
    if u <= MaxInt32 then u else u - Pow32
  }

  /**
   * `convert_to_32int_registers`: a non-finite scaled value raises ValueError
   * before any range check; a rounded value outside the signed 32-bit range
   * raises ValueError and is never clamped; otherwise the two words, read
   * back as a signed integer, give the rounded value exactly.
   */
  function ConvertTo32IntRegisters(value: Float): (r: Result<(u16, u16), PyError>)
    ensures value.NonFinite? ==> r == Err(ValueError)
    ensures value.Finite? ==> (r.Ok? <==> InInt32(RoundHalfAway(value.value * 1000.0)))
    ensures r.Ok? ==> Signed32(r.value.0, r.value.1) == RoundHalfAway(value.value * 1000.0)
  {
    var scaled := Scaled(value);
    if scaled.NonFinite? then Err(ValueError)
    else
      var n := RoundHalfAway(scaled.value);
      if n < MinInt32 || n > MaxInt32 then Err(ValueError)
      else
        SignedOfPack(n);
        Ok(PackWords(n))
  }

  /**
   * `[convert_to_32int_registers(v) for v in values]`: the first value that
   * fails raises its error; otherwise one pair of words per value, in order.
   */
  function ConvertAll(values: seq<Float>): (r: Result<seq<(u16, u16)>, PyError>)
    ensures r.Ok? <==> forall i :: 0 <= i < |values| ==> ConvertTo32IntRegisters(values[i]).Ok?
    ensures r.Ok? ==> |r.value| == |values|
    ensures r.Ok? ==> forall i :: 0 <= i < |values| ==> ConvertTo32IntRegisters(values[i]) == Ok(r.value[i])
  {
    if values == [] then Ok([])
    else
      var first :- ConvertTo32IntRegisters(values[0]);
      var rest :- ConvertAll(values[1..]);
      assert forall i :: 1 <= i < |values| ==> values[i] == values[1..][i - 1];
      Ok([first] + rest)
  }

  // ---------------------------------------------------------------------------
  // Lemmas

  /** Packing then reading back as signed recovers every value of the signed 32-bit range. */
  lemma SignedOfPack(n: int)
    requires InInt32(n)
    ensures Signed32(PackWords(n).0, PackWords(n).1) == n
  {
    var w := PackWords(n);
    if n < 0 {
      assert n % Pow32 == n + Pow32;
    }
  }

  /** Two words are determined by the signed value they read back as: packing it gives them again. */
  lemma PackOfSigned(hi: u16, lo: u16)
    ensures PackWords(Signed32(hi, lo)) == (hi, lo)
  {
    var n := Signed32(hi, lo);
    var u := hi * Pow16Bits + lo;
    assert n % Pow32 == u;
    assert u / Pow16Bits == hi && u % Pow16Bits == lo;
  }

  /** Rounding commutes with negation: `round(-s) == -round(s)`. */
  lemma RoundOdd(s: real)
    ensures RoundHalfAway(-s) == -RoundHalfAway(s)
  {
    if s > 0.0 {
      assert RoundHalfAway(-s) == -((0.5 + s).Floor);
    } else if s < 0.0 {
      assert RoundHalfAway(-s) == (-s + 0.5).Floor;
    }
  }

  /** No integer is closer to `s` than the rounded value. */
  lemma RoundNearest(s: real, m: int)
    ensures Abs(RoundHalfAway(s) as real - s) <= Abs(m as real - s)
  {
    var n := RoundHalfAway(s);
    var d := n as real - s;
    assert Abs(d) <= 0.5;
    if m > n {
      assert m as real >= n as real + 1.0;
      assert m as real - s >= 0.5;
    } else if m < n {
      assert m as real <= n as real - 1.0;
      assert s - m as real >= 0.5;
    }
  }

  /** Halves go away from zero: k + 0.5 rounds to k + 1 and -(k + 0.5) to -(k + 1). */
  lemma RoundHalves(k: nat)
    ensures RoundHalfAway(k as real + 0.5) == k + 1
    ensures RoundHalfAway(-(k as real + 0.5)) == -(k + 1)
  {
    RoundOdd(k as real + 0.5);
  }

  /** An integral scaled value is kept as it is. */
  lemma RoundIntegral(k: int)
    ensures RoundHalfAway(k as real) == k
  {
  }

  function Abs(x: real): real {
    if x < 0.0 then -x else x
  }

  /** The ends of the range: 2147483.647 and -2147483.648 convert, one thousandth beyond either raises; -0.001 packs as all ones. */
  lemma ConvertRangeEnds()
    ensures ConvertTo32IntRegisters(Finite(2147483.647)) == Ok((0x7FFF, 0xFFFF))
    ensures ConvertTo32IntRegisters(Finite(-2147483.648)) == Ok((0x8000, 0x0000))
    ensures ConvertTo32IntRegisters(Finite(2147483.648)) == Err(ValueError)
    ensures ConvertTo32IntRegisters(Finite(-2147483.649)) == Err(ValueError)
    ensures ConvertTo32IntRegisters(Finite(-0.001)) == Ok((0xFFFF, 0xFFFF))
  {
    RoundIntegral(2147483647);
    RoundIntegral(-2147483648);
    RoundIntegral(2147483648);
    RoundIntegral(-2147483649);
    RoundIntegral(-1);
    assert 2147483.647 * 1000.0 == 2147483647 as real;
    assert -2147483.648 * 1000.0 == -2147483648 as real;
    assert 2147483.648 * 1000.0 == 2147483648 as real;
    assert -2147483.649 * 1000.0 == -2147483649 as real;
    assert -0.001 * 1000.0 == -1 as real;
  }
}
