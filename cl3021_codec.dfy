/**
 * The helpers every CL3021 source-control frame is built with: the XOR check
 * byte, the binary-string-to-hex conversion, the string-slicing routine that
 * turns a scaled integer into a little-endian field, the gear tables and the
 * little-endian reading of the DC meter's reply.
 */
module Cl3021Codec {
  import opened Wrappers
  import opened HexText
  import opened ByteCodec

  // ---------------------------------------------------------------------------
  // Python slicing and integer parsing on the strings the builders produce

  /** `s[i:j]` for non-negative bounds: both bounds are clamped to the length. */
  function PySlice<T>(s: seq<T>, i: nat, j: nat): (r: seq<T>)
    ensures |r| <= j - i || (j <= i && r == [])
    ensures i <= j <= |s| ==> r == s[i..j]
  {
    var lo := if i < |s| then i else |s|;
    var hi := if j < |s| then j else |s|;
    if lo < hi then s[lo..hi] else []
  }

  /**
   * `int(s, 16)` on the digit strings the builders cut out: at least one
   * hexadecimal digit, and nothing else, reads as its value; anything else
   * raises ValueError.
   */
  function ParseHex(s: string): (r: Result<nat, PyError>)
    ensures r.Ok? <==> |s| >= 1 && IsHexString(s)
    ensures r.Ok? ==> r.value == HexValue(s) && r.value < Pow16(|s|)
  {
    if |s| >= 1 && IsHexString(s) then
      HexValueBound(s);
      Ok(HexValue(s))
    else Err(ValueError)
  }

  /** `int(s)` (base 10) on a digit string; anything else raises ValueError. */
  function ParseDec(s: string): (r: Result<nat, PyError>)
    ensures r.Ok? <==> |s| >= 1 && IsDecString(s)
  {
    if |s| >= 1 && IsDecString(s) then Ok(DecValue(s)) else Err(ValueError)
  }

  /** `hex(n)` for any integer: a negative value carries its sign before the prefix. */
  function PyHexInt(n: int): string
  {
    if n >= 0 then PyHex(n) else "-" + PyHex(-n)
  }

  // ---------------------------------------------------------------------------
  // xor_sum

  /** The exclusive or of all the bytes, folded from 0. */
  function XorAll(s: seq<byte>): bv8
  {
    if s == [] then 0 else XorAll(s[..|s| - 1]) ^ (s[|s| - 1] as bv8)
  }

  /** The check byte of a frame: the XOR of the bytes it covers, as a byte value. */
  function CheckByte(s: seq<byte>): (c: byte)
    ensures c as bv8 == XorAll(s)
  {
    BvRoundTrip(XorAll(s));
    XorAll(s) as int
  }

  /** `xor_sum`: the accumulator loop `result ^= number` over the list, from 0. */
  method XorSum(numbers: seq<byte>) returns (result: byte)
    ensures result == CheckByte(numbers)
  {
    result := 0;
    for i := 0 to |numbers|
      invariant result == CheckByte(numbers[..i])
    {
      assert numbers[..i + 1][..i] == numbers[..i];
      result := ((result as bv8) ^ (numbers[i] as bv8)) as int;
    }
    assert numbers[..|numbers|] == numbers;
  }

  lemma BvRoundTrip(x: bv8)
    ensures (x as int) as bv8 == x
  {
  }

  /** XOR over a concatenation is the XOR of the two parts. */
  lemma {:induction false} XorAllConcat(a: seq<byte>, b: seq<byte>)
    ensures XorAll(a + b) == XorAll(a) ^ XorAll(b)
    decreases |b|
  {
    if b == [] {
      assert a + b == a;
    } else {
      var b' := b[..|b| - 1];
      assert (a + b)[..|a + b| - 1] == a + b';
      XorAllConcat(a, b');
    }
  }

  /** The check byte does not depend on the order of the bytes it covers. */
  lemma {:induction false} XorAllPermutation(a: seq<byte>, b: seq<byte>)
    requires multiset(a) == multiset(b)
    ensures XorAll(a) == XorAll(b)
    decreases |a|
  {
    if a == [] {
      assert |b| == |multiset(b)| == 0;
    } else {
      var x := a[|a| - 1];
      var a' := a[..|a| - 1];
      assert a == a' + [x];
      assert x in multiset(b);
      var k :| 0 <= k < |b| && b[k] == x;
      var b' := b[..k] + b[k + 1..];
      RemoveAt(a, |a| - 1);
      RemoveAt(b, k);
      assert a[..|a| - 1] + a[|a|..] == a';
      XorAllPermutation(a', b');
    }
  }

  /** Taking out the byte at `k` takes it out of the multiset and out of the XOR. */
  lemma RemoveAt(s: seq<byte>, k: nat)
    requires k < |s|
    ensures multiset(s[..k] + s[k + 1..]) == multiset(s) - multiset{s[k]}
    ensures XorAll(s) == XorAll(s[..k] + s[k + 1..]) ^ (s[k] as bv8)
  {
    SplitAt(s, k);
    RemoveMultiset(s[..k], s[k], s[k + 1..]);
    RemoveXor(s[..k], s[k], s[k + 1..]);
  }

  lemma SplitAt(s: seq<byte>, k: nat)
    requires k < |s|
    ensures s == s[..k] + [s[k]] + s[k + 1..]
  {
  }

  lemma RemoveMultiset(front: seq<byte>, x: byte, back: seq<byte>)
    ensures multiset(front + back) == multiset(front + [x] + back) - multiset{x}
  {
    assert multiset(front + [x] + back) == multiset(front) + multiset{x} + multiset(back);
    assert multiset(front + back) == multiset(front) + multiset(back);
  }

  lemma RemoveXor(front: seq<byte>, x: byte, back: seq<byte>)
    ensures XorAll(front + [x] + back) == XorAll(front + back) ^ (x as bv8)
  {
    XorAllConcat(front + [x], back);
    XorAllConcat(front, [x]);
    XorAllConcat(front, back);
    XorOfOne(x);
    XorShuffle(XorAll(front), x as bv8, XorAll(back));
  }

  lemma XorOfOne(x: byte)
    ensures XorAll([x]) == x as bv8
  {
    assert [x][..0] == [];
  }

  lemma XorShuffle(p: bv8, x: bv8, q: bv8)
    ensures (p ^ x) ^ q == (p ^ q) ^ x
  {
  }

  /** Appending the check byte of a body makes the XOR over body and check zero. */
  lemma CheckByteCloses(body: seq<byte>)
    ensures XorAll(body + [CheckByte(body)]) == 0
  {
    assert (body + [CheckByte(body)])[..|body|] == body;
  }

  // ---------------------------------------------------------------------------
  // bin_to_hex

  predicate IsBinString(s: string) {
    forall i :: 0 <= i < |s| ==> s[i] == '0' || s[i] == '1'
  }

  /** `int(s, 2)` for a string of binary digits (the empty string reads as 0 here). */
  function BinValue(s: string): nat
    requires IsBinString(s)
  {
    if |s| == 0 then 0 else BinValue(s[..|s| - 1]) * 2 + (if s[|s| - 1] == '1' then 1 else 0)
  }

  function Pow2(k: nat): (p: nat)
    ensures p >= 1
  {
    if k == 0 then 1 else 2 * Pow2(k - 1)
  }

  /** The `width` lowest hexadecimal digits of `v`, lower case, most significant first. */
  function FixedHex(v: nat, width: nat): (s: string)
    ensures |s| == width && IsHexString(s)
    ensures forall i :: 0 <= i < |s| ==> s[i] != 'x'
  {
    if width == 0 then [] else FixedHex(v / 16, width - 1) + [LowerDigit(v % 16)]
  }

  /** What `bin_to_hex` computes: one lower-case hex digit per four bits, after left-padding to a multiple of four. */
  function BinToHexSpec(binary: string): Result<string, PyError>
  {
    if IsBinString(binary) then Ok(FixedHex(BinValue(binary), (|binary| + 3) / 4)) else Err(ValueError)
  }

  /**
   * `bin_to_hex`: zero-fills the string to a multiple of four, then for each
   * group of four appends `hex(int(group, 2))[2:]`.
   */
  method BinToHex(binary: string) returns (r: Result<string, PyError>)
    ensures r == BinToHexSpec(binary)
  {
    var padded := ZFill(binary, (|binary| + 3) / 4 * 4);
    ZFillBinary(binary, (|binary| + 3) / 4 * 4);
    r := HexGroups(padded, (|binary| + 3) / 4);
  }

  /** The loop of `bin_to_hex`: one digit per group of four, raising at the first group that is not binary. */
  method HexGroups(padded: string, ghost groups: nat) returns (r: Result<string, PyError>)
    requires |padded| == 4 * groups
    ensures IsBinString(padded) ==> r == Ok(FixedHex(BinValue(padded), groups))
    ensures !IsBinString(padded) ==> r == Err(ValueError)
  {
    var hexStr := "";
    var i := 0;
    ghost var n := 0;
    while i < |padded|
      invariant 0 <= i <= |padded| && i == 4 * n && n <= groups
      invariant IsBinString(padded[..i])
      invariant hexStr == FixedHex(BinValue(padded[..i]), n)
      decreases |padded| - i
    {
      var group := PySlice(padded, i, i + 4);
      assert group == padded[i..i + 4];
      if !(|group| >= 1 && IsBinString(group)) {
        GroupOfBinary(padded, i);
        return Err(ValueError);
      }
      var digit := LowerHex(BinValue(group));
      HexStep(padded, i, n);
      hexStr := hexStr + digit;
      i := i + 4;
      n := n + 1;
    }
    assert padded[..i] == padded;
    return Ok(hexStr);
  }

  /** Every group of four of a binary string is binary. */
  lemma GroupOfBinary(padded: string, i: nat)
    requires i + 4 <= |padded|
    ensures IsBinString(padded) ==> IsBinString(padded[i..i + 4])
  {
    if IsBinString(padded) {
      var g := padded[i..i + 4];
      assert forall k :: 0 <= k < 4 ==> g[k] == padded[i + k];
    }
  }

  /** One more group of four appends its hexadecimal digit to the rendering so far. */
  lemma HexStep(padded: string, i: nat, n: nat)
    requires i + 4 <= |padded| && i == 4 * n && IsBinString(padded[..i]) && IsBinString(padded[i..i + 4])
    ensures IsBinString(padded[..i + 4])
    ensures FixedHex(BinValue(padded[..i + 4]), n + 1)
         == FixedHex(BinValue(padded[..i]), n) + LowerHex(BinValue(padded[i..i + 4]))
  {
    GroupDigit(padded[i..i + 4]);
    BinStep(padded, i);
  }

  /** A group of four binary digits is one hexadecimal digit. */
  lemma GroupDigit(group: string)
    requires |group| == 4 && IsBinString(group)
    ensures BinValue(group) < 16
    ensures LowerHex(BinValue(group)) == [LowerDigit(BinValue(group))]
  {
    BinValueBound(group);
    assert Pow2(4) == 16;
  }

  /** One group of four more: the value grows by a factor 16 plus the group's value. */
  lemma BinStep(padded: string, i: nat)
    requires i + 4 <= |padded| && IsBinString(padded[..i]) && IsBinString(padded[i..i + 4])
    ensures IsBinString(padded[..i + 4])
    ensures BinValue(padded[..i + 4]) == BinValue(padded[..i]) * 16 + BinValue(padded[i..i + 4])
    ensures BinValue(padded[i..i + 4]) < 16
    ensures FixedHex(BinValue(padded[..i + 4]), i / 4 + 1)
         == FixedHex(BinValue(padded[..i]), i / 4) + [LowerDigit(BinValue(padded[i..i + 4]))]
  {
    assert padded[..i + 4] == padded[..i] + padded[i..i + 4];
    BinValueConcat(padded[..i], padded[i..i + 4]);
    BinValueBound(padded[i..i + 4]);
    assert Pow2(4) == 16;
    var a, g := BinValue(padded[..i]), BinValue(padded[i..i + 4]);
    assert (a * 16 + g) / 16 == a && (a * 16 + g) % 16 == g;
  }

  lemma {:induction false} BinValueConcat(a: string, b: string)
    requires IsBinString(a) && IsBinString(b)
    ensures IsBinString(a + b)
    ensures BinValue(a + b) == BinValue(a) * Pow2(|b|) + BinValue(b)
    decreases |b|
  {
    var ab := a + b;
    assert IsBinString(ab) by {
      forall i | 0 <= i < |ab| ensures ab[i] == '0' || ab[i] == '1' {
        if i < |a| { assert ab[i] == a[i]; } else { assert ab[i] == b[i - |a|]; }
      }
    }
    if |b| > 0 {
      var b' := b[..|b| - 1];
      assert ab[..|ab| - 1] == a + b';
      BinValueConcat(a, b');
      var va, vb', c, p := BinValue(a), BinValue(b'), (if b[|b| - 1] == '1' then 1 else 0), Pow2(|b'|);
      assert BinValue(ab) == BinValue(a + b') * 2 + c;
      assert BinValue(b) == vb' * 2 + c;
      ShiftBit(va, p, vb', c);
    } else {
      assert ab == a;
    }
  }

  lemma ShiftBit(a: nat, p: nat, b: nat, c: nat)
    ensures (a * p + b) * 2 + c == a * (p * 2) + (b * 2 + c)
  {
  }

  lemma {:induction false} BinValueBound(s: string)
    requires IsBinString(s)
    ensures BinValue(s) < Pow2(|s|)
  {
    if |s| > 0 {
      BinValueBound(s[..|s| - 1]);
    }
  }

  lemma {:induction false} BinZeros(k: nat)
    ensures IsBinString(Zeros(k)) && BinValue(Zeros(k)) == 0
  {
    if k > 0 {
      var z := Zeros(k);
      assert z[..k - 1] == Zeros(k - 1);
      BinZeros(k - 1);
      assert z[k - 1] == '0';
    }
  }

  /** Zero-filling keeps a binary string binary and keeps its value; a sign or any other character stays non-binary. */
  lemma ZFillBinary(s: string, width: int)
    ensures IsBinString(ZFill(s, width)) <==> IsBinString(s)
    ensures IsBinString(s) ==> BinValue(ZFill(s, width)) == BinValue(s)
  {
    if |s| < width {
      if |s| > 0 && (s[0] == '+' || s[0] == '-') {
        assert ZFill(s, width)[0] == s[0];
        assert !IsBinString(s);
      } else {
        assert ZFill(s, width) == Zeros(width - |s|) + s;
        BinZeros(width - |s|);
        ZerosBinary(Zeros(width - |s|), s);
      }
    }
  }

  /** Zeros in front keep a string binary or not binary, and keep its value. */
  lemma ZerosBinary(z: string, s: string)
    requires IsBinString(z) && BinValue(z) == 0
    ensures IsBinString(z + s) <==> IsBinString(s)
    ensures IsBinString(s) ==> BinValue(z + s) == BinValue(s)
  {
    if IsBinString(s) {
      BinValueConcat(z, s);
    }
    if IsBinString(z + s) {
      forall i | 0 <= i < |s| ensures s[i] == '0' || s[i] == '1' {
        assert (z + s)[|z| + i] == s[i];
      }
    }
  }

  /** The `width` digits of a value below 16^width read back as that value. */
  lemma {:induction false} FixedHexValue(v: nat, width: nat)
    requires v < Pow16(width)
    ensures HexValue(FixedHex(v, width)) == v
  {
    if width > 0 {
      var s := FixedHex(v, width);
      assert s[..|s| - 1] == FixedHex(v / 16, width - 1);
      FixedHexValue(v / 16, width - 1);
    }
  }

  lemma {:induction false} Pow2Pow16(k: nat)
    ensures Pow2(4 * k) == Pow16(k)
  {
    if k > 0 {
      Pow2Pow16(k - 1);
      var j := 4 * (k - 1);
      assert Pow2(j + 4) == 2 * Pow2(j + 3) == 4 * Pow2(j + 2) == 8 * Pow2(j + 1) == 16 * Pow2(j);
    }
  }

  /**
   * `bin_to_hex` has one digit per four bits, rounded up, and reading its
   * result with base 16 gives the binary value: `int(bin_to_hex(s), 16) == int(s, 2)`.
   */
  lemma BinToHexValue(binary: string)
    requires IsBinString(binary)
    ensures BinToHexSpec(binary).Ok?
    ensures |BinToHexSpec(binary).value| == (|binary| + 3) / 4
    ensures HexValue(BinToHexSpec(binary).value) == BinValue(binary)
  {
    var w := (|binary| + 3) / 4;
    BinValueBound(binary);
    Pow2Pow16(w);
    Pow2Monotone(|binary|, 4 * w);
    var v := BinValue(binary);
    FixedHexValue(v, w);
  }

  lemma {:induction false} Pow2Monotone(i: nat, j: nat)
    requires i <= j
    ensures Pow2(i) <= Pow2(j)
    decreases j
  {
    if i < j {
      Pow2Monotone(i, j - 1);
    }
  }

  /** A string with a character other than '0' or '1' is refused. */
  lemma BinToHexRejects(binary: string)
    requires !IsBinString(binary)
    ensures BinToHexSpec(binary) == Err(ValueError)
  {
  }

  // ---------------------------------------------------------------------------
  // The string-slicing field encoder

  /** `int(s[2k:2k+2], 16)`: digit pair `k` of `s` read as a byte. */
  function PairAt(s: string, k: nat): (r: Result<byte, PyError>)
    ensures r.Ok? <==> ParseHex(PySlice(s, 2 * k, 2 * k + 2)).Ok?
    ensures r.Ok? ==> r.value == ParseHex(PySlice(s, 2 * k, 2 * k + 2)).value
  {
    var pair := PySlice(s, 2 * k, 2 * k + 2);
    var b :- ParseHex(pair);
    assert b < 256 by {
      assert Pow16(1) == 16 && Pow16(2) == 256;
    }
    Ok(b)
  }

  /** `[int(s[0:2], 16), int(s[2:4], 16), ...]`: the first `count` digit pairs of `s`, each read as a byte. */
  function ParsePairs(s: string, count: nat): (r: Result<seq<byte>, PyError>)
    ensures r.Ok? ==> |r.value| == count
  {
    if count == 0 then Ok([])
    else
      var front :- ParsePairs(s, count - 1);
      var b :- PairAt(s, count - 1);
      Ok(front + [b])
  }

  /**
   * The slicing routine of the frame builders: `hex(n)` without "0x",
   * zero-filled to 8 digits; the four digit pairs in reverse order read back
   * with base 16 as `v`; then `hex(v) + marker` without "0x", zero-filled to
   * `width` digits and cut into `width / 2` pairs.
   */
  function SlicedField(n: int, marker: string, width: nat): Result<seq<byte>, PyError>
  {
    var p := ZFill(Remove0x(PyHexInt(n)), 8);
    var v :- ParseHex(SwapPairs(p));
    var digits := ZFill(Remove0x(PyHex(v) + marker), width);
    ParsePairs(digits, width / 2)
  }

  /** `p[6:8] + p[4:6] + p[2:4] + p[0:2]`: the first four digit pairs in reverse order. */
  function SwapPairs(p: string): string
  {
    PySlice(p, 6, 8) + PySlice(p, 4, 6) + PySlice(p, 2, 4) + PySlice(p, 0, 2)
  }

  /** The 4-byte field of the phases, the frequency and the harmonic switches. */
  function Field4(n: int): Result<seq<byte>, PyError>
  {
    SlicedField(n, "", 8)
  }

  /** The 5-byte field ending in a marker byte: amplitudes ("fc") and harmonic contents ("00", "fe"). */
  function MarkedField(n: int, marker: string): Result<seq<byte>, PyError>
  {
    SlicedField(n, marker, 10)
  }

  /** The 5-byte field of the harmonic phases: zero-filled to ten digits, so a zero byte leads. */
  function PhaseField(n: int): Result<seq<byte>, PyError>
  {
    SlicedField(n, "", 10)
  }

  lemma HexSub(s: string, i: nat, j: nat)
    requires IsHexString(s) && i <= j <= |s|
    ensures IsHexString(s[i..j])
  {
    forall k | 0 <= k < j - i ensures IsHexChar(s[i..j][k]) {
      assert s[i..j][k] == s[i + k];
    }
  }

  /**
   * Cutting a digit string into pairs gives bytes whose big-endian value is
   * the value of the digits, pair `k` being the digits `2k` and `2k + 1`.
   */
  lemma {:induction false} PairsValue(s: string, count: nat)
    requires 2 * count <= |s| && IsHexString(s[..2 * count])
    ensures ParsePairs(s, count).Ok?
    ensures BeValue(ParsePairs(s, count).value) == HexValue(s[..2 * count])
  {
    if count > 0 {
      var n := 2 * count;
      HexSplitLast2(s, n);
      assert s[..2 * (count - 1)] == s[..n - 2];
      PairsValue(s, count - 1);
      PairHex(s, count, count - 1);
      var front := ParsePairs(s, count - 1).value;
      var bs := ParsePairs(s, count).value;
      assert bs == front + [PairAt(s, count - 1).value];
      assert bs[..|bs| - 1] == front;
      var hf, hl := HexValue(s[..n - 2]), HexValue(s[n - 2..n]);
      assert BeValue(front) == hf;
      assert bs[|bs| - 1] == hl;
      assert BeValue(bs) == hf * 256 + hl;
    }
  }

  /** The four pairs, listed. */
  lemma PairsFour(s: string)
    requires ParsePairs(s, 4).Ok?
    ensures PairAt(s, 0).Ok? && PairAt(s, 1).Ok? && PairAt(s, 2).Ok? && PairAt(s, 3).Ok?
    ensures ParsePairs(s, 4).value == [PairAt(s, 0).value, PairAt(s, 1).value, PairAt(s, 2).value, PairAt(s, 3).value]
  {
    assert ParsePairs(s, 3).Ok? && PairAt(s, 3).Ok?;
    assert ParsePairs(s, 2).Ok? && PairAt(s, 2).Ok?;
    assert ParsePairs(s, 1).Ok? && PairAt(s, 1).Ok?;
    assert ParsePairs(s, 0) == Ok([]) && PairAt(s, 0).Ok?;
    assert ParsePairs(s, 1).value == [PairAt(s, 0).value];
  }

  lemma HexSplitLast2(s: string, n: nat)
    requires 2 <= n <= |s| && IsHexString(s[..n])
    ensures IsHexString(s[..n - 2]) && IsHexString(s[n - 2..n])
    ensures HexValue(s[..n]) == HexValue(s[..n - 2]) * 256 + HexValue(s[n - 2..n])
  {
    var last := s[n - 2..n];
    HexSub(s[..n], n - 2, n);
    HexSub(s[..n], 0, n - 2);
    assert s[..n][n - 2..n] == last && s[..n][..n - 2] == s[..n - 2];
    assert s[..n] == s[..n - 2] + last;
    HexValueConcat(s[..n - 2], last);
    assert Pow16(2) == 256 by { assert Pow16(1) == 16; }
  }

  lemma PairHex(s: string, count: nat, k: nat)
    requires 2 * count <= |s| && IsHexString(s[..2 * count]) && k < count
    ensures IsHexString(s[2 * k..2 * k + 2])
    ensures PairAt(s, k).Ok? && PairAt(s, k).value == HexValue(s[2 * k..2 * k + 2])
  {
    HexSub(s[..2 * count], 2 * k, 2 * k + 2);
    assert s[..2 * count][2 * k..2 * k + 2] == s[2 * k..2 * k + 2];
    assert PySlice(s, 2 * k, 2 * k + 2) == s[2 * k..2 * k + 2];
  }

  lemma {:induction false} ReverseReverse<T>(s: seq<T>)
    ensures Reverse(Reverse(s)) == s
  {
  }

  /** Four bytes are determined by their big-endian value. */
  lemma BeInjective4(a: seq<byte>, b: seq<byte>)
    requires |a| == 4 && |b| == 4 && BeValue(a) == BeValue(b)
    ensures a == b
  {
    ReverseReverse(a);
    ReverseReverse(b);
    BeValueReverse(Reverse(a));
    BeValueReverse(Reverse(b));
    Le4OfLeValue(Reverse(a));
    Le4OfLeValue(Reverse(b));
  }

  /** For 0 <= n < 2^32, `hex(n)` without "0x" and zero-filled to 8 is an 8-digit string worth n. */
  lemma DigitString8(n: int)
    requires 0 <= n < Pow32
    ensures var p := ZFill(Remove0x(PyHexInt(n)), 8);
            |p| == 8 && IsHexString(p) && HexValue(p) == n
  {
    Remove0xOfPyHex(n);
    Pow16Eight();
    LowerHexLength(n, 8);
    LowerHexValue(n);
    ZFillDigits(LowerHex(n), 8);
  }

  /** Reversing the digit pairs of an 8-digit string reverses its bytes. */
  lemma SwapPairsValue(p: string)
    requires |p| == 8 && IsHexString(p)
    ensures ParsePairs(p, 4).Ok?
    ensures HexValue(p) == BeValue(ParsePairs(p, 4).value)
    ensures ParseHex(SwapPairs(p)) == Ok(BeValue(Reverse(ParsePairs(p, 4).value)))
  {
    assert p[..8] == p;
    PairsValue(p, 4);
    var B := ParsePairs(p, 4).value;
    PairsFour(p);
    PairHex(p, 4, 0);
    PairHex(p, 4, 1);
    PairHex(p, 4, 2);
    PairHex(p, 4, 3);
    SwapHex(p);
    var R := Reverse(B);
    assert R[0] == B[3] && R[1] == B[2] && R[2] == B[1] && R[3] == B[0];
    BeFour(R);
  }

  lemma SwapHex(p: string)
    requires |p| == 8 && IsHexString(p)
    ensures IsHexString(p[0..2]) && IsHexString(p[2..4]) && IsHexString(p[4..6]) && IsHexString(p[6..8])
    ensures |SwapPairs(p)| == 8 && IsHexString(SwapPairs(p))
    ensures HexValue(SwapPairs(p)) == Base256(HexValue(p[6..8]), HexValue(p[4..6]), HexValue(p[2..4]), HexValue(p[0..2]))
  {
    var s0, s1, s2, s3 := p[0..2], p[2..4], p[4..6], p[6..8];
    HexSub(p, 0, 2);
    HexSub(p, 2, 4);
    HexSub(p, 4, 6);
    HexSub(p, 6, 8);
    assert SwapPairs(p) == s3 + s2 + s1 + s0;
    HexValueConcat(s3, s2);
    HexValueConcat(s3 + s2, s1);
    HexValueConcat(s3 + s2 + s1, s0);
    assert Pow16(2) == 256 by { assert Pow16(1) == 16; }
    assert Pow16(4) == 0x1_0000 by { assert Pow16(3) == 0x1000; }
    assert Pow16(6) == 0x100_0000 by { assert Pow16(5) == 0x10_0000; }
  }

  /** For 0 <= n < 2^32 the first half of the routine reads back the little-endian bytes of n as one big-endian number. */
  lemma SwappedValue(n: int)
    requires 0 <= n < Pow32
    ensures ParseHex(SwapPairs(ZFill(Remove0x(PyHexInt(n)), 8))) == Ok(BeValue(Le4(n)))
  {
    var p := ZFill(Remove0x(PyHexInt(n)), 8);
    DigitString8(n);
    SwapPairsValue(p);
    var B := ParsePairs(p, 4).value;
    BeValueReverse(Le4(n));
    LeValueOfLe4(n);
    BeInjective4(B, Reverse(Le4(n)));
    ReverseReverse(Le4(n));
  }

  /** Four base-256 digits, most significant first. */
  function Base256(a: int, b: int, c: int, d: int): int {
    ((a * 256 + b) * 256 + c) * 256 + d
  }

  lemma BeFour(bs: seq<byte>)
    requires |bs| == 4
    ensures BeValue(bs) == Base256(bs[0], bs[1], bs[2], bs[3])
  {
    var b1, b2, b3 := bs[..1], bs[..2], bs[..3];
    assert b1[..0] == [] && b2[..1] == b1 && b3[..2] == b2 && bs[..3] == b3;
    assert BeValue(b1) == bs[0];
    assert BeValue(b2) == BeValue(b1) * 256 + bs[1];
    assert BeValue(b3) == BeValue(b2) * 256 + bs[2];
  }

  lemma Pow16Eight()
    ensures Pow16(8) == Pow32
  {
    assert Pow16(2) == 256 by { assert Pow16(1) == 16; }
    assert Pow16(4) == 0x1_0000 by { assert Pow16(3) == 0x1000; }
    assert Pow16(6) == 0x100_0000 by { assert Pow16(5) == 0x10_0000; }
    assert Pow16(7) == 0x1000_0000;
  }

  /** For 0 <= n < 2^32 the number read back in the middle of the routine is below 2^32. */
  lemma SwappedBound(n: int)
    requires 0 <= n < Pow32
    ensures BeValue(Le4(n)) < Pow32
  {
    BeValueReverse(Be4(n));
    ReverseReverse(Le4(n));
    LeValueBound(Be4(n));
    Pow256Four();
  }

  /** Zero-filling a digit string and then appending a marker is zero-filling the two together to a wider width. */
  lemma ZFillAppend(d: string, m: string, width: nat)
    requires 1 <= |d| <= width && IsHexChar(d[0])
    ensures ZFill(d + m, width + |m|) == ZFill(d, width) + m
  {
    if |d| < width {
      assert (d + m)[0] == d[0];
      assert Zeros(width + |m| - |d + m|) == Zeros(width - |d|);
    }
  }

  /** Zero-filling a digit string two places wider puts "00" in front. */
  lemma ZFillWider(d: string, width: nat)
    requires 1 <= |d| <= width && IsHexChar(d[0])
    ensures ZFill(d, width + 2) == "00" + ZFill(d, width)
  {
    var k := width - |d|;
    ZFillUnsigned(d, width + 2);
    ZFillUnsigned(d, width);
    ZerosTwoMore(k);
    var z := Zeros(k);
    assert ("00" + z) + d == "00" + (z + d);
  }

  /** A string that does not start with a sign is filled with zeros in front. */
  lemma ZFillUnsigned(d: string, width: nat)
    requires 1 <= |d| <= width && IsHexChar(d[0])
    ensures ZFill(d, width) == Zeros(width - |d|) + d
  {
    assert d[0] != '+' && d[0] != '-';
    if |d| == width {
      assert Zeros(0) + d == d;
    }
  }

  lemma ZerosTwoMore(k: nat)
    ensures Zeros(k + 2) == "00" + Zeros(k)
  {
    assert forall i :: 0 <= i < k + 2 ==> Zeros(k + 2)[i] == ("00" + Zeros(k))[i];
  }

  lemma {:induction false} BeValueLeadingZero(bs: seq<byte>)
    ensures BeValue([0] + bs) == BeValue(bs)
  {
    if bs != [] {
      var t := [0] + bs;
      assert t[..|t| - 1] == [0] + bs[..|bs| - 1];
      BeValueLeadingZero(bs[..|bs| - 1]);
    } else {
      assert ([0] + bs)[..0] == [];
    }
  }

  lemma {:induction false} PairsFirst(s: string, count: nat)
    requires count >= 1 && ParsePairs(s, count).Ok?
    ensures PairAt(s, 0).Ok? && ParsePairs(s, count).value[0] == PairAt(s, 0).value
  {
    if count > 1 {
      PairsFirst(s, count - 1);
    }
  }

  /** The digits of the second half: `hex(v)` without "0x", zero-filled to eight, worth v. */
  lemma EightDigits(v: nat)
    requires v < Pow32
    ensures var d := ZFill(LowerHex(v), 8);
            |d| == 8 && IsHexString(d) && HexValue(d) == v && IsHexChar(LowerHex(v)[0]) && |LowerHex(v)| <= 8
  {
    Pow16Eight();
    LowerHexLength(v, 8);
    LowerHexValue(v);
    ZFillDigits(LowerHex(v), 8);
  }

  /** Four bytes big-endian read back as their value. */
  lemma BeValueOfBe4(v: nat)
    requires v < Pow32
    ensures BeValue(Be4(v)) == v
  {
    BeValueReverse(Le4(v));
    LeValueOfLe4(v);
  }

  /** The second half of the routine without a marker, 8 digits: the big-endian bytes of v. */
  lemma SecondHalfPlain(v: nat)
    requires v < Pow32
    ensures ParsePairs(ZFill(Remove0x(PyHex(v) + ""), 8), 4) == Ok(Be4(v))
  {
    Remove0xOfPyHex(v);
    assert PyHex(v) + "" == PyHex(v);
    EightDigits(v);
    var d := ZFill(LowerHex(v), 8);
    assert d[..8] == d;
    PairsValue(d, 4);
    BeValueOfBe4(v);
    BeInjective4(ParsePairs(d, 4).value, Be4(v));
  }

  /** The second half with a two-digit marker, 10 digits: the big-endian bytes of v, then the marker's byte. */
  lemma SecondHalfMarked(v: nat, marker: string)
    requires v < Pow32 && |marker| == 2 && IsHexString(marker)
    ensures ParsePairs(ZFill(Remove0x(PyHex(v) + marker), 10), 5) == Ok(Be4(v) + [HexValue(marker)])
  {
    assert forall i :: 0 <= i < |marker| ==> marker[i] != 'x';
    Remove0xAppend(v, marker);
    EightDigits(v);
    var d := ZFill(LowerHex(v), 8);
    ZFillAppend(LowerHex(v), marker, 8);
    var digits := d + marker;
    assert ZFill(Remove0x(PyHex(v) + marker), 10) == digits;
    HexValueConcat(d, marker);
    assert digits[..8] == d && digits[..10] == digits;
    PairsValue(digits, 4);
    BeValueOfBe4(v);
    BeInjective4(ParsePairs(digits, 4).value, Be4(v));
    assert PySlice(digits, 8, 10) == marker;
    HexValueBound(marker);
    assert Pow16(2) == 256 by { assert Pow16(1) == 16; }
  }

  /** The second half without a marker, 10 digits: a zero byte, then the big-endian bytes of v. */
  lemma SecondHalfPhase(v: nat)
    requires v < Pow32
    ensures ParsePairs(ZFill(Remove0x(PyHex(v) + ""), 10), 5) == Ok([0] + Be4(v))
  {
    var digits := ZFill(Remove0x(PyHex(v) + ""), 10);
    PhaseDigits(v);
    PairsValue(digits, 5);
    var c := ParsePairs(digits, 5).value;
    PairsFirst(digits, 5);
    assert PySlice(digits, 0, 2) == "00";
    assert c[0] == 0 by { assert HexValue("00") == 0 by { assert "00"[..1] == "0"; } }
    assert c == [0] + c[1..];
    BeValueLeadingZero(c[1..]);
    BeValueOfBe4(v);
    BeInjective4(c[1..], Be4(v));
  }

  lemma PhaseDigits(v: nat)
    requires v < Pow32
    ensures var digits := ZFill(Remove0x(PyHex(v) + ""), 10);
            |digits| == 10 && digits[..2] == "00" && IsHexString(digits) && HexValue(digits) == v
            && digits[..10] == digits
  {
    Remove0xOfPyHex(v);
    assert PyHex(v) + "" == PyHex(v);
    EightDigits(v);
    var d := ZFill(LowerHex(v), 8);
    ZFillWider(LowerHex(v), 8);
    var digits := "00" + d;
    assert ZFill(Remove0x(PyHex(v) + ""), 10) == digits;
    HexValueZeros(2, d);
    assert Zeros(2) == "00";
  }

  /** For 0 <= n < 2^32, the big-endian bytes of the value read back in the middle are the little-endian bytes of n. */
  lemma SwappedBytes(n: int)
    requires 0 <= n < Pow32
    ensures BeValue(Le4(n)) < Pow32 && Be4(BeValue(Le4(n))) == Le4(n)
  {
    SwappedBound(n);
    var v := BeValue(Le4(n));
    BeValueOfBe4(v);
    BeInjective4(Be4(v), Le4(n));
  }

  /** For 0 <= n < 2^32 the four-byte field is exactly the little-endian bytes of n, leading zero bytes included. */
  lemma Field4Le(n: int)
    requires 0 <= n < Pow32
    ensures Field4(n) == Ok(Le4(n))
  {
    SwappedValue(n);
    SwappedBytes(n);
    SecondHalfPlain(BeValue(Le4(n)));
  }

  /**
   * For 0 <= n < 2^32 and a two-digit marker, the five-byte field is the
   * little-endian bytes of n followed by the marker's byte.
   */
  lemma MarkedFieldLe(n: int, marker: string)
    requires 0 <= n < Pow32 && |marker| == 2 && IsHexString(marker)
    ensures MarkedField(n, marker) == Ok(Le4(n) + [HexValue(marker)])
  {
    SwappedValue(n);
    SwappedBytes(n);
    SecondHalfMarked(BeValue(Le4(n)), marker);
  }

  /** For 0 <= n < 2^32 the harmonic-phase field is a zero byte followed by the little-endian bytes of n. */
  lemma PhaseFieldLe(n: int)
    requires 0 <= n < Pow32
    ensures PhaseField(n) == Ok([0] + Le4(n))
  {
    SwappedValue(n);
    SwappedBytes(n);
    SecondHalfPhase(BeValue(Le4(n)));
  }

  /** For any n >= 0 the first half succeeds: the reversed first eight digits read back below 2^32. */
  lemma FirstHalfOk(n: int)
    requires n >= 0
    ensures ParseHex(SwapPairs(ZFill(Remove0x(PyHexInt(n)), 8))).Ok?
    ensures ParseHex(SwapPairs(ZFill(Remove0x(PyHexInt(n)), 8))).value < Pow32
  {
    Remove0xOfPyHex(n);
    ZFillDigits(LowerHex(n), 8);
    var p := ZFill(LowerHex(n), 8);
    assert |p| >= 8;
    HexSub(p, 0, 8);
    var q := p[..8];
    assert PySlice(p, 0, 2) == PySlice(q, 0, 2) && PySlice(p, 2, 4) == PySlice(q, 2, 4);
    assert PySlice(p, 4, 6) == PySlice(q, 4, 6) && PySlice(p, 6, 8) == PySlice(q, 6, 8);
    assert SwapPairs(p) == SwapPairs(q);
    SwapHex(q);
    Pow16Eight();
    assert ParseHex(SwapPairs(q)).value < Pow16(8);
  }

  /**
   * A non-negative scaled value never makes the routine raise, however large:
   * each field has `width / 2` bytes. (From 2^32 on only its leading eight
   * hex digits reach the field.)
   */
  lemma SlicedFieldOk(n: int, marker: string, width: nat)
    requires n >= 0
    requires (marker == "" && (width == 8 || width == 10)) || (width == 10 && |marker| == 2 && IsHexString(marker))
    ensures SlicedField(n, marker, width).Ok?
    ensures |SlicedField(n, marker, width).value| == width / 2
  {
    FirstHalfOk(n);
    var v := ParseHex(SwapPairs(ZFill(Remove0x(PyHexInt(n)), 8))).value;
    if marker != "" {
      SlicedFieldSecondHalf(n, marker, 10, 5, v);
      SecondHalfMarked(v, marker);
      assert SlicedField(n, marker, 10) == Ok(Be4(v) + [HexValue(marker)]);
    } else if width == 8 {
      SlicedFieldSecondHalf(n, "", 8, 4, v);
      SecondHalfPlain(v);
      assert SlicedField(n, "", 8) == Ok(Be4(v));
    } else {
      SlicedFieldSecondHalf(n, "", 10, 5, v);
      SecondHalfPhase(v);
      assert SlicedField(n, "", 10) == Ok([0] + Be4(v));
    }
  }

  /** Once the reversed first half parses, the field is the parse of the second half. */
  lemma SlicedFieldSecondHalf(n: int, marker: string, width: nat, half: nat, v: nat)
    requires ParseHex(SwapPairs(ZFill(Remove0x(PyHexInt(n)), 8))) == Ok(v) && half == width / 2
    ensures SlicedField(n, marker, width) == ParsePairs(ZFill(Remove0x(PyHex(v) + marker), width), half)
  {
  }

  /** A negative scaled value makes the routine raise: its sign lands inside the reversed digits. */
  lemma SlicedFieldNegative(n: int, marker: string, width: nat)
    requires n < 0
    ensures SlicedField(n, marker, width) == Err(ValueError)
  {
    var t := LowerHex(-n);
    var h := PyHexInt(n);
    assert h == "-" + ("0x" + t);
    assert h[1..] == "0x" + t;
    Remove0xOfPrefixed(t);
    var r := Remove0x(h);
    assert r == "-" + t;
    var p := ZFill(r, 8);
    assert p[0] == '-' && |p| >= 8;
    assert SwapPairs(p)[6] == '-';
    assert !IsHexString(SwapPairs(p));
  }

  // ---------------------------------------------------------------------------
  // Gear tables

  /** Upper-inclusive current limits, in amperes, of gears 12 down to 1; above the last one, gear 0. */
  const CurrentLimits: seq<real> := [0.01, 0.02, 0.05, 0.1, 0.2, 0.5, 1.0, 2.0, 5.0, 10.0, 20.0, 50.0]

  /** Upper-inclusive voltage limits, in volts, of gears 5 down to 1; above the last one, gear 0. */
  const VoltageLimits: seq<real> := [30.0, 60.0, 120.0, 240.0, 480.0]

  /** How many of the limits the value does not exceed. */
  function LimitsAtLeast(limits: seq<real>, x: real): (c: nat)
    ensures c <= |limits|
  {
    if limits == [] then 0 else (if x <= limits[0] then 1 else 0) + LimitsAtLeast(limits[1..], x)
  }

  /** `set_current_gear`: the gear of the first band whose upper limit the current does not exceed. */
  function CurrentGear(x: real): nat
  {
    if x <= 0.01 then 12
    else if 0.01 < x <= 0.02 then 11
    else if 0.02 < x <= 0.05 then 10
    else if 0.05 < x <= 0.1 then 9
    else if 0.1 < x <= 0.2 then 8
    else if 0.2 < x <= 0.5 then 7
    else if 0.5 < x <= 1.0 then 6
    else if 1.0 < x <= 2.0 then 5
    else if 2.0 < x <= 5.0 then 4
    else if 5.0 < x <= 10.0 then 3
    else if 10.0 < x <= 20.0 then 2
    else if 20.0 < x <= 50.0 then 1
    else 0
  }

  /** `set_voltage_gear`: the gear of the first band whose upper limit the voltage does not exceed. */
  function VoltageGear(x: real): nat
  {
    if x <= 30.0 then 5
    else if 30.0 < x <= 60.0 then 4
    else if 60.0 < x <= 120.0 then 3
    else if 120.0 < x <= 240.0 then 2
    else if 240.0 < x <= 480.0 then 1
    else 0
  }

  /** The current gear counts the limits at or above the current, so it lies in 0..12. */
  lemma CurrentGearCounts(x: real)
    ensures CurrentGear(x) == LimitsAtLeast(CurrentLimits, x)
    ensures CurrentGear(x) <= 12
  {
    var low: seq<real> := [0.01, 0.02, 0.05, 0.1, 0.2, 0.5];
    var high: seq<real> := [1.0, 2.0, 5.0, 10.0, 20.0, 50.0];
    assert CurrentLimits == low + high;
    LimitsAtLeastConcat(low, high, x);
    if x <= 0.5 {
      LimitsAtLeastAll(high, x);
      SixLimits(low, x);
    } else {
      LimitsAtLeastNone(low, x);
      SixLimits(high, x);
    }
  }

  /** On six limits in increasing order the count is the number of limits at or above x, read off band by band. */
  lemma SixLimits(l: seq<real>, x: real)
    requires |l| == 6 && l[0] < l[1] < l[2] < l[3] < l[4] < l[5]
    ensures LimitsAtLeast(l, x)
         == if x <= l[0] then 6 else if x <= l[1] then 5 else if x <= l[2] then 4
            else if x <= l[3] then 3 else if x <= l[4] then 2 else if x <= l[5] then 1 else 0
  {
    var t1 := l[1..];
    var t2 := t1[1..];
    var t3 := t2[1..];
    var t4 := t3[1..];
    var t5 := t4[1..];
    var t6 := t5[1..];
    assert t6 == [];
    assert LimitsAtLeast(t5, x) == if x <= l[5] then 1 else 0;
    assert LimitsAtLeast(t4, x) == (if x <= l[4] then 1 else 0) + LimitsAtLeast(t5, x);
    assert LimitsAtLeast(t3, x) == (if x <= l[3] then 1 else 0) + LimitsAtLeast(t4, x);
    assert LimitsAtLeast(t2, x) == (if x <= l[2] then 1 else 0) + LimitsAtLeast(t3, x);
    assert LimitsAtLeast(t1, x) == (if x <= l[1] then 1 else 0) + LimitsAtLeast(t2, x);
  }

  lemma {:induction false} LimitsAtLeastConcat(a: seq<real>, b: seq<real>, x: real)
    ensures LimitsAtLeast(a + b, x) == LimitsAtLeast(a, x) + LimitsAtLeast(b, x)
  {
    if a != [] {
      assert (a + b)[1..] == a[1..] + b;
      LimitsAtLeastConcat(a[1..], b, x);
    } else {
      assert a + b == b;
    }
  }

  lemma {:induction false} LimitsAtLeastAll(l: seq<real>, x: real)
    requires forall i :: 0 <= i < |l| ==> x <= l[i]
    ensures LimitsAtLeast(l, x) == |l|
  {
    if l != [] {
      LimitsAtLeastAll(l[1..], x);
    }
  }

  lemma {:induction false} LimitsAtLeastNone(l: seq<real>, x: real)
    requires forall i :: 0 <= i < |l| ==> l[i] < x
    ensures LimitsAtLeast(l, x) == 0
  {
    if l != [] {
      LimitsAtLeastNone(l[1..], x);
    }
  }

  /** The voltage gear counts the limits at or above the voltage, so it lies in 0..5. */
  lemma VoltageGearCounts(x: real)
    ensures VoltageGear(x) == LimitsAtLeast(VoltageLimits, x)
    ensures VoltageGear(x) <= 5
  {
    var t0 := VoltageLimits;
    var t1 := t0[1..];
    assert t1 == [60.0, 120.0, 240.0, 480.0];
    assert LimitsAtLeast(t0, x) == (if x <= 30.0 then 1 else 0) + LimitsAtLeast(t1, x);
    var t2 := t1[1..];
    assert t2 == [120.0, 240.0, 480.0];
    assert LimitsAtLeast(t1, x) == (if x <= 60.0 then 1 else 0) + LimitsAtLeast(t2, x);
    var t3 := t2[1..];
    assert t3 == [240.0, 480.0];
    assert LimitsAtLeast(t2, x) == (if x <= 120.0 then 1 else 0) + LimitsAtLeast(t3, x);
    var t4 := t3[1..];
    assert t4 == [480.0];
    assert LimitsAtLeast(t3, x) == (if x <= 240.0 then 1 else 0) + LimitsAtLeast(t4, x);
    var t5 := t4[1..];
    assert t5 == [];
    assert LimitsAtLeast(t4, x) == (if x <= 480.0 then 1 else 0) + LimitsAtLeast(t5, x);
  }

  lemma {:induction false} LimitsAtLeastMonotone(limits: seq<real>, x: real, y: real)
    requires x <= y
    ensures LimitsAtLeast(limits, y) <= LimitsAtLeast(limits, x)
  {
    if limits != [] {
      LimitsAtLeastMonotone(limits[1..], x, y);
    }
  }

  /** A larger current never gets a higher (more sensitive) gear. */
  lemma CurrentGearMonotone(x: real, y: real)
    requires x <= y
    ensures CurrentGear(y) <= CurrentGear(x)
  {
    CurrentGearCounts(x);
    CurrentGearCounts(y);
    LimitsAtLeastMonotone(CurrentLimits, x, y);
  }

  /** A larger voltage never gets a higher (more sensitive) gear. */
  lemma VoltageGearMonotone(x: real, y: real)
    requires x <= y
    ensures VoltageGear(y) <= VoltageGear(x)
  {
    VoltageGearCounts(x);
    VoltageGearCounts(y);
    LimitsAtLeastMonotone(VoltageLimits, x, y);
  }

  // ---------------------------------------------------------------------------
  // bytes_to_float and the slicing in read_dc

  /** What `read_dc` returns: the voltage for 0, the current for 1, both otherwise. */
  datatype DcReading = Voltage(u: nat) | Current(i: nat) | Both(u: nat, i: nat)

  /**
   * `read_dc`'s decoding of the reply: voltage from bytes 16..19, current from
   * bytes 21..24 (byte 20 is skipped), each as `bytes_to_float` reads it, i.e.
   * the unsigned little-endian value before the division by the scale.
   */
  function ReadDcReading(reply: seq<byte>, mode: int): DcReading
  {
    var u := LeValue(PySlice(reply, 16, 20));
    var i := LeValue(PySlice(reply, 21, 25));
    if mode == 0 then Voltage(u) else if mode == 1 then Current(i) else Both(u, i)
  }

  /**
   * A reply that carries voltage u and current i as 4-byte little-endian
   * fields at 16 and 21 reads back as exactly u and i, whatever the other bytes hold.
   */
  lemma ReadDcRoundTrip(reply: seq<byte>, u: nat, i: nat, mode: int)
    requires |reply| >= 25 && u < Pow32 && i < Pow32
    requires reply[16..20] == Le4(u) && reply[21..25] == Le4(i)
    ensures ReadDcReading(reply, mode)
         == if mode == 0 then Voltage(u) else if mode == 1 then Current(i) else Both(u, i)
  {
    LeValueOfLe4(u);
    LeValueOfLe4(i);
  }

  /** Each reading depends only on its own four bytes: the separator byte 20 and everything outside 16..24 are ignored. */
  lemma ReadDcFieldsOnly(a: seq<byte>, b: seq<byte>, mode: int)
    requires |a| >= 25 && |b| >= 25
    requires a[16..20] == b[16..20] && a[21..25] == b[21..25]
    ensures ReadDcReading(a, mode) == ReadDcReading(b, mode)
  {
  }
}
