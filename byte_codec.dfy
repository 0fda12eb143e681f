/**
 * Bytes, 16-bit register words and the fixed-width integer layouts that every
 * frame of the bench is built from.  Python's `(v >> 8) & 0xFF` and `v & 0xFF`
 * are floor division and a non-negative remainder, which is what Dafny's `/`
 * and `%` compute for a positive divisor, for negative `v` as well.
 */
module ByteCodec {

  type byte = x: int | 0 <= x < 0x100
  type u16 = x: int | 0 <= x < 0x1_0000

  const Pow16Bits: nat := 0x1_0000
  const Pow32: nat := 0x1_0000_0000

  /** `[(v >> 8) & 0xFF, v & 0xFF]`: the big-endian bytes of `v` taken modulo 2^16. */
  function Split16(v: int): (r: seq<byte>)
    ensures |r| == 2
    ensures (r[0] as int) * 256 + r[1] == v % Pow16Bits
  {
    Split16Value(v);
    [(v / 256) % 256, v % 256]
  }

  /** The four little-endian bytes of `n` taken modulo 2^32 (`n.to_bytes(4, 'little')` for 0 <= n < 2^32). */
  function Le4(n: int): (r: seq<byte>)
    ensures |r| == 4
  {
    [n % 256, (n / 256) % 256, (n / 256 / 256) % 256, (n / 256 / 256 / 256) % 256]
  }

  /** The four big-endian bytes of `n` taken modulo 2^32. */
  function Be4(n: int): (r: seq<byte>)
    ensures |r| == 4
    ensures r == Reverse(Le4(n))
  {
    [(n / 256 / 256 / 256) % 256, (n / 256 / 256) % 256, (n / 256) % 256, n % 256]
  }

  function Reverse<T>(s: seq<T>): (r: seq<T>)
    ensures |r| == |s|
    ensures forall i :: 0 <= i < |s| ==> r[i] == s[|s| - 1 - i]
  {
    if s == [] then [] else Reverse(s[1..]) + [s[0]]
  }

  /** `int.from_bytes(bs, byteorder='little', signed=False)`. */
  function LeValue(bs: seq<byte>): (v: nat)
  {
    if bs == [] then 0 else bs[0] + 256 * LeValue(bs[1..])
  }

  /** `int.from_bytes(bs, byteorder='big', signed=False)`. */
  function BeValue(bs: seq<byte>): (v: nat)
  {
    if bs == [] then 0 else BeValue(bs[..|bs| - 1]) * 256 + bs[|bs| - 1]
  }

  // ---------------------------------------------------------------------------
  // Lemmas

  lemma Split16Value(v: int)
    ensures ((v / 256) % 256) * 256 + v % 256 == v % Pow16Bits
  {
    var q, r := v / Pow16Bits, v % Pow16Bits;
    assert v == q * Pow16Bits + r;
    assert v / 256 == q * 256 + r / 256;
    assert (v / 256) % 256 == r / 256;
    assert v % 256 == r % 256;
  }

  /** Reading the four little-endian bytes back gives the value: `Le4` and `LeValue` are inverse on 0..2^32-1. */
  lemma {:induction false} LeValueOfLe4(n: int)
    requires 0 <= n < Pow32
    ensures LeValue(Le4(n)) == n
  {
    var b := Le4(n);
    var n1, n2, n3 := n / 256, n / 256 / 256, n / 256 / 256 / 256;
    assert n3 < 256;
    assert LeValue(b[3..]) == n3 by {
      assert b[3..][1..] == [];
    }
    assert b[2..][1..] == b[3..];
    assert LeValue(b[2..]) == n2 % 256 + 256 * n3 == n2;
    assert b[1..][1..] == b[2..];
    assert LeValue(b[1..]) == n1 % 256 + 256 * n2 == n1;
    assert LeValue(b) == n % 256 + 256 * n1 == n;
  }

  /** Four bytes determine their value: `Le4` recovers any 4-byte little-endian sequence from its value. */
  lemma Le4OfLeValue(bs: seq<byte>)
    requires |bs| == 4
    ensures LeValue(bs) < Pow32
    ensures Le4(LeValue(bs)) == bs
  {
    assert bs[3..][1..] == [];
    assert bs[2..][1..] == bs[3..];
    assert bs[1..][1..] == bs[2..];
    var v3: int := bs[3];
    var v2: int := bs[2] + 256 * v3;
    var v1: int := bs[1] + 256 * v2;
    var v0: int := bs[0] + 256 * v1;
    assert LeValue(bs[3..]) == v3;
    assert LeValue(bs[2..]) == v2;
    assert LeValue(bs[1..]) == v1;
    assert LeValue(bs) == v0;
    assert v0 / 256 == v1 && v0 % 256 == bs[0];
    assert v1 / 256 == v2 && v1 % 256 == bs[1];
    assert v2 / 256 == v3 && v2 % 256 == bs[2];
  }

  lemma {:induction false} LeValueBound(bs: seq<byte>)
    ensures LeValue(bs) < Pow(256, |bs|)
  {
    if bs != [] {
      LeValueBound(bs[1..]);
      assert LeValue(bs) <= 255 + 256 * (Pow(256, |bs| - 1) - 1);
    }
  }

  function Pow(b: nat, k: nat): (p: nat)
    ensures b >= 1 ==> p >= 1
  {
    if k == 0 then 1 else b * Pow(b, k - 1)
  }

  /** Reading a sequence big-endian after reversing it is reading it little-endian. */
  lemma {:induction false} BeValueReverse(bs: seq<byte>)
    ensures BeValue(Reverse(bs)) == LeValue(bs)
  {
    if bs != [] {
      var r := Reverse(bs);
      assert r == Reverse(bs[1..]) + [bs[0]];
      assert r[..|r| - 1] == Reverse(bs[1..]);
      BeValueReverse(bs[1..]);
    }
  }

  lemma Pow256Four()
    ensures Pow(256, 4) == Pow32
  {
    assert Pow(256, 2) == 0x1_0000 by { assert Pow(256, 1) == 256; }
    assert Pow(256, 3) == 0x100_0000;
  }
}
