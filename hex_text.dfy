/**
 * The text side of Python's integer formatting and parsing, as the protocol
 * code uses it: `hex(n)`, `format(n, 'X')`, `str(n)`, `str.zfill`,
 * `str.replace('0x', '')` and `int(s, 16)` / `int(s)` on digit strings.
 */
module HexText {

  function Pow16(k: nat): (p: nat)
    ensures p >= 1
  {
    if k == 0 then 1 else 16 * Pow16(k - 1)
  }

  function Pow10(k: nat): (p: nat)
    ensures p >= 1
  {
    if k == 0 then 1 else 10 * Pow10(k - 1)
  }

  // ---------------------------------------------------------------------------
  // Hexadecimal digits

  predicate IsHexChar(c: char) {
    ('0' <= c <= '9') || ('a' <= c <= 'f') || ('A' <= c <= 'F')
  }

  predicate IsHexString(s: string) {
    forall i :: 0 <= i < |s| ==> IsHexChar(s[i])
  }

  /** The value of one hexadecimal digit, either case, as `int(c, 16)`. */
  function CharValue(c: char): (v: nat)
    requires IsHexChar(c)
    ensures v < 16
  {
    if '0' <= c <= '9' then c as int - '0' as int
    else if 'a' <= c <= 'f' then c as int - 'a' as int + 10
    else c as int - 'A' as int + 10
  }

  function LowerDigit(v: nat): (c: char)
    requires v < 16
    ensures IsHexChar(c) && CharValue(c) == v
    ensures c != 'x' && !('A' <= c <= 'Z')
  {
    if v < 10 then ('0' as int + v) as char else ('a' as int + v - 10) as char
  }

  function UpperDigit(v: nat): (c: char)
    requires v < 16
    ensures IsHexChar(c) && CharValue(c) == v
  {
    if v < 10 then ('0' as int + v) as char else ('A' as int + v - 10) as char
  }

  /** `int(s, 16)` for a string made only of hexadecimal digits (the empty string reads as 0 here; callers rule it out). */
  function HexValue(s: string): nat
    requires IsHexString(s)
  {
    if |s| == 0 then 0 else HexValue(s[..|s| - 1]) * 16 + CharValue(s[|s| - 1])
  }

  /** `hex(n)[2:]` for n >= 0: the shortest lower-case digit string, "0" for zero. */
  function LowerHex(n: nat): (s: string)
    ensures IsHexString(s) && |s| >= 1
    ensures forall i :: 0 <= i < |s| ==> s[i] != 'x'
    decreases n
  {
    if n < 16 then [LowerDigit(n)] else LowerHex(n / 16) + [LowerDigit(n % 16)]
  }

  /** `format(n, 'X')` for n >= 0. */
  function UpperHex(n: nat): (s: string)
    ensures IsHexString(s) && |s| >= 1
    decreases n
  {
    if n < 16 then [UpperDigit(n)] else UpperHex(n / 16) + [UpperDigit(n % 16)]
  }

  function Zeros(k: nat): (s: string)
    ensures |s| == k && IsHexString(s)
    ensures forall i :: 0 <= i < k ==> s[i] == '0'
  {
    if k == 0 then [] else Zeros(k - 1) + ['0']
  }

  /** `s.zfill(width)`: left-pads with '0' to `width`, keeping a leading sign in front. */
  function ZFill(s: string, width: int): (r: string)
    ensures |s| >= width ==> r == s
    ensures |s| < width ==> |r| == width
  {
    if |s| >= width then s
    else if |s| > 0 && (s[0] == '+' || s[0] == '-') then [s[0]] + Zeros(width - |s|) + s[1..]
    else Zeros(width - |s|) + s
  }

  /** `s.replace('0x', '')`: every non-overlapping "0x", scanning left to right, is removed. */
  function Remove0x(s: string): string
  {
    if |s| < 2 then s
    else if s[0] == '0' && s[1] == 'x' then Remove0x(s[2..])
    else [s[0]] + Remove0x(s[1..])
  }

  /** `hex(n)` for n >= 0, prefix included. */
  function PyHex(n: nat): string {
    "0x" + LowerHex(n)
  }

  // ---------------------------------------------------------------------------
  // Decimal digits

  predicate IsDecChar(c: char) { '0' <= c <= '9' }

  predicate IsDecString(s: string) {
    forall i :: 0 <= i < |s| ==> IsDecChar(s[i])
  }

  function DecValue(s: string): nat
    requires IsDecString(s)
  {
    if |s| == 0 then 0 else DecValue(s[..|s| - 1]) * 10 + (s[|s| - 1] as int - '0' as int)
  }

  /** `str(n)` for n >= 0. */
  function DecimalText(n: nat): (s: string)
    ensures IsDecString(s) && |s| >= 1
    decreases n
  {
    if n < 10 then [('0' as int + n) as char] else DecimalText(n / 10) + [('0' as int + n % 10) as char]
  }

  /** `str(n)` for any integer. */
  function IntText(n: int): string {
    if n >= 0 then DecimalText(n) else "-" + DecimalText(-n)
  }

  // ---------------------------------------------------------------------------
  // Lemmas

  lemma {:induction false} HexValueConcat(a: string, b: string)
    requires IsHexString(a) && IsHexString(b)
    ensures IsHexString(a + b)
    ensures HexValue(a + b) == HexValue(a) * Pow16(|b|) + HexValue(b)
    decreases |b|
  {
    var ab := a + b;
    assert IsHexString(ab) by {
      forall i | 0 <= i < |ab| ensures IsHexChar(ab[i]) {
        if i < |a| { assert ab[i] == a[i]; } else { assert ab[i] == b[i - |a|]; }
      }
    }
    if |b| > 0 {
      var b' := b[..|b| - 1];
      assert ab[..|ab| - 1] == a + b';
      assert ab[|ab| - 1] == b[|b| - 1];
      HexValueConcat(a, b');
      var va, vb', c, p := HexValue(a), HexValue(b'), CharValue(b[|b| - 1]), Pow16(|b'|);
      assert HexValue(ab) == HexValue(a + b') * 16 + c;
      assert HexValue(b) == vb' * 16 + c;
      assert Pow16(|b|) == p * 16;
      ShiftDigit(va, p, vb', c);
    } else {
      assert ab == a;
    }
  }

  lemma {:induction false} HexValueBound(s: string)
    requires IsHexString(s)
    ensures HexValue(s) < Pow16(|s|)
  {
    if |s| > 0 {
      var s' := s[..|s| - 1];
      HexValueBound(s');
      assert HexValue(s') + 1 <= Pow16(|s'|);
      assert HexValue(s) < (HexValue(s') + 1) * 16;
    }
  }

  lemma {:induction false} HexValueZeros(k: nat, s: string)
    requires IsHexString(s)
    ensures IsHexString(Zeros(k) + s)
    ensures HexValue(Zeros(k) + s) == HexValue(s)
  {
    HexValueConcat(Zeros(k), s);
    ZerosValue(k);
  }

  lemma {:induction false} ZerosValue(k: nat)
    ensures HexValue(Zeros(k)) == 0
  {
    if k > 0 {
      assert Zeros(k)[..k - 1] == Zeros(k - 1);
      ZerosValue(k - 1);
    }
  }

  lemma {:induction false} LowerHexValue(n: nat)
    ensures HexValue(LowerHex(n)) == n
    decreases n
  {
    if n >= 16 {
      var s := LowerHex(n);
      assert s[..|s| - 1] == LowerHex(n / 16);
      LowerHexValue(n / 16);
    }
  }

  lemma {:induction false} UpperHexValue(n: nat)
    ensures HexValue(UpperHex(n)) == n
    decreases n
  {
    if n >= 16 {
      var s := UpperHex(n);
      assert s[..|s| - 1] == UpperHex(n / 16);
      UpperHexValue(n / 16);
    }
  }

  lemma {:induction false} LowerHexLength(n: nat, k: nat)
    requires k >= 1 && n < Pow16(k)
    ensures |LowerHex(n)| <= k
    decreases n
  {
    if n >= 16 {
      assert Pow16(1) == 16;
      assert k != 1;
      assert n / 16 < Pow16(k - 1);
      LowerHexLength(n / 16, k - 1);
    }
  }

  lemma {:induction false} UpperHexLength(n: nat, k: nat)
    requires k >= 1 && n < Pow16(k)
    ensures |UpperHex(n)| <= k
    decreases n
  {
    if n >= 16 {
      assert Pow16(1) == 16;
      assert k != 1;
      assert n / 16 < Pow16(k - 1);
      UpperHexLength(n / 16, k - 1);
    }
  }

  /** Zero-filling a digit string to `width` keeps its value. */
  lemma ZFillDigits(s: string, width: int)
    requires IsHexString(s) && |s| >= 1 && IsHexChar(s[0])
    ensures IsHexString(ZFill(s, width))
    ensures HexValue(ZFill(s, width)) == HexValue(s)
    ensures |ZFill(s, width)| == if |s| >= width then |s| else width
  {
    if |s| < width {
      assert s[0] != '+' && s[0] != '-';
      assert ZFill(s, width) == Zeros(width - |s|) + s;
      HexValueZeros(width - |s|, s);
    }
  }

  /** Removing "0x" from `hex(n)` leaves exactly its digits, as the slicing code relies on. */
  lemma {:induction false} Remove0xOfDigits(s: string)
    requires forall i :: 0 <= i < |s| ==> s[i] != 'x'
    ensures Remove0x(s) == s
  {
    if |s| >= 2 {
      assert s[1] != 'x';
      Remove0xOfDigits(s[1..]);
    }
  }

  lemma Remove0xOfPyHex(n: nat)
    ensures Remove0x(PyHex(n)) == LowerHex(n)
  {
    Remove0xAppend(n, "");
    assert PyHex(n) + "" == PyHex(n);
    assert LowerHex(n) + "" == LowerHex(n);
  }

  /** Removing "0x" from `hex(n)` followed by a marker without an 'x' leaves the digits and the marker. */
  lemma Remove0xAppend(n: nat, suffix: string)
    requires forall i :: 0 <= i < |suffix| ==> suffix[i] != 'x'
    ensures Remove0x(PyHex(n) + suffix) == LowerHex(n) + suffix
  {
    PyHexAppend(n, suffix);
    NoXConcat(LowerHex(n), suffix);
    Remove0xOfPrefixed(LowerHex(n) + suffix);
  }

  lemma PyHexAppend(n: nat, suffix: string)
    ensures PyHex(n) + suffix == "0x" + (LowerHex(n) + suffix)
  {
  }

  lemma Remove0xOfPrefixed(t: string)
    requires forall i :: 0 <= i < |t| ==> t[i] != 'x'
    ensures Remove0x("0x" + t) == t
  {
    var s := "0x" + t;
    assert s[2..] == t;
    Remove0xOfDigits(t);
  }

  lemma NoXConcat(a: string, b: string)
    requires forall i :: 0 <= i < |a| ==> a[i] != 'x'
    requires forall i :: 0 <= i < |b| ==> b[i] != 'x'
    ensures forall i :: 0 <= i < |a + b| ==> (a + b)[i] != 'x'
  {
  }

  lemma ShiftDigit(a: nat, p: nat, b: nat, c: nat)
    ensures (a * p + b) * 16 + c == a * (p * 16) + (b * 16 + c)
  {
  }

  lemma {:induction false} DecimalTextValue(n: nat)
    ensures DecValue(DecimalText(n)) == n
    decreases n
  {
    if n >= 10 {
      var s := DecimalText(n);
      assert s[..|s| - 1] == DecimalText(n / 10);
      DecimalTextValue(n / 10);
    }
  }
}
