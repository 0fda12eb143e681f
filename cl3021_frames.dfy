/**
 * The CL3021 source-control command frames.  Every frame starts with 0x81,
 * then the module, the declared frame length (byte 3) and the opcode; the
 * payload follows, and the frame ends in a check byte: the XOR of the bytes
 * from index 1 up to the end of the payload (`set_cmd[1:]`), or up to but
 * excluding the last payload byte (`set_cmd[1:-1]`), depending on the
 * builder.  Each builder grows its command list step by step and returns the
 * bytes it would hand to the socket; the UDP transport itself is not part of
 * this model.
 */
module Cl3021Frames {
  import opened Wrappers
  import opened HexText
  import opened ByteCodec
  import opened Cl3021Codec

  /** `set_cmd.append(xor_sum(set_cmd[1:]))`: the check covers every byte after the start byte. */
  function SealedAll(body: seq<byte>): (f: seq<byte>)
    requires |body| >= 1
    ensures |f| == |body| + 1 && f[..|body|] == body
  {
    body + [CheckByte(body[1..])]
  }

  /** `set_cmd.append(xor_sum(set_cmd[1:-1]))`: the check leaves the last payload byte out. */
  function SealedShort(body: seq<byte>): (f: seq<byte>)
    requires |body| >= 2
    ensures |f| == |body| + 1 && f[..|body|] == body
  {
    body + [CheckByte(body[1..|body| - 1])]
  }

  /** A frame that declares its own length in byte 3 and ends in the check over everything after the start byte. */
  predicate WellSealed(f: seq<byte>) {
    4 <= |f| && f[3] == |f| && f[|f| - 1] == CheckByte(f[1..|f| - 1])
  }

  /** A value the slicing routine turns into its exact little-endian bytes. */
  predicate InField(n: int) {
    0 <= n < Pow32
  }

  /** An amplitude: the four little-endian bytes of the scaled value, then the marker 0xFC. */
  function Amplitude(n: int): seq<byte> {
    Le4(n) + [0xFC]
  }

  // ---------------------------------------------------------------------------
  // Properties of the check byte, as a receiver checks it

  /** A frame sealed over `set_cmd[1:]` is well sealed exactly when its byte 3 holds the final length. */
  lemma SealedAllWellSealed(body: seq<byte>)
    requires |body| >= 4
    ensures WellSealed(SealedAll(body)) <==> body[3] == |body| + 1
  {
    var f := SealedAll(body);
    assert f[1..|f| - 1] == body[1..];
    assert f[3] == body[3];
  }

  /** With the check over `set_cmd[1:]`, the XOR of everything after the start byte, check included, is zero. */
  lemma SealedAllCloses(body: seq<byte>)
    requires |body| >= 1
    ensures XorAll(SealedAll(body)[1..]) == 0
  {
    assert SealedAll(body)[1..] == body[1..] + [CheckByte(body[1..])];
    CheckByteCloses(body[1..]);
  }

  /**
   * With the check over `set_cmd[1:-1]`, the XOR of everything after the start
   * byte, check included, is the last payload byte: a receiver that checks all
   * bytes accepts the frame exactly when that byte is zero.
   */
  lemma SealedShortLeavesLast(body: seq<byte>)
    requires |body| >= 2
    ensures XorAll(SealedShort(body)[1..]) == body[|body| - 1] as bv8
    ensures XorAll(SealedShort(body)[1..]) == 0 <==> body[|body| - 1] == 0
  {
    var inner := body[1..|body| - 1];
    var last := body[|body| - 1];
    var c := CheckByte(inner);
    assert XorAll(SealedShort(body)[1..]) == last as bv8 by {
      assert SealedShort(body)[1..] == (inner + [last]) + [c];
      XorAllConcat(inner + [last], [c]);
      XorAllConcat(inner, [last]);
      XorOfOne(last);
      XorOfOne(c);
      XorCancel(XorAll(inner), last as bv8);
    }
    ByteBvZero(last);
  }

  lemma XorCancel(p: bv8, x: bv8)
    ensures (p ^ x) ^ p == x
  {
  }

  lemma ByteBvZero(x: byte)
    ensures x as bv8 == 0 <==> x == 0
  {
  }

  /** `int(hex(xor).replace('0x', ''), 16)`, as `set_ac` and `set_dc` append their check: the XOR itself. */
  method HexCheck(x: byte) returns (check: byte)
    ensures check == x
  {
    Remove0xOfPyHex(x);
    LowerHexValue(x);
    check := ParseHex(Remove0x(PyHex(x))).value;
  }

  // ---------------------------------------------------------------------------
  // XOR of a range, for frames written out as literals

  /** The XOR of `s[lo..hi]`, folded from the front. */
  function XorRange(s: seq<byte>, lo: nat, hi: nat): bv8
    requires lo <= hi <= |s|
    decreases hi - lo
  {
    if lo == hi then 0 else (s[lo] as bv8) ^ XorRange(s, lo + 1, hi)
  }

  lemma {:induction false} XorRangeAll(s: seq<byte>, lo: nat, hi: nat)
    requires lo <= hi <= |s|
    ensures XorRange(s, lo, hi) == XorAll(s[lo..hi])
    decreases hi - lo
  {
    if lo < hi {
      XorRangeAll(s, lo + 1, hi);
      assert s[lo..hi] == [s[lo]] + s[lo + 1..hi];
      XorAllConcat([s[lo]], s[lo + 1..hi]);
      XorOfOne(s[lo]);
    }
  }

  lemma {:induction false} XorRangeSplit(s: seq<byte>, lo: nat, mid: nat, hi: nat)
    requires lo <= mid <= hi <= |s|
    ensures XorRange(s, lo, hi) == XorRange(s, lo, mid) ^ XorRange(s, mid, hi)
    decreases mid - lo
  {
    if lo < mid {
      XorRangeSplit(s, lo + 1, mid, hi);
    }
  }

  /** A literal frame whose covered bytes XOR to its last byte and whose byte 3 is its length is well sealed. */
  lemma LiteralSealed(f: seq<byte>)
    requires 4 <= |f| && f[3] == |f| && XorRange(f, 1, |f| - 1) as int == f[|f| - 1]
    ensures WellSealed(f)
  {
    XorRangeAll(f, 1, |f| - 1);
  }

  // ---------------------------------------------------------------------------
  // Literal frames

  const OnlineFrame: seq<byte> :=
    [0x81, 0x01, 0x25, 0x06, 0xc9, 0xeb]

  const PhaseAmplitudeUpdateFrame: seq<byte> :=
    [0x81, 0x01, 0x25, 0x29, 0xa3, 0x05, 0x44, 0x3f, 0xe8, 0xcd, 0x08, 0x00, 0xfc, 0xe8, 0xcd, 0x08, 0x00,
     0xfc, 0xe8, 0xcd, 0x08, 0x00, 0xfc, 0x40, 0x4b, 0x4c, 0x00, 0xfa, 0x40, 0x4b, 0x4c, 0x00, 0xfa, 0x40,
     0x4b, 0x4c, 0x00, 0xfa, 0x02, 0x3f, 0x81]

  const FrequencyRenewalFrame: seq<byte> :=
    [0x81, 0x01, 0x25, 0x0e, 0xa3, 0x05, 0x04, 0xc0, 0x20, 0xa1, 0x07, 0x00, 0x07, 0xc9]

  const HarmonicSettingsFrame: seq<byte> :=
    [0x81, 0x01, 0x25, 0x23, 0xa3, 0x05, 0x42, 0x3f, 0x80, 0x4f, 0x12, 0x00, 0x00, 0x9f, 0x24, 0x00, 0x00,
     0x00, 0x00, 0x00, 0x80, 0x4f, 0x12, 0x00, 0x00, 0x9f, 0x24, 0x00, 0x00, 0x00, 0x00, 0x00, 0x01, 0x3f,
     0xe2]

  const ClearDcOverloadFrame: seq<byte> :=
    [0x81, 0x01, 0x26, 0x07, 0x39, 0x00, 0x19]

  const VoltageOffFrame: seq<byte> :=
    [0x81, 0x01, 0x26, 0x07, 0x38, 0x01, 0x19]

  const CurrentOffAsWritten: seq<byte> :=
    [0x81, 0x01, 0x26, 0x07, 0x38, 0x02, 0x19]

  const SourceAutoFrame: seq<byte> :=
    [0x81, 0x01, 0x25, 0x0a, 0xa3, 0x05, 0x01, 0x40, 0x00, 0xc9]

  const ScreenHomeFrame: seq<byte> :=
    [0x81, 0x01, 0x25, 0x0a, 0xa3, 0x00, 0x10, 0x80, 0x00, 0x1d]

  lemma OnlineFrameXor()
    ensures XorRange(OnlineFrame, 1, 5) == 0xeb
  {
    assert OnlineFrame[1] as bv8 == 0x01;
    assert OnlineFrame[2] as bv8 == 0x25;
    assert OnlineFrame[3] as bv8 == 0x06;
    assert OnlineFrame[4] as bv8 == 0xc9;
  }

  lemma PhaseAmplitudeUpdateFrameXor1()
    ensures XorRange(PhaseAmplitudeUpdateFrame, 1, 5) == 0xae
  {
    assert PhaseAmplitudeUpdateFrame[1] as bv8 == 0x01;
    assert PhaseAmplitudeUpdateFrame[2] as bv8 == 0x25;
    assert PhaseAmplitudeUpdateFrame[3] as bv8 == 0x29;
    assert PhaseAmplitudeUpdateFrame[4] as bv8 == 0xa3;
  }

  lemma PhaseAmplitudeUpdateFrameXor2()
    ensures XorRange(PhaseAmplitudeUpdateFrame, 5, 9) == 0x96
  {
    assert PhaseAmplitudeUpdateFrame[5] as bv8 == 0x05;
    assert PhaseAmplitudeUpdateFrame[6] as bv8 == 0x44;
    assert PhaseAmplitudeUpdateFrame[7] as bv8 == 0x3f;
    assert PhaseAmplitudeUpdateFrame[8] as bv8 == 0xe8;
  }

  lemma PhaseAmplitudeUpdateFrameXor3()
    ensures XorRange(PhaseAmplitudeUpdateFrame, 9, 13) == 0x39
  {
    assert PhaseAmplitudeUpdateFrame[9] as bv8 == 0xcd;
    assert PhaseAmplitudeUpdateFrame[10] as bv8 == 0x08;
    assert PhaseAmplitudeUpdateFrame[11] as bv8 == 0x00;
    assert PhaseAmplitudeUpdateFrame[12] as bv8 == 0xfc;
  }

  lemma PhaseAmplitudeUpdateFrameXor4()
    ensures XorRange(PhaseAmplitudeUpdateFrame, 13, 17) == 0x2d
  {
    assert PhaseAmplitudeUpdateFrame[13] as bv8 == 0xe8;
    assert PhaseAmplitudeUpdateFrame[14] as bv8 == 0xcd;
    assert PhaseAmplitudeUpdateFrame[15] as bv8 == 0x08;
    assert PhaseAmplitudeUpdateFrame[16] as bv8 == 0x00;
  }

  lemma PhaseAmplitudeUpdateFrameXor5()
    ensures XorRange(PhaseAmplitudeUpdateFrame, 17, 21) == 0xd1
  {
    assert PhaseAmplitudeUpdateFrame[17] as bv8 == 0xfc;
    assert PhaseAmplitudeUpdateFrame[18] as bv8 == 0xe8;
    assert PhaseAmplitudeUpdateFrame[19] as bv8 == 0xcd;
    assert PhaseAmplitudeUpdateFrame[20] as bv8 == 0x08;
  }

  lemma PhaseAmplitudeUpdateFrameXor6()
    ensures XorRange(PhaseAmplitudeUpdateFrame, 21, 25) == 0xf7
  {
    assert PhaseAmplitudeUpdateFrame[21] as bv8 == 0x00;
    assert PhaseAmplitudeUpdateFrame[22] as bv8 == 0xfc;
    assert PhaseAmplitudeUpdateFrame[23] as bv8 == 0x40;
    assert PhaseAmplitudeUpdateFrame[24] as bv8 == 0x4b;
  }

  lemma PhaseAmplitudeUpdateFrameXor7()
    ensures XorRange(PhaseAmplitudeUpdateFrame, 25, 29) == 0xf6
  {
    assert PhaseAmplitudeUpdateFrame[25] as bv8 == 0x4c;
    assert PhaseAmplitudeUpdateFrame[26] as bv8 == 0x00;
    assert PhaseAmplitudeUpdateFrame[27] as bv8 == 0xfa;
    assert PhaseAmplitudeUpdateFrame[28] as bv8 == 0x40;
  }

  lemma PhaseAmplitudeUpdateFrameXor8()
    ensures XorRange(PhaseAmplitudeUpdateFrame, 29, 33) == 0xfd
  {
    assert PhaseAmplitudeUpdateFrame[29] as bv8 == 0x4b;
    assert PhaseAmplitudeUpdateFrame[30] as bv8 == 0x4c;
    assert PhaseAmplitudeUpdateFrame[31] as bv8 == 0x00;
    assert PhaseAmplitudeUpdateFrame[32] as bv8 == 0xfa;
  }

  lemma PhaseAmplitudeUpdateFrameXor9()
    ensures XorRange(PhaseAmplitudeUpdateFrame, 33, 37) == 0x47
  {
    assert PhaseAmplitudeUpdateFrame[33] as bv8 == 0x40;
    assert PhaseAmplitudeUpdateFrame[34] as bv8 == 0x4b;
    assert PhaseAmplitudeUpdateFrame[35] as bv8 == 0x4c;
    assert PhaseAmplitudeUpdateFrame[36] as bv8 == 0x00;
  }

  lemma PhaseAmplitudeUpdateFrameXor10()
    ensures XorRange(PhaseAmplitudeUpdateFrame, 37, 40) == 0xc7
  {
    assert PhaseAmplitudeUpdateFrame[37] as bv8 == 0xfa;
    assert PhaseAmplitudeUpdateFrame[38] as bv8 == 0x02;
    assert PhaseAmplitudeUpdateFrame[39] as bv8 == 0x3f;
  }

  lemma PhaseAmplitudeUpdateFrameXor()
    ensures XorRange(PhaseAmplitudeUpdateFrame, 1, 40) == 0x81
  {
    PhaseAmplitudeUpdateFrameXor1();
    PhaseAmplitudeUpdateFrameXor2();
    PhaseAmplitudeUpdateFrameXor3();
    PhaseAmplitudeUpdateFrameXor4();
    PhaseAmplitudeUpdateFrameXor5();
    PhaseAmplitudeUpdateFrameXor6();
    PhaseAmplitudeUpdateFrameXor7();
    PhaseAmplitudeUpdateFrameXor8();
    PhaseAmplitudeUpdateFrameXor9();
    PhaseAmplitudeUpdateFrameXor10();
    XorRangeSplit(PhaseAmplitudeUpdateFrame, 1, 5, 40);
    XorRangeSplit(PhaseAmplitudeUpdateFrame, 5, 9, 40);
    XorRangeSplit(PhaseAmplitudeUpdateFrame, 9, 13, 40);
    XorRangeSplit(PhaseAmplitudeUpdateFrame, 13, 17, 40);
    XorRangeSplit(PhaseAmplitudeUpdateFrame, 17, 21, 40);
    XorRangeSplit(PhaseAmplitudeUpdateFrame, 21, 25, 40);
    XorRangeSplit(PhaseAmplitudeUpdateFrame, 25, 29, 40);
    XorRangeSplit(PhaseAmplitudeUpdateFrame, 29, 33, 40);
    XorRangeSplit(PhaseAmplitudeUpdateFrame, 33, 37, 40);
  }

  lemma FrequencyRenewalFrameXor()
    ensures XorRange(FrequencyRenewalFrame, 1, 13) == 0xc9
  {
    assert XorRange(FrequencyRenewalFrame, 9, 13) == 0xa1;
    assert XorRange(FrequencyRenewalFrame, 5, 13) == 0x40;
  }

  lemma HarmonicSettingsFrameXor1()
    ensures XorRange(HarmonicSettingsFrame, 1, 5) == 0xa4
  {
    assert HarmonicSettingsFrame[1] as bv8 == 0x01;
    assert HarmonicSettingsFrame[2] as bv8 == 0x25;
    assert HarmonicSettingsFrame[3] as bv8 == 0x23;
    assert HarmonicSettingsFrame[4] as bv8 == 0xa3;
  }

  lemma HarmonicSettingsFrameXor2()
    ensures XorRange(HarmonicSettingsFrame, 5, 9) == 0xf8
  {
    assert HarmonicSettingsFrame[5] as bv8 == 0x05;
    assert HarmonicSettingsFrame[6] as bv8 == 0x42;
    assert HarmonicSettingsFrame[7] as bv8 == 0x3f;
    assert HarmonicSettingsFrame[8] as bv8 == 0x80;
  }

  lemma HarmonicSettingsFrameXor3()
    ensures XorRange(HarmonicSettingsFrame, 9, 13) == 0x5d
  {
    assert HarmonicSettingsFrame[9] as bv8 == 0x4f;
    assert HarmonicSettingsFrame[10] as bv8 == 0x12;
    assert HarmonicSettingsFrame[11] as bv8 == 0x00;
    assert HarmonicSettingsFrame[12] as bv8 == 0x00;
  }

  lemma HarmonicSettingsFrameXor4()
    ensures XorRange(HarmonicSettingsFrame, 13, 17) == 0xbb
  {
    assert HarmonicSettingsFrame[13] as bv8 == 0x9f;
    assert HarmonicSettingsFrame[14] as bv8 == 0x24;
    assert HarmonicSettingsFrame[15] as bv8 == 0x00;
    assert HarmonicSettingsFrame[16] as bv8 == 0x00;
  }

  lemma HarmonicSettingsFrameXor5()
    ensures XorRange(HarmonicSettingsFrame, 17, 21) == 0x80
  {
    assert HarmonicSettingsFrame[17] as bv8 == 0x00;
    assert HarmonicSettingsFrame[18] as bv8 == 0x00;
    assert HarmonicSettingsFrame[19] as bv8 == 0x00;
    assert HarmonicSettingsFrame[20] as bv8 == 0x80;
  }

  lemma HarmonicSettingsFrameXor6()
    ensures XorRange(HarmonicSettingsFrame, 21, 25) == 0x5d
  {
    assert HarmonicSettingsFrame[21] as bv8 == 0x4f;
    assert HarmonicSettingsFrame[22] as bv8 == 0x12;
    assert HarmonicSettingsFrame[23] as bv8 == 0x00;
    assert HarmonicSettingsFrame[24] as bv8 == 0x00;
  }

  lemma HarmonicSettingsFrameXor7()
    ensures XorRange(HarmonicSettingsFrame, 25, 29) == 0xbb
  {
    assert HarmonicSettingsFrame[25] as bv8 == 0x9f;
    assert HarmonicSettingsFrame[26] as bv8 == 0x24;
    assert HarmonicSettingsFrame[27] as bv8 == 0x00;
    assert HarmonicSettingsFrame[28] as bv8 == 0x00;
  }

  lemma HarmonicSettingsFrameXor8()
    ensures XorRange(HarmonicSettingsFrame, 29, 33) == 0x01
  {
    assert HarmonicSettingsFrame[29] as bv8 == 0x00;
    assert HarmonicSettingsFrame[30] as bv8 == 0x00;
    assert HarmonicSettingsFrame[31] as bv8 == 0x00;
    assert HarmonicSettingsFrame[32] as bv8 == 0x01;
  }

  lemma HarmonicSettingsFrameXor9()
    ensures XorRange(HarmonicSettingsFrame, 33, 34) == 0x3f
  {
    assert HarmonicSettingsFrame[33] as bv8 == 0x3f;
  }

  lemma HarmonicSettingsFrameXor()
    ensures XorRange(HarmonicSettingsFrame, 1, 34) == 0xe2
  {
    HarmonicSettingsFrameXor1();
    HarmonicSettingsFrameXor2();
    HarmonicSettingsFrameXor3();
    HarmonicSettingsFrameXor4();
    HarmonicSettingsFrameXor5();
    HarmonicSettingsFrameXor6();
    HarmonicSettingsFrameXor7();
    HarmonicSettingsFrameXor8();
    HarmonicSettingsFrameXor9();
    XorRangeSplit(HarmonicSettingsFrame, 1, 5, 34);
    XorRangeSplit(HarmonicSettingsFrame, 5, 9, 34);
    XorRangeSplit(HarmonicSettingsFrame, 9, 13, 34);
    XorRangeSplit(HarmonicSettingsFrame, 13, 17, 34);
    XorRangeSplit(HarmonicSettingsFrame, 17, 21, 34);
    XorRangeSplit(HarmonicSettingsFrame, 21, 25, 34);
    XorRangeSplit(HarmonicSettingsFrame, 25, 29, 34);
    XorRangeSplit(HarmonicSettingsFrame, 29, 33, 34);
  }

  lemma ClearDcOverloadFrameXor()
    ensures XorRange(ClearDcOverloadFrame, 1, 6) == 0x19
  {
  }

  lemma VoltageOffFrameXor()
    ensures XorRange(VoltageOffFrame, 1, 6) == 0x19
  {
  }

  lemma CurrentOffAsWrittenXor()
    ensures XorRange(CurrentOffAsWritten, 1, 6) == 0x1a
  {
  }

  lemma SourceAutoFrameXor()
    ensures XorRange(SourceAutoFrame, 1, 9) == 0xc9
  {
  }

  lemma ScreenHomeFrameXor()
    ensures XorRange(ScreenHomeFrame, 1, 9) == 0x1d
  {
  }

  lemma OnlineFrameShape()
    ensures |OnlineFrame| == 6 && OnlineFrame[3] == 6 && OnlineFrame[5] == 0xeb
  {
    assert OnlineFrame[5] == 0xeb;
  }

  lemma OnlineFrameSealed()
    ensures WellSealed(OnlineFrame)
  {
    OnlineFrameXor();
    OnlineFrameShape();
    LiteralSealed(OnlineFrame);
  }

  lemma PhaseAmplitudeUpdateFrameShape()
    ensures |PhaseAmplitudeUpdateFrame| == 41 && PhaseAmplitudeUpdateFrame[3] == 41 && PhaseAmplitudeUpdateFrame[40] == 0x81
  {
    assert PhaseAmplitudeUpdateFrame[40] == 0x81;
  }

  lemma PhaseAmplitudeUpdateFrameSealed()
    ensures WellSealed(PhaseAmplitudeUpdateFrame)
  {
    PhaseAmplitudeUpdateFrameXor();
    PhaseAmplitudeUpdateFrameShape();
    LiteralSealed(PhaseAmplitudeUpdateFrame);
  }

  lemma FrequencyRenewalFrameShape()
    ensures |FrequencyRenewalFrame| == 14 && FrequencyRenewalFrame[3] == 14 && FrequencyRenewalFrame[13] == 0xc9
  {
    assert FrequencyRenewalFrame[13] == 0xc9;
  }

  lemma FrequencyRenewalFrameSealed()
    ensures WellSealed(FrequencyRenewalFrame)
  {
    FrequencyRenewalFrameXor();
    FrequencyRenewalFrameShape();
    LiteralSealed(FrequencyRenewalFrame);
  }

  lemma HarmonicSettingsFrameShape()
    ensures |HarmonicSettingsFrame| == 35 && HarmonicSettingsFrame[3] == 35 && HarmonicSettingsFrame[34] == 0xe2
  {
    assert HarmonicSettingsFrame[34] == 0xe2;
  }

  lemma HarmonicSettingsFrameSealed()
    ensures WellSealed(HarmonicSettingsFrame)
  {
    HarmonicSettingsFrameXor();
    HarmonicSettingsFrameShape();
    LiteralSealed(HarmonicSettingsFrame);
  }

  lemma ClearDcOverloadFrameShape()
    ensures |ClearDcOverloadFrame| == 7 && ClearDcOverloadFrame[3] == 7 && ClearDcOverloadFrame[6] == 0x19
  {
    assert ClearDcOverloadFrame[6] == 0x19;
  }

  lemma ClearDcOverloadFrameSealed()
    ensures WellSealed(ClearDcOverloadFrame)
  {
    ClearDcOverloadFrameXor();
    ClearDcOverloadFrameShape();
    LiteralSealed(ClearDcOverloadFrame);
  }

  lemma VoltageOffFrameShape()
    ensures |VoltageOffFrame| == 7 && VoltageOffFrame[3] == 7 && VoltageOffFrame[6] == 0x19
  {
    assert VoltageOffFrame[6] == 0x19;
  }

  lemma VoltageOffFrameSealed()
    ensures WellSealed(VoltageOffFrame)
  {
    VoltageOffFrameXor();
    VoltageOffFrameShape();
    LiteralSealed(VoltageOffFrame);
  }

  lemma SourceAutoFrameShape()
    ensures |SourceAutoFrame| == 10 && SourceAutoFrame[3] == 10 && SourceAutoFrame[9] == 0xc9
  {
    assert SourceAutoFrame[9] == 0xc9;
  }

  lemma SourceAutoFrameSealed()
    ensures WellSealed(SourceAutoFrame)
  {
    SourceAutoFrameXor();
    SourceAutoFrameShape();
    LiteralSealed(SourceAutoFrame);
  }

  lemma ScreenHomeFrameShape()
    ensures |ScreenHomeFrame| == 10 && ScreenHomeFrame[3] == 10 && ScreenHomeFrame[9] == 0x1d
  {
    assert ScreenHomeFrame[9] == 0x1d;
  }

  lemma ScreenHomeFrameSealed()
    ensures WellSealed(ScreenHomeFrame)
  {
    ScreenHomeFrameXor();
    ScreenHomeFrameShape();
    LiteralSealed(ScreenHomeFrame);
  }

  /** The fixed frames of `online`, `phase_amplitude_update`, `frequency_renewal` and `harmonic_settings_and_switches` are well sealed. */
  lemma LiteralFramesSealed()
    ensures WellSealed(OnlineFrame)
    ensures WellSealed(PhaseAmplitudeUpdateFrame)
    ensures WellSealed(FrequencyRenewalFrame)
    ensures WellSealed(HarmonicSettingsFrame)
  {
    OnlineFrameSealed();
    PhaseAmplitudeUpdateFrameSealed();
    FrequencyRenewalFrameSealed();
    HarmonicSettingsFrameSealed();
  }

  // ---------------------------------------------------------------------------
  // Appending one sliced field

  /** The slicing routine's outcome for a 4-byte field, gathered from the codec lemmas. */
  lemma Field4Facts(n: int)
    ensures Field4(n).Ok? <==> n >= 0
    ensures Field4(n).Ok? ==> |Field4(n).value| == 4
    ensures InField(n) ==> Field4(n) == Ok(Le4(n))
  {
    if n < 0 {
      SlicedFieldNegative(n, "", 8);
    } else {
      SlicedFieldOk(n, "", 8);
      if n < Pow32 {
        Field4Le(n);
      }
    }
  }

  lemma MarkedFieldFacts(n: int, marker: string)
    requires |marker| == 2 && IsHexString(marker)
    ensures MarkedField(n, marker).Ok? <==> n >= 0
    ensures MarkedField(n, marker).Ok? ==> |MarkedField(n, marker).value| == 5
    ensures InField(n) ==> MarkedField(n, marker) == Ok(Le4(n) + [HexValue(marker)])
  {
    if n < 0 {
      SlicedFieldNegative(n, marker, 10);
    } else {
      SlicedFieldOk(n, marker, 10);
      if n < Pow32 {
        MarkedFieldLe(n, marker);
      }
    }
  }

  lemma PhaseFieldFacts(n: int)
    ensures PhaseField(n).Ok? <==> n >= 0
    ensures PhaseField(n).Ok? ==> |PhaseField(n).value| == 5
    ensures InField(n) ==> PhaseField(n) == Ok([0] + Le4(n))
  {
    if n < 0 {
      SlicedFieldNegative(n, "", 10);
    } else {
      SlicedFieldOk(n, "", 10);
      if n < Pow32 {
        PhaseFieldLe(n);
      }
    }
  }

  lemma MarkerValues()
    ensures IsHexString("fc") && HexValue("fc") == 0xFC
    ensures IsHexString("fe") && HexValue("fe") == 0xFE
    ensures IsHexString("00") && HexValue("00") == 0x00
  {
    assert "fc"[..1] == "f" && "fe"[..1] == "f" && "00"[..1] == "0";
  }

  /** One four-line block of `set_ac`: a 4-byte field appended to the command. */
  method AppendField4(cmd: seq<byte>, n: int) returns (r: Result<seq<byte>, PyError>)
    ensures r.Ok? <==> n >= 0
    ensures r.Ok? ==> |r.value| == |cmd| + 4 && r.value[..|cmd|] == cmd
    ensures InField(n) ==> r == Ok(cmd + Le4(n))
  {
    Field4Facts(n);
    var pdu :- Field4(n);
    return Ok(cmd + pdu);
  }

  /** One amplitude block of `set_ac` / `set_dc`: the 4-byte field and the marker 0xFC appended. */
  method AppendAmplitude(cmd: seq<byte>, n: int) returns (r: Result<seq<byte>, PyError>)
    ensures r.Ok? <==> n >= 0
    ensures r.Ok? ==> |r.value| == |cmd| + 5 && r.value[..|cmd|] == cmd
    ensures InField(n) ==> r == Ok(cmd + Amplitude(n))
  {
    MarkerValues();
    MarkedFieldFacts(n, "fc");
    var pdu :- MarkedField(n, "fc");
    return Ok(cmd + pdu);
  }

  // ---------------------------------------------------------------------------
  // Builders with a single payload byte

  function WireFrame(a: byte): seq<byte> {
    SealedAll([0x81, 0x01, 0x25, 0x0a, 0xa3, 0x00, 0x01, 0x20, a])
  }

  /** A non-empty string of binary digits. */
  predicate BitString(s: string) {
    IsBinString(s) && |s| >= 1
  }

  /**
   * `int(bin_to_hex(bits), 16)` where the result must fit in a byte: the
   * value of the binary string.  `set_wire` reads it this way; the other
   * single-byte builders are modelled with this reading too (see the findings).
   */
  method BitsByte(bits: string) returns (r: Result<byte, PyError>)
    ensures r.Ok? <==> BitString(bits) && BinValue(bits) < 256
    ensures r.Ok? ==> r.value == BinValue(bits)
  {
    var hexText :- BinToHex(bits);
    if IsBinString(bits) {
      BinToHexValue(bits);
    }
    var a :- ParseHex(hexText);
    if a >= 256 {
      return Err(ValueError);
    }
    return Ok(a);
  }

  /**
   * `set_wire`: the wiring bits become the payload byte; the check covers
   * `set_cmd[1:]`.  A string that is not binary, is empty, or is worth more
   * than 255 raises, and the frame declares its 10 bytes.
   */
  method SetWire(way: string) returns (r: Result<seq<byte>, PyError>)
    ensures r.Ok? <==> BitString(way) && BinValue(way) < 256
    ensures r.Ok? ==> r.value == WireFrame(BinValue(way)) && WellSealed(r.value)
  {
    var a :- BitsByte(way);
    var cmd: seq<byte> := [0x81, 0x01, 0x25, 0x0a, 0xa3, 0x00, 0x01, 0x20, a];
    var x := XorSum(cmd[1..]);
    cmd := cmd + [x];
    SealedAllWellSealed(cmd[..9]);
    return Ok(cmd);
  }

  function BitsFrame(sub: byte, opcodeHi: byte, opcodeLo: byte, a: byte): seq<byte> {
    SealedShort([0x81, 0x01, 0x25, 0x0a, 0xa3, sub, opcodeHi, opcodeLo, a])
  }

  /**
   * `set_gear_switching_mode`: opcode 0x40 0x04 with the mode bits as the
   * payload byte; the check covers `set_cmd[1:-1]`, leaving the mode byte out.
   */
  method SetGearSwitchingMode(mode: string) returns (r: Result<seq<byte>, PyError>)
    ensures r.Ok? <==> BitString(mode) && BinValue(mode) < 256
    ensures r.Ok? ==> r.value == BitsFrame(0x05, 0x40, 0x04, BinValue(mode))
  {
    var a :- BitsByte(mode);
    var cmd: seq<byte> := [0x81, 0x01, 0x25, 0x0a, 0xa3, 0x05, 0x40, 0x04, a];
    var x := XorSum(cmd[1..|cmd| - 1]);
    cmd := cmd + [x];
    return Ok(cmd);
  }

  /** `clear_overload_lock`: opcode 0x01 0x80 with the flag bits as the payload byte; the check covers `set_cmd[1:-1]`. */
  method ClearOverloadLock(flag: string) returns (r: Result<seq<byte>, PyError>)
    ensures r.Ok? <==> BitString(flag) && BinValue(flag) < 256
    ensures r.Ok? ==> r.value == BitsFrame(0x00, 0x01, 0x80, BinValue(flag))
  {
    var a :- BitsByte(flag);
    var cmd: seq<byte> := [0x81, 0x01, 0x25, 0x0a, 0xa3, 0x00, 0x01, 0x80, a];
    var x := XorSum(cmd[1..|cmd| - 1]);
    cmd := cmd + [x];
    return Ok(cmd);
  }

  /**
   * What the code computes for `int(bin_to_hex(bits))`: the hexadecimal text
   * read back in base 10.
   */
  function BitsValueAsWritten(bits: string): Result<nat, PyError> {
    var h :- BinToHexSpec(bits);
    ParseDec(h)
  }

  /**
   * The base-10 reading gives the wrong value as soon as a hexadecimal digit
   * differs between the bases: "00010000" is 16 but reads as 10.
   */
  lemma DecimalReadMisreads()
    ensures IsBinString("00010000") && BinValue("00010000") == 16
    ensures BitsValueAsWritten("00010000") == Ok(10)
  {
    SixteenBits();
    assert FixedHex(16, 2) == "10" by {
      assert FixedHex(1, 1) == "1";
    }
    assert DecValue("10") == 10 by {
      assert "10"[..1] == "1";
    }
  }

  /** And "00001010" (ten) has the hexadecimal digit 'a', so the base-10 reading raises. */
  lemma DecimalReadRaises()
    ensures IsBinString("00001010") && BinValue("00001010") == 10
    ensures BitsValueAsWritten("00001010") == Err(ValueError)
  {
    TenBits();
    assert FixedHex(10, 2) == "0a" by {
      assert FixedHex(0, 1) == "0";
    }
    assert !IsDecString("0a") by {
      assert "0a"[1] == 'a';
    }
  }

  /**
   * The base-10 reading agrees with the value exactly when the value is a
   * single decimal digit: every larger mask is misread or raises.
   */
  lemma BitsValueAsWrittenAgrees(bits: string)
    requires BitString(bits)
    ensures BitsValueAsWritten(bits) == Ok(BinValue(bits)) <==> BinValue(bits) < 10
    ensures BitsValueAsWritten(bits).Ok? ==> BitsValueAsWritten(bits).value <= BinValue(bits)
  {
    BinToHexValue(bits);
    var h := BinToHexSpec(bits).value;
    assert |h| >= 1;
    if BinValue(bits) < 10 {
      FixedHexDecimal(BinValue(bits), |h|);
    }
    if IsDecString(h) {
      DecHexAgree(h);
    }
  }

  /** A digit string read in base 10 never exceeds its base-16 reading, and equals it only below ten. */
  lemma {:induction false} DecHexAgree(d: string)
    requires IsDecString(d)
    ensures IsHexString(d)
    ensures DecValue(d) <= HexValue(d)
    ensures DecValue(d) == HexValue(d) <==> HexValue(d) < 10
  {
    assert forall i :: 0 <= i < |d| ==> IsHexChar(d[i]);
    if |d| > 0 {
      var p := d[..|d| - 1];
      assert forall i :: 0 <= i < |p| ==> p[i] == d[i];
      DecHexAgree(p);
      assert CharValue(d[|d| - 1]) == d[|d| - 1] as int - '0' as int;
    }
  }

  /** The hexadecimal digit of `v` at position `k`, counted from the least significant. */
  function Nibble(v: nat, k: nat): (d: nat)
    ensures d < 16
  {
    if k == 0 then v % 16 else Nibble(v / 16, k - 1)
  }

  /**
   * The base-10 reading raises exactly when some hexadecimal digit of the
   * mask, among the `bin_to_hex` width, is 10 or more.
   */
  lemma BitsValueAsWrittenRaises(bits: string)
    requires BitString(bits)
    ensures BitsValueAsWritten(bits).Err? <==> !DecimalNibbles(BinValue(bits), (|bits| + 3) / 4)
  {
    FixedHexDigits(BinValue(bits), (|bits| + 3) / 4);
  }

  /** Every hexadecimal digit of `v` below position `width` is a decimal digit. */
  predicate DecimalNibbles(v: nat, width: nat) {
    forall k: nat :: k < width ==> Nibble(v, k) < 10
  }

  /** The fixed-width spelling is all decimal digits exactly when every digit position holds a value below ten. */
  lemma {:induction false} FixedHexDigits(v: nat, width: nat)
    ensures IsDecString(FixedHex(v, width)) <==> DecimalNibbles(v, width)
  {
    if width == 0 {
      assert FixedHex(v, width) == [];
    } else {
      var s := FixedHex(v, width);
      var t := FixedHex(v / 16, width - 1);
      FixedHexDigits(v / 16, width - 1);
      NibbleStep(v, width);
      var c := LowerDigit(v % 16);
      assert s == t + [c];
      assert IsDecChar(c) <==> v % 16 < 10;
      DecStringSnoc(t, c);
    }
  }

  lemma DecStringSnoc(t: string, c: char)
    ensures IsDecString(t + [c]) <==> IsDecString(t) && IsDecChar(c)
  {
    var s := t + [c];
    assert s[|t|] == c;
    assert forall i :: 0 <= i < |t| ==> s[i] == t[i];
  }

  /** The digits of `v` below `width` are the last digit and the digits of `v / 16` below `width - 1`. */
  lemma NibbleStep(v: nat, width: nat)
    requires width > 0
    ensures DecimalNibbles(v, width) <==> v % 16 < 10 && DecimalNibbles(v / 16, width - 1)
  {
    if DecimalNibbles(v, width) {
      assert Nibble(v, 0) == v % 16 < 10;
      forall k: nat | k < width - 1
        ensures Nibble(v / 16, k) < 10
      {
        assert Nibble(v, k + 1) == Nibble(v / 16, k) < 10;
      }
    }
    if v % 16 < 10 && DecimalNibbles(v / 16, width - 1) {
      forall k: nat | k < width
        ensures Nibble(v, k) < 10
      {
        if k > 0 {
          assert Nibble(v, k) == Nibble(v / 16, k - 1) < 10;
        }
      }
    }
  }

  /** A value below ten spells with decimal digits only, at any width. */
  lemma {:induction false} FixedHexDecimal(v: nat, width: nat)
    requires v < 10
    ensures IsDecString(FixedHex(v, width))
  {
    if width > 0 {
      FixedHexDecimal(v / 16, width - 1);
    }
  }

  lemma SixteenBits()
    ensures IsBinString("00010000") && BinValue("00010000") == 16
  {
    var s := "00010000";
    assert s[3] == '1';
    BinEight(s);
  }

  lemma TenBits()
    ensures IsBinString("00001010") && BinValue("00001010") == 10
  {
    var s := "00001010";
    assert s[4] == '1' && s[6] == '1';
    BinEight(s);
  }

  function Bit(c: char): nat {
    if c == '1' then 1 else 0
  }

  /** The value of eight binary digits, digit by digit. */
  lemma BinEight(s: string)
    requires |s| == 8 && IsBinString(s)
    ensures BinValue(s) == 128 * Bit(s[0]) + 64 * Bit(s[1]) + 32 * Bit(s[2]) + 16 * Bit(s[3])
                          + 8 * Bit(s[4]) + 4 * Bit(s[5]) + 2 * Bit(s[6]) + Bit(s[7])
  {
    assert s[..0] == [];
    BinPrefix(s, 1);
    BinPrefix(s, 2);
    assert BinValue(s[..2]) == 2 * Bit(s[0]) + Bit(s[1]);
    BinPrefix(s, 3);
    BinPrefix(s, 4);
    assert BinValue(s[..4]) == 8 * Bit(s[0]) + 4 * Bit(s[1]) + 2 * Bit(s[2]) + Bit(s[3]);
    BinPrefix(s, 5);
    BinPrefix(s, 6);
    assert BinValue(s[..6]) == 32 * Bit(s[0]) + 16 * Bit(s[1]) + 8 * Bit(s[2]) + 4 * Bit(s[3]) + 2 * Bit(s[4]) + Bit(s[5]);
    BinPrefix(s, 7);
    BinPrefix(s, 8);
    assert s[..8] == s;
  }

  lemma BinPrefix(s: string, k: nat)
    requires 1 <= k <= |s| && IsBinString(s)
    ensures IsBinString(s[..k - 1]) && IsBinString(s[..k])
    ensures BinValue(s[..k]) == BinValue(s[..k - 1]) * 2 + Bit(s[k - 1])
  {
    assert s[..k][..k - 1] == s[..k - 1];
  }

  /** The screen / port frame body shared by the two builders below. */
  function ScreenBody(x: byte): seq<byte> {
    [0x81, 0x01, 0x25, 0x0a, 0xa3, 0x00, 0x10, 0x80, x]
  }

  /** `switch_device_screen_interface`: check over `set_cmd[1:]`; a value that is not a byte makes `bytearray` raise. */
  method SwitchDeviceScreenInterface(inter: int) returns (r: Result<seq<byte>, PyError>)
    ensures r.Ok? <==> 0 <= inter < 256
    ensures r.Ok? ==> r.value == SealedAll(ScreenBody(inter)) && WellSealed(r.value)
  {
    if !(0 <= inter < 256) {
      return Err(ValueError);
    }
    var cmd: seq<byte> := [0x81, 0x01, 0x25, 0x0a, 0xa3, 0x00, 0x10, 0x80, inter];
    var x := XorSum(cmd[1..]);
    cmd := cmd + [x];
    SealedAllWellSealed(cmd[..9]);
    return Ok(cmd);
  }

  /** `change__underly_communicate`: the same frame, but the check covers `set_cmd[1:-1]`. */
  method ChangeUnderlyingCommunication(port: int) returns (r: Result<seq<byte>, PyError>)
    ensures r.Ok? <==> 0 <= port < 256
    ensures r.Ok? ==> r.value == SealedShort(ScreenBody(port))
  {
    if !(0 <= port < 256) {
      return Err(ValueError);
    }
    var cmd: seq<byte> := [0x81, 0x01, 0x25, 0x0a, 0xa3, 0x00, 0x10, 0x80, port];
    var x := XorSum(cmd[1..|cmd| - 1]);
    cmd := cmd + [x];
    return Ok(cmd);
  }

  /** The two builders send the same bytes exactly when the port / screen byte is zero. */
  lemma ScreenFramesAgree(x: byte)
    ensures SealedAll(ScreenBody(x)) == SealedShort(ScreenBody(x)) <==> x == 0
  {
    var body := ScreenBody(x);
    assert body[1..] == body[1..8] + [x];
    XorAllConcat(body[1..8], [x]);
    XorOfOne(x);
    var p := XorAll(body[1..8]);
    XorCancel(p, x as bv8);
    ByteBvZero(x);
    if SealedAll(body) == SealedShort(body) {
      assert SealedAll(body)[9] == SealedShort(body)[9];
      assert p ^ (x as bv8) == p;
      XorCancel(p, x as bv8);
      XorSelf(p);
    }
  }

  lemma XorSelf(p: bv8)
    ensures p ^ p == 0
  {
  }

  // ---------------------------------------------------------------------------
  // Gear updates

  function GearBody(channel: byte, g: byte): seq<byte> {
    [0x81, 0x01, 0x25, 0x0c, 0xa3, 0x02, 0x02, channel, g, g, g]
  }

  function GearFrame(channel: byte, g: byte): seq<byte> {
    SealedAll(GearBody(channel, g))
  }

  /** `voltage_gear_update` / `current_gear_update`: the gear three times after the channel byte, 0x07 or 0x38. */
  method GearUpdate(channel: byte, gear: int) returns (r: Result<seq<byte>, PyError>)
    ensures r.Ok? <==> 0 <= gear < 256
    ensures r.Ok? ==> r.value == GearFrame(channel, gear)
  {
    if !(0 <= gear < 256) {
      return Err(ValueError);
    }
    var cmd: seq<byte> := [0x81, 0x01, 0x25, 0x0c, 0xa3, 0x02, 0x02, channel, gear, gear, gear];
    var x := XorSum(cmd[1..]);
    cmd := cmd + [x];
    return Ok(cmd);
  }

  /**
   * Because the gear appears three times, the check of a gear frame is 0x8b
   * XOR the channel XOR the gear (0x8c XOR g for voltage, 0x07, and 0xb3 XOR g
   * for current, 0x38), and the frame is well sealed.
   */
  lemma GearChecks(channel: byte, g: byte)
    ensures GearFrame(channel, g)[11] as bv8 == 0x8b ^ (channel as bv8) ^ (g as bv8)
    ensures WellSealed(GearFrame(channel, g))
  {
    var body := GearBody(channel, g);
    assert body[1..] == body[1..11];
    XorRangeAll(body, 1, 11);
    GearXor(channel, g);
    BvRoundTrip(XorAll(body[1..]));
    SealedAllWellSealed(body);
  }

  lemma GearXor(channel: byte, g: byte)
    ensures XorRange(GearBody(channel, g), 1, 11) == 0x8b ^ (channel as bv8) ^ (g as bv8)
  {
    var body := GearBody(channel, g);
    GearHeadXor(channel, g);
    GearTailXor(channel, g);
    XorRangeSplit(body, 1, 7, 11);
  }

  lemma GearHeadXor(channel: byte, g: byte)
    ensures XorRange(GearBody(channel, g), 1, 7) == 0x8b
  {
    var body := GearBody(channel, g);
    assert body[1] as bv8 == 0x01;
    assert body[2] as bv8 == 0x25;
    assert body[3] as bv8 == 0x0c;
    assert body[4] as bv8 == 0xa3;
    assert body[5] as bv8 == 0x02;
    assert body[6] as bv8 == 0x02;
  }

  lemma GearTailXor(channel: byte, g: byte)
    ensures XorRange(GearBody(channel, g), 7, 11) == (channel as bv8) ^ (g as bv8)
  {
    var body := GearBody(channel, g);
    XorTriple(body, 8);
    XorRangeCons(body, 7, 11);
  }

  /** Three equal bytes XOR to that byte. */
  lemma XorTriple(s: seq<byte>, lo: nat)
    requires lo + 3 <= |s| && s[lo] == s[lo + 1] == s[lo + 2]
    ensures XorRange(s, lo, lo + 3) == s[lo] as bv8
  {
    XorRangeCons(s, lo, lo + 3);
    XorRangeCons(s, lo + 1, lo + 3);
    XorRangeCons(s, lo + 2, lo + 3);
    XorSelf(s[lo] as bv8);
    XorZero(s[lo] as bv8);
  }

  lemma XorRangeCons(s: seq<byte>, lo: nat, hi: nat)
    requires lo < hi <= |s|
    ensures XorRange(s, lo, hi) == (s[lo] as bv8) ^ XorRange(s, lo + 1, hi)
  {
  }

  lemma XorZero(b: bv8)
    ensures b ^ 0 == b
  {
  }

  /** `set_current_gear`: the gear the current table selects, sent on channel 0x38. */
  method SetCurrentGear(x: real) returns (frame: seq<byte>)
    ensures frame == GearFrame(0x38, CurrentGear(x))
    ensures frame[8] == LimitsAtLeast(CurrentLimits, x) <= 12
  {
    CurrentGearCounts(x);
    var r := GearUpdate(0x38, CurrentGear(x));
    frame := r.value;
  }

  /** `set_voltage_gear`: the gear the voltage table selects, sent on channel 0x07. */
  method SetVoltageGear(x: real) returns (frame: seq<byte>)
    ensures frame == GearFrame(0x07, VoltageGear(x))
    ensures frame[8] == LimitsAtLeast(VoltageLimits, x) <= 5
  {
    VoltageGearCounts(x);
    var r := GearUpdate(0x07, VoltageGear(x));
    frame := r.value;
  }

  // ---------------------------------------------------------------------------
  // set_ac

  const AcHeader: seq<byte> := [0x81, 0x01, 0x25, 0x49, 0xa3, 0x05, 0x46, 0x3f]
  const AcTrailer: seq<byte> := [0x07, 0x07, 0x3F, 0x3F, 0x00]

  /** Six 4-byte fields in a row, as `set_ac` lays out its phases and `set_harmonic_switch` its channel masks. */
  function SixFields(a: int, b: int, c: int, d: int, e: int, f: int): seq<byte> {
    Le4(a) + Le4(b) + Le4(c) + Le4(d) + Le4(e) + Le4(f)
  }

  function AcAmplitudes(uc: int, ub: int, ua: int, ic: int, ib: int, ia: int): seq<byte> {
    Amplitude(uc) + Amplitude(ub) + Amplitude(ua) + Amplitude(ic) + Amplitude(ib) + Amplitude(ia)
  }

  /** The intended `set_ac` frame: six phases, 0xFF, six amplitudes, the frequency, the trailer and the check. */
  function AcFrame(quc: int, qub: int, qua: int, qic: int, qib: int, qia: int,
                   uc: int, ub: int, ua: int, ic: int, ib: int, ia: int, f: int): seq<byte>
  {
    SealedAll(AcHeader + SixFields(quc, qub, qua, qic, qib, qia) + [0xFF]
              + AcAmplitudes(uc, ub, ua, ic, ib, ia) + Le4(f) + AcTrailer)
  }

  /** The six phase blocks of `set_ac`, appended in the order C, B, A voltage then C, B, A current. */
  method AppendPhases(cmd: seq<byte>, quc: int, qub: int, qua: int, qic: int, qib: int, qia: int)
    returns (r: Result<seq<byte>, PyError>)
    ensures r.Ok? <==> quc >= 0 && qub >= 0 && qua >= 0 && qic >= 0 && qib >= 0 && qia >= 0
    ensures r.Ok? ==> |r.value| == |cmd| + 24 && r.value[..|cmd|] == cmd
    ensures InField(quc) && InField(qub) && InField(qua) && InField(qic) && InField(qib) && InField(qia)
            ==> r == Ok(cmd + SixFields(quc, qub, qua, qic, qib, qia))
  {
    var c1 :- AppendField4(cmd, quc);
    var c2 :- AppendField4(c1, qub);
    var c3 :- AppendField4(c2, qua);
    var c4 :- AppendField4(c3, qic);
    var c5 :- AppendField4(c4, qib);
    var c6 :- AppendField4(c5, qia);
    PrefixOfPrefix(c6, c5, |cmd|);
    PrefixOfPrefix(c5, c4, |cmd|);
    PrefixOfPrefix(c4, c3, |cmd|);
    PrefixOfPrefix(c3, c2, |cmd|);
    PrefixOfPrefix(c2, c1, |cmd|);
    if InField(quc) && InField(qub) && InField(qua) && InField(qic) && InField(qib) && InField(qia) {
      AppendSix(cmd, Le4(quc), Le4(qub), Le4(qua), Le4(qic), Le4(qib), Le4(qia));
    }
    return Ok(c6);
  }

  /** The six amplitude blocks of `set_ac`, each marked 0xFC. */
  method AppendAmplitudes(cmd: seq<byte>, uc: int, ub: int, ua: int, ic: int, ib: int, ia: int)
    returns (r: Result<seq<byte>, PyError>)
    ensures r.Ok? <==> uc >= 0 && ub >= 0 && ua >= 0 && ic >= 0 && ib >= 0 && ia >= 0
    ensures r.Ok? ==> |r.value| == |cmd| + 30 && r.value[..|cmd|] == cmd
    ensures InField(uc) && InField(ub) && InField(ua) && InField(ic) && InField(ib) && InField(ia)
            ==> r == Ok(cmd + AcAmplitudes(uc, ub, ua, ic, ib, ia))
  {
    var c1 :- AppendAmplitude(cmd, uc);
    var c2 :- AppendAmplitude(c1, ub);
    var c3 :- AppendAmplitude(c2, ua);
    var c4 :- AppendAmplitude(c3, ic);
    var c5 :- AppendAmplitude(c4, ib);
    var c6 :- AppendAmplitude(c5, ia);
    PrefixOfPrefix(c6, c5, |cmd|);
    PrefixOfPrefix(c5, c4, |cmd|);
    PrefixOfPrefix(c4, c3, |cmd|);
    PrefixOfPrefix(c3, c2, |cmd|);
    PrefixOfPrefix(c2, c1, |cmd|);
    if InField(uc) && InField(ub) && InField(ua) && InField(ic) && InField(ib) && InField(ia) {
      AppendSix(cmd, Amplitude(uc), Amplitude(ub), Amplitude(ua), Amplitude(ic), Amplitude(ib), Amplitude(ia));
    }
    return Ok(c6);
  }

  /**
   * `set_ac` on already-scaled values (each `int(x * 10000)`): every value
   * goes through the slicing routine, the check covers `set_cmd[1:]` and is
   * appended through `int(hex(xor).replace('0x', ''), 16)`.  A negative value
   * raises; otherwise the frame has the 73 bytes it declares, and for values
   * below 2^32 it is exactly the intended layout, well sealed.
   */
  method SetAc(quc: int, qub: int, qua: int, qic: int, qib: int, qia: int,
               uc: int, ub: int, ua: int, ic: int, ib: int, ia: int, f: int)
    returns (r: Result<seq<byte>, PyError>)
    ensures r.Ok? <==> quc >= 0 && qub >= 0 && qua >= 0 && qic >= 0 && qib >= 0 && qia >= 0
                       && uc >= 0 && ub >= 0 && ua >= 0 && ic >= 0 && ib >= 0 && ia >= 0 && f >= 0
    ensures r.Ok? ==> |r.value| == 73 && r.value[3] == 73
    ensures InField(quc) && InField(qub) && InField(qua) && InField(qic) && InField(qib) && InField(qia)
            && InField(uc) && InField(ub) && InField(ua) && InField(ic) && InField(ib) && InField(ia) && InField(f)
            ==> r == Ok(AcFrame(quc, qub, qua, qic, qib, qia, uc, ub, ua, ic, ib, ia, f))
                && WellSealed(r.value)
  {
    var cmd := AcHeader;
    cmd :- AppendPhases(cmd, quc, qub, qua, qic, qib, qia);
    ghost var c1 := cmd;
    PrefixOfPrefix(c1, AcHeader, 4);
    cmd := cmd + [0xFF];
    ghost var c2 := cmd;
    cmd :- AppendAmplitudes(cmd, uc, ub, ua, ic, ib, ia);
    ghost var c3 := cmd;
    PrefixOfPrefix(c3, c2, 4);
    cmd :- AppendField4(cmd, f);
    ghost var c4 := cmd;
    PrefixOfPrefix(c4, c3, 4);
    cmd := cmd + AcTrailer;
    var x := XorSum(cmd[1..]);
    var check := HexCheck(x);
    assert c1[..4] == AcHeader[..4] && c2[..4] == c1[..4] && cmd[..4] == c4[..4];
    assert cmd[3] == cmd[..4][3] == AcHeader[3] == 73;
    SealedAllWellSealed(cmd);
    cmd := cmd + [check];
    return Ok(cmd);
  }

  // ---------------------------------------------------------------------------
  // Harmonics

  predicate AllNonNegative(xs: seq<int>) {
    forall k :: 0 <= k < |xs| ==> xs[k] >= 0
  }

  predicate AllInField(xs: seq<int>) {
    forall k :: 0 <= k < |xs| ==> InField(xs[k])
  }

  const ContentHeader: seq<byte> := [0x81, 0x01, 0x07, 0x74, 0xa6, 0x05, 0x02, 0x00, 0x00, 0x69]
  const PhaseHeader: seq<byte> := [0x81, 0x01, 0x07, 0x5f, 0xa6, 0x05, 0x0a, 0x00, 0x00, 0x54]
  const HarmonicCount: nat := 21

  /** The harmonic-content fields: each percentage little-endian, marked 0x00 for the fundamental and 0xFE after it. */
  function ContentFields(xs: seq<int>): (r: seq<byte>)
    ensures |r| == 5 * |xs|
  {
    if xs == [] then []
    else ContentFields(xs[..|xs| - 1]) + Le4(xs[|xs| - 1]) + [if |xs| == 1 then 0x00 else 0xFE]
  }

  /** The harmonic-phase fields: each scaled phase as a zero byte and the four little-endian bytes. */
  function PhaseFields(xs: seq<int>): (r: seq<byte>)
    ensures |r| == 5 * |xs|
  {
    if xs == [] then [] else PhaseFields(xs[..|xs| - 1]) + ([0] + Le4(xs[|xs| - 1]))
  }

  lemma AllInFieldPrefix(xs: seq<int>, i: nat)
    requires i < |xs| && AllInField(xs[..i + 1])
    ensures AllInField(xs[..i]) && InField(xs[i])
  {
    assert xs[..i + 1][i] == xs[i];
    forall k | 0 <= k < i
      ensures InField(xs[..i][k])
    {
      assert xs[..i][k] == xs[..i + 1][k];
    }
  }

  lemma ContentFieldsStep(xs: seq<int>, i: nat)
    requires i < |xs|
    ensures ContentFields(xs[..i + 1]) == ContentFields(xs[..i]) + (Le4(xs[i]) + [if i == 0 then 0x00 else 0xFE])
  {
    assert xs[..i + 1][..i] == xs[..i];
  }

  lemma PhaseFieldsStep(xs: seq<int>, i: nat)
    requires i < |xs|
    ensures PhaseFields(xs[..i + 1]) == PhaseFields(xs[..i]) + ([0] + Le4(xs[i]))
  {
    assert xs[..i + 1][..i] == xs[..i];
  }

  /** One harmonic-content block: the percentage's four little-endian bytes and the marker. */
  method AppendMarked(cmd: seq<byte>, n: int, fundamental: bool) returns (r: Result<seq<byte>, PyError>)
    ensures r.Ok? <==> n >= 0
    ensures r.Ok? ==> |r.value| == |cmd| + 5 && r.value[..|cmd|] == cmd
    ensures InField(n) ==> r == Ok(cmd + (Le4(n) + [if fundamental then 0x00 else 0xFE]))
  {
    var marker := if fundamental then "00" else "fe";
    MarkerValues();
    MarkedFieldFacts(n, marker);
    var pdu :- MarkedField(n, marker);
    return Ok(cmd + pdu);
  }

  /** One harmonic-phase block: a zero byte and the scaled phase's four little-endian bytes. */
  method AppendPhase(cmd: seq<byte>, n: int) returns (r: Result<seq<byte>, PyError>)
    ensures r.Ok? <==> n >= 0
    ensures r.Ok? ==> |r.value| == |cmd| + 5 && r.value[..|cmd|] == cmd
    ensures InField(n) ==> r == Ok(cmd + ([0] + Le4(n)))
  {
    PhaseFieldFacts(n);
    var pdu :- PhaseField(n);
    return Ok(cmd + pdu);
  }

  /**
   * `set_harmonic_content`: exactly 21 percentages (anything else raises a
   * TypeError, since the code raises a plain string), each a marked field;
   * the check covers `set_cmd[1:-1]`.  The frame has the 116 bytes it declares.
   */
  method SetHarmonicContent(content: seq<int>) returns (r: Result<seq<byte>, PyError>)
    ensures |content| != HarmonicCount ==> r == Err(TypeError)
    ensures r.Ok? <==> |content| == HarmonicCount && AllNonNegative(content)
    ensures r.Ok? ==> |r.value| == 116 && r.value[3] == 116
    ensures |content| == HarmonicCount && AllInField(content)
            ==> r == Ok(SealedShort(ContentHeader + ContentFields(content)))
  {
    if |content| != HarmonicCount {
      return Err(TypeError);
    }
    var cmd := ContentHeader;
    for i := 0 to HarmonicCount
      invariant |cmd| == 10 + 5 * i && cmd[..10] == ContentHeader
      invariant forall k :: 0 <= k < i ==> content[k] >= 0
      invariant AllInField(content[..i]) ==> cmd == ContentHeader + ContentFields(content[..i])
    {
      var next :- AppendMarked(cmd, content[i], i == 0);
      if AllInField(content[..i + 1]) {
        AllInFieldPrefix(content, i);
        ContentFieldsStep(content, i);
      }
      cmd := next;
    }
    assert content[..HarmonicCount] == content;
    var x := XorSum(cmd[1..|cmd| - 1]);
    cmd := cmd + [x];
    return Ok(cmd);
  }

  /**
   * `set_harmonic_phase`: exactly 21 scaled phases, each a zero byte and
   * four little-endian bytes; the check covers `set_cmd[1:-1]`.  The frame is
   * 116 bytes long although its byte 3 declares 0x5F.
   */
  method SetHarmonicPhase(phase: seq<int>) returns (r: Result<seq<byte>, PyError>)
    ensures |phase| != HarmonicCount ==> r == Err(TypeError)
    ensures r.Ok? <==> |phase| == HarmonicCount && AllNonNegative(phase)
    ensures r.Ok? ==> |r.value| == 116 && r.value[3] == 0x5F
    ensures |phase| == HarmonicCount && AllInField(phase)
            ==> r == Ok(SealedShort(PhaseHeader + PhaseFields(phase)))
  {
    if |phase| != HarmonicCount {
      return Err(TypeError);
    }
    var cmd := PhaseHeader;
    for i := 0 to HarmonicCount
      invariant |cmd| == 10 + 5 * i && cmd[..10] == PhaseHeader
      invariant forall k :: 0 <= k < i ==> phase[k] >= 0
      invariant AllInField(phase[..i]) ==> cmd == PhaseHeader + PhaseFields(phase[..i])
    {
      var next :- AppendPhase(cmd, phase[i]);
      if AllInField(phase[..i + 1]) {
        AllInFieldPrefix(phase, i);
        PhaseFieldsStep(phase, i);
      }
      cmd := next;
    }
    assert phase[..HarmonicCount] == phase;
    var x := XorSum(cmd[1..|cmd| - 1]);
    cmd := cmd + [x];
    return Ok(cmd);
  }

  /**
   * One switch field, corrected: the bit string through `bin_to_hex`, read
   * back in base 16 as `set_wire` does, then the slicing routine.
   */
  method AppendSwitchField(cmd: seq<byte>, bits: string) returns (r: Result<seq<byte>, PyError>)
    ensures r.Ok? <==> BitString(bits)
    ensures r.Ok? ==> |r.value| == |cmd| + 4 && r.value[..|cmd|] == cmd
    ensures BitString(bits) && BinValue(bits) < Pow32 ==> r == Ok(cmd + Le4(BinValue(bits)))
  {
    var h :- BinToHex(bits);
    if IsBinString(bits) {
      BinToHexValue(bits);
    }
    var v :- ParseHex(h);
    r := AppendField4(cmd, v);
  }

  /**
   * One switch field as the code is written (source_control.py:473 and its five
   * siblings): the `bin_to_hex` text read back with `int(...)`, base 10,
   * then the slicing routine.  It sends the mask only when the mask is below
   * ten; otherwise it sends another value or raises.
   */
  method AppendSwitchFieldAsWritten(cmd: seq<byte>, bits: string) returns (r: Result<seq<byte>, PyError>)
    ensures r.Ok? <==> BitsValueAsWritten(bits).Ok?
    ensures r.Ok? ==> |r.value| == |cmd| + 4 && r.value[..|cmd|] == cmd
    ensures BitString(bits) && BinValue(bits) < Pow32 ==> (r == Ok(cmd + Le4(BinValue(bits))) <==> BinValue(bits) < 10)
  {
    if BitString(bits) {
      BitsValueAsWrittenAgrees(bits);
    }
    var h :- BinToHex(bits);
    var v :- ParseDec(h);
    r := AppendField4(cmd, v);
    if BitString(bits) && BinValue(bits) < Pow32 {
      if r == Ok(cmd + Le4(BinValue(bits))) {
        assert r.value[|cmd|..] == Le4(v) == Le4(BinValue(bits));
        LeValueOfLe4(v);
        LeValueOfLe4(BinValue(bits));
      }
    }
  }

  const SwitchHeader: seq<byte> := [0x81, 0x01, 0x25, 0x22, 0xa3, 0x05, 0x20, 0x7f]

  function SwitchFrame(uc: nat, ub: nat, ua: nat, ic: nat, ib: nat, ia: nat, total: byte): seq<byte> {
    SealedShort(SwitchHeader + SixFields(uc, ub, ua, ic, ib, ia) + [total])
  }

  /** The six channel-mask blocks of `set_harmonic_switch`, in the order Uc, Ub, Ua, Ic, Ib, Ia. */
  method AppendSwitchFields(cmd: seq<byte>, ucHc: string, ubHc: string, uaHc: string, icHc: string,
                            ibHc: string, iaHc: string)
    returns (r: Result<seq<byte>, PyError>)
    ensures r.Ok? <==> BitString(ucHc) && BitString(ubHc) && BitString(uaHc) && BitString(icHc)
                       && BitString(ibHc) && BitString(iaHc)
    ensures r.Ok? ==> |r.value| == |cmd| + 24 && r.value[..|cmd|] == cmd
    ensures r.Ok? && BinValue(ucHc) < Pow32 && BinValue(ubHc) < Pow32 && BinValue(uaHc) < Pow32
            && BinValue(icHc) < Pow32 && BinValue(ibHc) < Pow32 && BinValue(iaHc) < Pow32
            ==> r.value == cmd + SixFields(BinValue(ucHc), BinValue(ubHc), BinValue(uaHc),
                                           BinValue(icHc), BinValue(ibHc), BinValue(iaHc))
  {
    var c1 :- AppendSwitchField(cmd, ucHc);
    var c2 :- AppendSwitchField(c1, ubHc);
    var c3 :- AppendSwitchField(c2, uaHc);
    var c4 :- AppendSwitchField(c3, icHc);
    var c5 :- AppendSwitchField(c4, ibHc);
    var c6 :- AppendSwitchField(c5, iaHc);
    PrefixOfPrefix(c6, c5, |cmd|);
    PrefixOfPrefix(c5, c4, |cmd|);
    PrefixOfPrefix(c4, c3, |cmd|);
    PrefixOfPrefix(c3, c2, |cmd|);
    PrefixOfPrefix(c2, c1, |cmd|);
    if BinValue(ucHc) < Pow32 && BinValue(ubHc) < Pow32 && BinValue(uaHc) < Pow32
       && BinValue(icHc) < Pow32 && BinValue(ibHc) < Pow32 && BinValue(iaHc) < Pow32 {
      AppendSix(cmd, Le4(BinValue(ucHc)), Le4(BinValue(ubHc)), Le4(BinValue(uaHc)),
                Le4(BinValue(icHc)), Le4(BinValue(ibHc)), Le4(BinValue(iaHc)));
    }
    return Ok(c6);
  }

  lemma PrefixOfPrefix(a: seq<byte>, b: seq<byte>, k: nat)
    requires |b| <= |a| && a[..|b|] == b && k <= |b|
    ensures a[..k] == b[..k]
  {
    assert forall i :: 0 <= i < k ==> a[i] == a[..|b|][i];
  }

  lemma AppendSix(c: seq<byte>, a: seq<byte>, b: seq<byte>, d: seq<byte>, e: seq<byte>, f: seq<byte>, g: seq<byte>)
    ensures c + a + b + d + e + f + g == c + (a + b + d + e + f + g)
  {
  }

  /**
   * `set_harmonic_switch`: six channel masks (bit k set switches harmonic k+1
   * on), each four little-endian bytes, then the total-switch byte; the check
   * covers `set_cmd[1:-1]`.  The frame has the 34 bytes it declares.
   */
  method SetHarmonicSwitch(ucHc: string, ubHc: string, uaHc: string, icHc: string, ibHc: string, iaHc: string,
                           total: string)
    returns (r: Result<seq<byte>, PyError>)
    ensures r.Ok? <==> BitString(ucHc) && BitString(ubHc) && BitString(uaHc) && BitString(icHc)
                       && BitString(ibHc) && BitString(iaHc) && BitString(total) && BinValue(total) < 256
    ensures r.Ok? ==> |r.value| == 34 && r.value[3] == 34
    ensures r.Ok? && BinValue(ucHc) < Pow32 && BinValue(ubHc) < Pow32 && BinValue(uaHc) < Pow32
            && BinValue(icHc) < Pow32 && BinValue(ibHc) < Pow32 && BinValue(iaHc) < Pow32
            ==> r.value == SwitchFrame(BinValue(ucHc), BinValue(ubHc), BinValue(uaHc),
                                       BinValue(icHc), BinValue(ibHc), BinValue(iaHc), BinValue(total))
  {
    var cmd := SwitchHeader;
    cmd :- AppendSwitchFields(cmd, ucHc, ubHc, uaHc, icHc, ibHc, iaHc);
    var t :- BitsByte(total);
    cmd := cmd + [t];
    var x := XorSum(cmd[1..|cmd| - 1]);
    cmd := cmd + [x];
    return Ok(cmd);
  }

  // ---------------------------------------------------------------------------
  // set_dc, read_dc, set_dc_read_mode, close_dc, close_dc_all

  function DcFrame(u: int, i: int): seq<byte> {
    SealedAll([0x81, 0x01, 0x26, 0x11, 0x31, 0x03] + Amplitude(u) + Amplitude(i))
  }

  /**
   * `set_dc` on the scaled voltage `int(u * 10000)` and the scaled current
   * `int(i / 1000 * 10000)`: two amplitude fields and the check over
   * `set_cmd[1:]`, 17 bytes as declared.
   */
  method SetDc(u: int, i: int) returns (r: Result<seq<byte>, PyError>)
    ensures r.Ok? <==> u >= 0 && i >= 0
    ensures r.Ok? ==> |r.value| == 17 && r.value[3] == 17
    ensures InField(u) && InField(i) ==> r == Ok(DcFrame(u, i)) && WellSealed(r.value)
  {
    var cmd: seq<byte> := [0x81, 0x01, 0x26, 0x11, 0x31, 0x03];
    cmd :- AppendAmplitude(cmd, u);
    cmd :- AppendAmplitude(cmd, i);
    var x := XorSum(cmd[1..]);
    var check := HexCheck(x);
    assert cmd[3] == 17;
    SealedAllWellSealed(cmd);
    cmd := cmd + [check];
    return Ok(cmd);
  }

  /**
   * `read_dc`: the request frame, and the decoding of the meter's reply (which
   * the transport delivers; it is a parameter here) according to `mode`.
   */
  method ReadDc(mode: int, reply: seq<byte>) returns (request: seq<byte>, reading: DcReading)
    ensures request == SealedAll([0x81, 0x01, 0x26, 0x06, 0xA3]) && WellSealed(request)
    ensures reading == ReadDcReading(reply, mode)
  {
    var cmd: seq<byte> := [0x81, 0x01, 0x26, 0x06, 0xA3];
    var x := XorSum(cmd[1..]);
    request := cmd + [x];
    SealedAllWellSealed(cmd);
    reading := ReadDcReading(reply, mode);
  }

  /** `set_dc_read_mode`: measure voltage and current together. */
  method SetDcReadMode() returns (frame: seq<byte>)
    ensures frame == SealedAll([0x81, 0x01, 0x26, 0x07, 0x3C, 0x00]) && WellSealed(frame)
  {
    var cmd: seq<byte> := [0x81, 0x01, 0x26, 0x07, 0x3C, 0x00];
    var x := XorSum(cmd[1..]);
    frame := cmd + [x];
    SealedAllWellSealed(cmd);
  }

  function CloseDcFrame(gear: byte): seq<byte> {
    SealedAll([0x81, 0x01, 0x26, 0x07, 0x38, gear])
  }

  /** `close_dc`: switch off output 1 (voltage) or 2 (current); the check covers `set_cmd[1:]`. */
  method CloseDc(gear: int) returns (r: Result<seq<byte>, PyError>)
    ensures r.Ok? <==> 0 <= gear < 256
    ensures r.Ok? ==> r.value == CloseDcFrame(gear) && WellSealed(r.value)
  {
    if !(0 <= gear < 256) {
      return Err(ValueError);
    }
    var cmd: seq<byte> := [0x81, 0x01, 0x26, 0x07, 0x38, gear];
    var x := XorSum(cmd[1..]);
    cmd := cmd + [x];
    SealedAllWellSealed(cmd[..6]);
    return Ok(cmd);
  }

  /** The five frames `close_dc_all` sends, in order, as the source lists them. */
  const CloseDcAllAsWritten: seq<seq<byte>> :=
    [ClearDcOverloadFrame, VoltageOffFrame, CurrentOffAsWritten, SourceAutoFrame, ScreenHomeFrame]

  /**
   * The current-off frame as written carries check 0x19, but the XOR of the
   * bytes it covers is 0x1a, which is what `close_dc(2)` sends; the other four
   * frames are well sealed.
   */
  lemma CloseDcAllAsWrittenMisSealed()
    ensures WellSealed(ClearDcOverloadFrame) && WellSealed(VoltageOffFrame)
    ensures WellSealed(SourceAutoFrame) && WellSealed(ScreenHomeFrame)
    ensures CurrentOffAsWritten[6] == 0x19 && CheckByte(CurrentOffAsWritten[1..6]) == 0x1a
    ensures !WellSealed(CurrentOffAsWritten)
    ensures CurrentOffAsWritten != CloseDcFrame(2)
    ensures CurrentOffAsWritten[..6] + [0x1a] == CloseDcFrame(2)
  {
    ClearDcOverloadFrameSealed();
    VoltageOffFrameSealed();
    SourceAutoFrameSealed();
    ScreenHomeFrameSealed();
    CurrentOffMisSealed();
  }

  lemma CurrentOffMisSealed()
    ensures CurrentOffAsWritten[6] == 0x19 && CheckByte(CurrentOffAsWritten[1..6]) == 0x1a
    ensures CurrentOffAsWritten[..6] + [0x1a] == CloseDcFrame(2)
  {
    CurrentOffAsWrittenXor();
    XorRangeAll(CurrentOffAsWritten, 1, 6);
    var body := CurrentOffAsWritten[..6];
    assert body == [0x81, 0x01, 0x26, 0x07, 0x38, 0x02];
    assert body[1..] == CurrentOffAsWritten[1..6];
  }

  /**
   * `close_dc_all` with the current-off frame sealed correctly: clear the
   * overload, switch off voltage and current, then the two source-side
   * frames; every frame sent is well sealed.
   */
  method CloseDcAll() returns (frames: seq<seq<byte>>)
    ensures |frames| == 5
    ensures frames[2] == CloseDcFrame(2)
    ensures forall k :: 0 <= k < 5 && k != 2 ==> frames[k] == CloseDcAllAsWritten[k]
    ensures forall k :: 0 <= k < |frames| ==> WellSealed(frames[k])
  {
    CloseDcAllAsWrittenMisSealed();
    var iClose := CloseDc(2);
    frames := [ClearDcOverloadFrame, VoltageOffFrame, iClose.value, SourceAutoFrame, ScreenHomeFrame];
  }
}
