/**
 * The Modbus frames the IO-module connection code builds and the replies it
 * slices: MBAP-framed requests for function 0x03 and for the vendor write
 * 0x6A, the RTU form of the 0x6A write with its CRC-16 trailer, and the
 * expected-echo comparison of the RTU write.
 */
module ModbusFrames {
  import opened Wrappers
  import opened HexText
  import opened ByteCodec
  import opened Cl3021Codec

  // ---------------------------------------------------------------------------
  // Register words on the wire

  /** `for value in values: pdu.extend([(value >> 8) & 0xff, value & 0xff])`: each value high byte first, in order. */
  function WordBytes(values: seq<int>): (r: seq<byte>)
    ensures |r| == 2 * |values|
  {
    if values == [] then [] else WordBytes(values[..|values| - 1]) + Split16(values[|values| - 1])
  }

  /** `struct.unpack(f'>{n}H', data)` on exactly 2n bytes: one big-endian word per byte pair. */
  function DecodeWords(data: seq<byte>): (w: seq<u16>)
    requires |data| % 2 == 0
    ensures |w| == |data| / 2
  {
    seq(|data| / 2, k requires 0 <= k < |data| / 2 => (data[2 * k] as int) * 256 + data[2 * k + 1])
  }

  /** `struct.unpack(f'>{count}H', data)`: the data must be exactly `count` words long, otherwise struct.error. */
  function UnpackWords(data: seq<byte>, count: int): (r: Result<seq<u16>, PyError>)
    ensures r.Ok? <==> count >= 0 && |data| == 2 * count
    ensures r.Ok? ==> |r.value| == count && WordBytes(r.value) == data
  {
    if count >= 0 && |data| == 2 * count then
      WordBytesOfDecode(data);
      Ok(DecodeWords(data))
    else Err(StructError)
  }

  /** The values modulo 2^16, as the words a device stores from `WordBytes(values)`. */
  function Words(values: seq<int>): (w: seq<u16>)
    ensures |w| == |values|
  {
    seq(|values|, k requires 0 <= k < |values| => values[k] % Pow16Bits)
  }

  // ---------------------------------------------------------------------------
  // MBAP-framed requests (Modbus TCP)

  /**
   * The MBAP header: transaction identifier 0x0001, protocol identifier
   * 0x0000, the length of what follows, and the unit identifier (section
   * 3.1.3 of the MODBUS Messaging on TCP/IP Implementation Guide V1.0b).
   */
  function MbapHeader(length: int, unit: byte): (h: seq<byte>)
    ensures |h| == 7
  {
    [0x00, 0x01, 0x00, 0x00] + Split16(length) + [unit]
  }

  /**
   * `read_funcode_03`'s request: function 0x03, the starting address and the
   * quantity of registers, both big-endian (section 6.3 of the MODBUS
   * Application Protocol Specification V1.1b3).
   */
  function ReadRequest(slave: byte, address: int, count: int): (f: seq<byte>)
    ensures |f| == 12
  {
    MbapHeader(6, slave) + [0x03] + Split16(address) + Split16(count)
  }

  /** The write PDU: function code, starting address, quantity, byte count, then the values high byte first. */
  function WritePdu(fc: byte, address: int, values: seq<int>): (p: seq<byte>)
    requires |values| <= 127
    ensures |p| == 6 + 2 * |values|
  {
    [fc] + Split16(address) + Split16(|values|) + [2 * |values|] + WordBytes(values)
  }

  /** `ModbusTcp6A.write_registers`' request: the MBAP header with length `2·len(values) + 7`, then the PDU. */
  function TcpWriteRequest(slave: byte, fc: byte, address: int, values: seq<int>): (f: seq<byte>)
    requires |values| <= 127
    ensures |f| == 13 + 2 * |values|
  {
    MbapHeader(2 * |values| + 7, slave) + WritePdu(fc, address, values)
  }

  /** `struct.unpack(f">{count}H", bytearray(byte[9:]))`: the words of a 0x03 reply after its 9-byte head. */
  function ReadReply(reply: seq<byte>, count: int): (r: Result<seq<u16>, PyError>)
    ensures r.Ok? <==> count >= 0 && (if |reply| >= 9 then |reply| - 9 else 0) == 2 * count
  {
    UnpackWords(PySlice(reply, 9, |reply|), count)
  }

  // ---------------------------------------------------------------------------
  // RTU framing and CRC-16/MODBUS

  /** The RTU body of the 0x6A write: the slave address, then the same PDU as over TCP. */
  function RtuBody(slave: byte, fc: byte, address: int, values: seq<int>): (b: seq<byte>)
    requires |values| <= 127
    ensures |b| == 7 + 2 * |values|
  {
    [slave] + WritePdu(fc, address, values)
  }

  /**
   * One bit of the reflected CRC-16: shift right, folding in 0xA001 (0x8005
   * reflected) when a one drops out. `0 - (c & 1)` is all ones exactly when
   * the low bit is set, so the mask selects the polynomial without a branch.
   */
  function CrcShift(c: bv16): bv16 {
    (c >> 1) ^ ((0 - (c & 1)) & 0xA001)
  }

  /** Eight bit steps. */
  function CrcBits(x: bv16): bv16 {
    CrcShift(CrcShift(CrcShift(CrcShift(CrcShift(CrcShift(CrcShift(CrcShift(x))))))))
  }

  /** One byte of the CRC: XOR it into the low byte of the register, then eight bit steps. */
  function CrcByte(c: bv16, b: byte): bv16 {
    CrcBits(c ^ (b as bv16))
  }

  /**
   * CRC-16/MODBUS of the data, register preset to 0xFFFF, no final XOR
   * (section 2.5.1.2 of the MODBUS over Serial Line Specification V1.02).
   */
  function Crc16(data: seq<byte>): bv16 {
    if data == [] then 0xFFFF else CrcByte(Crc16(data[..|data| - 1]), data[|data| - 1])
  }

  /** The CRC as it goes on the line: low byte first, then high byte. */
  function CrcTrailer(c: bv16): (t: seq<byte>)
    ensures |t| == 2
  {
    [(c & 0xFF) as int, (c >> 8) as int]
  }

  /** An RTU frame: the body followed by its CRC trailer. */
  function RtuFrame(body: seq<byte>): (f: seq<byte>)
    ensures |f| == |body| + 2 && f[..|body|] == body
  {
    body + CrcTrailer(Crc16(body))
  }

  /**
   * The trailer as `write_func6A_registers` builds it: `ret1 = hex(crc)`,
   * then `int(ret1[4:6], 16)` followed by `int(ret1[2:4], 16)`.  Each slice
   * must hold at least one digit, or `int` raises ValueError.
   */
  function CrcTrailerAsWritten(c: bv16): (r: Result<seq<byte>, PyError>)
    ensures r.Ok? ==> |r.value| == 2
  {
    TrailerOfHex(c as int)
  }

  /** The slicing of `hex(crc)` on the CRC as a number. */
  function TrailerOfHex(crc: nat): (r: Result<seq<byte>, PyError>)
    ensures r.Ok? ==> |r.value| == 2
  {
    var text := PyHex(crc);
    var low :- ParseHex(PySlice(text, 4, 6));
    var high :- ParseHex(PySlice(text, 2, 4));
    Ok([low % 256, high % 256])
  }

  // ---------------------------------------------------------------------------
  // The expected echo of the RTU 0x6A write

  /** `f'{b:02x}'`: two lower-case hexadecimal digits. */
  function Hex2(b: byte): (s: string)
    ensures |s| == 2 && IsHexString(s)
  {
    [LowerDigit(b / 16), LowerDigit(b % 16)]
  }

  /** The reply bytes as the receive loop first renders them: `f'0x{b:02x}'` for each byte. */
  function PrefixedText(bs: seq<byte>): string {
    if bs == [] then "" else "0x" + Hex2(bs[0]) + PrefixedText(bs[1..])
  }

  /** Two lower-case hexadecimal digits per byte, nothing between them. */
  function EchoText(bs: seq<byte>): (s: string)
    ensures |s| == 2 * |bs| && IsHexString(s)
  {
    if bs == [] then "" else
      HexValueConcat(Hex2(bs[0]), EchoText(bs[1..]));
      Hex2(bs[0]) + EchoText(bs[1..])
  }

  /** Reads a string of digit pairs back into bytes. */
  function DecodeHex2s(s: string): (bs: seq<int>)
    requires IsHexString(s) && |s| % 2 == 0
    ensures |bs| == |s| / 2
  {
    if s == [] then [] else [HexValue(s[..2])] + DecodeHex2s(s[2..])
  }

  /**
   * `compare_str` as `write_func6A_registers` builds it:
   * `'0' + str(slave) + '6a' + hex(address)[2:6] + '00' + count_hex`, with
   * `count_hex` the digits of `hex(count)[2:4]`, given a leading '0' when
   * `count < 16`.
   */
  function EchoPatternAsWritten(slave: int, address: int, count: int): string {
    "0" + IntText(slave) + "6a" + AddressDigits(address) + "00" + CountDigits(count)
  }

  /** `hex(int(address))[2:6]`. */
  function AddressDigits(address: int): string {
    PySlice(PyHexInt(address), 2, 6)
  }

  /** `count_hex`: `hex(int(count))[2:4]`, with a '0' in front when `count < 16`. */
  function CountDigits(count: int): string {
    if count < 16 then "0" + PySlice(PyHexInt(count), 2, 4) else PySlice(PyHexInt(count), 2, 4)
  }

  /** The check as written: the six reply bytes, rendered and stripped of "0x", equal `compare_str`. */
  predicate EchoMatchesAsWritten(reply: seq<byte>, slave: int, address: int, count: int) {
    Remove0x(PrefixedText(reply)) == EchoPatternAsWritten(slave, address, count)
  }

  /** The echo a device sends for a 0x6A write: slave, function code, starting address and quantity. */
  function ExpectedEcho(slave: byte, address: int, count: int): (e: seq<byte>)
    ensures |e| == 6
  {
    [slave, 0x6A] + Split16(address) + Split16(count)
  }

  /** The corrected check: the six reply bytes are the expected echo. */
  predicate EchoMatches(reply: seq<byte>, slave: byte, address: int, count: int) {
    reply == ExpectedEcho(slave, address, count)
  }

  // ---------------------------------------------------------------------------
  // Lemmas: words

  lemma {:induction false} WordBytesAt(values: seq<int>)
    ensures forall k :: 0 <= k < |values| ==>
      WordBytes(values)[2 * k] == Split16(values[k])[0] && WordBytes(values)[2 * k + 1] == Split16(values[k])[1]
  {
    if values != [] {
      var init := values[..|values| - 1];
      WordBytesAt(init);
      forall k | 0 <= k < |values|
        ensures WordBytes(values)[2 * k] == Split16(values[k])[0]
        ensures WordBytes(values)[2 * k + 1] == Split16(values[k])[1]
      {
        if k < |init| {
          assert values[k] == init[k];
        }
      }
    }
  }

  /** Decoding what the write loop lays out gives each value modulo 2^16. */
  lemma DecodeOfWordBytes(values: seq<int>)
    ensures DecodeWords(WordBytes(values)) == Words(values)
  {
    WordBytesAt(values);
  }

  /** Laying out decoded words gives the bytes back: a reply is determined by its words. */
  lemma WordBytesOfDecode(data: seq<byte>)
    requires |data| % 2 == 0
    ensures WordBytes(DecodeWords(data)) == data
  {
    var w := DecodeWords(data);
    var b := WordBytes(w);
    WordBytesAt(w);
    forall i | 0 <= i < |data|
      ensures b[i] == data[i]
    {
      var k := i / 2;
      assert w[k] == (data[2 * k] as int) * 256 + data[2 * k + 1];
      assert w[k] / 256 == data[2 * k];
      if i % 2 == 0 { assert i == 2 * k; } else { assert i == 2 * k + 1; }
    }
  }

  // ---------------------------------------------------------------------------
  // Lemmas: MBAP requests

  /** The read request carries the fixed header, a length field counting the bytes after it, and address and quantity. */
  lemma ReadRequestLayout(slave: byte, address: int, count: int)
    ensures var f := ReadRequest(slave, address, count);
      f[..6] == [0x00, 0x01, 0x00, 0x00, 0x00, 0x06] && f[6] == slave && f[7] == 0x03
      && (f[4] as int) * 256 + f[5] == |f| - 6
      && (f[8] as int) * 256 + f[9] == address % Pow16Bits
      && (f[10] as int) * 256 + f[11] == count % Pow16Bits
  {
  }

  /**
   * The write request: its MBAP length field counts exactly the unit
   * identifier and the PDU after it; the PDU states the address, the number
   * of values and twice that as the byte count; and the payload reads back as
   * the values modulo 2^16.
   */
  lemma TcpWriteRequestLayout(slave: byte, fc: byte, address: int, values: seq<int>)
    requires |values| <= 127
    ensures var f := TcpWriteRequest(slave, fc, address, values);
      f[..4] == [0x00, 0x01, 0x00, 0x00] && f[6] == slave && f[7] == fc
      && (f[4] as int) * 256 + f[5] == |f| - 6
      && (f[8] as int) * 256 + f[9] == address % Pow16Bits
      && (f[10] as int) * 256 + f[11] == |values| && f[12] == 2 * |values|
      && DecodeWords(f[13..]) == Words(values)
  {
    var f := TcpWriteRequest(slave, fc, address, values);
    assert f[13..] == WordBytes(values);
    DecodeOfWordBytes(values);
  }

  /** Over TCP and over RTU the 0x6A write carries the same PDU after the unit or slave address. */
  lemma TcpAndRtuAgree(slave: byte, fc: byte, address: int, values: seq<int>)
    requires |values| <= 127
    ensures TcpWriteRequest(slave, fc, address, values)[6..] == RtuBody(slave, fc, address, values)
  {
  }

  /** Registers already in the 16-bit range are their own words. */
  lemma WordsOfRegisters(registers: seq<u16>)
    ensures Words(registers) == registers
  {
    forall k | 0 <= k < |registers| ensures Words(registers)[k] == registers[k] {
    }
  }

  lemma ReplyData(head: seq<byte>, data: seq<byte>)
    requires |head| == 9
    ensures PySlice(head + data, 9, |head + data|) == data
  {
    assert (head + data)[9..] == data;
  }

  lemma ReadReplyWords(head: seq<byte>, values: seq<int>)
    requires |head| == 9
    ensures ReadReply(head + WordBytes(values), |values|) == Ok(Words(values))
  {
    ReplyData(head, WordBytes(values));
    DecodeOfWordBytes(values);
  }

  /** A reply of a 9-byte head followed by the registers decodes to exactly those registers. */
  lemma ReadReplyRoundTrip(head: seq<byte>, registers: seq<u16>)
    requires |head| == 9
    ensures ReadReply(head + WordBytes(registers), |registers|) == Ok(registers)
  {
    ReadReplyWords(head, registers);
    WordsOfRegisters(registers);
  }

  // ---------------------------------------------------------------------------
  // Lemmas: CRC

  lemma CrcStep(data: seq<byte>, k: nat)
    requires k < |data|
    ensures Crc16(data[..k + 1]) == CrcByte(Crc16(data[..k]), data[k])
  {
    assert data[..k + 1][..k] == data[..k];
  }

  /** The bit step is the standard's: XOR with 0xA001 after the shift when the bit shifted out is 1, a plain shift otherwise. */
  lemma CrcShiftCases(c: bv16)
    ensures c & 1 == 1 ==> CrcShift(c) == (c >> 1) ^ 0xA001
    ensures c & 1 == 0 ==> CrcShift(c) == c >> 1
  {
  }

  /** One more byte of known value onto a CRC known on a prefix. */
  lemma CrcAppend(d: seq<byte>, k: nat, b: byte, before: bv16, after: bv16)
    requires k < |d| && d[k] == b && Crc16(d[..k]) == before && CrcByte(before, b) == after
    ensures Crc16(d[..k + 1]) == after
  {
    CrcStep(d, k);
  }

  lemma BvByte(y: bv8)
    ensures (y as int) as bv8 == y
  {
  }

  lemma BvWiden(y: bv8)
    ensures (y as bv16) as int == y as int
  {
  }

  lemma ByteWiden(b: byte)
    ensures (b as bv8) as bv16 == b as bv16
  {
  }

  lemma LowByteBits(c: bv16)
    ensures c & 0xFF == ((c & 0xFF) as bv8) as bv16
  {
  }

  lemma HighByteBits(c: bv16)
    ensures c >> 8 == ((c >> 8) as bv8) as bv16
  {
  }

  /** The low byte of the register, read out as a number and fed back in, is the same bits. */
  lemma ByteOfLow(c: bv16, lo: byte)
    requires lo == (c & 0xFF) as int
    ensures lo as bv16 == c & 0xFF
  {
    var y := (c & 0xFF) as bv8;
    LowByteBits(c);
    BvWiden(y);
    assert lo == y as int;
    BvByte(y);
    ByteWiden(lo);
  }

  lemma ByteOfHigh(c: bv16, hi: byte)
    requires hi == (c >> 8) as int
    ensures hi as bv16 == c >> 8
  {
    var y := (c >> 8) as bv8;
    HighByteBits(c);
    BvWiden(y);
    assert hi == y as int;
    BvByte(y);
    ByteWiden(hi);
  }

  /** With its low byte cleared, eight steps shift the register down by a byte: no polynomial is folded in. */
  lemma ClearLow(c: bv16)
    ensures CrcBits(c ^ (c & 0xFF)) == c >> 8
  {
  }

  /** Feeding in the trailer's first byte (the low byte of the CRC) leaves the high byte in the register. */
  lemma CrcOfLowByte(c: bv16)
    ensures CrcByte(c, CrcTrailer(c)[0]) == c >> 8
  {
    ByteOfLow(c, CrcTrailer(c)[0]);
    ClearLow(c);
  }

  /** Feeding in the trailer's second byte (the high byte) then clears the register. */
  lemma CrcOfHighByte(c: bv16)
    ensures CrcByte(c >> 8, CrcTrailer(c)[1]) == 0
  {
    ByteOfHigh(c, CrcTrailer(c)[1]);
    assert CrcByte(c >> 8, CrcTrailer(c)[1]) == CrcBits(0);
  }

  /** A receiver running the CRC over a whole frame, trailer included, ends with 0. */
  lemma CrcResidue(body: seq<byte>)
    ensures Crc16(RtuFrame(body)) == 0
  {
    var c := Crc16(body);
    var t := CrcTrailer(c);
    var f := RtuFrame(body);
    var n := |body|;
    assert f[..n] == body;
    CrcStep(f, n);
    CrcOfLowByte(c);
    assert Crc16(f[..n + 1]) == c >> 8;
    CrcStep(f, n + 1);
    CrcOfHighByte(c);
    assert f[..n + 2] == f;
  }

  lemma CrcCheckChain(d: seq<byte>)
    requires |d| == 9 && d[0] == 0x31 && d[1] == 0x32 && d[2] == 0x33 && d[3] == 0x34 && d[4] == 0x35
    requires d[5] == 0x36 && d[6] == 0x37 && d[7] == 0x38 && d[8] == 0x39
    ensures Crc16(d) == 0x4B37
  {
    assert d[..0] == [];
    CrcAppend(d, 0, 0x31, 0xFFFF, 0x947E);
    CrcAppend(d, 1, 0x32, 0x947E, 0xF595);
    CrcAppend(d, 2, 0x33, 0xF595, 0x7A75);
    CrcAppend(d, 3, 0x34, 0x7A75, 0x30BA);
    CrcAppend(d, 4, 0x35, 0x30BA, 0xA471);
    CrcAppend(d, 5, 0x36, 0xA471, 0x32E4);
    CrcAppend(d, 6, 0x37, 0x32E4, 0x9D73);
    CrcAppend(d, 7, 0x38, 0x9D73, 0x37DD);
    CrcAppend(d, 8, 0x39, 0x37DD, 0x4B37);
    assert d[..9] == d;
  }

  /** The check value of CRC-16/MODBUS: the ASCII digits "123456789" give 0x4B37. */
  lemma CrcCheckValue()
    ensures Crc16([0x31, 0x32, 0x33, 0x34, 0x35, 0x36, 0x37, 0x38, 0x39]) == 0x4B37
  {
    CrcCheckChain([0x31, 0x32, 0x33, 0x34, 0x35, 0x36, 0x37, 0x38, 0x39]);
  }

  // ---------------------------------------------------------------------------
  // Lemmas: hexadecimal renderings

  lemma Hex2Value(b: byte)
    ensures HexValue(Hex2(b)) == b
  {
    var s := Hex2(b);
    assert s[..1] == [s[0]];
    assert [s[0]][..0] == [];
    assert HexValue([s[0]]) == CharValue(s[0]);
  }

  /** `hex(a)[2:]` of a four-digit value is the two-digit renderings of its high and low bytes. */
  lemma LowerHexFour(a: nat)
    requires 0x1000 <= a < 0x1_0000
    ensures LowerHex(a) == Hex2(a / 256) + Hex2(a % 256)
  {
    assert a / 16 / 16 / 16 == a / 4096 && 1 <= a / 4096 < 16;
    assert (a / 16 / 16) % 16 == (a / 256) % 16;
    assert (a / 16) % 16 == (a % 256) / 16;
    assert a % 16 == (a % 256) % 16;
    assert LowerHex(a / 16 / 16) == LowerHex(a / 16 / 16 / 16) + [LowerDigit((a / 16 / 16) % 16)];
    assert LowerHex(a / 16) == LowerHex(a / 16 / 16) + [LowerDigit((a / 16) % 16)];
  }

  lemma LowerHexTwo(b: nat)
    requires 16 <= b < 256
    ensures LowerHex(b) == Hex2(b)
  {
  }

  lemma LowerHexOne(b: nat)
    requires b < 16
    ensures LowerHex(b) == [LowerDigit(b)]
  {
  }

  /** Each "0x" the receive loop puts before a byte's digits is removed, and nothing else. */
  lemma {:induction false} ReplyText(bs: seq<byte>)
    ensures Remove0x(PrefixedText(bs)) == EchoText(bs)
  {
    if bs != [] {
      var rest := PrefixedText(bs[1..]);
      assert rest == [] || rest[0] == '0';
      RemovePrefixedPair(Hex2(bs[0]), rest);
      ReplyText(bs[1..]);
    }
  }

  /** Removing "0x" from "0x" + two digits + a text that does not go on with 'x' keeps the digits. */
  lemma RemovePrefixedPair(h: string, rest: string)
    requires |h| == 2 && h[1] != 'x' && (rest == [] || rest[0] != 'x')
    ensures Remove0x("0x" + h + rest) == h + Remove0x(rest)
  {
    var t := [h[1]] + rest;
    assert "0x" + h + rest == "0x" + ([h[0]] + t);
    SkipPrefix([h[0]] + t);
    KeepDigit(h[0], t);
    KeepDigit(h[1], rest);
    assert h == [h[0]] + [h[1]];
  }

  lemma SkipPrefix(u: string)
    ensures Remove0x("0x" + u) == Remove0x(u)
  {
    assert ("0x" + u)[2..] == u;
  }

  /** A character not followed by 'x' is kept by `replace('0x', '')`. */
  lemma KeepDigit(c: char, s: string)
    requires s == [] || s[0] != 'x'
    ensures Remove0x([c] + s) == [c] + Remove0x(s)
  {
    if s != [] {
      assert ([c] + s)[1..] == s;
    }
  }

  /** The receive loop appends one prefixed byte at a time: rendering a longer reply extends the text. */
  lemma {:induction false} PrefixedTextAppend(bs: seq<byte>, b: byte)
    ensures PrefixedText(bs + [b]) == PrefixedText(bs) + ("0x" + Hex2(b))
  {
    if bs == [] {
      assert PrefixedText([b]) == "0x" + Hex2(b) + PrefixedText([]);
    } else {
      assert (bs + [b])[1..] == bs[1..] + [b];
      PrefixedTextAppend(bs[1..], b);
    }
  }

  /** Reading the digit pairs back gives the bytes: the rendering is injective. */
  lemma {:induction false} EchoTextRoundTrip(bs: seq<byte>)
    ensures DecodeHex2s(EchoText(bs)) == bs
  {
    if bs != [] {
      var s := EchoText(bs);
      assert s[..2] == Hex2(bs[0]);
      assert s[2..] == EchoText(bs[1..]);
      Hex2Value(bs[0]);
      EchoTextRoundTrip(bs[1..]);
    }
  }

  lemma EchoTextInjective(a: seq<byte>, b: seq<byte>)
    requires EchoText(a) == EchoText(b)
    ensures a == b
  {
    EchoTextRoundTrip(a);
    EchoTextRoundTrip(b);
  }

  lemma EchoTextSix(e: seq<byte>)
    requires |e| == 6
    ensures EchoText(e) == Hex2(e[0]) + Hex2(e[1]) + Hex2(e[2]) + Hex2(e[3]) + Hex2(e[4]) + Hex2(e[5])
  {
    assert EchoText(e[5..]) == Hex2(e[5]) by { assert e[5..][1..] == []; }
    assert EchoText(e[4..]) == Hex2(e[4]) + EchoText(e[5..]) by { assert e[4..][1..] == e[5..]; }
    assert EchoText(e[3..]) == Hex2(e[3]) + EchoText(e[4..]) by { assert e[3..][1..] == e[4..]; }
    assert EchoText(e[2..]) == Hex2(e[2]) + EchoText(e[3..]) by { assert e[2..][1..] == e[3..]; }
    assert EchoText(e[1..]) == Hex2(e[1]) + EchoText(e[2..]) by { assert e[1..][1..] == e[2..]; }
  }

  lemma SlaveText(slave: byte)
    requires slave < 10
    ensures "0" + IntText(slave) == Hex2(slave)
  {
  }

  lemma AddressText(address: int)
    requires 0x1000 <= address < 0x1_0000
    ensures AddressDigits(address) == Hex2(address / 256) + Hex2(address % 256)
  {
    LowerHexFour(address);
    var t := PyHexInt(address);
    assert t == "0x" + LowerHex(address);
    assert t[2..6] == LowerHex(address);
  }

  lemma CountText(count: int)
    requires 0 <= count < 256
    ensures CountDigits(count) == Hex2(count)
  {
    var t := PyHexInt(count);
    assert t == "0x" + LowerHex(count);
    if count < 16 {
      LowerHexOne(count);
      assert PySlice(t, 2, 4) == LowerHex(count);
    } else {
      LowerHexTwo(count);
      assert PySlice(t, 2, 4) == LowerHex(count);
    }
  }

  /** For a slave below 10, an address of four hexadecimal digits and a count below 256, `compare_str` is the rendering of the expected echo. */
  lemma EchoPatternOfExpected(slave: byte, address: int, count: int)
    requires slave < 10 && 0x1000 <= address < 0x1_0000 && 0 <= count < 256
    ensures EchoPatternAsWritten(slave, address, count) == EchoText(ExpectedEcho(slave, address, count))
  {
    var e := ExpectedEcho(slave, address, count);
    assert e == [slave, 0x6A, address / 256, address % 256, 0, count];
    EchoTextSix(e);
    SlaveText(slave);
    AddressText(address);
    CountText(count);
    FixedTexts();
  }

  /** The function code and the zero byte as the pattern spells them. */
  lemma FixedTexts()
    ensures Hex2(0x6A) == "6a" && Hex2(0) == "00"
  {
  }

  /** Within those bounds the check as written accepts exactly the expected echo. */
  lemma EchoAgreement(reply: seq<byte>, slave: byte, address: int, count: int)
    requires |reply| == 6
    requires slave < 10 && 0x1000 <= address < 0x1_0000 && 0 <= count < 256
    ensures EchoMatchesAsWritten(reply, slave, address, count) <==> EchoMatches(reply, slave, address, count)
  {
    ReplyText(reply);
    EchoPatternOfExpected(slave, address, count);
    if EchoText(reply) == EchoText(ExpectedEcho(slave, address, count)) {
      EchoTextInjective(reply, ExpectedEcho(slave, address, count));
    }
  }

  /** Six reply bytes render to twelve digits, so a pattern of any other length never matches. */
  lemma AsWrittenNeedsTwelve(reply: seq<byte>, slave: int, address: int, count: int)
    requires |reply| == 6 && |EchoPatternAsWritten(slave, address, count)| != 12
    ensures !EchoMatchesAsWritten(reply, slave, address, count)
  {
    ReplyText(reply);
  }

  lemma AddressDigitsThree(address: int)
    requires 0x100 <= address < 0x1000
    ensures |AddressDigits(address)| == 3
  {
    var h := address / 16;
    assert 16 <= h < 256 && h / 16 < 16;
    assert |LowerHex(h / 16)| == 1;
    assert |LowerHex(h)| == 2;
    assert |LowerHex(address)| == 3;
    var t := PyHexInt(address);
    assert |t| == 5;
  }

  lemma AddressDigitsFour(address: int)
    requires 0x1000 <= address < 0x1_0000
    ensures |AddressDigits(address)| == 4
  {
    AddressText(address);
  }

  lemma SlaveDigits(slave: int)
    requires 0 <= slave < 100
    ensures |IntText(slave)| == if slave < 10 then 1 else 2
  {
    if slave >= 10 {
      assert slave / 10 < 10;
      assert |DecimalText(slave / 10)| == 1;
    }
  }

  /**
   * A slave below 10 with an address of three hexadecimal digits: the
   * pattern is eleven characters, so no six-byte reply ever matches.
   */
  lemma EchoAsWrittenRejectsLowAddress(reply: seq<byte>, slave: byte, address: int, count: int)
    requires |reply| == 6 && slave < 10 && 0x100 <= address < 0x1000 && 0 <= count < 256
    ensures !EchoMatchesAsWritten(reply, slave, address, count)
  {
    SlaveDigits(slave);
    AddressDigitsThree(address);
    CountText(count);
    AsWrittenNeedsTwelve(reply, slave, address, count);
  }

  /**
   * A slave from 10 to 99 with an address of four hexadecimal digits:
   * `'0' + str(slave)` is three characters and the pattern thirteen.
   */
  lemma EchoAsWrittenRejectsTwoDigitSlave(reply: seq<byte>, slave: byte, address: int, count: int)
    requires |reply| == 6 && 10 <= slave < 100 && 0x1000 <= address < 0x1_0000 && 0 <= count < 256
    ensures !EchoMatchesAsWritten(reply, slave, address, count)
  {
    SlaveDigits(slave);
    AddressDigitsFour(address);
    CountText(count);
    AsWrittenNeedsTwelve(reply, slave, address, count);
  }

  /** Slave 1 writing one register at 0x0100: the device's genuine echo is rejected by the check as written. */
  lemma EchoAsWrittenRejectsEcho(reply: seq<byte>)
    requires reply == [0x01, 0x6A, 0x01, 0x00, 0x00, 0x01]
    ensures EchoMatches(reply, 1, 0x0100, 1)
    ensures !EchoMatchesAsWritten(reply, 1, 0x0100, 1)
  {
    EchoAsWrittenRejectsLowAddress(reply, 1, 0x0100, 1);
  }

  // ---------------------------------------------------------------------------
  // Lemmas: the CRC trailer as written

  lemma BvSplit(c: bv16)
    ensures (c & 0xFF) as int == (c as int) % 256
    ensures (c >> 8) as int == (c as int) / 256
  {
    assert c as int == ((c >> 8) as int) * 256 + (c & 0xFF) as int;
    assert (c & 0xFF) as int < 256;
  }

  /** On a number of four hexadecimal digits the slicing yields the low byte, then the high byte. */
  lemma TrailerOfHexFour(a: nat)
    requires 0x1000 <= a < 0x1_0000
    ensures TrailerOfHex(a) == Ok([a % 256, a / 256])
  {
    var high, low := a / 256, a % 256;
    BytesOfWord(a);
    PyHexFour(a);
    DigitPairSlices(Hex2(high), Hex2(low));
    ParseHex2(low);
    ParseHex2(high);
  }

  lemma BytesOfWord(a: nat)
    requires a < 0x1_0000
    ensures a / 256 < 256 && (a / 256) % 256 == a / 256 && (a % 256) % 256 == a % 256
  {
  }

  lemma PyHexFour(a: nat)
    requires 0x1000 <= a < 0x1_0000
    ensures PyHex(a) == "0x" + (Hex2(a / 256) + Hex2(a % 256))
  {
    LowerHexFour(a);
  }

  lemma ParseHex2(b: byte)
    ensures ParseHex(Hex2(b)) == Ok(b)
  {
    Hex2Value(b);
  }

  lemma DigitPairSlices(high: string, low: string)
    requires |high| == 2 && |low| == 2
    ensures PySlice("0x" + (high + low), 4, 6) == low
    ensures PySlice("0x" + (high + low), 2, 4) == high
  {
    var text := "0x" + (high + low);
    assert text[4..6] == low;
    assert text[2..4] == high;
  }

  /** For a CRC of four hexadecimal digits the trailer as written is the low byte then the high byte. */
  lemma CrcTrailerAsWrittenAgrees(c: bv16)
    requires c as int >= 0x1000
    ensures CrcTrailerAsWritten(c) == Ok(CrcTrailer(c))
  {
    BvSplit(c);
    TrailerOfHexFour(c as int);
  }

  /** For a CRC below 0x100, `hex(crc)[4:6]` is empty and `int('', 16)` raises ValueError. */
  lemma CrcTrailerAsWrittenRaises(c: bv16)
    requires (c as int) < 0x100
    ensures CrcTrailerAsWritten(c) == Err(ValueError)
  {
    assert Pow16(2) == 256 by { assert Pow16(1) == 16; }
    LowerHexLength(c as int, 2);
    assert PySlice(PyHex(c as int), 4, 6) == [];
  }

  /** `RtuBody(1, 0x6A, 0x1000, [v])` for v = 1 and v = 25. */
  const CrcExampleOne: seq<byte> := [0x01, 0x6A, 0x10, 0x00, 0x00, 0x01, 0x02, 0x00, 0x01]
  const CrcExampleTwentyFive: seq<byte> := [0x01, 0x6A, 0x10, 0x00, 0x00, 0x01, 0x02, 0x00, 0x19]

  lemma CrcExamplesAreBodies()
    ensures RtuBody(1, 0x6A, 0x1000, [1]) == CrcExampleOne
    ensures RtuBody(1, 0x6A, 0x1000, [25]) == CrcExampleTwentyFive
  {
    assert WordBytes([1]) == [0, 1] by { assert [1][..0] == []; }
    assert WordBytes([25]) == [0, 25] by { assert [25][..0] == []; }
  }

  lemma CrcExampleChain(d: seq<byte>, last: byte, crc: bv16)
    requires |d| == 9 && d[0] == 0x01 && d[1] == 0x6A && d[2] == 0x10 && d[3] == 0x00 && d[4] == 0x00
    requires d[5] == 0x01 && d[6] == 0x02 && d[7] == 0x00 && d[8] == last
    requires CrcByte(0xF119, last) == crc
    ensures Crc16(d) == crc
  {
    assert d[..0] == [];
    CrcAppend(d, 0, 0x01, 0xFFFF, 0x807E);
    CrcAppend(d, 1, 0x6A, 0x807E, 0x0F80);
    CrcAppend(d, 2, 0x10, 0x0F80, 0x6C0F);
    CrcAppend(d, 3, 0x00, 0x6C0F, 0x042C);
    CrcAppend(d, 4, 0x00, 0x042C, 0xDD05);
    CrcAppend(d, 5, 0x01, 0xDD05, 0xC3DC);
    CrcAppend(d, 6, 0x02, 0xC3DC, 0x5843);
    CrcAppend(d, 7, 0x00, 0x5843, 0xF119);
    CrcAppend(d, 8, last, 0xF119, crc);
    assert d[..9] == d;
  }

  /**
   * The trailer as written, on two 0x6A writes of one register at 0x1000:
   * for the value 1 the CRC is 0x0AF1 and the trailer comes out as
   * [0x01, 0xAF] instead of [0xF1, 0x0A]; for the value 25 the CRC is 0x00F1
   * and building the trailer raises ValueError.
   */
  lemma CrcTrailerAsWrittenMissplits()
    ensures Crc16(CrcExampleOne) == 0x0AF1
    ensures CrcTrailerAsWritten(0x0AF1) == Ok([0x01, 0xAF])
    ensures CrcTrailer(0x0AF1) == [0xF1, 0x0A]
    ensures Crc16(CrcExampleTwentyFive) == 0x00F1
    ensures CrcTrailerAsWritten(0x00F1) == Err(ValueError)
  {
    CrcExampleChain(CrcExampleOne, 0x01, 0x0AF1);
    CrcExampleChain(CrcExampleTwentyFive, 0x19, 0x00F1);
    assert LowerHex(0x0AF1) == "af1";
    assert PySlice(PyHex(0x0AF1), 4, 6) == "1";
    assert PySlice(PyHex(0x0AF1), 2, 4) == "af";
    assert HexValue("af") == 0xAF by { assert "af"[..1] == "a"; assert "a"[..0] == ""; }
    assert HexValue("1") == 1 by { assert "1"[..0] == ""; }
    CrcTrailerAsWrittenRaises(0x00F1);
  }
}
