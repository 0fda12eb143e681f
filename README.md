# pytest_gzh bench protocols in Dafny

A model of the byte-level protocol logic of an electrical test bench. A
CL3021 source controller and a Modbus I/O module sit behind UDP sockets,
serial ports and Modbus clients. The model covers the frames and the
integer arithmetic underneath those transports:

- the CL3021 binary command frames: `0x81`, module, sub-command, declared
  length, opcode, payload and an XOR check byte. It includes the helpers
  `xor_sum` and `bin_to_hex`, the hex-string slicing routine that turns a
  scaled integer into a little-endian field, the gear tables and the reading
  of the DC meter reply;
- the fixed-point register codec, `convert_to_32int_registers`, and the
  ordered register writes of the `set_*` configuration routines;
- the decoding of measurement register pairs into 32-bit float bit patterns,
  the AI address map and the inclusive pass/fail verdict;
- the Modbus frames: the MBAP-framed read (function 0x03) and write
  (vendor function 0x6A or 0x10) requests over TCP, the decoding of their
  replies, and the RTU 0x6A frame with its CRC-16/MODBUS trailer and the
  expected-echo check;
- the command generator of `Tools/modbus.py`: parameter encoding, fuzzy
  name lookup, the choice of function code, left zero-padding, and the
  write and read frames rendered as hex text.

The Modbus structures follow these standards:

- the MBAP header: section 3.1.3 of the MODBUS Messaging on TCP/IP
  Implementation Guide V1.0b;
- function 0x03 and the 0x10 write-multiple layout: sections 6.3 and 6.12
  of the MODBUS Application Protocol Specification V1.1b3;
- the RTU CRC: section 2.5.1.2 of the MODBUS over Serial Line Specification
  V1.02 (polynomial 0xA001 reflected, initial value 0xFFFF, low byte sent
  first).

The model takes the source's own form:

- Frame builders that grow a command list step by step are methods. Each is
  proved equal to a frame function, and the frame functions carry the
  proved properties.
- Objects whose fields change are classes: the Modbus client wrapper, the
  raw TCP and serial transports, and the command generator with its
  register table.
- Expression-only helpers are functions with lemmas.

Python's own operations are written out where the code depends on them:

- `hex`, `int(s, 16)`, `int(s)`, `zfill`, `replace('0x', '')`;
- slicing that clamps out-of-range bounds;
- `strip`, `lower`, `split`;
- the exceptions these raise, as `Result` error values.

Inputs that are floats in Python (`int(x * 10000)`, `value * 1000`) enter as
the already-scaled integer, or as an exact real where the code rounds it
itself. Transport outcomes (replies, timeouts, connection failures) are
parameters of the methods that would perform the I/O.

Modules, one per file: `Wrappers`, `HexText`, `PyText`, `ByteCodec`,
`Cl3021Codec`, `Cl3021Frames`, `FixedPoint`, `ModbusFrames`,
`ModbusTransport`, `RegisterWrites`, `Measurements`, `CommandGenerator`.

Where the code and its documentation disagree, the model follows the code:

- `set_harmonic_phase` declares length 0x5f in byte 3 but builds 116 bytes.
- The capitalised `"Serial Number"` entry of `special_params` can never equal
  a lower-cased name.
- The builders that check `set_cmd[1:-1]` leave their last payload byte out
  of the check.

Each of these is modelled and proved as written.

## Model

| member | source | states |
|---|---|---|
| Cl3021Codec.CheckByte | Source/CL3021/source_control.py:202-211 | the check byte is a byte, and as a bit-vector it is the XOR of every input byte |
| Cl3021Codec.XorSum | Source/CL3021/source_control.py:202-211 | the accumulator loop returns the XOR of all the numbers, and 0 for an empty list |
| Cl3021Codec.XorAllConcat | Source/CL3021/source_control.py:202-211 | the XOR of a concatenation is the XOR of the two parts' XORs |
| Cl3021Codec.XorAllPermutation | Source/CL3021/source_control.py:202-211 | the check byte is order-independent: any two lists with the same multiset of bytes have the same XOR |
| Cl3021Codec.CheckByteCloses | Source/CL3021/source_control.py:246-247 | appending the check byte makes the XOR of the covered span zero, so a receiver can verify it |
| Cl3021Codec.ParseHex | Source/CL3021/source_control.py:281-283 | on digit strings, `int(s, 16)` succeeds exactly on a non-empty string of hex digits; its value is the digits' value, below 16^len |
| Cl3021Codec.ParseDec | Source/CL3021/source_control.py:376 | on digit strings, `int(s)` succeeds exactly on a non-empty string of decimal digits |
| Cl3021Codec.PySlice | Source/CL3021/source_control.py:281 | Python slicing: never longer than the range, and the plain subsequence when the bounds are in range |
| Cl3021Codec.BinToHex | Source/CL3021/source_control.py:181-199 | the padding-then-group loop equals the specification function of `bin_to_hex` |
| Cl3021Codec.HexGroups | Source/CL3021/source_control.py:190-197 | on a binary string the group loop yields the value in exactly one hex digit per 4 bits; any other character raises ValueError |
| Cl3021Codec.ZFillBinary | Source/CL3021/source_control.py:188 | zero-filling keeps a string binary exactly when it was, and keeps its binary value |
| Cl3021Codec.BinToHexValue | Source/CL3021/source_control.py:181-199 | for a binary string, `int(bin_to_hex(s), 16) == int(s, 2)` and the result has ceil(len/4) digits |
| Cl3021Codec.BinToHexRejects | Source/CL3021/source_control.py:196 | a string with a non-binary character makes `bin_to_hex` raise ValueError |
| Cl3021Codec.SwapPairsValue | Source/CL3021/source_control.py:281 | reversing the four digit pairs of an 8-digit hex string reverses its four bytes |
| Cl3021Codec.SwappedValue | Source/CL3021/source_control.py:279-281 | for 0 <= n < 2^32 the hex/zfill/pair-reversal step yields the big-endian value of n's little-endian bytes |
| Cl3021Codec.Field4Le | Source/CL3021/source_control.py:279-283 | for 0 <= n < 2^32 the 4-byte field is exactly the little-endian bytes of n, leading zero bytes included |
| Cl3021Codec.MarkedFieldLe | Source/CL3021/source_control.py:308-311 | for 0 <= n < 2^32 the 5-byte field is the little-endian bytes of n followed by the marker byte |
| Cl3021Codec.PhaseFieldLe | Source/CL3021/source_control.py:428-431 | for 0 <= n < 2^32 the harmonic-phase field is a zero byte followed by the little-endian bytes of n |
| Cl3021Codec.SlicedFieldOk | Source/CL3021/source_control.py:279-283 | for every n >= 0 (even 2^32 and above) the slicing routine does not raise and yields width/2 bytes |
| Cl3021Codec.SlicedFieldNegative | Source/CL3021/source_control.py:279-281 | a negative scaled value makes the routine raise ValueError |
| Cl3021Codec.CurrentGearCounts | Source/CL3021/source_control.py:673-704 | the current gear is the number of thresholds 0.01 … 50 at or above the current, hence in 0..12 |
| Cl3021Codec.VoltageGearCounts | Source/CL3021/source_control.py:707-725 | the voltage gear is the number of thresholds 30 … 480 at or above the voltage, hence in 0..5 |
| Cl3021Codec.CurrentGearMonotone | Source/CL3021/source_control.py:679-704 | a larger current never selects a larger current gear index |
| Cl3021Codec.VoltageGearMonotone | Source/CL3021/source_control.py:714-725 | a larger voltage never selects a larger voltage gear index |
| Cl3021Codec.ReadDcRoundTrip | Source/CL3021/source_control.py:755-784 | a reply carrying u at bytes 16..19 and i at 21..24 (little-endian) reads back as u, i or both, by mode 0, 1 or other |
| Cl3021Codec.ReadDcFieldsOnly | Source/CL3021/source_control.py:777-778 | the reading depends only on bytes 16..19 and 21..24; byte 20 is skipped |
| ByteCodec.Split16Value | Tools/modbus.py:233-235 | the high and low bytes of a value recombine to the value modulo 2^16 |
| ByteCodec.LeValueOfLe4 | Source/CL3021/source_control.py:755-757 | `int.from_bytes(..., 'little')` of the 4 little-endian bytes of n is n, for 0 <= n < 2^32 |
| ByteCodec.Le4OfLeValue | Source/CL3021/source_control.py:755-757 | every 4-byte list is the little-endian encoding of its own little-endian value |
| ByteCodec.BeValueReverse | Source/CL3021/source_control.py:281 | the big-endian value of the reversed bytes is the little-endian value |
| HexText.LowerHexValue | Source/CL3021/source_control.py:279 | the digits `hex()` prints read back as the number |
| HexText.ZFillDigits | Source/CL3021/source_control.py:279 | `zfill` keeps a digit string's value and pads it to the width |
| HexText.Remove0xOfPyHex | Source/CL3021/source_control.py:279 | removing "0x" from `hex(n)` leaves exactly n's digits |
| PyText.Strip | Tools/modbus.py:135 | `strip()` yields a string no longer than its input with no whitespace at either end, and leaves a string without whitespace as it is |
| PyText.StripSlice | Tools/modbus.py:135 | `strip()` yields the empty string exactly when the text is all whitespace; otherwise it is the slice between the leading and the trailing whitespace runs |
| PyText.StripKeeps | Tools/modbus.py:249 | a non-space character survives `strip()`, shifted left by the leading whitespace |
| PyText.StripIdempotent | Tools/modbus.py:135 | stripping twice is stripping once |
| PyText.Lower | Tools/modbus.py:135 | `lower()` maps each character, and no upper-case ASCII letter survives |
| PyText.LowerNeverUpper | Tools/modbus.py:179-182 | a lower-cased name never equals a string holding an upper-case letter |
| PyText.Split | Config/IOM/modbus_get_attr.py:52 | `split` yields at least one part and no part contains the separator |
| PyText.JoinSplit | Config/IOM/modbus_get_attr.py:52 | joining the parts of a split restores the string |
| PyText.SplitJoin | Config/IOM/modbus_get_attr.py:52 | splitting separator-free parts joined by the separator restores the parts |
| Cl3021Frames.SealedAllWellSealed | Source/CL3021/source_control.py:246-247 | a `set_cmd[1:]` frame is well sealed exactly when its declared length byte matches |
| Cl3021Frames.SealedAllCloses | Source/CL3021/source_control.py:246-247 | for a `set_cmd[1:]` frame, the XOR of every byte after the first, check byte included, is zero |
| Cl3021Frames.SealedShortLeavesLast | Source/CL3021/source_control.py:377-378 | for a `set_cmd[1:-1]` frame that XOR equals the last payload byte: it closes only when that byte is 0 |
| Cl3021Frames.LiteralSealed | Source/CL3021/source_control.py:219 | a literal frame whose length byte and last byte match its covered XOR is well sealed |
| Cl3021Frames.OnlineFrameSealed | Source/CL3021/source_control.py:219 | the online frame is well sealed |
| Cl3021Frames.PhaseAmplitudeUpdateFrameSealed | Source/CL3021/source_control.py:575-577 | the phase/amplitude update frame is well sealed |
| Cl3021Frames.FrequencyRenewalFrameSealed | Source/CL3021/source_control.py:589 | the frequency renewal frame is well sealed |
| Cl3021Frames.HarmonicSettingsFrameSealed | Source/CL3021/source_control.py:601-603 | the harmonic settings frame is well sealed |
| Cl3021Frames.LiteralFramesSealed | Source/CL3021/source_control.py:570-607 | all four literal update frames are well sealed |
| Cl3021Frames.ClearDcOverloadFrameSealed | Source/CL3021/source_control.py:825 | the DC overload-clear frame is well sealed |
| Cl3021Frames.VoltageOffFrameSealed | Source/CL3021/source_control.py:826 | the DC voltage-off frame is well sealed |
| Cl3021Frames.SourceAutoFrameSealed | Source/CL3021/source_control.py:828 | the source auto-mode frame is well sealed |
| Cl3021Frames.ScreenHomeFrameSealed | Source/CL3021/source_control.py:829 | the home-screen frame is well sealed |
| Cl3021Frames.Field4Facts | Source/CL3021/source_control.py:279-283 | the 4-byte field succeeds exactly for n >= 0, always with 4 bytes, and is LE4(n) below 2^32 |
| Cl3021Frames.MarkedFieldFacts | Source/CL3021/source_control.py:308-311 | the marked field succeeds exactly for n >= 0, always with 5 bytes, and is LE4(n) followed by the marker below 2^32 |
| Cl3021Frames.PhaseFieldFacts | Source/CL3021/source_control.py:428-431 | the phase field succeeds exactly for n >= 0, always with 5 bytes, and is a zero byte followed by LE4(n) below 2^32 |
| Cl3021Frames.AppendField4 | Source/CL3021/source_control.py:279-284 | appending a 4-byte field keeps the command as a prefix, fails exactly for negative n, and appends LE4(n) |
| Cl3021Frames.AppendAmplitude | Source/CL3021/source_control.py:308-312 | appending an amplitude appends LE4(n) followed by 0xFC, and fails exactly for negative n |
| Cl3021Frames.HexCheck | Source/CL3021/source_control.py:346 | `int(hex(xor).replace('0x', ''), 16)` returns the check byte unchanged |
| Cl3021Frames.BitsByte | Source/CL3021/source_control.py:244 | reading `bin_to_hex(s)` in base 16 succeeds exactly for a binary string whose value fits a byte, and yields that value |
| Cl3021Frames.SetWire | Source/CL3021/source_control.py:226-252 | the wiring frame carries the binary value of `way` and is well sealed; a non-binary or over-wide `way` raises |
| Cl3021Frames.SetGearSwitchingMode | Source/CL3021/source_control.py:355-383 | corrected: the mode byte is the binary value of `mode`, checked over `set_cmd[1:-1]` |
| Cl3021Frames.ClearOverloadLock | Source/CL3021/source_control.py:513-537 | corrected: the flag byte is the binary value of the flag, checked over `set_cmd[1:-1]` |
| Cl3021Frames.DecimalReadMisreads | Source/CL3021/source_control.py:376 | as written: reading `bin_to_hex("00010000")` in base 10 gives 10 where the bits say 16 |
| Cl3021Frames.DecimalReadRaises | Source/CL3021/source_control.py:530 | as written: `bin_to_hex("00001010")` is "0a", which base-10 `int` rejects with ValueError |
| Cl3021Frames.SwitchDeviceScreenInterface | Source/CL3021/source_control.py:540-552 | the screen frame carries the interface byte, is checked over `set_cmd[1:]` and is well sealed; a value outside a byte raises |
| Cl3021Frames.ChangeUnderlyingCommunication | Source/CL3021/source_control.py:555-567 | the port frame reuses the screen opcode and is checked over `set_cmd[1:-1]` |
| Cl3021Frames.ScreenFramesAgree | Source/CL3021/source_control.py:546-563 | the two builders produce the same frame exactly when the byte is 0 |
| Cl3021Frames.GearUpdate | Source/CL3021/source_control.py:626-670 | the gear frame repeats the gear three times on its channel; a gear outside a byte raises |
| Cl3021Frames.GearChecks | Source/CL3021/source_control.py:634-666 | the gear frame's check byte is 0x8b ^ channel ^ gear (0x8c ^ g for voltage, 0xb3 ^ g for current), and the frame is well sealed |
| Cl3021Frames.SetCurrentGear | Source/CL3021/source_control.py:673-704 | the selected current gear frame carries the threshold count, at most 12 |
| Cl3021Frames.SetVoltageGear | Source/CL3021/source_control.py:707-725 | the selected voltage gear frame carries the threshold count, at most 5 |
| Cl3021Frames.AppendPhases | Source/CL3021/source_control.py:279-305 | the six phase fields are appended in order (quc … qia); the step fails exactly when one phase is negative |
| Cl3021Frames.AppendAmplitudes | Source/CL3021/source_control.py:308-338 | the six amplitude fields are appended in order, each ending in 0xFC; the step fails exactly when one amplitude is negative |
| Cl3021Frames.SetAc | Source/CL3021/source_control.py:255-352 | the AC frame has 73 bytes and declares 73; in range it is header, phases, 0xFF, amplitudes, frequency, trailer and check, and it is well sealed |
| Cl3021Frames.AppendMarked | Source/CL3021/source_control.py:397-407 | a harmonic content field is LE4(x) followed by 0x00 for the fundamental and 0xFE otherwise |
| Cl3021Frames.AppendPhase | Source/CL3021/source_control.py:428-432 | a harmonic phase field is a zero byte followed by LE4(x) |
| Cl3021Frames.SetHarmonicContent | Source/CL3021/source_control.py:386-415 | a list not of 21 elements raises; otherwise the frame has 116 bytes and declares 116, with 21 marked fields checked over `set_cmd[1:-1]` |
| Cl3021Frames.SetHarmonicPhase | Source/CL3021/source_control.py:418-441 | a list not of 21 elements raises; otherwise the frame has 116 bytes but declares 0x5f |
| Cl3021Frames.AppendSwitchFieldAsWritten | Source/CL3021/source_control.py:473-477 | as written: the field is sent exactly when base-10 `int` accepts the `bin_to_hex` text, and it carries the mask's value exactly when the mask is below ten |
| Cl3021Frames.BitsValueAsWrittenAgrees | Source/CL3021/source_control.py:473 | as written: the base-10 reading equals the mask's value iff the value is below ten, and never exceeds it |
| Cl3021Frames.BitsValueAsWrittenRaises | Source/CL3021/source_control.py:473 | as written: the base-10 reading raises exactly when some hexadecimal digit of the mask, within the `bin_to_hex` width, is 10 or more |
| Cl3021Frames.DecHexAgree | Source/CL3021/source_control.py:473 | a decimal digit string read in base 10 is at most its base-16 value, equal iff below ten |
| Cl3021Frames.AppendSwitchField | Source/CL3021/source_control.py:473-477 | corrected: a harmonic switch field is LE4 of the switch word's binary value; a non-binary word raises |
| Cl3021Frames.AppendSwitchFields | Source/CL3021/source_control.py:473-502 | corrected: the six switch words are appended in order |
| Cl3021Frames.SetHarmonicSwitch | Source/CL3021/source_control.py:444-510 | corrected: the switch frame has 34 bytes and declares 34; it carries the six words and the total switch byte |
| Cl3021Frames.SetDc | Source/CL3021/source_control.py:728-752 | the DC frame has 17 bytes and declares 17; in range it carries both amplitudes and is well sealed |
| Cl3021Frames.ReadDc | Source/CL3021/source_control.py:760-784 | the request is the sealed read frame, and the reading is taken from the reply's fixed slices |
| Cl3021Frames.SetDcReadMode | Source/CL3021/source_control.py:787-802 | the read-mode frame is well sealed |
| Cl3021Frames.CloseDc | Source/CL3021/source_control.py:805-817 | the close frame carries the gear byte and is well sealed; a gear outside a byte raises |
| Cl3021Frames.CloseDcAllAsWrittenMisSealed | Source/CL3021/source_control.py:825-829 | as written: four of the five frames are well sealed, but the current-off frame carries 0x19 where its XOR is 0x1a |
| Cl3021Frames.CurrentOffMisSealed | Source/CL3021/source_control.py:827 | as written: the literal current-off frame differs from `close_dc(2)` only in its check byte |
| Cl3021Frames.CloseDcAll | Source/CL3021/source_control.py:820-844 | corrected: five frames in order, the third being `close_dc(2)`'s, and every one well sealed |
| FixedPoint.RoundHalfAway | Config/IOM/modbus_set_attr.py:27-30 | the rounded value lies within 1/2 of the scaled value, with the same sign |
| FixedPoint.RoundOdd | Config/IOM/modbus_set_attr.py:27-30 | rounding is symmetric: round(-s) == -round(s) |
| FixedPoint.RoundNearest | Config/IOM/modbus_set_attr.py:27-30 | no integer is closer to s than its rounding |
| FixedPoint.RoundHalves | Config/IOM/modbus_set_attr.py:27-30 | exact halves round away from zero |
| FixedPoint.RoundIntegral | Config/IOM/modbus_set_attr.py:27-30 | integers round to themselves |
| FixedPoint.PackWords | Config/IOM/modbus_set_attr.py:36-38 | the two 16-bit words are the value modulo 2^32, high word first |
| FixedPoint.Signed32 | Config/IOM/modbus_set_attr.py:36-38 | reading two words back as a signed 32-bit integer gives a value congruent to them modulo 2^32 |
| FixedPoint.ConvertTo32IntRegisters | Config/IOM/modbus_set_attr.py:15-38 | non-finite raises ValueError first; the call succeeds exactly when the rounded value is in the signed 32-bit range, and the words read back as it |
| FixedPoint.SignedOfPack | Config/IOM/modbus_set_attr.py:36-38 | packing then reading signed restores every 32-bit signed value |
| FixedPoint.PackOfSigned | Config/IOM/modbus_set_attr.py:36-38 | reading signed then packing restores every word pair |
| FixedPoint.ConvertRangeEnds | Config/IOM/modbus_set_attr.py:32-33 | the range ends are accepted, one step beyond raises ValueError (never clamped), and -0.001 gives 0xFFFF 0xFFFF |
| FixedPoint.ConvertAll | Config/IOM/modbus_set_attr.py:80 | converting a list succeeds exactly when each element does, element by element |
| RegisterWrites.SetAiType | Config/IOM/modbus_set_attr.py:41-54 | writes at 0x3000 + 22(n-1); returns True without closing iff the result's text contains "(4117,1)", else closes and returns False (AttributeError when there is no client) |
| RegisterWrites.SetAllAiType | Config/IOM/modbus_set_attr.py:57-69 | writes the type to the 8 AI channels at stride 22 in order, then closes |
| RegisterWrites.WriteRow | Config/IOM/modbus_set_attr.py:87-89 | one channel gets min(addresses, values) writes in address-list order, offset by 22 per channel |
| RegisterWrites.WriteParameters | Config/IOM/modbus_set_attr.py:83-89 | channel-major writes: the log grows by exactly the write plan |
| RegisterWrites.SetParameters | Config/IOM/modbus_set_attr.py:80-90 | a conversion error leaves the client untouched (no register written); otherwise the plan is written and the client closed |
| RegisterWrites.SetAllAiParam | Config/IOM/modbus_set_attr.py:72-90 | ten AI parameters for 8 channels, converted before the first write; with a connection the writes are sent, the client is closed and the call succeeds; without one nothing is sent and the close raises AttributeError |
| RegisterWrites.SetAllAiTopBot | Config/IOM/modbus_set_attr.py:93-108 | the two limits for 16 AI channels, converted before the first write; with a connection the writes are sent, the client is closed and the call succeeds; without one nothing is sent and the close raises AttributeError |
| RegisterWrites.SetAllAoParam | Config/IOM/modbus_set_attr.py:111-126 | ten AO parameters for 2 channels, converted before the first write; with a connection the writes are sent, the client is closed and the call succeeds; without one nothing is sent and the close raises AttributeError |
| RegisterWrites.SetAoPmi | Config/IOM/modbus_set_attr.py:129-139 | one write of the converted pair at 0x3950 + 2(n-1); a conversion error writes nothing; with a connection the client is then closed and the call succeeds; without one nothing is sent and the close raises AttributeError |
| RegisterWrites.PlanEntry | Config/IOM/modbus_set_attr.py:83-88 | write k of channel n goes to address k + 22n with value k's words |
| RegisterWrites.PlanInBlocks | Config/IOM/modbus_set_attr.py:83-88 | every planned write stays inside its channel's 22-register block |
| RegisterWrites.PlanSeparated | Config/IOM/modbus_set_attr.py:83-88 | no two planned 2-register writes overlap |
| RegisterWrites.LayoutsSpread | Config/IOM/modbus_set_attr.py:78-117 | the three address lists fit inside a channel block without overlapping |
| RegisterWrites.AiParametersSpareTypes | Config/IOM/modbus_set_attr.py:48-88 | no AI parameter write touches an AI type register |
| RegisterWrites.ParameterReadsBack | Config/IOM/modbus_set_attr.py:80-88 | each planned pair reads back as the rounded scaled parameter |
| Measurements.ConvertEnergyRegisters | Config/IOM/modbus_get_attr.py:11-36 | an odd-length list raises IndexError; an even one yields one bit pattern per word pair |
| Measurements.PatternValue | Config/IOM/modbus_get_attr.py:23-33 | the bytes `[low&0xff, low>>8, high&0xff, high>>8]` read little-endian form high·65536 + low |
| Measurements.ZeroPattern | Config/IOM/modbus_get_attr.py:26-28 | the (0, 0) shortcut agrees with the all-zero bit pattern |
| Measurements.PatternExample | Config/IOM/modbus_get_attr.py:23-24 | the pair 0x409f, 0xc7cd gives the pattern 0x409fc7cd |
| Measurements.PatternsOfWords | Config/IOM/modbus_get_attr.py:21-35 | splitting patterns into words and decoding them restores the patterns |
| Measurements.ParseFloat | Config/IOM/modbus_get_attr.py:52 | `float()` succeeds exactly on stripped text of an optional sign, digits and at most one point with a digit on some side; its value is the signed value of those digits |
| Measurements.UnsignedDecimal | Config/IOM/modbus_get_attr.py:52 | an unsigned decimal reads iff it is digits, optionally one point, not the point alone; its value is the digits' value |
| Measurements.ParseFloatPlus | Config/IOM/modbus_get_attr.py:52 | "+5" parses to 5 |
| Measurements.ParseFloatTrailingPoint | Config/IOM/modbus_get_attr.py:52 | "5." parses to 5 |
| Measurements.ParseFloatLeadingPoint | Config/IOM/modbus_get_attr.py:52 | ".5" parses to 0.5 |
| Measurements.ParseFloatLoneSign | Config/IOM/modbus_get_attr.py:52 | a lone "-" is rejected |
| Measurements.ParseFloatTwoPoints | Config/IOM/modbus_get_attr.py:52 | "1.2.3" is rejected |
| Measurements.ParseFloatOfInteger | Config/IOM/modbus_get_attr.py:52 | digits parse to their decimal value |
| Measurements.ParseFloatOfFraction | Config/IOM/modbus_get_attr.py:52 | "a.b" parses to a plus b scaled by 10^-len(b) |
| Measurements.ParseFloatOfNegative | Config/IOM/modbus_get_attr.py:52 | "-a.b" parses to the negation of "a.b" |
| Measurements.ParseRange | Config/IOM/modbus_get_attr.py:51-54 | the range parses exactly when it splits on '~' into two numbers; otherwise ValueError |
| Measurements.ParseRangeOfJoin | Config/IOM/modbus_get_attr.py:51-54 | "lo~hi" parses to the pair of the two parsed ends, and raises ValueError when either end does not parse |
| Measurements.AiVerdict | Config/IOM/modbus_get_attr.py:39-85 | AI number outside 1..16 or a bad range raises ValueError first; the verdict is 合格 iff min <= measurement <= max, else 不合格 |
| Measurements.VerdictInclusive | Config/IOM/modbus_get_attr.py:67-70 | both range ends pass |
| Measurements.GetSingleAiYMeasurement | Config/IOM/modbus_get_attr.py:108-122 | reads 2 registers at 0x3700 + 2(n-1); any failure becomes None, a success is the first pair's pattern |
| Measurements.MeasurementMapLayout | Config/IOM/modbus_get_attr.py:116 | the 16 AI addresses are 2 apart and fit in the 32 registers from 0x3700 |
| Measurements.GetAllAiYMeasurements | Config/IOM/modbus_get_attr.py:88-105 | reads 32 registers at 0x3700 and maps AI1… to the decoded values in order; any failure gives an empty map |
| Measurements.KeyByInput | Config/IOM/modbus_get_attr.py:94-102 | the zip loop maps AI1..AIk to the first k values, k = min(16, count), and holds no other key |
| Measurements.AiKeyInjective | Config/IOM/modbus_get_attr.py:94 | distinct AI numbers give distinct keys |
| ModbusTransport.MeasurementOf | Config/IOM/modbus_connet.py:76-84 | an error response becomes "resp is error", a raised exception is returned as a value, otherwise the registers |
| ModbusTransport.ModbusRtuOrTcp.constructor | Config/IOM/modbus_connet.py:11-35 | only "rtu" or "tcp" creates a client; a failed connect closes it |
| ModbusTransport.ModbusRtuOrTcp.Call | Config/IOM/modbus_connet.py:40-84 | with a client the request is logged and its response returned; without one nothing is logged and the call fails |
| ModbusTransport.ModbusRtuOrTcp.Close | Config/IOM/modbus_connet.py:37-38 | closing without a client raises AttributeError |
| ModbusTransport.ModbusRtuOrTcp.WriteRegisters | Config/IOM/modbus_connet.py:40-52 | the request is logged, and the response or the caught exception is returned, never raised |
| ModbusTransport.ModbusRtuOrTcp.WriteRegister | Config/IOM/modbus_connet.py:54-66 | the same for a single register |
| ModbusTransport.ModbusRtuOrTcp.ReadMeasurement | Config/IOM/modbus_connet.py:68-84 | the read is logged, and the result is the registers, "resp is error" or the exception |
| ModbusTransport.ModbusTcp6A.constructor | Config/IOM/modbus_connet.py:88-101 | a constructed transport is connected and has sent nothing |
| ModbusTransport.ModbusTcp6A.ReadFuncode03 | Config/IOM/modbus_connet.py:103-126 | sends exactly the read frame; the reply is decoded as count big-endian words from byte 9; the socket closes after one exchange |
| ModbusTransport.ModbusTcp6A.WriteRegisters | Config/IOM/modbus_connet.py:128-163 | sends the MBAP write frame; with 0x6A returns (start, count, reply); otherwise the unpacked words; a closed socket raises |
| ModbusTransport.WriteLoop | Config/IOM/modbus_connet.py:149-150 | the extend loop appends each value as its high then low byte |
| ModbusTransport.WriteReplyWords | Config/IOM/modbus_connet.py:163 | unpacking 2n words from byte 8 succeeds exactly when 4n bytes follow |
| ModbusTransport.StandardWriteResponse | Config/IOM/modbus_connet.py:162-163 | a standard 12-byte 0x10 response unpacks only for one value, as (address, 1) |
| ModbusTransport.SerialRtu.constructor | Config/IOM/modbus_connet.py:167-176 | a failed open leaves the object without a port |
| ModbusTransport.SerialRtu.Close | Config/IOM/modbus_connet.py:178-179 | closing without a port raises AttributeError |
| ModbusTransport.SerialRtu.WriteFunc6ARegisters | Config/IOM/modbus_connet.py:181-221 | corrected: writes the body with its CRC trailer low byte first; fewer than 6 reply bytes is a caught IndexError; otherwise True iff the reply is the expected echo |
| ModbusTransport.ReadSix | Config/IOM/modbus_connet.py:210-215 | six reply bytes are read and rendered as "0x"-prefixed pairs; fewer make the read fail |
| ModbusTransport.EchoComparison | Config/IOM/modbus_connet.py:208-216 | comparing the rendered reply text with the text of the expected echo is comparing the bytes |
| ModbusFrames.ReadRequestLayout | Config/IOM/modbus_connet.py:105-115 | the read frame is [0,1,0,0,0,6, slave, 0x03, addr hi, addr lo, count hi, count lo], and its length field counts the bytes after it |
| ModbusFrames.TcpWriteRequest | Config/IOM/modbus_connet.py:129-152 | the write frame has 13 + 2n bytes |
| ModbusFrames.TcpWriteRequestLayout | Config/IOM/modbus_connet.py:129-152 | MBAP length 2n + 7 counts the bytes after it; then slave, fc, address, n, 2n and each value high byte first |
| ModbusFrames.TcpAndRtuAgree | Config/IOM/modbus_connet.py:139-193 | the TCP frame after its 6-byte header is the RTU body |
| ModbusFrames.UnpackWords | Config/IOM/modbus_connet.py:126 | `struct.unpack('>{n}H')` succeeds exactly on 2n bytes, and re-encodes to them |
| ModbusFrames.ReadReply | Config/IOM/modbus_connet.py:126 | the reply decodes exactly when 2·count bytes follow byte 9 |
| ModbusFrames.ReadReplyRoundTrip | Config/IOM/modbus_connet.py:126 | any 9-byte head followed by encoded registers decodes to those registers |
| ModbusFrames.ReadReplyWords | Config/IOM/modbus_connet.py:124-126 | a reply carrying the encoded words decodes to those words |
| ModbusFrames.DecodeOfWordBytes | Config/IOM/modbus_connet.py:149-150 | encoding values as words and decoding them gives the values modulo 2^16 |
| ModbusFrames.WordBytesOfDecode | Config/IOM/modbus_connet.py:126 | decoding then re-encoding an even byte list restores it |
| ModbusFrames.RtuBody | Config/IOM/modbus_connet.py:182-193 | the RTU body is [slave, fc, addr hi, addr lo, n hi, n lo, 2n] followed by the values, 7 + 2n bytes |
| ModbusFrames.CrcShiftCases | Config/IOM/modbus_connet.py:194 | the branch-free bit step is the standard's shift-and-xor-0xA001 step |
| ModbusFrames.CrcCheckValue | Config/IOM/modbus_connet.py:194 | the CRC of "123456789" is 0x4B37, the published CRC-16/MODBUS check value |
| ModbusFrames.RtuFrame | Config/IOM/modbus_connet.py:194-197 | corrected: the frame is the body followed by two trailer bytes |
| ModbusFrames.CrcResidue | Config/IOM/modbus_connet.py:194-197 | the CRC of a corrected frame, trailer included, is 0 |
| ModbusFrames.CrcTrailerAsWritten | Config/IOM/modbus_connet.py:195-197 | as written: the trailer taken from the slices of `hex(crc)`, two bytes when it parses |
| ModbusFrames.CrcTrailerAsWrittenAgrees | Config/IOM/modbus_connet.py:195-197 | for crc >= 0x1000 the slices give the low byte then the high byte |
| ModbusFrames.CrcTrailerAsWrittenRaises | Config/IOM/modbus_connet.py:195-197 | for crc < 0x100 the slice `[4:6]` is empty and `int` raises ValueError |
| ModbusFrames.CrcTrailerAsWrittenMissplits | Config/IOM/modbus_connet.py:195-197 | as written, the frame for value 1 at 0x1000 has CRC 0x0AF1 and gets trailer 01 AF instead of F1 0A; for value 25 the CRC 0x00F1 raises |
| ModbusFrames.ReplyText | Config/IOM/modbus_connet.py:210-215 | removing "0x" from the rendered reply leaves the two-digit lowercase hex of each byte |
| ModbusFrames.EchoTextRoundTrip | Config/IOM/modbus_connet.py:210-215 | the reply text decodes back to the reply bytes |
| ModbusFrames.EchoTextInjective | Config/IOM/modbus_connet.py:210-216 | two replies with equal text are equal |
| ModbusFrames.EchoPatternOfExpected | Config/IOM/modbus_connet.py:199-208 | for slave < 10, address >= 0x1000 and count < 256 the pattern is the hex of [slave, 0x6a, addr hi, addr lo, 0, count] |
| ModbusFrames.EchoAgreement | Config/IOM/modbus_connet.py:199-216 | under those bounds the as-written check accepts exactly the expected echo |
| ModbusFrames.AsWrittenNeedsTwelve | Config/IOM/modbus_connet.py:208-216 | a pattern not 12 characters long rejects every 6-byte reply |
| ModbusFrames.EchoAsWrittenRejectsLowAddress | Config/IOM/modbus_connet.py:199 | as written: for an address in 0x100..0xfff no reply matches |
| ModbusFrames.EchoAsWrittenRejectsTwoDigitSlave | Config/IOM/modbus_connet.py:208 | as written: for slave 10..99 no reply matches |
| ModbusFrames.EchoAsWrittenRejectsEcho | Config/IOM/modbus_connet.py:199-216 | as written: the exact echo for slave 1, address 0x0100, count 1 is rejected |
| CommandGenerator.Split16Bit | Tools/modbus.py:233-235 | two bytes, high first, recombining to the value modulo 2^16 |
| CommandGenerator.AsciiBytes | Tools/modbus.py:263-264 | `encode('ascii')` succeeds exactly on ASCII text, one byte per character; otherwise UnicodeEncodeError |
| CommandGenerator.PyInt | Tools/modbus.py:254-257 | `int(s)` or `int(s, 16)` succeeds exactly on optionally signed digits, surrounding whitespace allowed; otherwise ValueError |
| CommandGenerator.PyIntOfDecimal | Tools/modbus.py:257 | the decimal text of n reads back as n and does not start with "0x" |
| CommandGenerator.PyIntOfHex | Tools/modbus.py:254 | the hex digits of n read back in base 16 as n |
| CommandGenerator.ProcessParameter | Tools/modbus.py:237-266 | an int becomes its two big-endian bytes modulo 2^16; every result is a list of bytes |
| CommandGenerator.DecimalStringAgrees | Tools/modbus.py:249-259 | a decimal string gives the same bytes as the integer |
| CommandGenerator.HexStringAgrees | Tools/modbus.py:252-259 | a "0x" string gives the same bytes as the integer |
| CommandGenerator.TextGoesAscii | Tools/modbus.py:247-264 | a string holding a character that is not whitespace, a sign, a hex digit or 'x'/'X' fails both `int` readings and becomes its ASCII bytes |
| CommandGenerator.DecimalTextGoesAscii | Tools/modbus.py:247-264 | without the "0x" prefix, a string holding a character that is not whitespace, a sign or a decimal digit becomes its ASCII bytes |
| CommandGenerator.DigitsRejected | Tools/modbus.py:252-257 | text holding a character that is not whitespace, a sign or a digit of the base (nor the prefix letter in base 16) makes `int()` raise ValueError |
| CommandGenerator.OtherAsText | Tools/modbus.py:265-266 | any other value goes through its text |
| CommandGenerator.FirstMatch | Tools/modbus.py:134-141 | the match is the first key, in insertion order, whose lowercase contains the query; none when no key does |
| CommandGenerator.FirstMatchOf | Tools/modbus.py:138-141 | the first containing key is the one found |
| CommandGenerator.FunctionCode | Tools/modbus.py:170-182 | 0x6A iff the lowercased name is a special parameter, else 0x10 |
| CommandGenerator.SerialNumberNotSpecial | Tools/modbus.py:179-186 | "serial number" can never match the capitalised entry: it gets 0x10, yet 6 registers |
| CommandGenerator.MacAddressSpecial | Tools/modbus.py:174-186 | "mac address" gets 0x6A and 6 registers |
| CommandGenerator.RegisterCount | Tools/modbus.py:184-194 | the count is forced to 6 for serial number and mac address, else the table's |
| CommandGenerator.Fit | Tools/modbus.py:197-206 | data longer than required raises ValueError; with 0x10 shorter data is left-padded with zeros to exactly the size; with 0x6A it is unchanged |
| CommandGenerator.WriteFrame | Tools/modbus.py:212-219 | [slave, fc, addr hi, addr lo, count hi, count lo, 2·count] followed by the data |
| CommandGenerator.ReadFrame | Tools/modbus.py:223-228 | [slave, 0x03, addr hi, addr lo, count hi, count lo] |
| CommandGenerator.Hex02 | Tools/modbus.py:220 | a byte renders as two hex digits of its value, without spaces |
| CommandGenerator.RenderRoundTrip | Tools/modbus.py:220-229 | splitting the rendered text on spaces gives one two-digit field per byte, reading back as that byte |
| CommandGenerator.Generate | Tools/modbus.py:129-231 | no match, or an empty table, raises ValueError |
| CommandGenerator.GenerateFrames | Tools/modbus.py:166-231 | a matched parameter whose data fits gives the rendered write and read frames |
| CommandGenerator.GenerateTooLong | Tools/modbus.py:197-198 | data longer than 2·count raises ValueError |
| CommandGenerator.CommandFor | Tools/modbus.py:166-231 | the command fails exactly when the value cannot be encoded (that error) or is longer than 2·count (ValueError); otherwise the read text is the read frame and the write text splits into the fields of the write frame of the fitted data |
| CommandGenerator.FrameFields | Tools/modbus.py:197-220 | the fields of the write text read back as slave, function code, address, count, byte count 2·count, zero padding, then the data at the tail |
| CommandGenerator.FittedTail | Tools/modbus.py:200-205 | the fitted data is zero padding followed by the data |
| CommandGenerator.WriteFrameBytes | Tools/modbus.py:212-219 | a write frame of byte data with slave below 0x100 and count below 0x80 holds only bytes |
| CommandGenerator.Stored | Tools/modbus.py:114 | storing an existing key keeps the table size; a new key is appended |
| CommandGenerator.StoredUnique | Tools/modbus.py:114 | the table stays a map: unique keys, the stored value is found, other keys are unaffected |
| CommandGenerator.StoredFrom | Tools/modbus.py:114 | every entry after the store is the stored name or an entry of the old table |
| CommandGenerator.ModbusCommandGenerator.constructor | Tools/modbus.py:20-22 | the slave address is kept and the table starts empty |
| CommandGenerator.ModbusCommandGenerator.Register | Tools/modbus.py:114 | the table becomes the stored table |
| CommandGenerator.ModbusCommandGenerator.FindParameter | Tools/modbus.py:138-141 | the search loop finds the first match |
| CommandGenerator.ModbusCommandGenerator.GenerateCommand | Tools/modbus.py:129-231 | the method computes the generated command text pair |

## Left out

- UDP socket classes `SourCon` and `Cl3021SourCon`, their send, receive and timeouts, and every `time.sleep`: network I/O and physical settling delays. Each builder returns the frame bytes it would send.
- The GBK text protocol (`sour_para_conf`, `sour_output`, `mv_sour_output`, `sour_stop`): text templates filled with float percentages and tied to a reply over the network.
- `read_ac` (source_control.py:610-623): it indexes the reply slot of a send that did not wait for one, so it always fails before any frame logic.
- Float arithmetic: the `int(x * 10000)` truncation of the CL3021 fields, the division by 1e6 in `bytes_to_float`, and the IEEE-754 value behind the measurement bit patterns. The model takes scaled integers and bit patterns.
- Cl3021Codec.ReadDcRoundTrip: states the integer before the division by the scale, not the float quotient.
- Measurements.ConvertEnergyRegisters: returns the 32-bit pattern `struct.unpack('<f')` reinterprets, not the float itself.
- Measurements.ParseFloat: covers plain decimal text with an optional sign and fraction; exponents, `inf`/`nan`, underscores and non-ASCII digits accepted by Python's `float()` are not modelled.
- Cl3021Codec.HexGroups: a group is read with `int(group, 2)`, which also accepts a sign, surrounding whitespace, a `0b` prefix and underscores ("0b11" gives "3"); the model accepts only the characters 0 and 1, so `Ok` iff binary is stated for that narrower grammar, and so are the bit-string builders of the CL3021 frames.
- Cl3021Codec.BinToHexRejects: the same restriction; a group such as "+1" or "0b1", which Python reads, is rejected by the model.
- Cl3021Codec.ParseHex and Cl3021Codec.ParseDec: stated on plain digit strings; the sign, whitespace, prefix and underscore forms Python's `int()` also reads are not modelled.
- CommandGenerator.PyInt: the same restriction for `int()`: no underscores and no non-ASCII digits.
- PyText.Lower: lower-cases ASCII letters only; Python's full Unicode case mapping is not modelled.
- FixedPoint.ConvertTo32IntRegisters: a finite input is an exact real, so the float rounding of `value * 1000` is not modelled.
- pymodbus `ModbusSerialClient`/`ModbusTcpClient` and pyserial: the response, or the exception, of each call is a parameter. A bare int passed to `write_registers` (`set_ai_type`, `set_all_ai_type`) is modelled as the list pymodbus receives.
- The `isSucess` branches of `ModbusTcp6A` that return None or raise because the flag is not set: a constructed object always has the flag set, since the constructor raises otherwise.
- Partial sends and short receives of the TCP socket: one `send` delivers the whole request and one `recv` returns the whole reply.
- crcmod: the CRC is defined from the serial-line standard and checked against its published check value.
- `load_modbus_table` (Excel parsing) apart from the store into `register_map`, `list_parameters`, the Excel write in `excel_append_ai_measurement`, console prints and the `__main__` loops.
- `Common/modbus_config.py` configuration loading: the connection mode is a parameter.
- Default arguments are explicit parameters that every caller passes: `set_gear_switching_mode(mode='00000000')`, `read_dc(u_or_ma=3)` and `bytes_to_float(scale=1e6)` in source_control.py, `read_funcode_03(count=1, slaveid=1)`, `write_registers(funccode=0x6A)` and `write_func6A_registers(funccode=0x6A)` in modbus_connet.py, and `ModbusCommandGenerator(slave_address=0x01)`. No behaviour is lost: a call that omits them is the call with those values.
- The pytest fixtures and test cases.

## Findings

| source | as written | input that shows it | evidently intended | confidence | as-written member | corrected member |
|---|---|---|---|---|---|---|
| Source/CL3021/source_control.py:376 | `int(bin_to_hex(mode))` reads the hex digits in base 10 (also at 530) | mode "00010000" (value 16) sends 10; "00001010" raises ValueError | read the hex digits in base 16, as `set_wire` does at 244 | high (not executed) | Cl3021Frames.DecimalReadMisreads | Cl3021Frames.SetGearSwitchingMode |
| Source/CL3021/source_control.py:473 | `int(bin_to_hex(uc_hc))` reads each harmonic switch mask in base 10 (also at 478, 483, 488, 493 and 498) | mask "00010000" (16) sends 10; "00001010" (10) raises ValueError; only masks below ten are sent as given | read the hex digits in base 16, as `set_wire` does at 244 | high (not executed) | Cl3021Frames.AppendSwitchFieldAsWritten | Cl3021Frames.AppendSwitchField |
| Source/CL3021/source_control.py:827 | the current-off frame of `close_dc_all` ends in 0x19 | the frame [0x81,0x01,0x26,0x07,0x38,0x02]: XOR of bytes 1..5 is 0x1a | check byte 0x1a, as `close_dc(2)` computes at 812-814 | high (not executed) | Cl3021Frames.CloseDcAllAsWrittenMisSealed | Cl3021Frames.CloseDcAll |
| Config/IOM/modbus_connet.py:195 | the CRC trailer is sliced from `hex(crc)` at [4:6] and [2:4] | value 1 at 0x1000, slave 1: CRC 0x0AF1 gives trailer 01 AF; value 25: CRC 0x00F1 raises ValueError | the CRC low byte then the high byte for every CRC | high (not executed) | ModbusFrames.CrcTrailerAsWrittenMissplits | ModbusFrames.CrcResidue |
| Config/IOM/modbus_connet.py:199 | the echo pattern uses `hex(address)[2:6]` and `'0' + str(slave)` | slave 1, address 0x0100, count 1: the exact echo 01 6a 01 00 00 01 is rejected | compare with the hex of [slave, 0x6a, addr hi, addr lo, 0, count] | medium (not executed) | ModbusFrames.EchoAsWrittenRejectsEcho | ModbusFrames.EchoAgreement |
