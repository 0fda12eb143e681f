/**
 * The Modbus command generator of the tools directory: a table of parameter
 * names, each with its register address and register count, and the
 * generation of the text of a write frame (function 0x10, or the vendor
 * function 0x6A for the identity parameters) and of the matching read frame
 * (function 0x03) for one parameter and one value.
 */
module CommandGenerator {
  import opened Wrappers
  import opened HexText
  import opened ByteCodec
  import opened PyText

  /** A parameter value as the generator receives it: an int, a string, or anything else (by its `str()`). */
  datatype ParamValue = IntValue(n: int) | StrValue(s: string) | OtherValue(text: string)

  /** One table entry: the parameter name and its (address, register count). */
  type Entry = (string, (int, int))

  // ---------------------------------------------------------------------------
  // Parameter values

  /** `_split_16bit`: `[(v >> 8) & 0xFF, v & 0xFF]`, the big-endian bytes of v modulo 65536. */
  function Split16Bit(v: int): (r: seq<int>)
    ensures |r| == 2 && 0 <= r[0] < 0x100 && 0 <= r[1] < 0x100
    ensures r[0] * 0x100 + r[1] == v % 0x1_0000
  {
    Split16(v)
  }

  predicate IsAsciiText(s: string) {
    forall i :: 0 <= i < |s| ==> s[i] as int < 0x80
  }

  /** `s.encode('ascii')`: one byte per character, or UnicodeEncodeError. */
  function AsciiBytes(s: string): (r: Result<seq<int>, PyError>)
    ensures r.Ok? <==> IsAsciiText(s)
    ensures r.Err? ==> r.error == UnicodeEncodeError
    ensures r.Ok? ==> |r.value| == |s| && forall i :: 0 <= i < |s| ==> r.value[i] == s[i] as int
  {
    if IsAsciiText(s) then Ok(seq(|s|, i requires 0 <= i < |s| => s[i] as int)) else Err(UnicodeEncodeError)
  }

  /** The text after an optional sign. */
  function WithoutSign(t: string): string {
    if |t| >= 1 && (t[0] == '-' || t[0] == '+') then t[1..] else t
  }

  /** In base 16, the digits after an optional "0x" or "0X". */
  function WithoutPrefix(u: string, hex: bool): string {
    if hex && |u| >= 2 && u[0] == '0' && (u[1] == 'x' || u[1] == 'X') then u[2..] else u
  }

  /** At least one digit of the base, and nothing else: their value. */
  function DigitsValue(d: string, hex: bool): Option<nat> {
    if hex && |d| >= 1 && IsHexString(d) then Some(HexValue(d))
    else if !hex && |d| >= 1 && IsDecString(d) then Some(DecValue(d))
    else None
  }

  /** An optional sign, then digits: the value with its sign applied. */
  function SignedDigits(t: string, hex: bool): Option<int> {
    match DigitsValue(WithoutPrefix(WithoutSign(t), hex), hex)
    case None => None
    case Some(m) => var v: int := m; Some(if |t| >= 1 && t[0] == '-' then -v else v)
  }

  /**
   * `int(s)` and `int(s, 16)`: surrounding whitespace, an optional sign and
   * digits of the base (base 16 also takes a "0x" prefix); anything else
   * raises ValueError.
   */
  function PyInt(s: string, hex: bool): (r: Result<int, PyError>)
    ensures r.Err? ==> r.error == ValueError
    ensures r.Ok? <==> SignedDigits(Strip(s), hex).Some?
  {
    match SignedDigits(Strip(s), hex)
    case Some(n) => Ok(n)
    case None => Err(ValueError)
  }

  /**
   * `_process_parameter`: an int becomes its two bytes; a string that reads
   * as a number ("0x…" in hexadecimal, otherwise decimal) becomes the two
   * bytes of that number; any other string becomes its ASCII bytes (the
   * string as given, unstripped); anything else goes through `str()`.
   */
  function ProcessParameter(value: ParamValue): (r: Result<seq<int>, PyError>)
    ensures value.IntValue? ==> r == Ok(Split16Bit(value.n))
    ensures r.Ok? ==> forall i :: 0 <= i < |r.value| ==> 0 <= r.value[i] < 0x100
    decreases if value.OtherValue? then 1 else 0
  {
    match value
    case IntValue(n) => Ok(Split16Bit(n))
    case StrValue(s) =>
      var valueStr := Strip(s);
      var parsed := if StartsWith(valueStr, "0x") then PyInt(valueStr[2..], true) else PyInt(valueStr, false);
      if parsed.Ok? then Ok(Split16Bit(parsed.value)) else AsciiBytes(s)
    case OtherValue(text) => ProcessParameter(StrValue(text))
  }

  // ---------------------------------------------------------------------------
  // Lookup and the frame fields

  /** The fuzzy match: the query occurs in the lower-cased name. */
  predicate Matches(name: string, cleaned: string) {
    Contains(Lower(name), cleaned)
  }

  /** The index of the first entry, in table order, whose name matches. */
  function FirstMatch(entries: seq<Entry>, cleaned: string): (r: Option<nat>)
    ensures r.Some? ==> r.value < |entries| && Matches(entries[r.value].0, cleaned)
    ensures r.Some? ==> forall j :: 0 <= j < r.value ==> !Matches(entries[j].0, cleaned)
    ensures r.None? <==> forall j :: 0 <= j < |entries| ==> !Matches(entries[j].0, cleaned)
  {
    if entries == [] then None
    else if Matches(entries[0].0, cleaned) then Some(0)
    else match FirstMatch(entries[1..], cleaned)
      case None => None
      case Some(i) => Some(i + 1)
  }

  /** The parameters written with the vendor function 0x6A; the capitalised entry is compared with a lower-cased name. */
  const SpecialParams: set<string> := {
    "hardware version", "function model type", "reserved 1", "mac address", "certification type",
    "aiao or dido flag", "reserved 2", "hardware patch number", "Serial Number"
  }

  /** 0x6A for the special parameters, 0x10 (Write Multiple Registers) otherwise. */
  function FunctionCode(name: string): (fc: int)
    ensures fc == 0x6A || fc == 0x10
    ensures fc == 0x6A <==> Lower(name) in SpecialParams
  {
    if Lower(name) in SpecialParams then 0x6A else 0x10
  }

  /** The register count, forced to 6 for the serial number and the MAC address. */
  function RegisterCount(name: string, regCount: int): (n: int)
    ensures Lower(name) == "serial number" || Lower(name) == "mac address" ==> n == 6
    ensures !(Lower(name) == "serial number" || Lower(name) == "mac address") ==> n == regCount
  {
    if Lower(name) in ["serial number", "mac address"] then 6 else regCount
  }

  /**
   * The data fitted to `required` bytes: longer data is a ValueError;
   * shorter data is left-padded with zero bytes for function 0x10 and sent
   * as it is for 0x6A.
   */
  function Fit(data: seq<int>, required: int, functionCode: int): (r: Result<seq<int>, PyError>)
    ensures r.Err? <==> |data| > required
    ensures r.Err? ==> r.error == ValueError
    ensures r.Ok? && functionCode == 0x10 ==> |r.value| == required && r.value[required - |data|..] == data
    ensures r.Ok? && functionCode == 0x10 ==> forall i :: 0 <= i < required - |data| ==> r.value[i] == 0
    ensures r.Ok? && functionCode != 0x10 ==> r.value == data
  {
    if |data| > required then Err(ValueError)
    else if |data| < required && functionCode == 0x10 then Ok(seq(required - |data|, _ => 0) + data)
    else Ok(data)
  }

  /** The write frame: slave, function code, address, register count, byte count, data. */
  function WriteFrame(slave: int, functionCode: int, address: int, regCount: int, data: seq<int>): (f: seq<int>)
    ensures |f| == 7 + |data| && f[7..] == data
    ensures f[0] == slave && f[1] == functionCode && f[6] == 2 * regCount
    ensures f[2] * 0x100 + f[3] == address % 0x1_0000 && f[4] * 0x100 + f[5] == regCount % 0x1_0000
  {
    [slave, functionCode] + Split16Bit(address) + Split16Bit(regCount) + [2 * regCount] + data
  }

  /** The read frame: slave, 0x03 (Read Holding Registers), address, register count. */
  function ReadFrame(slave: int, address: int, regCount: int): (f: seq<int>)
    ensures |f| == 6 && f[0] == slave && f[1] == 0x03
    ensures f[2] * 0x100 + f[3] == address % 0x1_0000 && f[4] * 0x100 + f[5] == regCount % 0x1_0000
  {
    [slave, 0x03] + Split16Bit(address) + Split16Bit(regCount)
  }

  /** `f"{n:02X}"`: upper-case hexadecimal, at least two characters (a minus sign counts). */
  function Hex02(n: int): (s: string)
    ensures |s| >= 2 && ' ' !in s
    ensures 0 <= n < 0x100 ==> |s| == 2 && IsHexString(s) && HexValue(s) == n
  {
    if n >= 0 then
      ZFillDigits(UpperHex(n), 2);
      var s := ZFill(UpperHex(n), 2);
      HexNoSpace(s);
      if n < 0x100 then
        UpperHexLength(n, 2);
        UpperHexValue(n);
        s
      else s
    else
      HexNoSpace(UpperHex(-n));
      "-" + UpperHex(-n)
  }

  /** The bytes as two-digit hexadecimal joined by single spaces. */
  function Render(frame: seq<int>): string {
    Join(seq(|frame|, i requires 0 <= i < |frame| => Hex02(frame[i])), ' ')
  }

  /**
   * `generate_command`: the first matching entry (none, or an entry with an
   * empty name, is a ValueError), its function code and register count, the
   * processed and fitted value, and the texts of the write and read frames.
   */
  function Generate(slave: int, entries: seq<Entry>, paramName: string, value: ParamValue): (r: Result<(string, string), PyError>)
    ensures FirstMatch(entries, Lower(Strip(paramName))).None? ==> r == Err(ValueError)
    ensures entries == [] ==> r == Err(ValueError)
  {
    match FirstMatch(entries, Lower(Strip(paramName)))
    case None => Err(ValueError)
    case Some(i) =>
      var (name, (address, count)) := entries[i];
      if name == "" then Err(ValueError) else CommandFor(slave, name, address, count, value)
  }

  /** The fields are the two-digit hexadecimal spellings of the frame's bytes, one per byte. */
  predicate Spells(fields: seq<string>, frame: seq<int>) {
    && |fields| == |frame|
    && forall i :: 0 <= i < |frame| ==> |fields[i]| == 2 && IsHexString(fields[i]) && HexValue(fields[i]) == frame[i]
  }

  /**
   * The command texts once the entry is found: the data is processed and
   * fitted to twice the register count (too long is a ValueError); the
   * write text spells the write frame of the fitted data and the read text
   * is the read frame.
   */
  function CommandFor(slave: int, name: string, address: int, count: int, value: ParamValue): (r: Result<(string, string), PyError>)
    ensures r.Err? <==> ProcessParameter(value).Err? || |ProcessParameter(value).value| > 2 * RegisterCount(name, count)
    ensures ProcessParameter(value).Err? ==> r == Err(ProcessParameter(value).error)
    ensures ProcessParameter(value).Ok? && |ProcessParameter(value).value| > 2 * RegisterCount(name, count) ==> r == Err(ValueError)
    ensures r.Ok? ==> r.value.1 == Render(ReadFrame(slave, address, RegisterCount(name, count)))
    ensures r.Ok? && 0 <= slave < 0x100 && 0 <= RegisterCount(name, count) < 0x80 ==>
      var regCount := RegisterCount(name, count);
      var fc := FunctionCode(name);
      Spells(Split(r.value.0, ' '), WriteFrame(slave, fc, address, regCount, Fit(ProcessParameter(value).value, 2 * regCount, fc).value))
  {
    var functionCode := FunctionCode(name);
    var regCount := RegisterCount(name, count);
    var data :- ProcessParameter(value);
    var fitted :- Fit(data, 2 * regCount, functionCode);
    var frame := WriteFrame(slave, functionCode, address, regCount, fitted);
    if 0 <= slave < 0x100 && 0 <= regCount < 0x80 then
      WriteFrameBytes(slave, functionCode, address, regCount, data, fitted);
      RenderRoundTrip(frame);
      Ok((Render(frame), Render(ReadFrame(slave, address, regCount))))
    else
      Ok((Render(frame), Render(ReadFrame(slave, address, regCount))))
  }

  /** Every byte of the write frame of fitted byte data is below 0x100. */
  lemma WriteFrameBytes(slave: int, functionCode: int, address: int, regCount: int, data: seq<int>, fitted: seq<int>)
    requires 0 <= slave < 0x100 && 0 <= regCount < 0x80 && (functionCode == 0x10 || functionCode == 0x6A)
    requires forall i :: 0 <= i < |data| ==> 0 <= data[i] < 0x100
    requires Fit(data, 2 * regCount, functionCode) == Ok(fitted)
    ensures var frame := WriteFrame(slave, functionCode, address, regCount, fitted);
      forall i :: 0 <= i < |frame| ==> 0 <= frame[i] < 0x100
  {
    var frame := WriteFrame(slave, functionCode, address, regCount, fitted);
    assert frame == [slave, functionCode] + Split16Bit(address) + Split16Bit(regCount) + [2 * regCount] + fitted;
    assert forall i :: 0 <= i < |fitted| ==> 0 <= fitted[i] < 0x100 by {
      if functionCode == 0x10 {
        forall i | 0 <= i < |fitted| ensures 0 <= fitted[i] < 0x100 {
          if i >= |fitted| - |data| {
            assert fitted[i] == fitted[|fitted| - |data|..][i - (|fitted| - |data|)];
          }
        }
      }
    }
  }

  /**
   * Fields that spell the write frame of fitted data, read back field by
   * field: the slave, the function code, the address, the register count,
   * the byte count, zero padding and then the data at the tail.
   */
  lemma FrameFields(fields: seq<string>, slave: int, fc: int, address: int, regCount: int, data: seq<int>)
    requires 0 <= regCount < 0x80 && (fc == 0x10 || fc == 0x6A)
    requires Fit(data, 2 * regCount, fc).Ok?
    requires Spells(fields, WriteFrame(slave, fc, address, regCount, Fit(data, 2 * regCount, fc).value))
    ensures && |fields| == 7 + (if fc == 0x10 then 2 * regCount else |data|)
      && HexValue(fields[0]) == slave && HexValue(fields[1]) == fc
      && HexValue(fields[2]) * 0x100 + HexValue(fields[3]) == address % 0x1_0000
      && HexValue(fields[4]) * 0x100 + HexValue(fields[5]) == regCount
      && HexValue(fields[6]) == 2 * regCount
      && (forall i :: 7 <= i < |fields| - |data| ==> HexValue(fields[i]) == 0)
      && (forall i :: 0 <= i < |data| ==> HexValue(fields[|fields| - |data| + i]) == data[i])
  {
    var fitted := Fit(data, 2 * regCount, fc).value;
    var frame := WriteFrame(slave, fc, address, regCount, fitted);
    assert regCount % 0x1_0000 == regCount;
    FittedTail(data, 2 * regCount, fc, fitted);
    PaddedTail(frame, fitted, data);
    SpelledTail(fields, frame, data);
  }

  /** A seven-byte header followed by zero padding and the data is zero padding and the data after the header. */
  lemma PaddedTail(frame: seq<int>, fitted: seq<int>, data: seq<int>)
    requires |frame| == 7 + |fitted| && frame[7..] == fitted && |data| <= |fitted|
    requires forall i :: 0 <= i < |fitted| - |data| ==> fitted[i] == 0
    requires forall i :: 0 <= i < |data| ==> fitted[|fitted| - |data| + i] == data[i]
    ensures forall i :: 7 <= i < |frame| - |data| ==> frame[i] == 0
    ensures forall i :: 0 <= i < |data| ==> frame[|frame| - |data| + i] == data[i]
  {
    assert forall i :: 7 <= i < |frame| ==> frame[i] == fitted[i - 7];
  }

  /** Spelled fields read back the values of the frame at the same positions. */
  lemma SpelledTail(fields: seq<string>, frame: seq<int>, data: seq<int>)
    requires Spells(fields, frame) && 7 + |data| <= |frame|
    requires forall i :: 7 <= i < |frame| - |data| ==> frame[i] == 0
    requires forall i :: 0 <= i < |data| ==> frame[|frame| - |data| + i] == data[i]
    ensures forall i :: 7 <= i < |fields| - |data| ==> HexValue(fields[i]) == 0
    ensures forall i :: 0 <= i < |data| ==> HexValue(fields[|fields| - |data| + i]) == data[i]
  {
  }

  /** The fitted data is zero padding followed by the data. */
  lemma FittedTail(data: seq<int>, required: int, functionCode: int, fitted: seq<int>)
    requires Fit(data, required, functionCode) == Ok(fitted)
    ensures |data| <= |fitted|
    ensures forall i :: 0 <= i < |fitted| - |data| ==> fitted[i] == 0
    ensures forall i :: 0 <= i < |data| ==> fitted[|fitted| - |data| + i] == data[i]
  {
    if functionCode == 0x10 {
      assert |fitted| == required;
      forall i | 0 <= i < |data|
        ensures fitted[|fitted| - |data| + i] == data[i]
      {
        assert fitted[required - |data|..][i] == data[i];
      }
    } else {
      assert fitted == data;
    }
  }


  /** `register_map[name] = value`: an existing name keeps its place and takes the new value; a new name goes last. */
  function Stored(entries: seq<Entry>, name: string, value: (int, int)): (r: seq<Entry>)
    ensures (exists i :: 0 <= i < |entries| && entries[i].0 == name) ==> |r| == |entries|
    ensures (forall i :: 0 <= i < |entries| ==> entries[i].0 != name) ==> r == entries + [(name, value)]
  {
    if entries == [] then [(name, value)]
    else if entries[0].0 == name then [(name, value)] + entries[1..]
    else [entries[0]] + Stored(entries[1..], name, value)
  }

  predicate UniqueNames(entries: seq<Entry>) {
    forall i, j :: 0 <= i < j < |entries| ==> entries[i].0 != entries[j].0
  }

  /** The entry stored under `name`, if any. */
  function Lookup(entries: seq<Entry>, name: string): Option<(int, int)> {
    if entries == [] then None
    else if entries[0].0 == name then Some(entries[0].1)
    else Lookup(entries[1..], name)
  }

  // ---------------------------------------------------------------------------
  // The generator object

  class ModbusCommandGenerator {
    var slaveAddr: int
    /** The name → (address, register count) table, in insertion order. */
    var registerMap: seq<Entry>

    predicate Valid()
      reads this
    {
      UniqueNames(registerMap)
    }

    constructor(slaveAddress: int)
      ensures slaveAddr == slaveAddress && registerMap == []
      ensures Valid()
    {
      slaveAddr := slaveAddress;
      registerMap := [];
    }

    /** The table store of `load_modbus_table`: one parameter with its address and register count. */
    method Register(name: string, address: int, regCount: int)
      requires Valid()
      modifies this
      ensures Valid()
      ensures slaveAddr == old(slaveAddr)
      ensures registerMap == Stored(old(registerMap), name, (address, regCount))
    {
      StoredUnique(registerMap, name, (address, regCount));
      registerMap := Stored(registerMap, name, (address, regCount));
    }

    /** The search loop of `generate_command`: the first entry whose lower-cased name contains the query. */
    method FindParameter(cleaned: string) returns (r: Option<nat>)
      ensures r == FirstMatch(registerMap, cleaned)
    {
      var k := 0;
      while k < |registerMap|
        invariant 0 <= k <= |registerMap|
        invariant forall j :: 0 <= j < k ==> !Matches(registerMap[j].0, cleaned)
      {
        if Contains(Lower(registerMap[k].0), cleaned) {
          FirstMatchOf(registerMap, cleaned, k);
          return Some(k);
        }
        k := k + 1;
      }
      return None;
    }

    /** `generate_command`: the search loop, then the command for the entry it finds. */
    method GenerateCommand(paramName: string, value: ParamValue) returns (r: Result<(string, string), PyError>)
      ensures r == Generate(slaveAddr, registerMap, paramName, value)
    {
      var cleaned := Lower(Strip(paramName));
      var found := FindParameter(cleaned);
      if found.None? || registerMap[found.value].0 == "" {
        return Err(ValueError);
      }
      var name := registerMap[found.value].0;
      var (address, count) := registerMap[found.value].1;
      r := CommandFor(slaveAddr, name, address, count, value);
    }
  }

  // ---------------------------------------------------------------------------
  // Lemmas

  lemma HexNoSpace(s: string)
    requires IsHexString(s)
    ensures ' ' !in s && '-' !in s
  {
  }

  lemma FirstMatchOf(entries: seq<Entry>, cleaned: string, k: nat)
    requires k < |entries| && Matches(entries[k].0, cleaned)
    requires forall j :: 0 <= j < k ==> !Matches(entries[j].0, cleaned)
    ensures FirstMatch(entries, cleaned) == Some(k)
  {
  }

  /** Storing keeps the names unique, and the name then looks up to the stored value. */
  lemma {:induction false} StoredUnique(entries: seq<Entry>, name: string, value: (int, int))
    requires UniqueNames(entries)
    ensures UniqueNames(Stored(entries, name, value))
    ensures Lookup(Stored(entries, name, value), name) == Some(value)
    ensures forall other :: other != name ==> Lookup(Stored(entries, name, value), other) == Lookup(entries, other)
    ensures forall i :: 0 <= i < |Stored(entries, name, value)| ==>
      Stored(entries, name, value)[i].0 == name || exists j :: 0 <= j < |entries| && entries[j] == Stored(entries, name, value)[i]
  {
    StoredFrom(entries, name, value);
    if entries != [] && entries[0].0 != name {
      var rest := Stored(entries[1..], name, value);
      StoredUnique(entries[1..], name, value);
      StoredFrom(entries[1..], name, value);
      var r := [entries[0]] + rest;
      forall i, j | 0 <= i < j < |r|
        ensures r[i].0 != r[j].0
      {
        if i == 0 {
          if r[j].0 != name {
            var m :| 0 <= m < |entries[1..]| && entries[1..][m] == rest[j - 1];
            assert entries[m + 1] == r[j];
          }
        }
      }
    } else if entries != [] {
      var r := [(name, value)] + entries[1..];
      assert forall other :: other != name ==> Lookup(r, other) == Lookup(entries[1..], other);
    }
  }

  /** Every stored entry is the new one or an entry of the old table. */
  lemma {:induction false} StoredFrom(entries: seq<Entry>, name: string, value: (int, int))
    ensures forall i :: 0 <= i < |Stored(entries, name, value)| ==>
      Stored(entries, name, value)[i].0 == name || exists j :: 0 <= j < |entries| && entries[j] == Stored(entries, name, value)[i]
  {
    if entries != [] && entries[0].0 != name {
      var rest := Stored(entries[1..], name, value);
      StoredFrom(entries[1..], name, value);
      var r := [entries[0]] + rest;
      forall i | 0 <= i < |r|
        ensures r[i].0 == name || exists j :: 0 <= j < |entries| && entries[j] == r[i]
      {
        if i > 0 && rest[i - 1].0 != name {
          var j :| 0 <= j < |entries[1..]| && entries[1..][j] == rest[i - 1];
          assert entries[j + 1] == r[i];
        } else if i == 0 {
          assert entries[0] == r[0];
        }
      }
    } else if entries != [] {
      var r := [(name, value)] + entries[1..];
      forall i | 0 <= i < |r|
        ensures r[i].0 == name || exists j :: 0 <= j < |entries| && entries[j] == r[i]
      {
        if i > 0 { assert entries[i] == r[i]; }
      }
    }
  }

  /** `int()` reads a decimal text back as its number. */
  lemma PyIntOfDecimal(n: nat)
    ensures Strip(DecimalText(n)) == DecimalText(n)
    ensures PyInt(DecimalText(n), false) == Ok(n)
    ensures !StartsWith(Strip(DecimalText(n)), "0x")
  {
    var s := DecimalText(n);
    DecimalTextValue(n);
    assert IsDecChar(s[0]) && IsDecChar(s[|s| - 1]);
    PrintableNotSpace(s[0]);
    PrintableNotSpace(s[|s| - 1]);
    StripTrimmed(s);
    if |s| >= 2 {
      assert IsDecChar(s[1]);
    }
  }

  /** A decimal string gives the same two bytes as the number it spells. */
  lemma DecimalStringAgrees(n: nat)
    ensures ProcessParameter(StrValue(DecimalText(n))) == ProcessParameter(IntValue(n))
  {
    PyIntOfDecimal(n);
  }

  /** `int(…, 16)` reads upper-case hexadecimal digits back as their number. */
  lemma PyIntOfHex(n: nat)
    ensures PyInt(UpperHex(n), true) == Ok(n)
  {
    var digits := UpperHex(n);
    assert IsHexChar(digits[0]) && IsHexChar(digits[|digits| - 1]);
    StripTrimmed(digits);
    assert WithoutSign(digits) == digits;
    if |digits| >= 2 {
      assert IsHexChar(digits[1]);
    }
    assert WithoutPrefix(digits, true) == digits;
    UpperHexValue(n);
  }

  /** The "0x" text of a number: trimmed, prefixed, and its digits after the prefix. */
  lemma PrefixedHexText(n: nat)
    ensures var s := "0x" + UpperHex(n);
      Strip(s) == s && StartsWith(s, "0x") && s[2..] == UpperHex(n)
  {
    var digits := UpperHex(n);
    var s := "0x" + digits;
    assert s[|s| - 1] == digits[|digits| - 1];
    assert IsHexChar(digits[|digits| - 1]);
    StripTrimmed(s);
    assert s[..2] == "0x";
  }

  /** A "0x…" string gives the same two bytes as the number its digits spell. */
  lemma HexStringAgrees(n: nat)
    ensures ProcessParameter(StrValue("0x" + UpperHex(n))) == ProcessParameter(IntValue(n))
  {
    PrefixedHexText(n);
    PyIntOfHex(n);
  }

  /**
   * A character that no `int()` reading of the base can absorb: not
   * whitespace, not a sign, and neither a digit of the base nor, in base 16,
   * a letter of the "0x" prefix.
   */
  predicate Blocks(c: char, hex: bool) {
    && !IsSpace(c) && c != '+' && c != '-'
    && if hex then !IsHexChar(c) && c != 'x' && c != 'X' else !IsDecChar(c)
  }

  /** Text holding a blocking character does not read as an integer. */
  lemma DigitsRejected(t: string, hex: bool, k: nat)
    requires k < |t| && Blocks(t[k], hex)
    ensures PyInt(t, hex) == Err(ValueError)
  {
    StripKeeps(t, k);
    var u := Strip(t);
    var j := k - LeadingSpaces(t);
    var w := WithoutSign(u);
    var jw := if |u| >= 1 && (u[0] == '-' || u[0] == '+') then j - 1 else j;
    assert 0 <= jw < |w| && w[jw] == t[k];
    var d := WithoutPrefix(w, hex);
    var jd := if hex && |w| >= 2 && w[0] == '0' && (w[1] == 'x' || w[1] == 'X') then jw - 2 else jw;
    assert 0 <= jd < |d| && d[jd] == t[k];
    assert !IsHexChar(d[jd]) || !IsDecChar(d[jd]);
  }

  /**
   * A string holding a character that is neither whitespace, a sign, a
   * hexadecimal digit nor 'x'/'X' fails both readings: it is sent as its
   * ASCII bytes ("0xZZ", "g1", "5 V").
   */
  lemma TextGoesAscii(s: string, k: nat)
    requires k < |s| && Blocks(s[k], true)
    ensures ProcessParameter(StrValue(s)) == AsciiBytes(s)
  {
    StripKeeps(s, k);
    var t := Strip(s);
    var j := k - LeadingSpaces(s);
    if StartsWith(t, "0x") {
      assert t[..2] == "0x";
      DigitsRejected(t[2..], true, j - 2);
    } else {
      DigitsRejected(t, false, j);
    }
  }

  /**
   * Without the "0x" prefix the text is read in base 10: a character that is
   * neither whitespace, a sign nor a decimal digit sends the string as its
   * ASCII bytes ("abc", "1.5", " a b").
   */
  lemma DecimalTextGoesAscii(s: string, k: nat)
    requires !StartsWith(Strip(s), "0x")
    requires k < |s| && Blocks(s[k], false)
    ensures ProcessParameter(StrValue(s)) == AsciiBytes(s)
  {
    StripKeeps(s, k);
    DigitsRejected(Strip(s), false, k - LeadingSpaces(s));
  }

  /** A value of another type is processed as its `str()`. */
  lemma OtherAsText(text: string)
    ensures ProcessParameter(OtherValue(text)) == ProcessParameter(StrValue(text))
  {
  }

  /**
   * The capitalised "Serial Number" in the special set can never equal a
   * lower-cased name: the serial number is written with 0x10, as 6 registers.
   */
  lemma SerialNumberNotSpecial(name: string)
    requires Lower(name) == "serial number"
    ensures FunctionCode(name) == 0x10
    ensures RegisterCount(name, 0) == 6
  {
    assert IsUpper("Serial Number"[0]);
    LowerNeverUpper(name, "Serial Number");
  }

  /** The MAC address is special: 0x6A, 6 registers. */
  lemma MacAddressSpecial(name: string, regCount: int)
    requires Lower(name) == "mac address"
    ensures FunctionCode(name) == 0x6A
    ensures RegisterCount(name, regCount) == 6
  {
  }

  /** The rendered frame splits at its spaces into one two-digit hex field per byte, each reading back as the byte. */
  lemma {:induction false} RenderRoundTrip(frame: seq<int>)
    requires |frame| >= 1
    requires forall i :: 0 <= i < |frame| ==> 0 <= frame[i] < 0x100
    ensures Spells(Split(Render(frame), ' '), frame)
  {
    var parts := seq(|frame|, i requires 0 <= i < |frame| => Hex02(frame[i]));
    assert forall k :: 0 <= k < |parts| ==> ' ' !in parts[k];
    SplitJoin(parts, ' ');
  }

  /** A successful command is the rendered write and read frames of the matched entry. */
  lemma GenerateFrames(slave: int, entries: seq<Entry>, paramName: string, value: ParamValue, i: nat, data: seq<int>)
    requires FirstMatch(entries, Lower(Strip(paramName))) == Some(i)
    requires entries[i].0 != ""
    requires ProcessParameter(value) == Ok(data)
    requires |data| <= 2 * RegisterCount(entries[i].0, entries[i].1.1)
    ensures var name := entries[i].0;
      var regCount := RegisterCount(name, entries[i].1.1);
      var fc := FunctionCode(name);
      && Fit(data, 2 * regCount, fc).Ok?
      && Generate(slave, entries, paramName, value)
         == Ok((Render(WriteFrame(slave, fc, entries[i].1.0, regCount, Fit(data, 2 * regCount, fc).value)),
                Render(ReadFrame(slave, entries[i].1.0, regCount))))
  {
  }

  /** Data longer than the register count allows is rejected. */
  lemma GenerateTooLong(slave: int, entries: seq<Entry>, paramName: string, value: ParamValue, i: nat, data: seq<int>)
    requires FirstMatch(entries, Lower(Strip(paramName))) == Some(i)
    requires entries[i].0 != ""
    requires ProcessParameter(value) == Ok(data)
    requires |data| > 2 * RegisterCount(entries[i].0, entries[i].1.1)
    ensures Generate(slave, entries, paramName, value) == Err(ValueError)
  {
  }
}
