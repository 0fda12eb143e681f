/**
 * Reading the analog-input measurements back from the IO module: the
 * register pairs each hold a 32-bit float bit pattern, high word first; the
 * readers map AI1..AI16 to the decoded patterns, and the verdict compares a
 * measurement with an inclusive "min~max" range.
 */
module Measurements {
  import opened Wrappers
  import opened HexText
  import opened ByteCodec
  import opened PyText
  import opened ModbusTransport

  // ---------------------------------------------------------------------------
  // convert_energy_registers

  /** `reg.to_bytes(2, 'little')`. */
  function LittleBytes(reg: u16): (bytes: seq<nat>)
    ensures |bytes| == 2 && bytes[0] < 0x100 && bytes[1] < 0x100
  {
    [reg % 0x100, reg / 0x100]
  }

  /** The unsigned value of a little-endian byte string: `Σ b[i]·256^i`. */
  function LittleEndian(bytes: seq<nat>): nat {
    if bytes == [] then 0 else bytes[0] + 0x100 * LittleEndian(bytes[1..])
  }

  /**
   * The bit pattern `struct.unpack('<f', low_bytes + high_bytes)` reads:
   * the low word's bytes, then the high word's, as one little-endian value.
   */
  function Pattern(high: u16, low: u16): nat {
    LittleEndian(LittleBytes(low) + LittleBytes(high))
  }

  /** The patterns of consecutive (high, low) pairs, one per pair. */
  function Patterns(registers: seq<u16>): (ps: seq<nat>)
    requires |registers| % 2 == 0
    ensures |ps| == |registers| / 2
  {
    seq(|registers| / 2, k requires 0 <= k < |registers| / 2 => Pattern(registers[2 * k], registers[2 * k + 1]))
  }

  /**
   * `convert_energy_registers`: one bit pattern per pair of words; an all-zero
   * pair takes the 0.0 shortcut; an odd count fails when the last word has no
   * partner.
   */
  method ConvertEnergyRegisters(registers: seq<u16>) returns (r: Result<seq<nat>, PyError>)
    ensures |registers| % 2 == 1 <==> r == Err(IndexError)
    ensures |registers| % 2 == 0 ==> r == Ok(Patterns(registers))
  {
    var results: seq<nat> := [];
    var i := 0;
    while i < |registers|
      invariant 0 <= i <= |registers| && i % 2 == 0
      invariant 2 * |results| == i
      invariant forall k :: 0 <= k < |results| ==> results[k] == Pattern(registers[2 * k], registers[2 * k + 1])
    {
      if i + 1 >= |registers| {
        return Err(IndexError);
      }
      var low := registers[i + 1];
      var high := registers[i];
      if low == 0 && high == 0 {
        ZeroPattern();
        results := results + [0];
      } else {
        results := results + [Pattern(high, low)];
      }
      i := i + 2;
    }
    assert results == Patterns(registers);
    return Ok(results);
  }

  // ---------------------------------------------------------------------------
  // The verdict of excel_append_ai_measurement

  /** The verdict texts: "qualified" and "not qualified". */
  const Pass: string := "合格"
  const Fail: string := "不合格"

  /** The value of digits `a`, a decimal point and digits `b`. */
  function FractionValue(a: string, b: string): real
    requires IsDecString(a) && IsDecString(b)
  {
    DecValue(a) as real + DecValue(b) as real / Pow10(|b|) as real
  }

  /**
   * The grammar of unsigned decimal text with its decimal point at index `k`
   * (no point when `k == |body|`): digits, then optionally '.' and more
   * digits, with at least one digit in all ("5", "5.", ".5", "5.25").
   */
  predicate UnsignedAt(body: string, k: nat) {
    && k <= |body|
    && IsDecString(body[..k])
    && (k < |body| ==> body[k] == '.' && IsDecString(body[k + 1..]) && |body| >= 2)
    && (k == |body| ==> |body| >= 1)
  }

  /** The value of unsigned decimal text with its point at `k`. */
  function UnsignedValue(body: string, k: nat): real
    requires UnsignedAt(body, k)
  {
    if k == |body| then DecValue(body) as real else FractionValue(body[..k], body[k + 1..])
  }

  /** The text after one optional sign. */
  function Unsigned(t: string): string {
    if |t| >= 1 && (t[0] == '-' || t[0] == '+') then t[1..] else t
  }

  /** The value `v` with the sign `t` starts with: negated after a leading minus. */
  function Signed(t: string, v: real): real {
    if |t| >= 1 && t[0] == '-' then -v else v
  }

  /** Unsigned decimal text, cut at its decimal points. */
  function UnsignedDecimal(body: string): (r: Option<real>)
    ensures r.Some? <==> exists k: nat :: UnsignedAt(body, k)
    ensures forall k: nat :: UnsignedAt(body, k) ==> r == Some(UnsignedValue(body, k))
  {
    var parts := Split(body, '.');
    PointSplits(body);
    SplitPoints(body);
    if |parts| == 1 && |parts[0]| >= 1 && IsDecString(parts[0]) then
      assert UnsignedAt(body, |body|);
      Some(DecValue(parts[0]) as real)
    else if |parts| == 2 && |parts[0]| + |parts[1]| >= 1 && IsDecString(parts[0]) && IsDecString(parts[1]) then
      assert UnsignedAt(body, |parts[0]|) by {
        assert body[..|parts[0]|] == parts[0] && body[|parts[0]| + 1..] == parts[1];
      }
      Some(FractionValue(parts[0], parts[1]))
    else None
  }

  /** Text that fits the grammar splits at its one decimal point, or not at all. */
  lemma PointSplits(body: string)
    ensures forall k: nat :: UnsignedAt(body, k) ==>
      Split(body, '.') == if k == |body| then [body] else [body[..k], body[k + 1..]]
  {
    forall k: nat | UnsignedAt(body, k)
      ensures Split(body, '.') == if k == |body| then [body] else [body[..k], body[k + 1..]]
    {
      if k == |body| {
        assert body[..k] == body;
        NoDot(body);
        SplitOfFree(body, '.');
      } else {
        var a, b := body[..k], body[k + 1..];
        NoDot(a);
        NoDot(b);
        assert Join([a, b], '.') == body by { assert Join([b], '.') == b; }
        SplitJoin([a, b], '.');
      }
    }
  }

  /** One part is the whole text; two parts are the text either side of its one point. */
  lemma SplitPoints(body: string)
    ensures var parts := Split(body, '.');
      && (|parts| == 1 ==> parts[0] == body)
      && (|parts| == 2 ==> body == parts[0] + "." + parts[1])
  {
    var parts := Split(body, '.');
    JoinSplit(body, '.');
    if |parts| == 2 {
      assert Join(parts[1..], '.') == parts[1];
    }
  }

  /**
   * `float(s)` on plain decimal text: after `strip()`, an optional sign and
   * unsigned decimal text; the value is the signed value of that text, and
   * anything else raises (None).
   */
  function ParseFloat(s: string): (r: Option<real>)
    ensures var t := Strip(s);
      && (r.Some? <==> exists k: nat :: UnsignedAt(Unsigned(t), k))
      && (forall k: nat :: UnsignedAt(Unsigned(t), k) ==> r == Some(Signed(t, UnsignedValue(Unsigned(t), k))))
  {
    var t := Strip(s);
    match UnsignedDecimal(Unsigned(t))
    case None => None
    case Some(m) => Some(Signed(t, m))
  }

  /** A plus sign is accepted: "+5" is 5. */
  lemma ParseFloatPlus()
    ensures ParseFloat("+5") == Some(5.0)
  {
    StripTrimmed("+5");
    assert Unsigned("+5") == "5";
    assert UnsignedAt("5", 1) && "5"[..1] == "5";
  }

  /** A point with no digits after it is accepted: "5." is 5. */
  lemma ParseFloatTrailingPoint()
    ensures ParseFloat("5.") == Some(5.0)
  {
    StripTrimmed("5.");
    assert "5."[..1] == "5" && "5."[2..] == "";
    assert UnsignedAt("5.", 1);
  }

  /** A point with no digits before it is accepted: ".5" is one half. */
  lemma ParseFloatLeadingPoint()
    ensures ParseFloat(".5") == Some(0.5)
  {
    StripTrimmed(".5");
    assert ".5"[..0] == "" && ".5"[1..] == "5";
    assert UnsignedAt(".5", 0);
  }

  /** A sign alone raises. */
  lemma ParseFloatLoneSign()
    ensures ParseFloat("-") == None
  {
    StripTrimmed("-");
  }

  /** Two decimal points raise. */
  lemma ParseFloatTwoPoints()
    ensures ParseFloat("1.2.3") == None
  {
    var u := "1.2.3";
    StripTrimmed(u);
    forall k: nat
      ensures !UnsignedAt(u, k)
    {
      if k == |u| || (k < |u| && u[k] == '.' && k != 1) {
        assert u[..k][1] == '.';
      } else if k == 1 {
        assert u[k + 1..][1] == '.';
      }
    }
  }

  /**
   * `range_min, range_max = map(float, range_str.strip().split('~'))`:
   * exactly two parts, each a number; anything else is a ValueError.
   */
  function ParseRange(rangeStr: string): (r: Result<(real, real), PyError>)
    ensures var parts := Split(Strip(rangeStr), '~');
      && (r.Ok? <==> |parts| == 2 && ParseFloat(parts[0]).Some? && ParseFloat(parts[1]).Some?)
      && (r.Ok? ==> r.value == (ParseFloat(parts[0]).value, ParseFloat(parts[1]).value))
      && (r.Err? ==> r.error == ValueError)
  {
    var parts := Split(Strip(rangeStr), '~');
    if |parts| != 2 then Err(ValueError)
    else match (ParseFloat(parts[0]), ParseFloat(parts[1]))
      case (Some(lo), Some(hi)) => Ok((lo, hi))
      case _ => Err(ValueError)
  }

  /**
   * The checks and the verdict of `excel_append_ai_measurement`: an input
   * number outside 1..16 and a malformed range raise ValueError before any
   * verdict; a missing measurement (None) cannot be compared (TypeError);
   * otherwise the verdict is Pass iff min <= measurement <= max.
   */
  function AiVerdict(aiNumber: int, measurement: Option<real>, rangeStr: string): (r: Result<string, PyError>)
    ensures !(1 <= aiNumber <= 16) ==> r == Err(ValueError)
    ensures 1 <= aiNumber <= 16 && ParseRange(rangeStr).Err? ==> r == Err(ValueError)
    ensures 1 <= aiNumber <= 16 && ParseRange(rangeStr).Ok? && measurement.None? ==> r == Err(TypeError)
    ensures r.Ok? <==> 1 <= aiNumber <= 16 && ParseRange(rangeStr).Ok? && measurement.Some?
    ensures r.Ok? ==> (r.value == Pass <==> ParseRange(rangeStr).value.0 <= measurement.value <= ParseRange(rangeStr).value.1)
    ensures r.Ok? ==> (r.value == Fail <==> !(ParseRange(rangeStr).value.0 <= measurement.value <= ParseRange(rangeStr).value.1))
  {
    if !(1 <= aiNumber <= 16) then Err(ValueError)
    else
      var range :- ParseRange(rangeStr);
      match measurement
      case None => Err(TypeError)
      case Some(m) => Ok(if range.0 <= m <= range.1 then Pass else Fail)
  }

  // ---------------------------------------------------------------------------
  // The readers

  /** `measurement_map`: AI n is read at 0x3700 + 2·(n - 1), for n in 1..16. */
  const MeasurementMap: map<int, int> := map n | 1 <= n <= 16 :: 0x3700 + 2 * (n - 1)

  const MeasurementBase: int := 0x3700

  /** The key of AI n in the all-inputs result: "AI" followed by n in decimal. */
  function AiKey(n: nat): string {
    "AI" + DecimalText(n)
  }

  function Min(a: int, b: int): int {
    if a < b then a else b
  }

  /**
   * `get_single_ai_y_measurement`: the pattern of the first register pair of
   * input `aiNumber`; every failure (an unknown input, no client, an error
   * response, a raised exception, an odd or empty register list) gives None.
   * An unknown input fails at the map lookup, before anything is sent.
   */
  method GetSingleAiYMeasurement(aiNumber: int, client: ModbusRtuOrTcp, response: Response) returns (r: Option<nat>)
    modifies client
    ensures client.hasClient == old(client.hasClient) && client.closed == old(client.closed)
    ensures client.requests == old(client.requests)
      + (if client.hasClient && aiNumber in MeasurementMap then [ReadHolding(MeasurementMap[aiNumber], 2, 1)] else [])
    ensures r.Some? <==>
      && 1 <= aiNumber <= 16 && old(client.hasClient) && response.Answered? && !response.isError
      && |response.registers| % 2 == 0 && |response.registers| >= 2
    ensures r.Some? ==> r.value == Pattern(response.registers[0], response.registers[1])
  {
    assert aiNumber in MeasurementMap <==> 1 <= aiNumber <= 16;
    if aiNumber !in MeasurementMap {
      return None;
    }
    var m := client.ReadMeasurement(MeasurementMap[aiNumber], 2, 1, response);
    match m {
      case Registers(words) =>
        var values := ConvertEnergyRegisters(words);
        if values.Err? || |values.value| == 0 {
          return None;
        }
        return Some(values.value[0]);
      case RespIsError =>
        // The text "resp is error" is read as words: its characters have no `to_bytes`.
        return None;
      case ExceptionValue(_) =>
        // `len()` of an exception object raises TypeError.
        return None;
    }
  }

  /**
   * `get_all_ai_y_measurements`: 32 registers from 0x3700, decoded pair by
   * pair; AI1, AI2, … are mapped to the patterns in order, as far as both
   * lists go. Any failure leaves the result empty.
   */
  method GetAllAiYMeasurements(client: ModbusRtuOrTcp, response: Response) returns (ret: map<string, nat>)
    modifies client
    ensures client.hasClient == old(client.hasClient) && client.closed == old(client.closed)
    ensures client.requests == old(client.requests) + (if client.hasClient then [ReadHolding(MeasurementBase, 32, 1)] else [])
    ensures !(old(client.hasClient) && response.Answered? && !response.isError && |response.registers| % 2 == 0) ==> ret == map[]
    ensures old(client.hasClient) && response.Answered? && !response.isError && |response.registers| % 2 == 0 ==>
      var values := Patterns(response.registers);
      && |ret| == Min(16, |values|)
      && (forall n :: 1 <= n <= Min(16, |values|) ==> AiKey(n) in ret && ret[AiKey(n)] == values[n - 1])
      && (forall key :: key in ret ==> exists n :: 1 <= n <= Min(16, |values|) && key == AiKey(n))
  {
    ret := map[];
    var m := client.ReadMeasurement(MeasurementBase, 32, 1, response);
    if !m.Registers? {
      return;
    }
    var converted := ConvertEnergyRegisters(m.words);
    if converted.Err? {
      return;
    }
    ret := KeyByInput(converted.value);
  }

  /**
   * The `zip` loop of `get_all_ai_y_measurements`: AI1, AI2, … mapped to the
   * values in order, as far as both lists go.
   */
  method KeyByInput(values: seq<nat>) returns (ret: map<string, nat>)
    ensures |ret| == Min(16, |values|)
    ensures forall n :: 1 <= n <= Min(16, |values|) ==> AiKey(n) in ret && ret[AiKey(n)] == values[n - 1]
    ensures forall key :: key in ret ==> exists n :: 1 <= n <= Min(16, |values|) && key == AiKey(n)
  {
    ret := map[];
    var k := 0;
    while k < Min(16, |values|)
      invariant 0 <= k <= Min(16, |values|)
      invariant |ret| == k
      invariant forall n :: 1 <= n <= k ==> AiKey(n) in ret && ret[AiKey(n)] == values[n - 1]
      invariant forall key :: key in ret ==> exists n :: 1 <= n <= k && key == AiKey(n)
    {
      if AiKey(k + 1) in ret {
        var n :| 1 <= n <= k && AiKey(k + 1) == AiKey(n);
        AiKeyInjective(k + 1, n);
        assert false;
      }
      assert forall n :: 1 <= n <= k ==> AiKey(n) != AiKey(k + 1);
      var next := ret[AiKey(k + 1) := values[k]];
      forall n | 1 <= n <= k + 1
        ensures AiKey(n) in next && next[AiKey(n)] == values[n - 1]
      {
        if n <= k {
          assert AiKey(n) in ret && AiKey(n) != AiKey(k + 1);
        }
      }
      ret := next;
      k := k + 1;
    }
  }

  // ---------------------------------------------------------------------------
  // Lemmas

  /** The pattern is the high word followed by the low word: `high·65536 + low`. */
  lemma PatternValue(high: u16, low: u16)
    ensures Pattern(high, low) == high * 0x10000 + low
    ensures Pattern(high, low) < Pow32
  {
    var bytes := LittleBytes(low) + LittleBytes(high);
    assert bytes == [low % 0x100, low / 0x100, high % 0x100, high / 0x100];
    assert bytes[3..][1..] == [];
    assert LittleEndian(bytes[3..]) == high / 0x100;
    assert LittleEndian(bytes[2..]) == high % 0x100 + 0x100 * (high / 0x100) by { assert bytes[2..][1..] == bytes[3..]; }
    assert LittleEndian(bytes[1..]) == low / 0x100 + 0x100 * high by { assert bytes[1..][1..] == bytes[2..]; }
    assert LittleEndian(bytes) == low % 0x100 + 0x100 * (low / 0x100 + 0x100 * high) by { assert bytes[1..] == bytes[1..]; }
  }

  /** The all-zero pair is the pattern of 0.0, so the shortcut agrees with the general path. */
  lemma ZeroPattern()
    ensures Pattern(0, 0) == 0
  {
    PatternValue(0, 0);
  }

  /** The worked example in the code's comment: 0x409F, 0xC7CD reads as the pattern 0x409FC7CD (about 4.993). */
  lemma PatternExample()
    ensures Pattern(0x409F, 0xC7CD) == 0x409F_C7CD
  {
    PatternValue(0x409F, 0xC7CD);
  }

  /** The two words of a 32-bit pattern, high word first. */
  function WordsOf(patterns: seq<nat>): (words: seq<u16>)
    requires forall k :: 0 <= k < |patterns| ==> patterns[k] < Pow32
    ensures |words| == 2 * |patterns|
  {
    if patterns == [] then []
    else [patterns[0] / 0x10000, patterns[0] % 0x10000] + WordsOf(patterns[1..])
  }

  /** Splitting 32-bit patterns into words and decoding them gives the patterns back. */
  lemma {:induction false} PatternsOfWords(patterns: seq<nat>)
    requires forall k :: 0 <= k < |patterns| ==> patterns[k] < Pow32
    ensures Patterns(WordsOf(patterns)) == patterns
  {
    if patterns != [] {
      var p := patterns[0];
      var rest := WordsOf(patterns[1..]);
      PatternsOfWords(patterns[1..]);
      PatternsCons(p / 0x10000, p % 0x10000, rest);
      PatternValue(p / 0x10000, p % 0x10000);
      assert [p] + patterns[1..] == patterns;
    }
  }

  /** Decoding a leading pair of words gives one pattern in front of the rest. */
  lemma PatternsCons(high: u16, low: u16, rest: seq<u16>)
    requires |rest| % 2 == 0
    ensures Patterns([high, low] + rest) == [Pattern(high, low)] + Patterns(rest)
  {
    var words := [high, low] + rest;
    forall k | 1 <= k < |words| / 2
      ensures Patterns(words)[k] == Patterns(rest)[k - 1]
    {
      assert words[2 * k] == rest[2 * (k - 1)] && words[2 * k + 1] == rest[2 * (k - 1) + 1];
    }
  }

  /** Distinct inputs have distinct keys. */
  lemma AiKeyInjective(a: nat, b: nat)
    requires AiKey(a) == AiKey(b)
    ensures a == b
  {
    assert DecimalText(a) == AiKey(a)[2..] == AiKey(b)[2..] == DecimalText(b);
    DecimalTextValue(a);
    DecimalTextValue(b);
  }

  /** AI n's registers: 0x3700 + 2·(n - 1), two apart and never overlapping. */
  lemma MeasurementMapLayout(a: int, b: int)
    requires a in MeasurementMap && b in MeasurementMap && a < b
    ensures MeasurementMap[a] == MeasurementBase + 2 * (a - 1)
    ensures MeasurementMap[a] + 2 <= MeasurementMap[b]
    ensures MeasurementMap[b] + 2 <= MeasurementBase + 32
  {
  }

  /** A digit string reads as its value. */
  lemma ParseFloatOfInteger(a: string)
    requires |a| >= 1 && IsDecString(a)
    ensures ParseFloat(a) == Some(DecValue(a) as real)
  {
    NoDot(a);
    assert IsDecChar(a[0]) && IsDecChar(a[|a| - 1]);
    StripTrimmed(a);
    SplitOfFree(a, '.');
  }

  /** Digits, a decimal point and more digits read as the integer part plus the fraction. */
  lemma ParseFloatOfFraction(a: string, b: string)
    requires |a| >= 1 && IsDecString(a) && IsDecString(b)
    ensures ParseFloat(a + "." + b) == Some(FractionValue(a, b))
  {
    FractionSplits(a, b);
  }

  /** A leading minus sign negates the value. */
  lemma ParseFloatOfNegative(a: string, b: string)
    requires |a| >= 1 && IsDecString(a) && IsDecString(b)
    ensures ParseFloat("-" + a + "." + b) == Some(-(FractionValue(a, b)))
  {
    var t := a + "." + b;
    var u := "-" + a + "." + b;
    FractionSplits(a, b);
    assert u[1..] == t;
    assert u[|u| - 1] == t[|t| - 1];
    PrintableNotSpace(u[0]);
    StripTrimmed(u);
    assert Strip(u)[0] == '-';
    assert UnsignedDecimal(Strip(u)[1..]) == Some(FractionValue(a, b));
  }

  lemma FractionSplits(a: string, b: string)
    requires |a| >= 1 && IsDecString(a) && IsDecString(b)
    ensures var t := a + "." + b;
      && t[0] == a[0] && IsDecChar(t[0]) && !IsSpace(t[|t| - 1])
      && Strip(t) == t && UnsignedDecimal(t) == Some(FractionValue(a, b))
  {
    var t := a + "." + b;
    assert Split(t, '.') == [a, b] by {
      NoDot(a);
      NoDot(b);
      assert Join([a, b], '.') == t by { assert Join([b], '.') == b; }
      SplitJoin([a, b], '.');
    }
    assert IsDecChar(a[0]);
    assert !IsSpace(t[|t| - 1]) by {
      if b == [] { assert t[|t| - 1] == '.'; } else { assert t[|t| - 1] == b[|b| - 1]; assert IsDecChar(b[|b| - 1]); }
    }
    StripTrimmed(t);
  }

  lemma NoDot(s: string)
    requires IsDecString(s)
    ensures '.' !in s && '~' !in s
  {
  }

  /**
   * A range "min~max" with trimmed ends splits at its one '~' into the two
   * numbers: the range parses exactly when both halves do.
   */
  lemma ParseRangeOfJoin(lo: string, hi: string)
    requires lo != [] && hi != [] && !IsSpace(lo[0]) && !IsSpace(hi[|hi| - 1])
    requires '~' !in lo && '~' !in hi
    ensures ParseRange(lo + "~" + hi)
         == if ParseFloat(lo).Some? && ParseFloat(hi).Some? then Ok((ParseFloat(lo).value, ParseFloat(hi).value)) else Err(ValueError)
  {
    var s := lo + "~" + hi;
    StripTrimmed(s);
    assert Join([lo, hi], '~') == s;
    SplitJoin([lo, hi], '~');
  }

  /** The verdict is inclusive at both ends of the range. */
  lemma VerdictInclusive(aiNumber: int, lo: string, hi: string)
    requires 1 <= aiNumber <= 16
    requires lo != [] && hi != [] && !IsSpace(lo[0]) && !IsSpace(hi[|hi| - 1])
    requires '~' !in lo && '~' !in hi
    requires ParseFloat(lo).Some? && ParseFloat(hi).Some? && ParseFloat(lo).value <= ParseFloat(hi).value
    ensures AiVerdict(aiNumber, ParseFloat(lo), lo + "~" + hi) == Ok(Pass)
    ensures AiVerdict(aiNumber, ParseFloat(hi), lo + "~" + hi) == Ok(Pass)
  {
    ParseRangeOfJoin(lo, hi);
  }
}
