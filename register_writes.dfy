/**
 * The IO-module configuration writes: the input type of one or of all
 * analog inputs, and the scaled parameters (limits and the four calibration
 * points) of every analog input or output, written channel by channel
 * through the shared pymodbus client, which is closed at the end. Each
 * channel's registers sit 22 addresses after the previous channel's.
 */
module RegisterWrites {
  import opened Wrappers
  import opened ByteCodec
  import opened PyText
  import opened FixedPoint
  import opened ModbusTransport

  const ChannelStride: int := 22
  const Slave: int := 1

  /** The register block of the analog inputs; a channel's input type sits at the start of its block. */
  const AiBase: int := 0x3000
  /** The register block of the analog outputs. */
  const AoBase: int := 0x3400
  /** The AO physical-measurement-input registers: two per output. */
  const AoPmiBase: int := 0x3950

  /** top_limit, bot_limit, X1, Y1, X2, Y2, X3, Y3, X4, Y4 of the first analog input. */
  const AiParameterAddresses: seq<int> := [0x3001, 0x3003, 0x3006, 0x300e, 0x3008, 0x3010, 0x300a, 0x3012, 0x300c, 0x3014]
  /** top_limit and bot_limit of the first analog input. */
  const AiTopBotAddresses: seq<int> := [0x3001, 0x3003]
  /** The same ten parameters of the first analog output. */
  const AoParameterAddresses: seq<int> := [0x3401, 0x3403, 0x3406, 0x340e, 0x3408, 0x3410, 0x340a, 0x3412, 0x340c, 0x3414]

  /** The input-type register of analog input `aiNumber` (numbered from 1). */
  function AiTypeAddress(aiNumber: int): int {
    AiBase + ChannelStride * (aiNumber - 1)
  }

  function Min(a: int, b: int): int {
    if a < b then a else b
  }

  // ---------------------------------------------------------------------------
  // The write plans

  /**
   * `for address, convert_value in zip(parameter_address, convert_values)`
   * for channel `n`: one two-register write per pair, stopping at the
   * shorter list.
   */
  function Row(addresses: seq<int>, words: seq<(u16, u16)>, n: int): (row: seq<Request>)
    ensures |row| == Min(|addresses|, |words|)
  {
    seq(Min(|addresses|, |words|), k requires 0 <= k < Min(|addresses|, |words|) =>
      WriteMany(addresses[k] + ChannelStride * n, [words[k].0, words[k].1], Slave))
  }

  /** The rows of channels 0 .. channels - 1, channel by channel. */
  function Plan(addresses: seq<int>, words: seq<(u16, u16)>, channels: nat): (plan: seq<Request>)
    ensures |plan| == channels * Min(|addresses|, |words|)
  {
    if channels == 0 then [] else Plan(addresses, words, channels - 1) + Row(addresses, words, channels - 1)
  }

  /** The writes of `set_all_ai_type`: the same values into the input-type register of each of the first 8 inputs. */
  function TypePlan(values: seq<int>, channels: nat): (plan: seq<Request>)
    ensures |plan| == channels
  {
    if channels == 0 then [] else TypePlan(values, channels - 1) + [WriteMany(AiTypeAddress(channels), values, Slave)]
  }

  /**
   * A parameter layout fits a channel block: every parameter occupies two
   * registers strictly inside the block (never the block's first register,
   * nor past its end), and no two parameters share a register.
   */
  predicate Spread(addresses: seq<int>, base: int) {
    && (forall k :: 0 <= k < |addresses| ==> base + 1 <= addresses[k] <= base + ChannelStride - 2)
    && (forall k, l :: 0 <= k < l < |addresses| ==> addresses[k] + 1 < addresses[l] || addresses[l] + 1 < addresses[k])
  }

  // ---------------------------------------------------------------------------
  // The configuration writes

  /** One channel's row of the `zip` loop, write by write. */
  method WriteRow(client: ModbusRtuOrTcp, addresses: seq<int>, words: seq<(u16, u16)>, n: nat,
                  device: Request -> Response)
    modifies client
    ensures client.hasClient == old(client.hasClient) && client.closed == old(client.closed)
    ensures client.hasClient ==> client.requests == old(client.requests) + Row(addresses, words, n)
    ensures !client.hasClient ==> client.requests == old(client.requests)
  {
    var row := Row(addresses, words, n);
    var k := 0;
    while k < |row|
      invariant 0 <= k <= |row|
      invariant client.hasClient == old(client.hasClient) && client.closed == old(client.closed)
      invariant client.hasClient ==> client.requests == old(client.requests) + row[..k]
      invariant !client.hasClient ==> client.requests == old(client.requests)
    {
      var request := row[k];
      assert row[..k + 1] == row[..k] + [request];
      var _ := client.WriteRegisters(request.address, request.values, Slave, device(request));
      k := k + 1;
    }
    assert row[..k] == row;
  }

  /** The shared body of the three `set_all_*` parameter writers: the channel loop around the `zip` loop. */
  method WriteParameters(client: ModbusRtuOrTcp, addresses: seq<int>, words: seq<(u16, u16)>, channels: nat,
                         device: Request -> Response)
    modifies client
    ensures client.hasClient == old(client.hasClient) && client.closed == old(client.closed)
    ensures client.hasClient ==> client.requests == old(client.requests) + Plan(addresses, words, channels)
    ensures !client.hasClient ==> client.requests == old(client.requests)
  {
    var n := 0;
    while n < channels
      invariant 0 <= n <= channels
      invariant client.hasClient == old(client.hasClient) && client.closed == old(client.closed)
      invariant client.hasClient ==> client.requests == old(client.requests) + Plan(addresses, words, n)
      invariant !client.hasClient ==> client.requests == old(client.requests)
    {
      WriteRow(client, addresses, words, n, device);
      n := n + 1;
    }
  }

  /**
   * `set_ai_type`: one write to the input's type register; the answer counts
   * as accepted when its text contains "(4117,1)". Otherwise the client is
   * closed (which raises AttributeError when there is no client).
   */
  method SetAiType(client: ModbusRtuOrTcp, aiNumber: int, values: seq<int>, response: Response)
    returns (r: Result<bool, PyError>)
    modifies client
    ensures var ret := if old(client.hasClient) then response else NoClient;
      && (Contains(Str(ret), "(4117,1)") ==> r == Ok(true) && client.closed == old(client.closed))
      && (!Contains(Str(ret), "(4117,1)") ==>
            r == (if old(client.hasClient) then Ok(false) else Err(AttributeError))
            && client.closed == (old(client.closed) || old(client.hasClient)))
    ensures client.hasClient == old(client.hasClient)
    ensures client.requests == old(client.requests) + (if client.hasClient then [WriteMany(AiTypeAddress(aiNumber), values, Slave)] else [])
  {
    var ret := client.WriteRegisters(AiTypeAddress(aiNumber), values, Slave, response);
    if Contains(Str(ret), "(4117,1)") {
      return Ok(true);
    }
    var _ :- client.Close();
    return Ok(false);
  }

  /** `set_all_ai_type`: the type of the first 8 inputs, then the client is closed. */
  method SetAllAiType(client: ModbusRtuOrTcp, values: seq<int>, device: Request -> Response)
    returns (r: Result<(), PyError>)
    modifies client
    ensures r.Ok? <==> old(client.hasClient)
    ensures r.Err? ==> r.error == AttributeError
    ensures client.hasClient == old(client.hasClient) && client.closed == (old(client.closed) || old(client.hasClient))
    ensures client.requests == old(client.requests) + (if client.hasClient then TypePlan(values, 8) else [])
  {
    var n := 0;
    while n < 8
      invariant 0 <= n <= 8
      invariant client.hasClient == old(client.hasClient) && client.closed == old(client.closed)
      invariant client.requests == old(client.requests) + (if client.hasClient then TypePlan(values, n) else [])
    {
      var _ := client.WriteRegisters(AiBase + ChannelStride * n, values, Slave, device(WriteMany(AiBase + ChannelStride * n, values, Slave)));
      n := n + 1;
    }
    r := client.Close();
  }

  /**
   * The parameter writers: every value is converted first (a value that does
   * not convert raises before anything is written), then the rows are
   * written and the client closed.
   */
  method SetParameters(client: ModbusRtuOrTcp, addresses: seq<int>, channels: nat, values: seq<Float>,
                       device: Request -> Response) returns (r: Result<(), PyError>)
    modifies client
    ensures ConvertAll(values).Err? ==> r == Err(ConvertAll(values).error) && unchanged(client)
    ensures ConvertAll(values).Ok? ==>
      && (r.Ok? <==> old(client.hasClient))
      && (r.Err? ==> r.error == AttributeError)
      && client.hasClient == old(client.hasClient)
      && client.closed == (old(client.closed) || old(client.hasClient))
      && client.requests == old(client.requests) + (if client.hasClient then Plan(addresses, ConvertAll(values).value, channels) else [])
  {
    var words :- ConvertAll(values);
    WriteParameters(client, addresses, words, channels, device);
    r := client.Close();
  }

  /** `set_all_ai_param`: the ten parameters of all 8 analog inputs. */
  method SetAllAiParam(client: ModbusRtuOrTcp, values: seq<Float>, device: Request -> Response) returns (r: Result<(), PyError>)
    modifies client
    ensures ConvertAll(values).Err? ==> r == Err(ConvertAll(values).error) && unchanged(client)
    ensures ConvertAll(values).Ok? ==>
      && (r.Ok? <==> old(client.hasClient))
      && (r.Err? ==> r.error == AttributeError)
      && client.hasClient == old(client.hasClient)
      && client.closed == (old(client.closed) || old(client.hasClient))
      && client.requests == old(client.requests) + (if client.hasClient then Plan(AiParameterAddresses, ConvertAll(values).value, 8) else [])
  {
    r := SetParameters(client, AiParameterAddresses, 8, values, device);
  }

  /** `set_all_ai_top_bot`: top_limit and bot_limit of all 16 analog inputs. */
  method SetAllAiTopBot(client: ModbusRtuOrTcp, values: seq<Float>, device: Request -> Response) returns (r: Result<(), PyError>)
    modifies client
    ensures ConvertAll(values).Err? ==> r == Err(ConvertAll(values).error) && unchanged(client)
    ensures ConvertAll(values).Ok? ==>
      && (r.Ok? <==> old(client.hasClient))
      && (r.Err? ==> r.error == AttributeError)
      && client.hasClient == old(client.hasClient)
      && client.closed == (old(client.closed) || old(client.hasClient))
      && client.requests == old(client.requests) + (if client.hasClient then Plan(AiTopBotAddresses, ConvertAll(values).value, 16) else [])
  {
    r := SetParameters(client, AiTopBotAddresses, 16, values, device);
  }

  /** `set_all_ao_param`: the ten parameters of both analog outputs. */
  method SetAllAoParam(client: ModbusRtuOrTcp, values: seq<Float>, device: Request -> Response) returns (r: Result<(), PyError>)
    modifies client
    ensures ConvertAll(values).Err? ==> r == Err(ConvertAll(values).error) && unchanged(client)
    ensures ConvertAll(values).Ok? ==>
      && (r.Ok? <==> old(client.hasClient))
      && (r.Err? ==> r.error == AttributeError)
      && client.hasClient == old(client.hasClient)
      && client.closed == (old(client.closed) || old(client.hasClient))
      && client.requests == old(client.requests) + (if client.hasClient then Plan(AoParameterAddresses, ConvertAll(values).value, 2) else [])
  {
    r := SetParameters(client, AoParameterAddresses, 2, values, device);
  }

  /** `set_ao_pmi`: the converted value into the two registers of output `aoNumber`, then the client is closed. */
  method SetAoPmi(client: ModbusRtuOrTcp, aoNumber: int, value: Float, response: Response) returns (r: Result<(), PyError>)
    modifies client
    ensures ConvertTo32IntRegisters(value).Err? ==> r == Err(ValueError) && unchanged(client)
    ensures ConvertTo32IntRegisters(value).Ok? ==>
      var w := ConvertTo32IntRegisters(value).value;
      && (r.Ok? <==> old(client.hasClient))
      && (r.Err? ==> r.error == AttributeError)
      && client.hasClient == old(client.hasClient)
      && client.closed == (old(client.closed) || old(client.hasClient))
      && client.requests == old(client.requests)
           + (if client.hasClient then [WriteMany(AoPmiBase + 2 * (aoNumber - 1), [w.0, w.1], Slave)] else [])
  {
    var address := AoPmiBase + 2 * (aoNumber - 1);
    var w :- ConvertTo32IntRegisters(value);
    var _ := client.WriteRegisters(address, [w.0, w.1], Slave, response);
    r := client.Close();
  }

  // ---------------------------------------------------------------------------
  // Lemmas

  /** The plan lists channel `n`'s write of parameter `k` at position `n·m + k`. */
  lemma {:induction false} PlanEntry(addresses: seq<int>, words: seq<(u16, u16)>, channels: nat, n: nat, k: nat)
    requires n < channels && k < Min(|addresses|, |words|)
    ensures n * Min(|addresses|, |words|) + k < |Plan(addresses, words, channels)|
    ensures Plan(addresses, words, channels)[n * Min(|addresses|, |words|) + k]
         == WriteMany(addresses[k] + ChannelStride * n, [words[k].0, words[k].1], Slave)
  {
    var m := Min(|addresses|, |words|);
    var prev := Plan(addresses, words, channels - 1);
    assert |prev| == (channels - 1) * m;
    if n < channels - 1 {
      PlanEntry(addresses, words, channels - 1, n, k);
      assert n * m + k < |prev|;
    } else {
      assert n * m + k == |prev| + k;
    }
  }

  /** The first register of channel `n`'s block. */
  function BlockStart(base: int, n: int): int {
    base + ChannelStride * n
  }

  /** Channel `c`'s row lies in the interior of channel `c`'s block. */
  lemma RowInBlock(addresses: seq<int>, words: seq<(u16, u16)>, c: nat, base: int, i: nat)
    requires Spread(addresses, base) && i < |Row(addresses, words, c)|
    ensures var w := Row(addresses, words, c)[i];
      && w.WriteMany? && |w.values| == 2
      && BlockStart(base, c) + 1 <= w.address <= BlockStart(base, c + 1) - 2
  {
    assert Row(addresses, words, c)[i] == WriteMany(addresses[i] + ChannelStride * c, [words[i].0, words[i].1], Slave);
  }

  /** `address` lies in the interior of one of the first `channels` blocks. */
  predicate InSomeBlock(address: int, base: int, channels: nat) {
    exists c :: 0 <= c < channels && BlockStart(base, c) + 1 <= address <= BlockStart(base, c + 1) - 2
  }

  lemma InSomeBlockBelow(address: int, base: int, channels: nat)
    requires InSomeBlock(address, base, channels)
    ensures address <= BlockStart(base, channels) - 2
    ensures InSomeBlock(address, base, channels + 1)
  {
    var c :| 0 <= c < channels && BlockStart(base, c) + 1 <= address <= BlockStart(base, c + 1) - 2;
    assert BlockStart(base, c + 1) <= BlockStart(base, channels);
  }

  /** Every write carries two words and lands in the interior of one of the first `channels` blocks. */
  predicate InBlocks(plan: seq<Request>, base: int, channels: nat) {
    forall i :: 0 <= i < |plan| ==> plan[i].WriteMany? && |plan[i].values| == 2 && InSomeBlock(plan[i].address, base, channels)
  }

  /** Every write of the plan of a layout that fits the block carries two words and lands in the interior of a channel block. */
  lemma {:induction false} PlanInBlocks(addresses: seq<int>, words: seq<(u16, u16)>, channels: nat, base: int)
    requires Spread(addresses, base)
    ensures InBlocks(Plan(addresses, words, channels), base, channels)
  {
    if channels > 0 {
      var c := channels - 1;
      var prev := Plan(addresses, words, c);
      var row := Row(addresses, words, c);
      PlanInBlocks(addresses, words, c, base);
      var plan := prev + row;
      assert Plan(addresses, words, channels) == plan;
      forall i | 0 <= i < |plan|
        ensures plan[i].WriteMany? && |plan[i].values| == 2 && InSomeBlock(plan[i].address, base, channels)
      {
        if i < |prev| {
          assert plan[i] == prev[i];
          InSomeBlockBelow(prev[i].address, base, c);
        } else {
          assert plan[i] == row[i - |prev|];
          RowInBlock(addresses, words, c, base, i - |prev|);
        }
      }
    }
  }

  /** No two writes share a register (each write covers its address and the next). */
  predicate Separated(plan: seq<Request>) {
    forall i, j :: 0 <= i < j < |plan| ==> plan[i].address + 1 < plan[j].address || plan[j].address + 1 < plan[i].address
  }

  /** No two writes of the plan of a layout that fits the block share a register. */
  lemma {:induction false} PlanSeparated(addresses: seq<int>, words: seq<(u16, u16)>, channels: nat, base: int)
    requires Spread(addresses, base)
    ensures Separated(Plan(addresses, words, channels))
  {
    if channels > 0 {
      var c := channels - 1;
      var prev := Plan(addresses, words, c);
      var row := Row(addresses, words, c);
      PlanSeparated(addresses, words, c, base);
      PlanInBlocks(addresses, words, c, base);
      var plan := prev + row;
      assert Plan(addresses, words, channels) == plan;
      forall i, j | 0 <= i < j < |plan|
        ensures plan[i].address + 1 < plan[j].address || plan[j].address + 1 < plan[i].address
      {
        if j < |prev| {
          assert plan[i] == prev[i] && plan[j] == prev[j];
        } else if i >= |prev| {
          var k, l := i - |prev|, j - |prev|;
          assert plan[i] == row[k] && plan[j] == row[l];
          assert row[k].address == addresses[k] + ChannelStride * c;
          assert row[l].address == addresses[l] + ChannelStride * c;
        } else {
          assert plan[i] == prev[i] && plan[j] == row[j - |prev|];
          InSomeBlockBelow(prev[i].address, base, c);
          RowInBlock(addresses, words, c, base, j - |prev|);
        }
      }
    }
  }

  /** An address in the interior of a channel block is neither a block's first register nor the register just before one. */
  lemma OffBlockStarts(address: int, base: int, c: int, m: int)
    requires BlockStart(base, c) + 1 <= address <= BlockStart(base, c + 1) - 2
    ensures address != BlockStart(base, m) && address + 1 != BlockStart(base, m)
  {
    if m <= c {
      assert BlockStart(base, m) <= BlockStart(base, c);
    } else {
      assert BlockStart(base, m) >= BlockStart(base, c + 1);
    }
  }

  /** The three parameter layouts fit their blocks. */
  lemma LayoutsSpread()
    ensures Spread(AiParameterAddresses, AiBase)
    ensures Spread(AiTopBotAddresses, AiBase)
    ensures Spread(AoParameterAddresses, AoBase)
  {
  }

  /**
   * `set_all_ai_param` never overwrites an input-type register: neither
   * register of any of its writes is the type register of any input.
   */
  lemma AiParametersSpareTypes(words: seq<(u16, u16)>, i: nat, aiNumber: int)
    requires i < |Plan(AiParameterAddresses, words, 8)|
    ensures Plan(AiParameterAddresses, words, 8)[i].address != AiTypeAddress(aiNumber)
    ensures Plan(AiParameterAddresses, words, 8)[i].address + 1 != AiTypeAddress(aiNumber)
  {
    var plan := Plan(AiParameterAddresses, words, 8);
    LayoutsSpread();
    PlanInBlocks(AiParameterAddresses, words, 8, AiBase);
    var c :| 0 <= c < 8 && BlockStart(AiBase, c) + 1 <= plan[i].address <= BlockStart(AiBase, c + 1) - 2;
    OffBlockStarts(plan[i].address, AiBase, c, aiNumber - 1);
  }

  /** The words written for parameter `k` of channel `n` read back, as a signed 32-bit integer, to the value in thousandths, rounded. */
  lemma ParameterReadsBack(addresses: seq<int>, values: seq<Float>, channels: nat, n: nat, k: nat)
    requires ConvertAll(values).Ok? && n < channels && k < Min(|addresses|, |values|)
    ensures var plan := Plan(addresses, ConvertAll(values).value, channels);
      var i := n * Min(|addresses|, |values|) + k;
      && i < |plan| && plan[i].WriteMany?
      && plan[i].address == addresses[k] + ChannelStride * n
      && |plan[i].values| == 2 && 0 <= plan[i].values[0] < Pow16Bits && 0 <= plan[i].values[1] < Pow16Bits
      && Signed32(plan[i].values[0], plan[i].values[1]) == RoundHalfAway(values[k].value * 1000.0)
  {
    var words := ConvertAll(values).value;
    PlanEntry(addresses, words, channels, n, k);
    assert ConvertTo32IntRegisters(values[k]) == Ok(words[k]);
  }
}
