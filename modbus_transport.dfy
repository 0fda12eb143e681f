/**
 * The three connection classes of the IO-module configuration code: the
 * pymodbus-backed client, the raw-socket client for the vendor function 0x6A
 * over Modbus TCP, and the serial-port client that writes 0x6A frames in RTU
 * form. The device, the socket and the serial line are parameters: what a
 * call receives is passed in, what it sends is recorded in the object.
 */
module ModbusTransport {
  import opened Wrappers
  import opened HexText
  import opened ByteCodec
  import opened Cl3021Codec
  import opened ModbusFrames

  predicate IsByte(n: int) {
    0 <= n < 0x100
  }

  // ---------------------------------------------------------------------------
  // ModbusRtuOrTcp: requests handed to the pymodbus client

  /** A request handed to the pymodbus client. */
  datatype Request =
    | WriteMany(address: int, values: seq<int>, slave: int)
    | WriteOne(address: int, value: int, slave: int)
    | ReadHolding(address: int, count: int, slave: int)

  /**
   * What a pymodbus call gives back: a response (an exception response has
   * `isError` set; `text` is its `str()`), or the exception it raised, with
   * its message.
   */
  datatype Response = Answered(isError: bool, registers: seq<u16>, text: string) | Raised(error: PyError, message: string)

  /** `str(ret)` of what a call returned. */
  function Str(response: Response): string {
    match response
    case Answered(_, _, text) => text
    case Raised(_, message) => message
  }

  /** What every call returns when the object has no `client` attribute: the caught AttributeError. */
  const NoClient: Response := Raised(AttributeError, "'ModbusRtuOrTcp' object has no attribute 'client'")

  /** `read_measurement`'s result: the registers, the text "resp is error", or the caught exception returned as a value. */
  datatype Measurement = Registers(words: seq<u16>) | RespIsError | ExceptionValue(error: PyError)

  /** How `read_measurement` turns a pymodbus outcome into its result. */
  function MeasurementOf(response: Response): (m: Measurement)
    ensures m.Registers? <==> response.Answered? && !response.isError
    ensures m.Registers? ==> m.words == response.registers
    ensures m.ExceptionValue? <==> response.Raised?
  {
    match response
    case Raised(e, _) => ExceptionValue(e)
    case Answered(isError, registers, _) => if isError then RespIsError else Registers(registers)
  }

  class ModbusRtuOrTcp {
    /** False when the configured mode was neither "rtu" nor "tcp": the object then has no `client` attribute. */
    var hasClient: bool
    var closed: bool
    /** Every request handed to the client, in order. */
    var requests: seq<Request>

    /**
     * `__init__`: a client exists only for the modes "rtu" and "tcp"; an
     * exception from `connect()` is logged and closes the client, it never
     * propagates.
     */
    constructor(mode: string, connectRaises: bool)
      ensures hasClient == (mode == "rtu" || mode == "tcp")
      ensures closed == (hasClient && connectRaises)
      ensures requests == []
    {
      hasClient := mode == "rtu" || mode == "tcp";
      closed := (mode == "rtu" || mode == "tcp") && connectRaises;
      requests := [];
    }

    /** `close`: without a client the attribute lookup raises AttributeError. */
    method Close() returns (r: Result<(), PyError>)
      modifies this
      ensures r.Err? <==> !old(hasClient)
      ensures r.Err? ==> r.error == AttributeError
      ensures closed == (old(closed) || old(hasClient))
      ensures hasClient == old(hasClient) && requests == old(requests)
    {
      if !hasClient {
        return Err(AttributeError);
      }
      closed := true;
      return Ok(());
    }

    /** Hands one request to the client; without a client the caught AttributeError is what comes back. */
    method Call(request: Request, response: Response) returns (r: Response)
      modifies this
      ensures hasClient == old(hasClient) && closed == old(closed)
      ensures old(hasClient) ==> r == response && requests == old(requests) + [request]
      ensures !old(hasClient) ==> r == NoClient && requests == old(requests)
    {
      if !hasClient {
        return NoClient;
      }
      requests := requests + [request];
      return response;
    }

    /** `write_registers`: the response, or the exception caught and returned as a value. */
    method WriteRegisters(address: int, values: seq<int>, slave: int, response: Response) returns (r: Response)
      modifies this
      ensures hasClient == old(hasClient) && closed == old(closed)
      ensures old(hasClient) ==> r == response && requests == old(requests) + [WriteMany(address, values, slave)]
      ensures !old(hasClient) ==> r == NoClient && requests == old(requests)
    {
      r := Call(WriteMany(address, values, slave), response);
    }

    /** `write_register`: the same for a single register. */
    method WriteRegister(address: int, value: int, slave: int, response: Response) returns (r: Response)
      modifies this
      ensures hasClient == old(hasClient) && closed == old(closed)
      ensures old(hasClient) ==> r == response && requests == old(requests) + [WriteOne(address, value, slave)]
      ensures !old(hasClient) ==> r == NoClient && requests == old(requests)
    {
      r := Call(WriteOne(address, value, slave), response);
    }

    /** `read_measurement`: the holding registers, "resp is error" for an exception response, or the caught exception. */
    method ReadMeasurement(address: int, count: int, slave: int, response: Response) returns (m: Measurement)
      modifies this
      ensures hasClient == old(hasClient) && closed == old(closed)
      ensures old(hasClient) ==> m == MeasurementOf(response) && requests == old(requests) + [ReadHolding(address, count, slave)]
      ensures !old(hasClient) ==> m == ExceptionValue(AttributeError) && requests == old(requests)
    {
      var resp := Call(ReadHolding(address, count, slave), response);
      m := MeasurementOf(resp);
    }
  }

  // ---------------------------------------------------------------------------
  // ModbusTcp6A: a raw socket

  /** How the connect attempt ends: only a timeout is caught (and turned into a plain Exception). */
  datatype Dial = Connected | DialTimeout | DialRefused

  /** What one exchange on the socket does: the reply arrives, or `send` or `recv` times out. */
  datatype Wire = Answer(reply: seq<byte>) | SendTimeout | ReceiveTimeout

  /** What `write_registers` returns: for 0x6A the start address, the count and the raw reply; otherwise the unpacked words and the raw reply. */
  datatype WriteReply = Echoed(start: int, count: nat, raw: seq<byte>) | Unpacked(words: seq<u16>, raw: seq<byte>)

  /** `struct.unpack(f">{2n}H", bytearray(data_recv[8:]))`: 2n words from the reply after its first eight bytes. */
  function WriteReplyWords(reply: seq<byte>, n: nat): (r: Result<seq<u16>, PyError>)
    ensures r.Ok? <==> (if |reply| >= 8 then |reply| - 8 else 0) == 4 * n
  {
    UnpackWords(PySlice(reply, 8, |reply|), 2 * n)
  }

  /**
   * The standard 12-byte response to a 0x10 write (MBAP header, function
   * code, starting address, quantity; section 6.12 of the MODBUS Application
   * Protocol Specification V1.1b3) unpacks only for a single register, and
   * then to the echoed address and quantity.
   */
  lemma StandardWriteResponse(slave: byte, address: u16, n: nat)
    requires n <= 0x7B
    ensures var reply := MbapHeader(6, slave) + [0x10] + Split16(address) + Split16(n);
      && (WriteReplyWords(reply, n).Ok? <==> n == 1)
      && (n == 1 ==> WriteReplyWords(reply, n) == Ok([address, n]))
  {
    var reply := MbapHeader(6, slave) + [0x10] + Split16(address) + Split16(n);
    assert |reply| == 12;
    if n == 1 {
      var data := PySlice(reply, 8, |reply|);
      assert data == Split16(address) + Split16(n) by {
        assert reply[8..] == Split16(address) + Split16(n);
      }
      var words := WriteReplyWords(reply, n).value;
      assert WordBytes(words) == data;
      assert WordBytes(words) == WordBytes(words[..1]) + Split16(words[1]);
      assert words[..1][..0] == [];
      assert WordBytes(words[..1]) == Split16(words[0]);
      Split16Injective(words[0], address);
      Split16Injective(words[1], n);
      assert words == [address, n];
    }
  }

  /** Two 16-bit values with the same bytes are equal. */
  lemma Split16Injective(a: u16, b: u16)
    requires Split16(a) == Split16(b)
    ensures a == b
  {
  }

  class ModbusTcp6A {
    /** Whether the socket is still open: every completed exchange closes it. */
    var open: bool
    /** Every request handed to `send`, in order. */
    var sent: seq<seq<byte>>

    constructor()
      ensures open && sent == []
    {
      open := true;
      sent := [];
    }

    /**
     * `__init__`: a connect timeout sets `isSucess` to False and raises a
     * plain Exception; any other connect error propagates as it is.
     */
    static method Connect(dial: Dial) returns (r: Result<ModbusTcp6A, PyError>)
      ensures r.Ok? <==> dial == Connected
      ensures dial == DialTimeout ==> r == Err(PlainException)
      ensures dial == DialRefused ==> r == Err(OSError)
      ensures r.Ok? ==> fresh(r.value) && r.value.open && r.value.sent == []
    {
      match dial
      case Connected =>
        var c := new ModbusTcp6A();
        return Ok(c);
      case DialTimeout => return Err(PlainException);
      case DialRefused => return Err(OSError);
    }

    /**
     * `read_funcode_03`: builds the request (a slave id outside a byte makes
     * `bytearray` raise ValueError), sends it and unpacks `count` words from
     * the reply after its 9-byte head. A send timeout closes the socket and
     * raises a plain Exception; a receive timeout propagates with the socket
     * left open; a closed socket makes `send` raise OSError.
     */
    method ReadFuncode03(addr: int, count: int, slaveid: int, wire: Wire) returns (r: Result<seq<u16>, PyError>)
      modifies this
      ensures !IsByte(slaveid) ==> r == Err(ValueError) && open == old(open) && sent == old(sent)
      ensures IsByte(slaveid) && !old(open) ==> r == Err(OSError) && !open && sent == old(sent)
      ensures IsByte(slaveid) && old(open) && wire.SendTimeout? ==> r == Err(PlainException) && !open && sent == old(sent)
      ensures IsByte(slaveid) && old(open) && wire.ReceiveTimeout? ==>
        r == Err(TimeoutError) && open && sent == old(sent) + [ReadRequest(slaveid, addr, count)]
      ensures IsByte(slaveid) && old(open) && wire.Answer? ==>
        r == ReadReply(wire.reply, count) && !open && sent == old(sent) + [ReadRequest(slaveid, addr, count)]
    {
      if !IsByte(slaveid) {
        return Err(ValueError);
      }
      var request := MbapHeader(6, slaveid) + [0x03] + Split16(addr) + Split16(count);
      if !open {
        return Err(OSError);
      }
      match wire
      case SendTimeout =>
        open := false;
        return Err(PlainException);
      case ReceiveTimeout =>
        sent := sent + [request];
        return Err(TimeoutError);
      case Answer(reply) =>
        sent := sent + [request];
        open := false;
        return ReadReply(reply, count);
    }

    /**
     * `write_registers`: the MBAP header with length `2n + 7`, then the PDU
     * built value by value. `bytearray` raises ValueError for a slave id or
     * function code outside a byte and for a byte count `2n` above 255. Send
     * and receive timeouts propagate with the socket left open. For 0x6A the
     * result is the start address, the count and the raw reply; for any other
     * function code `2n` words are unpacked from the reply after byte 8.
     */
    method WriteRegisters(startAddr: int, values: seq<int>, slaveid: int, funccode: int, wire: Wire)
      returns (r: Result<WriteReply, PyError>)
      modifies this
      ensures !(IsByte(slaveid) && IsByte(funccode) && 2 * |values| <= 255) ==>
        r == Err(ValueError) && open == old(open) && sent == old(sent)
      ensures IsByte(slaveid) && IsByte(funccode) && 2 * |values| <= 255 ==>
        if !old(open) then r == Err(OSError) && !open && sent == old(sent)
        else match wire
          case SendTimeout => r == Err(TimeoutError) && open && sent == old(sent)
          case ReceiveTimeout =>
            r == Err(TimeoutError) && open && sent == old(sent) + [TcpWriteRequest(slaveid, funccode, startAddr, values)]
          case Answer(reply) =>
            && !open && sent == old(sent) + [TcpWriteRequest(slaveid, funccode, startAddr, values)]
            && (funccode == 0x6A ==> r == Ok(Echoed(startAddr, |values|, reply)))
            && (funccode != 0x6A ==> r == (var w := WriteReplyWords(reply, |values|);
                                           if w.Ok? then Ok(Unpacked(w.value, reply)) else Err(w.error)))
    {
      var length := 2 * |values| + 7;
      if !IsByte(slaveid) {
        return Err(ValueError);
      }
      var bmap := [0x00, 0x01, 0x00, 0x00] + Split16(length) + [slaveid];
      if !IsByte(funccode) || 2 * |values| > 255 {
        return Err(ValueError);
      }
      var pdu := WriteLoop([funccode] + Split16(startAddr) + Split16(|values|) + [2 * |values|], values);
      var request := bmap + pdu;
      assert request == TcpWriteRequest(slaveid, funccode, startAddr, values);
      if !open {
        return Err(OSError);
      }
      match wire
      case SendTimeout =>
        return Err(TimeoutError);
      case ReceiveTimeout =>
        sent := sent + [request];
        return Err(TimeoutError);
      case Answer(reply) =>
        sent := sent + [request];
        open := false;
        if funccode == 0x6A {
          return Ok(Echoed(startAddr, |values|, reply));
        }
        var words :- WriteReplyWords(reply, |values|);
        return Ok(Unpacked(words, reply));
    }
  }

  /** `for value in values: pdu.extend([(value >> 8) & 0xff, value & 0xff])`. */
  method WriteLoop(head: seq<byte>, values: seq<int>) returns (pdu: seq<byte>)
    ensures pdu == head + WordBytes(values)
  {
    pdu := head;
    var i := 0;
    while i < |values|
      invariant 0 <= i <= |values|
      invariant pdu == head + WordBytes(values[..i])
    {
      assert values[..i + 1][..i] == values[..i];
      pdu := pdu + Split16(values[i]);
      i := i + 1;
    }
    assert values[..i] == values;
  }

  // ---------------------------------------------------------------------------
  // SerialRtu: a serial port

  /** What `write_func6A_registers` returns when nothing escapes: the comparison's verdict, or the exception it caught. */
  datatype EchoOutcome = Verdict(matched: bool) | Caught(error: PyError)

  class SerialRtu {
    /** False when opening the port raised: the exception is logged and the object has no `ser` attribute. */
    var hasPort: bool
    var portOpen: bool
    /** Every frame handed to `ser.write`, in order. */
    var written: seq<seq<byte>>

    constructor(opens: bool)
      ensures hasPort == opens && portOpen == opens && written == []
    {
      hasPort := opens;
      portOpen := opens;
      written := [];
    }

    method Close() returns (r: Result<(), PyError>)
      modifies this
      ensures r.Err? <==> !old(hasPort)
      ensures r.Err? ==> r.error == AttributeError
      ensures portOpen == (old(portOpen) && !old(hasPort))
      ensures hasPort == old(hasPort) && written == old(written)
    {
      if !hasPort {
        return Err(AttributeError);
      }
      portOpen := false;
      return Ok(());
    }

    /**
     * `write_func6A_registers`, with the two corrections recorded under the
     * findings: the CRC trailer is the CRC's low byte then its high byte, and
     * the six reply bytes are compared with the rendering of the echo the
     * device sends. Building the frame raises ValueError for a slave or
     * function code outside a byte or a byte count `2n` above 255. Inside the
     * `try`, a missing or closed port and a reply cut short (`ser.read()`
     * returning nothing, so `byte_seq[0]` raises IndexError) are caught and
     * returned as values.
     */
    method WriteFunc6ARegisters(address: int, count: int, values: seq<int>, slave: int, funccode: int,
                                incoming: seq<byte>) returns (r: Result<EchoOutcome, PyError>)
      modifies this
      ensures hasPort == old(hasPort) && portOpen == old(portOpen)
      ensures !(IsByte(slave) && IsByte(funccode) && 2 * |values| <= 255) ==> r == Err(ValueError) && written == old(written)
      ensures IsByte(slave) && IsByte(funccode) && 2 * |values| <= 255 ==>
        if !hasPort then r == Ok(Caught(AttributeError)) && written == old(written)
        else if !portOpen then r == Ok(Caught(OSError)) && written == old(written)
        else
          && written == old(written) + [RtuFrame(RtuBody(slave, funccode, address, values))]
          && (|incoming| < 6 ==> r == Ok(Caught(IndexError)))
          && (|incoming| >= 6 ==> r == Ok(Verdict(EchoMatches(incoming[..6], slave, address, count))))
    {
      if !(IsByte(slave) && IsByte(funccode) && 2 * |values| <= 255) {
        return Err(ValueError);
      }
      var body := WriteLoop([slave, funccode] + Split16(address) + Split16(|values|) + [2 * |values|], values);
      assert body == RtuBody(slave, funccode, address, values);
      var frame := body + CrcTrailer(Crc16(body));
      assert frame == RtuFrame(RtuBody(slave, funccode, address, values));
      var pattern := EchoText(ExpectedEcho(slave, address, count));
      if !hasPort {
        return Ok(Caught(AttributeError));
      }
      if !portOpen {
        return Ok(Caught(OSError));
      }
      written := written + [frame];
      var text := ReadSix(incoming);
      if text.None? {
        return Ok(Caught(IndexError));
      }
      EchoComparison(incoming[..6], slave, address, count);
      return Ok(Verdict(Remove0x(text.value) == pattern));
    }
  }

  /**
   * `for i in range(6): str1 += f'0x{ser.read()[0]:02x}'`: six bytes read one
   * at a time, each rendered with a "0x" in front; a read that returns
   * nothing makes the indexing raise IndexError, modelled as None.
   */
  method ReadSix(incoming: seq<byte>) returns (text: Option<string>)
    ensures |incoming| < 6 <==> text.None?
    ensures text.Some? ==> text.value == PrefixedText(incoming[..6])
  {
    var str1 := "";
    var i := 0;
    while i < 6
      invariant 0 <= i <= 6 && i <= |incoming|
      invariant str1 == PrefixedText(incoming[..i])
    {
      if i >= |incoming| {
        return None;
      }
      assert incoming[..i + 1] == incoming[..i] + [incoming[i]];
      PrefixedTextAppend(incoming[..i], incoming[i]);
      str1 := str1 + ("0x" + Hex2(incoming[i]));
      i := i + 1;
    }
    return Some(str1);
  }

  /** With the "0x" prefixes removed, the reply's text equals the expected echo's rendering exactly when the bytes are the expected echo. */
  lemma EchoComparison(reply: seq<byte>, slave: byte, address: int, count: int)
    ensures Remove0x(PrefixedText(reply)) == EchoText(ExpectedEcho(slave, address, count))
        <==> EchoMatches(reply, slave, address, count)
  {
    ReplyText(reply);
    if EchoText(reply) == EchoText(ExpectedEcho(slave, address, count)) {
      EchoTextInjective(reply, ExpectedEcho(slave, address, count));
    }
  }
}
