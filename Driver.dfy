/**
  The `DI2108` driver object: its constants, the packet size and last data
  block it keeps, the command methods that write one frame and read one
  echo, and the user-level operations built on them.  The USB device is the
  `Endpoint` it was opened on.
*/
module Driver {
  import opened Outcomes
  import opened Text
  import opened Transport
  import opened Protocol
  import opened Samples

  // ---------------------------------------------------------------------
  // Constants
  // ---------------------------------------------------------------------

  const ID_VENDOR: int := 0x0683
  const ID_PRODUCT: int := 0x2108
  const INTERFACE_NUM: int := 0
  const ENDPOINT_IN: int := 0x81
  const ENDPOINT_OUT: int := 0x01

  const PACKET_SIZE_16: int := 0
  const PACKET_SIZE_32: int := 1
  const PACKET_SIZE_64: int := 2
  const PACKET_SIZE_128: int := 3
  const PACKET_SIZE_256: int := 4
  const PACKET_SIZE_512: int := 5
  const PACKET_SIZE_1024: int := 6
  const PACKET_SIZE_2048: int := 7

  /** Packet size in bytes for each `ps` index. */
  const PACKET_SIZE_ARG_TO_SIZE: seq<int> := [16, 32, 64, 128, 256, 512, 1024, 2048]

  const SCAN_MODE_NORMAL: int := 0
  const SCAN_MODE_EXTERNAL: int := 2
  const SCAN_MODE_IMMEDIATE: int := 3

  const CHANNEL_ANALOG_0: int := 0
  const CHANNEL_ANALOG_1: int := 1
  const CHANNEL_ANALOG_2: int := 2
  const CHANNEL_ANALOG_3: int := 3
  const CHANNEL_ANALOG_4: int := 4
  const CHANNEL_ANALOG_5: int := 5
  const CHANNEL_ANALOG_6: int := 6
  const CHANNEL_ANALOG_7: int := 7
  const CHANNEL_DIGITAL_IN: int := 8
  const CHANNEL_DIGITAL_RATE: int := 9
  const CHANNEL_DIGITAL_COUNT: int := 10
  const CHANNEL_IGNORE: int := 0xFF

  /** The rate-range constants are `n << 8` for n = 1 (50000 Hz) up to 12 (10 Hz). */
  function RateRange(n: int): int {
    n * 256
  }

  const CHANNEL_DIGITAL_RATE_RANGE_50000HZ: int := RateRange(1)
  const CHANNEL_DIGITAL_RATE_RANGE_20000HZ: int := RateRange(2)
  const CHANNEL_DIGITAL_RATE_RANGE_10000HZ: int := RateRange(3)
  const CHANNEL_DIGITAL_RATE_RANGE_5000HZ: int := RateRange(4)
  const CHANNEL_DIGITAL_RATE_RANGE_2000HZ: int := RateRange(5)
  const CHANNEL_DIGITAL_RATE_RANGE_1000HZ: int := RateRange(6)
  const CHANNEL_DIGITAL_RATE_RANGE_500HZ: int := RateRange(7)
  const CHANNEL_DIGITAL_RATE_RANGE_200HZ: int := RateRange(8)
  const CHANNEL_DIGITAL_RATE_RANGE_100HZ: int := RateRange(9)
  const CHANNEL_DIGITAL_RATE_RANGE_50HZ: int := RateRange(10)
  const CHANNEL_DIGITAL_RATE_RANGE_20HZ: int := RateRange(11)
  const CHANNEL_DIGITAL_RATE_RANGE_10HZ: int := RateRange(12)

  const LED_OFF: int := 0
  const LED_BLUE: int := 1
  const LED_GREEN: int := 2
  const LED_CYAN: int := 3
  const LED_RED: int := 4
  const LED_MAGENTA: int := 5
  const LED_YELLOW: int := 6
  const LED_WHITE: int := 7

  /** The timeout of every command-echo read, in milliseconds. */
  const COMMAND_TIMEOUT_MS: int := 400
  /** The default timeout of `read_data`, in milliseconds. */
  const READ_DATA_TIMEOUT_MS: int := 10

  // ---------------------------------------------------------------------
  // Packet sizes
  // ---------------------------------------------------------------------

  function Pow2(k: nat): (p: nat)
    ensures p >= 1
  {
    if k == 0 then 1 else 2 * Pow2(k - 1)
  }

  /** `PACKET_SIZE_ARG_TO_SIZE[arg]`, with Python's negative indices; None where Python raises IndexError. */
  function PacketSizeOf(arg: int): (r: Option<int>)
    ensures r.Some? <==> -8 <= arg < 8
    ensures r.Some? ==> r.value in PACKET_SIZE_ARG_TO_SIZE
    ensures 0 <= arg < 8 ==> r == Some(16 * Pow2(arg))
  {
    if IndexOk(|PACKET_SIZE_ARG_TO_SIZE|, arg) then
      PacketSizeTable(Wrap(8, arg));
      Some(PACKET_SIZE_ARG_TO_SIZE[Wrap(8, arg)])
    else None
  }

  /** Entry i of the table is 16 * 2^i bytes: each index doubles the packet. */
  lemma PacketSizeTable(i: nat)
    requires i < 8
    ensures PACKET_SIZE_ARG_TO_SIZE[i] == 16 * Pow2(i)
  {
    assert Pow2(0) == 1;
    assert Pow2(1) == 2;
    assert Pow2(2) == 4;
    assert Pow2(3) == 8;
    assert Pow2(4) == 16;
    assert Pow2(5) == 32;
    assert Pow2(6) == 64;
    assert Pow2(7) == 128;
  }

  /** A negative index selects the same entry as that index plus eight. */
  lemma PacketSizeWraps(arg: int)
    requires -8 <= arg < 0
    ensures PacketSizeOf(arg) == PacketSizeOf(arg + 8)
  {
  }

  /** The `PACKET_SIZE_n` constants name the index whose entry is n bytes. */
  lemma PacketSizeNames()
    ensures PacketSizeOf(PACKET_SIZE_16) == Some(16)
    ensures PacketSizeOf(PACKET_SIZE_32) == Some(32)
    ensures PacketSizeOf(PACKET_SIZE_64) == Some(64)
    ensures PacketSizeOf(PACKET_SIZE_128) == Some(128)
    ensures PacketSizeOf(PACKET_SIZE_256) == Some(256)
    ensures PacketSizeOf(PACKET_SIZE_512) == Some(512)
    ensures PacketSizeOf(PACKET_SIZE_1024) == Some(1024)
    ensures PacketSizeOf(PACKET_SIZE_2048) == Some(2048)
  {
  }

  // ---------------------------------------------------------------------
  // Completion of a command whose echo is discarded
  // ---------------------------------------------------------------------

  /** A command whose echo the caller drops succeeds when the echo arrives and decodes as ASCII. */
  function Completion(o: ReadOutcome): (r: Outcome)
    ensures r.Pass? <==> o.Block? && forall i :: 0 <= i < |o.data| ==> o.data[i] < 128
    ensures o.TimedOut? ==> r == Fail(ReadTimeout)
    ensures r.Fail? ==> r.error == ReadTimeout || r.error == NonAsciiReply
  {
    match ReplyText(o)
    case Ok(_) => Pass
    case Err(e) => Fail(e)
  }

  /** The two transfers of one command: the frame written, then one echo read of `size` bytes. */
  function CommandTransfers(c: Command, size: int): seq<Transfer> {
    [Sent(ENDPOINT_OUT, CommandBytes(c)), Requested(ENDPOINT_IN, size, COMMAND_TIMEOUT_MS)]
  }

  class DI2108 {
    /** The USB device the driver was opened on. */
    const endpoint: Endpoint
    /** `packet_size`: the read size in bytes, set by `set_packet_size`. */
    var packetSize: int
    /** `last_reading`: the last data block `read_data` received, or None. */
    var lastReading: Option<seq<byte>>

    /** The packet size is always one of the table's byte counts. */
    ghost predicate Valid()
      reads this
    {
      packetSize in PACKET_SIZE_ARG_TO_SIZE
    }

    /** The read outcome the endpoint will deliver next. */
    ghost function Pending(): ReadOutcome
      reads this, endpoint
    {
      NextOutcome(endpoint.script)
    }

    /** Exactly one command `c` was exchanged: its frame written, one echo read at the current packet size. */
    twostate predicate Exchanged(c: Command)
      reads this, endpoint
    {
      endpoint.log == old(endpoint.log) + CommandTransfers(c, packetSize) &&
      endpoint.script == AfterRead(old(endpoint.script))
    }

    /** The object before `__init__` sends its first `ps`: no reading yet, packet size 64. */
    constructor Attach(endpoint: Endpoint)
      ensures this.endpoint == endpoint
      ensures packetSize == PACKET_SIZE_ARG_TO_SIZE[PACKET_SIZE_64]
      ensures lastReading == None
      ensures Valid()
    {
      this.endpoint := endpoint;
      packetSize := PACKET_SIZE_ARG_TO_SIZE[PACKET_SIZE_64];
      lastReading := None;
    }

    /**
      `DI2108(dev)`: attach to the device and select 64-byte packets.  The
      constructor raises, and no driver results, when that `ps` exchange
      times out or its echo is not ASCII.
    */
    static method Open(endpoint: Endpoint) returns (r: Result<DI2108>)
      modifies endpoint
      ensures endpoint.log == old(endpoint.log) + CommandTransfers(Command.Ps(PACKET_SIZE_64), 64)
      ensures endpoint.script == AfterRead(old(endpoint.script))
      ensures r.Ok? <==> Completion(NextOutcome(old(endpoint.script))).Pass?
      ensures r.Err? ==> r.error == Completion(NextOutcome(old(endpoint.script))).error
      ensures r.Ok? ==>
        fresh(r.value) && r.value.endpoint == endpoint && r.value.Valid() &&
        r.value.packetSize == 64 && r.value.lastReading == None
    {
      var d := new DI2108.Attach(endpoint);
      var o := d.SetPacketSize(PACKET_SIZE_64);
      if o.Fail? {
        return Err(o.error);
      }
      return Ok(d);
    }

    // -------------------------------------------------------------------
    // Transfers
    // -------------------------------------------------------------------

    /** `_write_cmd_args`: join the tokens by spaces, add '\r', encode as ASCII and write to the OUT endpoint. */
    method WriteCmdArgs(tokens: seq<string>)
      requires forall i :: 0 <= i < |tokens| ==> IsAscii(tokens[i])
      modifies endpoint
      ensures endpoint.log == old(endpoint.log) + [Sent(ENDPOINT_OUT, FrameBytes(tokens))]
      ensures endpoint.script == old(endpoint.script)
    {
      endpoint.Write(ENDPOINT_OUT, FrameBytes(tokens));
    }

    /** `_read_command_response`: one read of `packet_size` bytes with a 400 ms timeout, decoded as ASCII. */
    method ReadCommandResponse() returns (r: Result<string>)
      modifies endpoint
      ensures endpoint.log == old(endpoint.log) + [Requested(ENDPOINT_IN, packetSize, COMMAND_TIMEOUT_MS)]
      ensures endpoint.script == AfterRead(old(endpoint.script))
      ensures r == ReplyText(old(Pending()))
    {
      var o := endpoint.Read(ENDPOINT_IN, packetSize, COMMAND_TIMEOUT_MS);
      r := ReplyText(o);
    }

    /** The body every echoing verb shares: write the command's frame, then read its echo. */
    method Exchange(c: Command) returns (r: Result<string>)
      modifies endpoint
      ensures Exchanged(c)
      ensures r == ReplyText(old(Pending()))
    {
      TokensAscii(c);
      WriteCmdArgs(Tokens(c));
      r := ReadCommandResponse();
    }

    // -------------------------------------------------------------------
    // Instrument commands
    // -------------------------------------------------------------------

    /** `info`: the payload after the echo "info <arg> ", stripped. */
    method Info(selector: int) returns (r: Result<string>)
      modifies endpoint
      ensures Exchanged(Command.Info(selector))
      ensures r == InfoResult(old(Pending()), selector)
    {
      var text := Exchange(Command.Info(selector));
      match text
      case Err(e) => r := Err(e);
      case Ok(reply) => r := InfoPayload(reply, selector);
    }

    /** `ps`: sends the index and reports whether the echo is "ps <index>". */
    method Ps(index: int) returns (r: Result<bool>)
      modifies endpoint
      ensures Exchanged(Command.Ps(index))
      ensures r == PsResult(old(Pending()), index)
    {
      var text := Exchange(Command.Ps(index));
      match text
      case Err(e) => r := Err(e);
      case Ok(reply) => r := Ok(PsEchoMatches(reply, index));
    }

    /** `start`: the instrument never echoes it, so nothing is read. */
    method Start(mode: int)
      modifies endpoint
      ensures endpoint.log == old(endpoint.log) + [Sent(ENDPOINT_OUT, CommandBytes(Command.Start(mode)))]
      ensures endpoint.script == old(endpoint.script)
    {
      TokensAscii(Command.Start(mode));
      WriteCmdArgs(Tokens(Command.Start(mode)));
    }

    /** `stop`: reads the echo and drops it; a timeout or a non-ASCII echo still raises. */
    method Stop() returns (r: Outcome)
      modifies endpoint
      ensures Exchanged(Command.Stop)
      ensures r == Completion(old(Pending()))
    {
      var text := Exchange(Command.Stop);
      r := if text.Ok? then Pass else Fail(text.error);
    }

    /** `slist offset config`: the raw echo. */
    method Slist(offset: int, config: int) returns (r: Result<string>)
      modifies endpoint
      ensures Exchanged(Command.Slist(offset, config))
      ensures r == ReplyText(old(Pending()))
    {
      r := Exchange(Command.Slist(offset, config));
    }

    /** `srate divisor`: the raw echo. */
    method Srate(divisor: int) returns (r: Result<string>)
      modifies endpoint
      ensures Exchanged(Command.Srate(divisor))
      ensures r == ReplyText(old(Pending()))
    {
      r := Exchange(Command.Srate(divisor));
    }

    /** `filter channel mode`: the raw echo. */
    method Filter(channel: int, mode: int) returns (r: Result<string>)
      modifies endpoint
      ensures Exchanged(Command.Filter(channel, mode))
      ensures r == ReplyText(old(Pending()))
    {
      r := Exchange(Command.Filter(channel, mode));
    }

    /** `dec count`: the raw echo. */
    method Dec(count: int) returns (r: Result<string>)
      modifies endpoint
      ensures Exchanged(Command.Dec(count))
      ensures r == ReplyText(old(Pending()))
    {
      r := Exchange(Command.Dec(count));
    }

    /** `ffl factor`: the raw echo. */
    method Ffl(factor: int) returns (r: Result<string>)
      modifies endpoint
      ensures Exchanged(Command.Ffl(factor))
      ensures r == ReplyText(old(Pending()))
    {
      r := Exchange(Command.Ffl(factor));
    }

    /** `led color`: the raw echo. */
    method Led(color: int) returns (r: Result<string>)
      modifies endpoint
      ensures Exchanged(Command.Led(color))
      ensures r == ReplyText(old(Pending()))
    {
      r := Exchange(Command.Led(color));
    }

    /** `dout mask`: the raw echo. */
    method Dout(mask: int) returns (r: Result<string>)
      modifies endpoint
      ensures Exchanged(Command.Dout(mask))
      ensures r == ReplyText(old(Pending()))
    {
      r := Exchange(Command.Dout(mask));
    }

    /** `endo mask`: the raw echo. */
    method Endo(mask: int) returns (r: Result<string>)
      modifies endpoint
      ensures Exchanged(Command.Endo(mask))
      ensures r == ReplyText(old(Pending()))
    {
      r := Exchange(Command.Endo(mask));
    }

    /** `din`: the raw echo, which carries the port states. */
    method Din() returns (r: Result<string>)
      modifies endpoint
      ensures Exchanged(Command.Din)
      ensures r == ReplyText(old(Pending()))
    {
      r := Exchange(Command.Din);
    }

    /** `reset 1`: the raw echo. */
    method Reset() returns (r: Result<string>)
      modifies endpoint
      ensures Exchanged(Command.Reset)
      ensures r == ReplyText(old(Pending()))
    {
      r := Exchange(Command.Reset);
    }

    // -------------------------------------------------------------------
    // User-level operations
    // -------------------------------------------------------------------

    /** `check_connection`: whether `info 0` answers exactly "DATAQ". */
    method CheckConnection() returns (r: Result<bool>)
      modifies endpoint
      ensures Exchanged(Command.Info(0))
      ensures r == ConnectionResult(old(Pending()))
    {
      var payload := Info(0);
      match payload
      case Err(e) => r := Err(e);
      case Ok(p) => r := Ok(p == "DATAQ");
    }

    /** `get_device_name`: `info 1`. */
    method GetDeviceName() returns (r: Result<string>)
      modifies endpoint
      ensures Exchanged(Command.Info(1))
      ensures r == InfoResult(old(Pending()), 1)
    {
      r := Info(1);
    }

    /** `get_firmware_revision`: `info 2`. */
    method GetFirmwareRevision() returns (r: Result<string>)
      modifies endpoint
      ensures Exchanged(Command.Info(2))
      ensures r == InfoResult(old(Pending()), 2)
    {
      r := Info(2);
    }

    /** `get_serial_number`: `info 6`. */
    method GetSerialNumber() returns (r: Result<string>)
      modifies endpoint
      ensures Exchanged(Command.Info(6))
      ensures r == InfoResult(old(Pending()), 6)
    {
      r := Info(6);
    }

    /** `get_sample_rate_divisor`: `int()` of the `info 9` payload. */
    method GetSampleRateDivisor() returns (r: Result<int>)
      modifies endpoint
      ensures Exchanged(Command.Info(9))
      ensures r == DivisorResult(old(Pending()))
    {
      var payload := Info(9);
      match payload
      case Err(e) => r := Err(e);
      case Ok(p) =>
        match ParseInt(p)
        case None => r := Err(NotAnInteger);
        case Some(n) => r := Ok(n);
    }

    /**
      `set_packet_size`: look the index up (IndexError leaves everything as
      it was), store the new size, then send `ps`.  The size is stored
      before the exchange, so the echo is read at the new size, and the
      `ps` verdict is dropped.
    */
    method SetPacketSize(arg: int) returns (r: Outcome)
      modifies this, endpoint
      ensures PacketSizeOf(arg).None? ==>
        r == Fail(PacketSizeIndex) && packetSize == old(packetSize) &&
        endpoint.log == old(endpoint.log) && endpoint.script == old(endpoint.script)
      ensures PacketSizeOf(arg).Some? ==>
        packetSize == PacketSizeOf(arg).value && Exchanged(Command.Ps(arg)) &&
        r == Completion(old(Pending()))
      ensures lastReading == old(lastReading)
      ensures old(Valid()) ==> Valid()
    {
      var size := PacketSizeOf(arg);
      if size.None? {
        return Fail(PacketSizeIndex);
      }
      packetSize := size.value;
      var verdict := Ps(arg);
      r := if verdict.Ok? then Pass else Fail(verdict.error);
    }

    /** `get_packet_size`: the packet size in bytes, not the `PACKET_SIZE_*` index the documentation names. */
    function GetPacketSize(): (n: int)
      reads this
      requires Valid()
      ensures 16 <= n <= 2048
      ensures exists i :: 0 <= i < 8 && n == 16 * Pow2(i)
    {
      var i :| 0 <= i < 8 && PACKET_SIZE_ARG_TO_SIZE[i] == packetSize;
      PacketSizeTable(i);
      packetSize
    }

    /** `start_reading` calls `self.scan`, which the class does not define: it always raises AttributeError. */
    method StartReading(arg: int) returns (r: Outcome)
      ensures r == Fail(NoScanMethod)
    {
      r := Fail(NoScanMethod);
    }

    /**
      What `start_reading` evidently means to do: send `start` with the
      scan mode, which writes the frame "start <mode>\r" and reads nothing.
    */
    method StartReadingAsIntended(arg: int)
      modifies endpoint
      ensures endpoint.log == old(endpoint.log) + [Sent(ENDPOINT_OUT, CommandBytes(Command.Start(arg)))]
      ensures endpoint.script == old(endpoint.script)
    {
      Start(arg);
    }

    /**
      `stop_reading`: drain one data block with `read_data` (which never
      raises), then `stop`.  The argument is unused.
    */
    method StopReading(arg: int) returns (r: Outcome)
      modifies this, endpoint
      ensures endpoint.log == old(endpoint.log) +
        [Requested(ENDPOINT_IN, packetSize, READ_DATA_TIMEOUT_MS)] + CommandTransfers(Command.Stop, packetSize)
      ensures endpoint.script == AfterRead(AfterRead(old(endpoint.script)))
      ensures packetSize == old(packetSize)
      ensures lastReading == if old(Pending()).Block? then Some(old(Pending()).data) else old(lastReading)
      ensures r == Completion(NextOutcome(AfterRead(old(endpoint.script))))
    {
      var _ := ReadData(READ_DATA_TIMEOUT_MS);
      r := Stop();
    }

    /** `add_channel_to_list pos ch`: `slist ch pos`, echo dropped. */
    method AddChannelToList(pos: int, ch: int) returns (r: Outcome)
      modifies endpoint
      ensures Exchanged(Command.Slist(ch, pos))
      ensures r == Completion(old(Pending()))
    {
      var text := Slist(ch, pos);
      r := if text.Ok? then Pass else Fail(text.error);
    }

    /**
      `read_data`: one read of `packet_size` bytes.  A block becomes the
      last reading and the result is true; a timeout returns false and
      keeps the previous reading.
    */
    method ReadData(timeoutMs: int := READ_DATA_TIMEOUT_MS) returns (ok: bool)
      modifies this, endpoint
      ensures endpoint.log == old(endpoint.log) + [Requested(ENDPOINT_IN, packetSize, timeoutMs)]
      ensures endpoint.script == AfterRead(old(endpoint.script))
      ensures packetSize == old(packetSize)
      ensures ok <==> old(Pending()).Block?
      ensures ok ==> lastReading == Some(old(Pending()).data)
      ensures !ok ==> lastReading == old(lastReading)
    {
      var o := endpoint.Read(ENDPOINT_IN, packetSize, timeoutMs);
      if o.TimedOut? {
        return false;
      }
      lastReading := Some(o.data);
      return true;
    }

    /** `get_channel`: None before any reading, otherwise the unsigned 16-bit value in `slot`. */
    function GetChannel(slot: int): (r: Result<Option<int>>)
      reads this
      ensures lastReading.None? ==> r == Ok(None)
      ensures r.Err? <==> lastReading.Some? && !SlotInRange(|lastReading.value|, slot)
      ensures r.Err? ==> r.error == SlotOutOfRange
      ensures r.Ok? ==> (r.value.Some? <==> lastReading.Some?)
      ensures r.Ok? && r.value.Some? ==> 0 <= r.value.value < 65536
    {
      match lastReading
      case None => Ok(None)
      case Some(block) =>
        match ChannelValue(block, slot)
        case Err(e) => Err(e)
        case Ok(v) => Ok(Some(v))
    }

    /** `get_analog_channel`: None before any reading, otherwise the slot's signed code in volts. */
    function GetAnalogChannel(slot: int): (r: Result<Option<real>>)
      reads this
      ensures lastReading.None? ==> r == Ok(None)
      ensures r.Err? <==> lastReading.Some? && !SlotInRange(|lastReading.value|, slot)
      ensures r.Err? ==> r.error == SlotOutOfRange
      ensures r.Ok? ==> (r.value.Some? <==> lastReading.Some?)
      ensures r.Ok? && r.value.Some? ==> -10.0 <= r.value.value < 10.0
    {
      match lastReading
      case None => Ok(None)
      case Some(block) =>
        match AnalogVolts(block, slot)
        case Err(e) => Err(e)
        case Ok(v) => Ok(Some(v))
    }
  }

  // ---------------------------------------------------------------------
  // Properties of the driver
  // ---------------------------------------------------------------------

  /**
    Reading back a scan: when the last block holds `values` slot by slot,
    `get_channel(i)` is `values[i]` and `get_analog_channel(i)` its volts.
  */
  lemma ChannelsOfReading(d: DI2108, values: seq<int>, i: nat)
    requires AllSlotValues(values)
    requires i < |values|
    requires d.lastReading == Some(Layout(values))
    ensures d.GetChannel(i) == Ok(Some(values[i]))
    ensures d.GetAnalogChannel(i) == Ok(Some(Volts(ToSigned(values[i]))))
  {
    ChannelValueOfLayout(values, i);
  }

  /** Negative slots count back from the end of the block, as Python's indexing does. */
  lemma ChannelFromEnd(d: DI2108, values: seq<int>)
    requires AllSlotValues(values)
    requires |values| >= 1
    requires d.lastReading == Some(Layout(values))
    ensures d.GetChannel(-1) == Ok(Some(values[|values| - 1]))
  {
    var k := |values| - 1;
    var b := Layout(values);
    ChannelValueOfLayout(values, k);
    assert Wrap(|b|, -2) == 2 * k && Wrap(|b|, -1) == 2 * k + 1;
    assert ChannelValue(b, -1) == ChannelValue(b, k);
  }

  /**
    An instrument that echoes every command verbatim makes `ps` report
    success, so a driver opened on it, and every later `set_packet_size`,
    sees the echo it expects.
  */
  lemma PsOfEchoingInstrument(index: int)
    ensures PsResult(Block(CommandBytes(Command.Ps(index))), index) == Ok(true)
  {
    TokensAscii(Command.Ps(index));
    FrameAscii(Tokens(Command.Ps(index)));
    ReplyTextOfAscii(CommandFrame(Command.Ps(index)));
    PsAcceptsOwnFrame(index);
  }
}
