# DI-2108 driver model

A Dafny model of the `DI2108` Python driver class for the DATAQ DI-2108
data-acquisition unit. The driver talks to the instrument over a pair of
USB bulk endpoints:

- **Commands.** It sends ASCII command frames: argument tokens joined by
  single spaces and ended by one carriage return. Several verbs pad their
  arguments with a trailing space.
- **Echoes.** It reads one echo per command. `info` extracts the payload
  that follows the echoed command. `ps` compares the echo with the
  expected text.
- **State.** It keeps two pieces of state. One is the packet size, the
  byte count of every read. The other is the last data block received.
- **Decoding.** It decodes data blocks as little-endian 16-bit slots.
  Analog slots are read as two's-complement codes scaled to ±10 V.

The model has six modules, one per file:

- `Outcomes`: `Option`, and the exceptions the driver raises as an `Error` datatype.
- `Text`: the Python string operations the driver relies on.
  - `str(n)` and Python 2's `int(s)` on unicode text, which skips whitespace before the sign, after it and after the digits.
  - `Decimal`, the strict numeral (an optional sign, then digits) that the instrument's side of the round trip reads.
  - `strip` and `rstrip`, with Python 2's whitespace set.
  - `split(sep)[1]` and `" ".join`.
  - ASCII `encode` and `decode`.
- `Transport`: the USB device as an `Endpoint` object. It logs every
  transfer the driver issues and serves a scripted sequence of read
  outcomes, each a block of bytes or a timeout. A used-up script reads as
  a timeout.
- `Protocol`: the command datatype and the tokens of each verb. Also:
  - the frames and their bytes;
  - the instrument-side reading of a frame, used to prove that frames are
    unambiguous;
  - the parsing of the `info`, `ps`, `check_connection` and
    `get_sample_rate_divisor` replies.
- `Samples`: the data-block decoder used by `get_channel` and
  `get_analog_channel`.
- `Driver`: the constants, the packet-size table, and the `DI2108` class.
  - The class has the fields `packetSize` and `lastReading`.
  - Every command method does one write followed by one read at the
    current packet size with a 400 ms timeout. The exception is `start`,
    which only writes.
  - The user-level operations are built on those methods.

Each method's postcondition states the endpoint log it leaves behind, the
script it consumes and its result. The result is given as a function of
the outcome the endpoint delivered. Lemmas prove the properties of those
functions:

- frame format and padding;
- round trips through the instrument's reading;
- the echo checks, in both directions;
- decoding round trips, ranges and monotonicity.

## Model

| member | source | states |
|---|---|---|
| Text.Encode | DI2108.py:134-136 | `encode('ascii')` keeps the length and maps each character to its code |
| Text.Decode | DI2108.py:115 | `decode('ascii')` succeeds exactly when every byte is below 128, and then maps each byte to the character with that code |
| Text.DecodeEncode | DI2108.py:115 | decoding the encoding of ASCII text gives the text back |
| Text.EncodeDecode | DI2108.py:115 | a successfully decoded reply re-encodes to the bytes received |
| Text.IntToString | DI2108.py:166 | `str(n)` is non-empty ASCII and ends in a digit; it has no space or carriage return; it starts with '-' exactly for negative n, and the rest is digits |
| Text.ParseInt | DI2108.py:363 | Python 2's `int()` of the unicode payload; ParseIntIff states exactly which texts it accepts and with what value |
| Text.ParseIntUnsignedDigits | DI2108.py:363 | digits with whitespace before and after read as their value |
| Text.ParseIntSignedDigits | DI2108.py:363 | whitespace may come before the sign, between the sign and the digits, and after the digits; '-' negates the value and '+' keeps it |
| Text.ParseIntOfSpacedNegative | DI2108.py:363 | `int(u"- 5") == -5`: the space after the sign is skipped |
| Text.ParseIntNeedsDigit | DI2108.py:363 | text without a decimal digit raises ValueError |
| Text.ParseIntOfLiteral | DI2108.py:363 | whitespace, an optional sign, whitespace after a sign, digits and whitespace are accepted, with the digits' value negated under '-' |
| Text.ParseIntAccepted | DI2108.py:363 | the converse: every accepted text is made of exactly those parts and has that value, so "5x", "5 5" or "+-5" raise ValueError |
| Text.ParseIntIff | DI2108.py:363 | both directions together: `int()` accepts a text with value v exactly when the text is made of those parts with value v |
| Text.ParseIntOfDecimal | DI2108.py:363 | `int()` accepts every strict numeral (optional sign, digits) with the same value |
| Text.DecimalOfIntToString | DI2108.py:166 | `str(n)` is a strict numeral whose value is n |
| Text.ParseIntOfIntToString | DI2108.py:363 | `int(str(n)) == n` for every integer |
| Text.IntToStringIsZero | DI2108.py:166-168 | `str(n) == "0"` exactly when n is 0, so only selector 0 gets the extra space |
| Text.IsSpace | DI2108.py:172 | Python 2's unicode whitespace, as `strip()` here and `rstrip()` at line 193 use it: space, 9–13 and 28–31, but not NUL |
| Text.RStrip | DI2108.py:193 | `rstrip()` is the longest prefix not ending in whitespace; what it removes is all whitespace |
| Text.LStrip | DI2108.py:172 | `lstrip()` is the longest suffix not starting with whitespace; what it removes is all whitespace |
| Text.RStripIff | DI2108.py:193 | `s.rstrip() == t` exactly when s is t followed only by whitespace |
| Text.Strip | DI2108.py:172 | `strip()` returns text no longer than its input that neither starts nor ends with whitespace |
| Text.StripPadded | DI2108.py:172 | `strip()` of text padded with whitespace on both sides gives the text back |
| Text.FindFrom | DI2108.py:171 | finds the first occurrence of the separator at or after a position, or reports that there is none |
| Text.SecondPiece | DI2108.py:171 | `split(sep)[1]` fails exactly when the separator does not occur |
| Text.SecondPieceAfterPrefix | DI2108.py:171 | if the text starts with sep and sep does not occur again, the second piece is everything after that first sep |
| Text.SecondPieceMissing | DI2108.py:171 | the second piece is missing exactly when sep occurs nowhere |
| Text.Join | DI2108.py:139 | `" ".join(args)`; JoinPair, JoinTriple and WordsOfJoin state what it produces |
| Text.WordsOfJoin | DI2108.py:139 | the words of a space-joined text are the words of its parts, in order |
| Transport.AfterRead | DI2108.py:109 | one read consumes exactly the head of the script |
| Transport.Endpoint.Write | DI2108.py:123-124 | a write appends one `Sent` transfer to the log and leaves the script alone |
| Transport.Endpoint.Read | DI2108.py:109 | a read appends one `Requested` transfer with its size and timeout, returns the next scripted outcome and consumes it |
| Protocol.InfoArg | DI2108.py:166-168 | the `info` argument is "0 " for selector 0 and `str(n)` for every other selector |
| Protocol.Tokens | DI2108.py:166-334 | the argument list each verb method hands to `_write_cmd_args`, one to three tokens; TokensAscii, FrameWords and the padding lemmas state its contents |
| Protocol.TokensAscii | DI2108.py:147-335 | every argument token of every verb is ASCII and free of carriage returns |
| Protocol.Frame | DI2108.py:138-141 | `" ".join(args) + "\r"`; FrameAscii, FrameBytes and FrameFormat state its properties |
| Protocol.CommandFrame | DI2108.py:138-141 | the frame of a command; FrameFormat, the padding lemmas and ParseCommandFrame state what it is |
| Protocol.CommandBytes | DI2108.py:134-141 | the bytes written for a command have the frame's length and decode back to the frame |
| Protocol.FrameAscii | DI2108.py:134-141 | the frame of ASCII tokens is ASCII, so `encode('ascii')` never fails on a command |
| Protocol.FrameBytes | DI2108.py:134-141 | the bytes written have the frame's length and decode back to the frame |
| Protocol.FrameFormat | DI2108.py:138-141 | every frame is its tokens joined by single spaces, then one '\r'; no other character is '\r' |
| Protocol.InfoPadding | DI2108.py:166-169 | `info(0)` sends "info 0 \r"; every other selector n sends "info n\r" |
| Protocol.PsPadding | DI2108.py:191 | `ps` sends "ps n \r", its argument followed by a space |
| Protocol.FilterPadding | DI2108.py:259-262 | `filter` sends "filter ch m \r": the channel as it is, then the mode followed by a space |
| Protocol.DecPadding | DI2108.py:272 | `dec` sends "dec n \r", its argument followed by a space |
| Protocol.PlainArgument | DI2108.py:195-283 | `start`, `srate` and `ffl` send "verb n\r" without padding |
| Protocol.OutputArgument | DI2108.py:286-319 | `led`, `dout` and `endo` send "verb n\r" without padding |
| Protocol.FixedFrames | DI2108.py:217-334 | `stop` sends "stop \r", `din` sends "din\r" and `reset` sends "reset 1\r" |
| Protocol.SlistOrder | DI2108.py:229 | `slist` writes its offset before its configuration |
| Protocol.FrameWords | DI2108.py:138-141 | the space-separated words of every frame are its verb and its arguments in decimal; padding spaces add no word |
| Protocol.CommandOfWordsRoundTrip | DI2108.py:147-335 | the words of every command's frame read back as that command |
| Protocol.ParseCommandFrame | DI2108.py:138-141 | reading a frame back by its space-separated words recovers the command, padding included |
| Protocol.FramesDistinct | DI2108.py:138-141 | distinct commands produce distinct frames |
| Protocol.ReplyText | DI2108.py:106-115 | a timed-out read raises; a block decodes exactly when all bytes are ASCII, and the text re-encodes to the block |
| Protocol.ReplyTextOfAscii | DI2108.py:115 | an ASCII reply block decodes to its text |
| Protocol.EchoPrefix | DI2108.py:171 | the separator `"info %s " % arg` starts with "info " and ends with a space |
| Protocol.EchoPrefixShape | DI2108.py:166-171 | the expected echo is "info 0  " (two spaces) for selector 0 and "info n " otherwise |
| Protocol.InfoPayload | DI2108.py:171-172 | the payload is either empty or neither starts nor ends with whitespace; the only failure is a missing echo |
| Protocol.InfoPayloadFails | DI2108.py:171 | `info` fails exactly when the echo prefix occurs nowhere in the reply |
| Protocol.InfoPayloadOfEcho | DI2108.py:171-172 | echo, whitespace, payload, whitespace yields the payload, provided the echo does not occur again |
| Protocol.EchoPrefixAscii | DI2108.py:166-171 | the expected echo is ASCII and starts with 'i' |
| Protocol.InfoResult | DI2108.py:106-172 | `info`'s read, decode and parse: a timeout raises, and the only errors are a timeout, a non-ASCII reply and a missing echo |
| Protocol.InfoResultOfEcho | DI2108.py:106-172 | an ASCII reply block of echo, whitespace, a payload without 'i' and whitespace makes `info` return that payload |
| Protocol.PsEchoMatches | DI2108.py:193 | the comparison `ret.rstrip() == "ps %s" % arg0`; PsEchoIff characterises it in both directions |
| Protocol.PsEchoIff | DI2108.py:193 | `ps` accepts exactly a reply of "ps n" followed only by whitespace |
| Protocol.PsAcceptsOwnFrame | DI2108.py:191-193 | an instrument that echoes the `ps` frame it received passes the check |
| Protocol.PsRejectsNulPadding | DI2108.py:193 | a NUL after the echo fails the check, because `rstrip()` keeps NUL |
| Protocol.PsResult | DI2108.py:175-193 | a timeout raises; a block gives a verdict exactly when it is ASCII; a mismatched echo is never an error, only false |
| Protocol.NoEchoWithoutI | DI2108.py:171 | no `info` echo occurs in text without the letter 'i' |
| Protocol.ConnectionResult | DI2108.py:342-343 | a timeout raises; the only errors are those of `info 0` |
| Protocol.ConnectionOfEcho | DI2108.py:342-343 | "info 0  " then "DATAQ" padded with whitespace makes `check_connection` true |
| Protocol.ConnectionRejectsNulPadding | DI2108.py:343 | "DATAQ" followed by a NUL makes `check_connection` false |
| Protocol.DivisorResult | DI2108.py:360-363 | a timeout raises; the only errors are those of `info 9` and the ValueError of `int()` |
| Protocol.InfoOfNumeral | DI2108.py:360-363 | an `info 9` echo followed by a decimal numeral makes `info` return that numeral |
| Protocol.DivisorOfEcho | DI2108.py:360-363 | an `info 9` echo followed by the decimal form of any integer, negative ones included, yields that integer |
| Protocol.InfoOfSpacedSign | DI2108.py:360-363 | an `info 9` echo followed by "- " and digits makes `info` return "- " and the digits |
| Protocol.DivisorOfSpacedSign | DI2108.py:360-363 | the reply "info 9 - m" yields the divisor -m, not a ValueError |
| Samples.Wrap | DI2108.py:416-417 | a Python index in [-n, n) selects position i, or n+i when i is negative |
| Samples.ShiftOr | DI2108.py:418 | `(hi << 8) \| lo` lies in [0, 65536); its high byte is hi and its low byte is lo |
| Samples.ChannelValue | DI2108.py:413-420 | a slot decodes exactly when both its bytes can be indexed; the value is 16-bit; otherwise IndexError |
| Samples.SlotInRangeIff | DI2108.py:416-417 | for slots from 0 up, a slot is in range exactly when 2*slot+1 < the block length |
| Samples.ChannelValueOfLayout | DI2108.py:413-418 | slot i of a block laid out from values decodes to values[i] |
| Samples.ChannelValuePastLayout | DI2108.py:416-417 | slots past the laid-out values fail with IndexError |
| Samples.Bit15 | DI2108.py:427 | `data & (1 << 15) != 0`; Bit15Iff states when it holds |
| Samples.Bit15Iff | DI2108.py:427 | bit 15 is set exactly for values of 32768 and above |
| Samples.ToSigned | DI2108.py:427-428 | the reinterpretation lies in [-32768, 32768) and is congruent to the value mod 2^16 |
| Samples.ToUnsigned | DI2108.py:427-428 | the 16-bit pattern of a code lies in [0, 65536); UnsignedOfSigned and SignedOfUnsigned make it the inverse of ToSigned |
| Samples.UnsignedOfSigned | DI2108.py:427-428 | reinterpreting as signed and back restores every 16-bit value |
| Samples.SignedOfUnsigned | DI2108.py:427-428 | every signed 16-bit code is the reinterpretation of its own bit pattern |
| Samples.Volts | DI2108.py:429 | `10.0 * data / 32768.0`; VoltsRange, VoltsIncreasing and CodeOfVoltsRoundTrip state its properties |
| Samples.VoltsRange | DI2108.py:429 | every signed code scales into [-10, 10) volts |
| Samples.VoltsIncreasing | DI2108.py:429 | scaling is strictly increasing |
| Samples.CodeOfVoltsRoundTrip | DI2108.py:429 | the code can be recovered from its voltage |
| Samples.AnalogVolts | DI2108.py:423-432 | fails exactly when the slot is out of range, and otherwise lies in [-10, 10) volts |
| Samples.AnalogVoltsOfCode | DI2108.py:423-432 | a signed code laid out in slot 0 decodes to that code's voltage |
| Samples.NegativeFullScale | DI2108.py:426-429 | (0x00, 0x80) decodes to -10 V |
| Samples.ZeroScale | DI2108.py:426-429 | (0x00, 0x00) decodes to 0 V |
| Samples.PositiveFullScale | DI2108.py:426-429 | (0xFF, 0x7F) decodes to 327670/32768 V, just under +10 V |
| Driver.PacketSizeOf | DI2108.py:31 | the table lookup succeeds exactly for indices -8..7; it yields a table entry, 16*2^i for index i ≥ 0 |
| Driver.PacketSizeTable | DI2108.py:31 | entry i of the table is 16*2^i bytes |
| Driver.PacketSizeWraps | DI2108.py:370 | a negative index selects the same entry as index+8 |
| Driver.PacketSizeNames | DI2108.py:22-31 | each `PACKET_SIZE_n` constant selects n bytes |
| Driver.CommandTransfers | DI2108.py:106-141 | the two transfers of one command, the frame written to 0x01 and one read from 0x81 at 400 ms; the command methods' postconditions use it |
| Driver.Completion | DI2108.py:213-218 | a command whose echo is dropped succeeds exactly when the echo arrives and is ASCII; a timeout raises |
| Driver.DI2108.Attach | DI2108.py:88-90 | a new object has no last reading |
| Driver.DI2108.Open | DI2108.py:88-94 | construction sends `ps 2 ` and reads the echo at 64 bytes; it fails when that exchange raises; on success the packet size is 64 and there is no reading |
| Driver.DI2108.WriteCmdArgs | DI2108.py:138-141 | exactly one write of the frame's bytes to endpoint 0x01; no read |
| Driver.DI2108.ReadCommandResponse | DI2108.py:106-115 | exactly one read of `packet_size` bytes from 0x81 with a 400 ms timeout, decoded as ASCII |
| Driver.DI2108.Exchange | DI2108.py:138-141 | one command frame written, then exactly one echo read |
| Driver.DI2108.Info | DI2108.py:147-172 | one `info` exchange; the result is the stripped payload after the echo |
| Driver.DI2108.Ps | DI2108.py:175-193 | one `ps` exchange; the result is the echo check |
| Driver.DI2108.Start | DI2108.py:195-211 | one write of the `start` frame and no read |
| Driver.DI2108.Stop | DI2108.py:213-218 | one `stop` exchange; the echo is dropped, but a timeout or a non-ASCII echo still raises |
| Driver.DI2108.Slist | DI2108.py:220-230 | one `slist` exchange; the result is the decoded echo |
| Driver.DI2108.Srate | DI2108.py:232-244 | one `srate` exchange; the result is the decoded echo |
| Driver.DI2108.Filter | DI2108.py:246-263 | one `filter` exchange; the result is the decoded echo |
| Driver.DI2108.Dec | DI2108.py:265-273 | one `dec` exchange; the result is the decoded echo |
| Driver.DI2108.Ffl | DI2108.py:275-284 | one `ffl` exchange; the result is the decoded echo |
| Driver.DI2108.Led | DI2108.py:286-303 | one `led` exchange; the result is the decoded echo |
| Driver.DI2108.Dout | DI2108.py:305-307 | one `dout` exchange; the result is the decoded echo |
| Driver.DI2108.Endo | DI2108.py:309-320 | one `endo` exchange; the result is the decoded echo |
| Driver.DI2108.Din | DI2108.py:322-328 | one `din` exchange; the result is the decoded echo |
| Driver.DI2108.Reset | DI2108.py:330-335 | one `reset 1` exchange; the result is the decoded echo |
| Driver.DI2108.CheckConnection | DI2108.py:342-343 | one `info 0` exchange; the result says whether the payload is exactly "DATAQ" |
| Driver.DI2108.GetDeviceName | DI2108.py:345-348 | one `info 1` exchange; the result is its payload |
| Driver.DI2108.GetFirmwareRevision | DI2108.py:350-353 | one `info 2` exchange; the result is its payload |
| Driver.DI2108.GetSerialNumber | DI2108.py:355-358 | one `info 6` exchange; the result is its payload |
| Driver.DI2108.GetSampleRateDivisor | DI2108.py:360-363 | one `info 9` exchange; the result is `int()` of its payload, or ValueError |
| Driver.DI2108.SetPacketSize | DI2108.py:365-371 | a bad index raises before anything is written or changed; otherwise the size is stored first, then one `ps` exchange reads at the new size; the `ps` verdict is dropped |
| Driver.DI2108.GetPacketSize | DI2108.py:373-377 | returns the byte count, 16*2^i for some i < 8, not an index |
| Driver.DI2108.StartReading | DI2108.py:380-384 | always raises AttributeError, because `scan` does not exist |
| Driver.DI2108.StartReadingAsIntended | DI2108.py:380-384 | writes the `start` frame for the scan mode, and nothing else |
| Driver.DI2108.StopReading | DI2108.py:386-393 | one data read at the 10 ms default timeout, whatever its outcome, then one `stop` exchange |
| Driver.DI2108.AddChannelToList | DI2108.py:395-400 | one exchange of `slist ch pos`: the channel goes in the offset position |
| Driver.DI2108.ReadData | DI2108.py:402-408 | one read of `packet_size` bytes; a block becomes the last reading and gives true; a timeout gives false and keeps the previous reading |
| Driver.DI2108.GetChannel | DI2108.py:413-420 | None before any reading and a value once one exists; IndexError exactly when the slot is out of range; otherwise a 16-bit value |
| Driver.DI2108.GetAnalogChannel | DI2108.py:423-432 | None before any reading and a value once one exists; IndexError exactly when the slot is out of range; otherwise volts in [-10, 10) |
| Driver.ChannelsOfReading | DI2108.py:413-432 | after a block holding values is read, `get_channel(i)` is values[i] and `get_analog_channel(i)` is its voltage |
| Driver.ChannelFromEnd | DI2108.py:413-418 | `get_channel(-1)` reads the last slot of the block |
| Driver.PsOfEchoingInstrument | DI2108.py:191-193 | if the instrument echoes the `ps` frame, `ps` returns true |

## Left out

- **USB plumbing.** Device enumeration (`_get_devices`, `list_devices`), `usb_device.reset()`, kernel-driver detach and attach, and `close`.
  - These need a real device.
  - `Open` models only what `__init__` does to the driver's own state and to the endpoints.
- **Write failures.** The model treats writes as always complete; a failed or partial `usb_device.write` is not modelled.
- **Read outcomes.** A failed read is modelled only as a timeout. Other USB errors behave the same way, since every read failure either raises or makes `read_data` return false.
- **`get_last_data_block`.** It returns the `lastReading` field and is not modelled separately.
- **Argument types.** Arguments that are not integers are not modelled; the driver formats every argument with `str()`.
  - The documented ranges are not checked by the driver, so the model does not check them either. Examples: `dec` 1–512, `endo` 0–12710, `slist` positions.
- **`__main__` and the other files.** The `__main__` block, `laser.py` (calibration, file and console I/O) and `test.py` (a hardware demo) are not part of this model.
- **Driver.DI2108.StopReading.** `stop_reading` wraps `read_data` in a try block that swallows exceptions. `read_data` already catches every read failure, so the model has it always proceed to `stop`.
- **Where the model follows the code rather than what one might expect.**
  - `stop` raises when its echo read times out.
  - `set_packet_size` and `get_channel` accept negative indices the way Python lists do.
  - The largest positive analog reading is 327670/32768 V, just under 10 V.
  - The default `read_data` timeout is 10, which pyusb reads as milliseconds.
  - NUL bytes in a reply are not whitespace for `strip`/`rstrip`.
  - A NUL in `get_sample_rate_divisor`'s payload is neither whitespace nor a digit, so `int()` raises ValueError.
  - `get_packet_size` returns bytes, not the `PACKET_SIZE_*` index its docstring names (DI2108.py:374-375).

## Findings

| source | as written | input that shows it | evidently intended | confidence | as-written member | corrected member |
|---|---|---|---|---|---|---|
| DI2108.py:384 | `start_reading` calls `self.scan(arg)`, which the class does not define | any call, e.g. `start_reading(SCAN_MODE_NORMAL)` raises AttributeError | send `start arg`, i.e. `self.start(arg)`, whose frame is "start <mode>\r" | high; not executed | Driver.DI2108.StartReading | Driver.DI2108.StartReadingAsIntended |
