/**
  Decoding of a captured data block: 2-byte little-endian slots, one per
  scan-list position in registration order, and the reinterpretation of an
  analog slot as a signed 16-bit code scaled to volts (10 V full scale).
  Indexing follows Python's rules for `block[i]`, negative indices included.
*/
module Samples {
  import opened Outcomes
  import opened Text

  /** Python accepts `block[i]` for -n <= i < n, negative indices counting from the end. */
  predicate IndexOk(n: int, i: int) {
    -n <= i < n
  }

  function Wrap(n: int, i: int): (k: nat)
    requires IndexOk(n, i)
    ensures k < n
    ensures 0 <= i ==> k == i
    ensures i < 0 ==> k == n + i
  {
    if i < 0 then n + i else i
  }

  /** Both bytes of slot `slot` can be indexed in a block of `n` bytes. */
  predicate SlotInRange(n: int, slot: int) {
    IndexOk(n, 2 * slot) && IndexOk(n, 2 * slot + 1)
  }

  /**
    `(byte_2 << 8) | byte_1`: shifting the high byte up by eight bits
    leaves the low eight bits clear, so or-ing in a byte adds it.
  */
  function ShiftOr(hi: byte, lo: byte): (v: int)
    ensures 0 <= v < 65536
    ensures v / 256 == hi && v % 256 == lo
  {
    hi * 256 + lo
  }

  /**
    `get_channel` on a captured block: bytes 2*slot (low) and 2*slot+1
    (high) as an unsigned 16-bit value; IndexError when either byte is out
    of range.
  */
  function ChannelValue(block: seq<byte>, slot: int): (r: Result<int>)
    ensures r.Ok? <==> SlotInRange(|block|, slot)
    ensures r.Err? ==> r.error == SlotOutOfRange
    ensures r.Ok? ==> 0 <= r.value < 65536
  {
    if SlotInRange(|block|, slot) then
      var lo := block[Wrap(|block|, 2 * slot)];
      var hi := block[Wrap(|block|, 2 * slot + 1)];
      Ok(ShiftOr(hi, lo))
    else Err(SlotOutOfRange)
  }

  /** A slot is in range exactly when its high byte lies inside the block (for slots from 0 up). */
  lemma SlotInRangeIff(n: nat, slot: nat)
    ensures SlotInRange(n, slot) <==> 2 * slot + 1 < n
  {
  }

  // ---------------------------------------------------------------------
  // The block layout, as the instrument writes it
  // ---------------------------------------------------------------------

  /** One 16-bit value as two bytes, low byte first. */
  function EncodeSlot(v: int): (b: seq<byte>)
    requires 0 <= v < 65536
    ensures |b| == 2
  {
    [v % 256, v / 256]
  }

  predicate AllSlotValues(values: seq<int>) {
    forall i :: 0 <= i < |values| ==> 0 <= values[i] < 65536
  }

  /** A block holding `values` in consecutive slots, in order. */
  function Layout(values: seq<int>): (b: seq<byte>)
    requires AllSlotValues(values)
    ensures |b| == 2 * |values|
  {
    if values == [] then [] else EncodeSlot(values[0]) + Layout(values[1..])
  }

  lemma {:induction false} LayoutBytes(values: seq<int>, i: nat)
    requires AllSlotValues(values)
    requires i < |values|
    ensures Layout(values)[2 * i] == values[i] % 256
    ensures Layout(values)[2 * i + 1] == values[i] / 256
  {
    if i > 0 {
      LayoutBytes(values[1..], i - 1);
      assert Layout(values) == EncodeSlot(values[0]) + Layout(values[1..]);
    }
  }

  /**
    The layout round trip: slot `i` of a block laid out from `values`
    decodes to `values[i]`, so the slot order is the registration order.
  */
  lemma ChannelValueOfLayout(values: seq<int>, i: nat)
    requires AllSlotValues(values)
    requires i < |values|
    ensures ChannelValue(Layout(values), i) == Ok(values[i])
  {
    var b := Layout(values);
    LayoutBytes(values, i);
    SlotInRangeIff(|b|, i);
    var v := values[i];
    assert ShiftOr(b[2 * i + 1], b[2 * i]) == v by {
      assert b[2 * i + 1] == v / 256 && b[2 * i] == v % 256;
      assert (v / 256) * 256 + v % 256 == v;
    }
  }

  /** Slots past the laid-out values are out of range: decoding never reads invented bytes. */
  lemma ChannelValuePastLayout(values: seq<int>, i: nat)
    requires AllSlotValues(values)
    requires i >= |values|
    ensures ChannelValue(Layout(values), i) == Err(SlotOutOfRange)
  {
  }

  // ---------------------------------------------------------------------
  // Signed codes and volts
  // ---------------------------------------------------------------------

  /** `data & (1 << 15) != 0` on a 16-bit value: bit 15 of its binary digits. */
  function Bit15(v: int): bool
    requires 0 <= v < 65536
  {
    (v / 32768) % 2 == 1
  }

  /** Bit 15 is set exactly on the upper half of the 16-bit range. */
  lemma Bit15Iff(v: int)
    requires 0 <= v < 65536
    ensures Bit15(v) <==> v >= 32768
  {
    assert v / 32768 == if v >= 32768 then 1 else 0;
  }

  /** The two's-complement reinterpretation `get_analog_channel` applies. */
  function ToSigned(v: int): (s: int)
    requires 0 <= v < 65536
    ensures -32768 <= s < 32768
    ensures (s - v) % 65536 == 0
  {
    Bit15Iff(v);
    if Bit15(v) then v - 65536 else v
  }

  /** The 16-bit pattern of a signed code: its residue modulo 2^16. */
  function ToUnsigned(s: int): (v: int)
    ensures 0 <= v < 65536
  {
    s % 65536
  }

  /** Reinterpreting as signed and back restores the 16-bit value. */
  lemma UnsignedOfSigned(v: int)
    requires 0 <= v < 65536
    ensures ToUnsigned(ToSigned(v)) == v
  {
    Bit15Iff(v);
  }

  /** Every signed 16-bit code is the reinterpretation of exactly its own pattern. */
  lemma SignedOfUnsigned(s: int)
    requires -32768 <= s < 32768
    ensures ToSigned(ToUnsigned(s)) == s
  {
    Bit15Iff(ToUnsigned(s));
  }

  /** `10.0 * data / 32768.0`: exact in floating point for 16-bit codes, so exact here as a real. */
  function Volts(s: int): real {
    10.0 * (s as real) / 32768.0
  }

  /** Every signed code maps into the ±10 V range, -10 V included and +10 V excluded. */
  lemma VoltsRange(s: int)
    requires -32768 <= s < 32768
    ensures -10.0 <= Volts(s) < 10.0
  {
  }

  /** Larger codes give larger voltages, so distinct codes give distinct voltages. */
  lemma VoltsIncreasing(s1: int, s2: int)
    requires s1 < s2
    ensures Volts(s1) < Volts(s2)
  {
  }

  /** The code a voltage stands for: 3276.8 codes per volt. */
  function CodeOfVolts(volts: real): int {
    (volts * 3276.8).Floor
  }

  lemma CodeOfVoltsRoundTrip(s: int)
    ensures CodeOfVolts(Volts(s)) == s
  {
    assert Volts(s) * 3276.8 == s as real;
  }

  /** `get_analog_channel` on a captured block. */
  function AnalogVolts(block: seq<byte>, slot: int): (r: Result<real>)
    ensures r.Ok? <==> SlotInRange(|block|, slot)
    ensures r.Err? ==> r.error == SlotOutOfRange
    ensures r.Ok? ==> -10.0 <= r.value < 10.0
  {
    match ChannelValue(block, slot)
    case Err(e) => Err(e)
    case Ok(v) =>
      VoltsRange(ToSigned(v));
      Ok(Volts(ToSigned(v)))
  }

  /** The analog round trip: a signed code laid out in a slot decodes to that code's voltage. */
  lemma AnalogVoltsOfCode(s: int)
    requires -32768 <= s < 32768
    ensures AnalogVolts(EncodeSlot(ToUnsigned(s)), 0) == Ok(Volts(s))
  {
    var v := ToUnsigned(s);
    assert EncodeSlot(v) == Layout([v]);
    ChannelValueOfLayout([v], 0);
    SignedOfUnsigned(s);
  }

  /** Full scale: (0x00, 0x80), bit 15 alone, decodes to -10 V. */
  lemma NegativeFullScale()
    ensures AnalogVolts([0x00, 0x80], 0) == Ok(-10.0)
  {
    var v := ChannelValue([0x00, 0x80], 0);
    assert v == Ok(ShiftOr(0x80, 0x00));
    Bit15Iff(32768);
    assert ToSigned(32768) == -32768;
  }

  /** (0x00, 0x00) decodes to 0 V. */
  lemma ZeroScale()
    ensures AnalogVolts([0x00, 0x00], 0) == Ok(0.0)
  {
    var v := ChannelValue([0x00, 0x00], 0);
    assert v == Ok(ShiftOr(0x00, 0x00));
    Bit15Iff(0);
    assert ToSigned(0) == 0;
  }

  /** (0xFF, 0x7F), the largest positive code, decodes to 32767/3276.8 V, just under +10 V. */
  lemma PositiveFullScale()
    ensures AnalogVolts([0xFF, 0x7F], 0) == Ok(327670.0 / 32768.0)
  {
    var v := ChannelValue([0xFF, 0x7F], 0);
    assert v == Ok(ShiftOr(0x7F, 0xFF));
    Bit15Iff(32767);
    assert ToSigned(32767) == 32767;
  }
}
