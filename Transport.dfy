/**
  The USB bulk endpoint pair the driver talks through.  The physical device
  is replaced by a log of the transfers the driver issued and a script of
  the outcomes its reads will see, each a block of bytes or a timeout.
*/
module Transport {
  import opened Text

  /** What one read of the IN endpoint yields. */
  datatype ReadOutcome = Block(data: seq<byte>) | TimedOut

  /** One transfer the driver issued: bytes written, or a read of `size` bytes with a timeout in milliseconds. */
  datatype Transfer =
    | Sent(ep: int, data: seq<byte>)
    | Requested(ep: int, size: int, timeoutMs: int)

  /** The outcome the next read sees: the head of the script, or a timeout once the script is used up. */
  function NextOutcome(script: seq<ReadOutcome>): ReadOutcome {
    if script == [] then TimedOut else script[0]
  }

  /** The script left after one read. */
  function AfterRead(script: seq<ReadOutcome>): (rest: seq<ReadOutcome>)
    ensures script != [] ==> [script[0]] + rest == script
    ensures script == [] ==> rest == []
  {
    if script == [] then [] else script[1..]
  }

  class Endpoint {
    /** Every transfer issued so far, oldest first. */
    var log: seq<Transfer>
    /** The outcomes of the reads still to come. */
    var script: seq<ReadOutcome>

    constructor (script: seq<ReadOutcome>)
      ensures log == [] && this.script == script
    {
      log := [];
      this.script := script;
    }

    /** A bulk write; writes always complete. */
    method Write(ep: int, data: seq<byte>)
      modifies this
      ensures log == old(log) + [Sent(ep, data)]
      ensures script == old(script)
    {
      log := log + [Sent(ep, data)];
    }

    /** A bulk read of at most `size` bytes, consuming one scripted outcome. */
    method Read(ep: int, size: int, timeoutMs: int) returns (r: ReadOutcome)
      modifies this
      ensures log == old(log) + [Requested(ep, size, timeoutMs)]
      ensures r == NextOutcome(old(script))
      ensures script == AfterRead(old(script))
    {
      log := log + [Requested(ep, size, timeoutMs)];
      r := NextOutcome(script);
      script := AfterRead(script);
    }
  }
}
