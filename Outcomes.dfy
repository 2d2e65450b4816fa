/**
  Optional values, and the results of driver operations: a value or one of
  the failures the Python driver raises as an exception.
*/
module Outcomes {

  datatype Option<+T> = None | Some(value: T)

  /** The exceptions the driver can raise, one constructor per cause. */
  datatype Error =
    | ReadTimeout        // the endpoint read timed out (usb.core.USBError)
    | NonAsciiReply      // a reply byte is 128 or above (UnicodeDecodeError in decode('ascii'))
    | EchoPrefixMissing  // the reply lacks the expected "info ..." echo (IndexError in split(...)[1])
    | PacketSizeIndex    // no entry of PACKET_SIZE_ARG_TO_SIZE at that index (IndexError)
    | NotAnInteger       // int() of a reply that is not a decimal numeral (ValueError)
    | NoScanMethod       // start_reading calls self.scan, which the class lacks (AttributeError)
    | SlotOutOfRange     // get_channel indexes past the data block (IndexError)

  /** A value, or the exception raised instead of returning it. */
  datatype Result<+T> = Ok(value: T) | Err(error: Error)

  /** Completion of an operation whose Python counterpart returns nothing useful. */
  datatype Outcome = Pass | Fail(error: Error)
}
