/** Error values shared by every decoder.

    The library reports a failure as an error carrying a message, an
    "incomplete" flag (the bytes seen so far are valid, more are needed) and an
    optional position: the absolute byte offset and the 1-based index of the
    record that failed.  Places where the Rust code would abort the process
    (an index out of bounds, an integer overflow in a debug build) are kept
    visible in the model as the separate error value `Panic`. */
module Errors {

  datatype Option<+T> = None | Some(value: T)

  datatype EtError =
    | Fail(msg: string, incomplete: bool, byte: Option<nat>, record: Option<nat>)
    | Panic(site: string)

  datatype Result<+T> = Ok(value: T) | Err(error: EtError)

  /** A grammar violation: never retried. */
  function Malformed(msg: string): (e: EtError)
    ensures e.Fail? && e.msg == msg && !e.incomplete && e.byte.None? && e.record.None?
  {
    Fail(msg, false, None, None)
  }

  /** "Valid so far, needs more bytes". */
  function Incomplete(msg: string): (e: EtError)
    ensures e.Fail? && e.msg == msg && e.incomplete && e.byte.None? && e.record.None?
  {
    Fail(msg, true, None, None)
  }

  /** Tags an error with the byte offset and the record number (the glue
      between the buffer and the BAM and SAM decoders does this). */
  function Locate(e: EtError, byte: nat, record: nat): (r: EtError)
    ensures e.Fail? ==> r == Fail(e.msg, e.incomplete, Some(byte), Some(record))
    ensures e.Panic? ==> r == e
  {
    match e
    case Fail(msg, incomplete, _, _) => Fail(msg, incomplete, Some(byte), Some(record))
    case Panic(_) => e
  }
}
