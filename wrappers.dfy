/** Small value wrappers shared by the other modules. */
module Wrappers {

  /** A value that may be absent: a dictionary entry that may be missing,
      a header that may not be sent. */
  datatype Option<+T> = None | Some(value: T)

  /** What an outbound call to the firewall gives back to the caller:
      a decoded response, or an exception (transport error, undecodable
      body, ...) that unwinds to the caller's `except`. */
  datatype CallOutcome<+T> = Ok(payload: T) | Raise
}
