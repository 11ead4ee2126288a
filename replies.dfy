/** The JSON dictionaries the routes return, together with the HTTP status
    that is in force when they are returned. */
module Replies {

  /** A value inside a reply dictionary. */
  datatype Value = Text(text: string) | Number(number: int)

  /** A reply: the HTTP status (200 unless the handler set another one) and
      the returned dictionary, as key/value pairs in the order written. */
  datatype Reply = Reply(status: int, body: seq<(string, Value)>)

  /** The shape the auth gate uses for both of its refusals. */
  function GateFailure(message: string): (r: Reply)
  {
    Reply(401, [("result", Text("failed")), ("message", Text(message))])
  }

  const DeniedMessage := "api-key is not valid here"
  const FaultMessage := "Something went wrong, exiting..."

  /** The shape the autoban route uses for its errors. */
  function RouteError(status: int, message: string): (r: Reply)
  {
    Reply(status, [("status", Number(status)), ("message", Text(message))])
  }

  /** The shape the routes use on success (bottle's default status 200). */
  function RouteSuccess(message: string): (r: Reply)
  {
    Reply(200, [("status_code", Number(200)), ("message", Text(message))])
  }
}
