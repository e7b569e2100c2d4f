/** What every handler shares: the request body as the JSON decoder left it,
    the (status, JSON body) pair a handler answers with, and the shared-secret
    check. */
module Api {

  /** A JSON request body: either the decoder failed, or it produced a record. */
  datatype Decoded<+T> = InvalidJson | Json(value: T)

  /** The JSON object a handler writes: `{"error": …}`, the storage-failure
      object `{"error": …, "table": …}`, or a success payload. */
  datatype Body<+P> =
    | Failed(error: string)
    | StoreFailed(error: string, table: string)
    | Ok(payload: P)

  /** An HTTP status code and the JSON body sent with it. */
  datatype Reply<+P> = Reply(status: int, body: Body<P>)

  function Error<P>(status: int, message: string): (r: Reply<P>)
    ensures r.status == status && r.body.Failed?
  {
    Reply(status, Failed(message))
  }

  /** subtle.ConstantTimeCompare(a, b) == 1: equal length and equal bytes.
      Only its result is modelled, not its timing. */
  predicate TimingSafeEq(a: string, b: string) { a == b }

  /** The check of the serverless handlers: fails closed on an empty token or
      an empty (unconfigured) secret, otherwise compares the two. */
  function Authorized(token: string, secret: string): (ok: bool)
    ensures ok <==> token != "" && token == secret
    ensures secret == "" ==> !ok
  {
    token != "" && secret != "" && TimingSafeEq(token, secret)
  }
}
