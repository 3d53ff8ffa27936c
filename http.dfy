/** What a handler receives and answers over HTTP, and what its `catch` block can catch. */
module Http {
  import opened Json

  /**
   * A thrown value, as the `catch` block sees it: an `Error` instance with its
   * `message`, or some other value (for which `error instanceof Error` is false).
   */
  datatype Thrown = ErrorInstance(message: string) | OtherValue

  /** The outcome of `await request.json()`: the parsed body, or the exception it throws. */
  datatype Parse = Parsed(body: Value) | Unparsable(thrown: Thrown)

  /** The JSON payload of a response: `{ success, message, recordId }` or `{ error }`. */
  datatype Payload = Submitted(message: string, recordId: nat) | Failed(error: string)

  datatype Response = Response(status: nat, payload: Payload)

  /**
   * The TypeError that `const { … } = body` throws for a `null` body. Its text
   * names the first property; all that matters here is that it is an `Error`
   * naming no store failure.
   */
  const DestructureError: Thrown := ErrorInstance("Cannot destructure property of the request body as it is null.")

  /** A `{ error }` response. */
  function Rejection(status: nat, error: string): Response
  {
    Response(status, Failed(error))
  }

  /** A 201 response carrying the identifier of the created record. */
  function Created(message: string, recordId: nat): Response
  {
    Response(201, Submitted(message, recordId))
  }
}
