/** Small value types shared by the route handlers and the client forms. */
module Common {

  /** JavaScript's `undefined`/`null` against a present value. */
  datatype Option<+T> = None | Some(value: T)

  /** A JSON response: its HTTP status and its `message` field. */
  datatype Response = Response(status: int, message: string)

  /** One outgoing notification e-mail: recipient and subject line. */
  datatype Mail = Mail(to: string, subject: string)

  /** JavaScript truthiness of an optional string: absent and "" are both falsy. */
  predicate Truthy(o: Option<string>)
  {
    o.Some? && o.value != ""
  }
}
