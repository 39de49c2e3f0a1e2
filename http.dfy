/** What a route handler gives back when it succeeds: the status code, the body (a data object or a
    message, always with status 'success'), and an optional extra header. A handler that fails
    returns the error it would throw; the server turns that into a response. */
module Http {
  import opened Outcomes

  datatype Header = Header(name: string, value: string)
  datatype Body<+D> = Data(data: D) | Message(message: string)
  datatype Reply<+D> = Reply(code: int, body: Body<D>, header: Option<Header>)

  const StatusOk := 200
  const StatusCreated := 201

  /** The outcome of a payload validator: None when the payload is accepted, otherwise the
      validation message, which the validator throws as an InvariantError. */
  type Verdict = Option<string>

}
