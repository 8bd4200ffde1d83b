/** The JSON responses the handlers send. */
module Http {
  import opened SignupSchema
  import opened Db

  /** Bodies of `res.json(...)`. The purchases body keeps the key
      `couresData` exactly as the handler spells it. */
  datatype Body =
    | Message(message: string)
    | InvalidInput(message: string, errors: seq<Issue>)
    | Token(token: string)
    | PurchaseData(purchases: seq<Purchase>, couresData: seq<Course>)

  /** A status code (200 when the handler does not set one) and a body. */
  datatype Response = Response(status: int, body: Body)
}
