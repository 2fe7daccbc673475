/**
 * The external key-value store client, reduced to what the helper asks of
 * it. Every call is recorded in `sent`; the store's answer to a request comes
 * from `respond`, an arbitrary function fixed when the client is created, so
 * any pattern of successes and failures can be described.
 */
module Store {

  import opened Values

  /** The requests the helper issues, with the parameters it fills in. */
  datatype Request =
    | PutItem(tableName: string, item: map<string, Scalar>)
    | UpdateItem(
        tableName: string,
        key: Record,
        updateExpression: string,
        expressionAttributeValues: seq<(string, Tree)>,
        expressionAttributeNames: map<string, string>,
        returnValues: string)
    | Scan(tableName: string, projectionExpression: string, expressionAttributeNames: map<string, string>)

  /** A store answer: the items it returns, or the message of the failure it raises. */
  datatype Response = Answer(items: seq<Record>) | StoreFailure(message: string)

  class Client {
    const respond: Request -> Response
    var sent: seq<Request>

    constructor (respond: Request -> Response)
      ensures this.respond == respond && sent == []
    {
      this.respond := respond;
      sent := [];
    }

    /** Issues one request and returns the store's answer to it. */
    method Send(request: Request) returns (response: Response)
      modifies this`sent
      ensures sent == old(sent) + [request]
      ensures response == respond(request)
    {
      sent := sent + [request];
      response := respond(request);
    }
  }
}
