/** What a route handler sends back: an HTTP status and a JSON body. */
module Http {
  import opened Schema

  /** A document id (`_id`). Ids are allocated by the store and never reused. */
  type Id = nat

  /** A stored document together with its id, as the API serialises it. */
  datatype Doc<T> = Doc(id: Id, rec: T)

  datatype Body<T> =
    | Item(item: T)                                   // a single document or projection
    | Items(items: seq<T>)                            // an array of documents
    | Message(text: string)                           // { message }
    | Invalid(paths: seq<string>)                     // { errors }: the request-validator's failed fields, in order
    | ServerError(message: string, cause: seq<FieldError>)   // { message: 'Server error', error }
    | Denied                                          // written by the auth middleware; its wording is not modelled

  datatype Response<T> = Response(status: int, body: Body<T>)

  const SERVER_ERROR: string := "Server error"

  /** The catch branch every handler shares: any thrown failure becomes a 500. */
  function Failed<T>(cause: seq<FieldError>): Response<T> {
    Response(500, ServerError(SERVER_ERROR, cause))
  }
}
