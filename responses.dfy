/** The shapes the services and controllers answer with. */
module Responses {
  import opened Wrappers
  import opened Database

  /** The HTTP statuses the back end uses. */
  datatype HttpStatus = Ok | Created | BadRequest | Unauthorized | NotFound | Conflict | InternalServerError

  /** A response: a status with a "message" text, or a status with the
      payload the response map carries (the map's key is not modelled). */
  datatype Reply<+T> =
    | Message(status: HttpStatus, text: string)
    | Data(status: HttpStatus, value: T)

  /** What a state-changing operation returns, with the store it leaves. */
  datatype Step<+T> = Step(result: T, db: Db)

  /** An exception escaping a controller: Spring answers 500. */
  function Escaped<T>(r: Result<Reply<T>>): (reply: Reply<T>)
    ensures r.Returns? ==> reply == r.value
    ensures r.Throws? ==> reply == Message(InternalServerError, r.exception)
  {
    if r.Returns? then r.value else Message(InternalServerError, r.exception)
  }
}
