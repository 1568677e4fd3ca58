/**
  The results the controllers hand back to ASP.NET. Each constructor stands for
  one of `ControllerBase`'s result helpers; routing, status codes and JSON
  serialisation are not modelled.
*/
module ActionResults {

  datatype Response<+T> =
    | Ok(body: T)                      // `Ok(body)`
    | Created(id: int, body: T)        // `CreatedAtAction(nameof(Get), new { id }, body)`
    | NotFound(message: string)        // `NotFound(message)`
    | BadRequest(message: string)      // `BadRequest(message)`
    | Unauthorized(message: string)    // `Unauthorized(new { Message = message })`
    | IdsExhausted                     // no identifier left to hand out (see the dictionary store)

  /** The body of an `Ok` that acknowledges a change: a message and, for updates, the new value. */
  datatype Ack = Ack(message: string) | AckWithData(message: string, data: string)
}
