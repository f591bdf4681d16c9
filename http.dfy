/**
 * What the Express handlers send back, and the identity a signed token carries.
 */
module Http {

  /** `res.status(status).json(body)` on success, `res.status(status).json({message})` on failure. */
  datatype Reply<+T> = Success(status: int, body: T) | Failure(status: int, message: string)

  /** The payload every token is signed over: `{ id, email }`. */
  datatype Claims = Claims(id: int, email: string)
}
