/** Values shared by every part of the model: optional values (JavaScript's
    `undefined`/`null` versus a present value) and the outcome of a call to the
    remote HTTP API, which either resolves with a value or rejects with the
    message of the thrown error. */
module Results {

  datatype Option<+T> = None | Some(value: T) {

    /** The value, or `default` when absent. */
    function GetOr(default: T): T {
      match this
      case Some(v) => v
      case None => default
    }
  }

  /** The settled outcome of one awaited API request. */
  datatype Outcome<+T> = Ok(value: T) | Err(message: string)

  /** The outcome of a request whose response body is ignored (PUT, DELETE, POST). */
  type Ack = Outcome<()>
}
