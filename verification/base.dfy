/** Vocabulary shared by every module of the ledger model: record ids,
    optional values, and the failure kinds the routes report. */
module Base {

  /** Document ids. Every store issues them from one creation counter, so an
      id also orders documents by creation time. */
  type Id = nat

  datatype Option<+T> = None | Some(value: T) {

    /** The value, or `default` when absent (the source's `x || default`
        and Mongoose schema defaults). */
    function GetOr(default: T): T {
      match this
      case Some(v) => v
      case None => default
    }
  }

  /** The routes answer with HTTP status codes; the model keeps only their
      meaning. NotFound is a 404, Conflict the customer-type rejection,
      Invalid a failed schema validation. */
  datatype Error = NotFound | Conflict | Invalid

  datatype Result<+T> = Ok(value: T) | Err(error: Error)

  function Max(a: int, b: int): int {
    if a < b then b else a
  }
}
