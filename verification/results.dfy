/** Failure-carrying values shared by every module of the model.
    `Option` stands for a value that may be absent (a NaN cell of the line
    list, a row that was not found, the missing marker of a padded column);
    `Result` for a computation that may raise instead of returning. */
module Results {

  datatype Option<+T> = None | Some(value: T)

  datatype Result<+T, +E> = Ok(value: T) | Err(error: E)

  /** The values present, in order, the missing ones skipped (what pandas
      keeps when it drops NaN). */
  function Values<T>(xs: seq<Option<T>>): seq<T>
  {
    if |xs| == 0 then []
    else (if xs[0].Some? then [xs[0].value] else []) + Values(xs[1..])
  }
}
