/**
 * Optional values, as `fillerMap.get` returns them (`Fillers.Get`), and
 * results with an error, as readAllFilesContent returns them
 * (`Ingestion.ReadAllFilesContent`).
 */
module Wrappers {

  /** A value that may be absent; `None` stands for JavaScript's `undefined`. */
  datatype Option<+T> = None | Some(value: T)

  /** The outcome of an operation that can fail. */
  datatype Result<+T, +E> = Success(value: T) | Failure(error: E)
}
