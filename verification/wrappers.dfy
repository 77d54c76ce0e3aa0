/** Optional values, results, and the failures the journal code can raise. */
module Wrappers {

  datatype Option<+T> = None | Some(value: T)

  /** The outcome of an operation that may raise. */
  datatype Result<+T, +E> = Ok(value: T) | Err(error: E)

  /**
   * The exceptions of the journal code.
   * ParseError is the package's own exception class; ValueError stands for a
   * failed `int()` conversion or tuple unpacking, and AttributeError for a
   * call of `add_to_logbook` on a block that is not a task. Only ParseError
   * is ever caught inside the modelled code.
   */
  datatype Failure = ParseError(message: string) | ValueError | AttributeError
}
