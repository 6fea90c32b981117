/** Option and Result values used where the generator returns `null` or throws. */
module Wrappers {

  datatype Option<+T> = None | Some(value: T)

  /** The generator either returns its entries or throws an Error with a message. */
  datatype Result<+T> = Success(value: T) | Failure(error: string)
}
