/**
 * Optional values and the two exceptions the stores raise, as values.
 */
module Wrappers {

  /** Python's `X | None`. */
  datatype Option<+T> = None | Some(value: T)

  /** The exceptions raised by the stores. */
  datatype StoreError =
    | ValueError(message: string)   // raised by the item store for an unknown id
    | KeyError(key: int)            // raised by `self.carts[cart_id]` for an unknown cart

  /** The outcome of a store operation that may raise. */
  datatype Result<+T> = Ok(value: T) | Err(error: StoreError)
}
