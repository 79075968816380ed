/** Error kinds raised by the inventory core and the Option/Result wrappers
    that carry them.  Every exception the source raises on a typed argument
    becomes one `Error` constructor; the operation then returns `Err(kind)`
    instead of raising, and nothing is changed. */
module Results {

  /** The failure kinds of `Producto` and `Inventario`. */
  datatype Error =
    | EmptyName                                  // blank or empty product name
    | NameTooShort                               // trimmed name shorter than 2 characters
    | NegativePrice                              // price below zero
    | NegativeQuantity                           // quantity or amount below zero
    | NonPositiveAmount                          // a stock change of zero units
    | InsufficientStock(available: int, requested: int)
    | InvalidSearchName                          // lookup by a blank name

  datatype Option<+T> = None | Some(value: T)

  datatype Result<+T> = Ok(value: T) | Err(error: Error)
}
