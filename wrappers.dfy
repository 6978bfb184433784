/** The optional value used wherever a Python call can come back with nothing (`None`). */
module Wrappers {

  datatype Option<+T> = None | Some(value: T)

  /** How a tab method ends: it returns a boolean, or a Python exception escapes it. */
  datatype Status = Returned(value: bool) | Raised
}
