/** The optional-value datatype used by the parsers of the model. */
module Wrappers {

  /** Either nothing (`None`) or one value (`Some`). */
  datatype Option<+T> = None | Some(value: T)
}
