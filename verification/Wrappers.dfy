/** Result shapes shared by the models. */
module Wrappers {
  datatype Option<+T> = None | Some(value: T)

  /** What a function that may raise ValueError gives back. */
  datatype Checked<+T> = Returns(value: T) | ValueError
}
