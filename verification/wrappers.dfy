/** The optional-value datatype shared by the model. */
module Wrappers {

  /** `None` stands for JavaScript's `null`; `Some(v)` for a present value. */
  datatype Option<+T> = None | Some(value: T)
}
