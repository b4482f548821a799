/** The optional-value type used for the `ext` refinements of the classification. */
module Wrappers {

  /** Absent (`None`) or present (`Some(value)`) refinement. */
  datatype Option<+T> = None | Some(value: T)
}
