/** Small wrapper datatypes shared by the rest of the model. */
module Outcomes {

  /** Java's `Optional` and nullable references. */
  datatype Option<T> = None | Some(value: T)

  /**
   * The outcome of a call into code this model does not see: either it
   * returned a value, or it threw (any `Throwable`).
   */
  datatype Attempt<T> = Done(value: T) | Threw
}
