/** Java references that may be null. */
module Nullable {

  /** `None` stands for a null reference, `Some(v)` for a non-null one. */
  datatype Option<+T> = None | Some(value: T)
}
