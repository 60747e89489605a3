/** Nullable values: a Spark column that is null is modelled as None. */
module Wrappers {
  datatype Option<+T> = None | Some(value: T)
}
