/** A value that may be absent: stands for C#'s `null` references and `Nullable<T>` values. */
module Nullable {
  datatype Option<+T> = None | Some(value: T)
}
