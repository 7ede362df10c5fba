/** Absent values, as `std::optional` and nullable pointers in the firmware. */
module Wrappers {
  datatype Option<+T> = None | Some(value: T)
}
