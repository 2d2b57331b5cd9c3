/** The optional value that stands for a nullable slot (`string | null`, a missing file). */
module Wrappers {
  datatype Option<+T> = None | Some(value: T)
}
