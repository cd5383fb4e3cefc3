/** The optional-value datatype used for Swift optionals (`String?`, `[String]?`). */
module Wrappers {
  datatype Option<+T> = None | Some(value: T)
}
