/** The optional value that stands for Ruby's `nil`-or-object results. */
module Wrappers {
  datatype Option<+T> = None | Some(value: T)
}
