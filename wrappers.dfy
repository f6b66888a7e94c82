/** The optional values the widget's properties return (Python's `None`). */
module Wrappers {
  datatype Option<+T> = None | Some(value: T)
}
