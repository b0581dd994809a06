/** The nullable values of the widget (the selection may be null). */
module Wrappers {

  datatype Option<+T> = None | Some(value: T)
}
