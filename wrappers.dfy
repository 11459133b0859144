/** The explicit "absent" result that replaces a Java null return. */
module Wrappers {

  datatype Option<+T> = None | Some(value: T)
}
