/** The one option type the whole model uses for a lookup that can miss. */
module Wrappers {

  datatype Option<+T> = None | Some(value: T)
}
