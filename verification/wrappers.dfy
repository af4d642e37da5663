/** A minimal optional-value datatype, used where the page reads something
    that may be absent (an element looked up by id, the index of a match). */
module Wrappers {

  datatype Option<+T> = None | Some(value: T)
}
