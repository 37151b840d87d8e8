/** The optional value used wherever the game keeps `None` for "absent". */
module Wrappers {

  datatype Option<+T> = None | Some(value: T)

}
