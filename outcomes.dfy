/** The optional value used wherever the relay's collaborators may produce nothing. */
module Outcomes {

  datatype Option<+T> = None | Some(value: T)
}
