/** The optional value used for the two regular-expression matches and for the
    lens simplifier, whose failure ends the process. */
module Wrappers {

  datatype Option<+T> = None | Some(value: T)
}
