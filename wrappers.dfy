/** The optional value used for the slider's measurement slots and its
    pending drag anchor, where the JavaScript stores `undefined`. */
module Wrappers {
  datatype Option<+T> = None | Some(value: T)
}
