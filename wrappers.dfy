/** The optional value used wherever the program may get "nothing":
    a failed MIME guess, a missing Content-Length, a payload that does not decode. */
module Wrappers {

  datatype Option<+T> = None | Some(value: T)
}
