/** The optional value used throughout the model: `None` stands for Go's nil
    (or for "no value" where the source uses a zero value or an error). */
module Wrappers {

  datatype Option<+T> = None | Some(value: T)
}
