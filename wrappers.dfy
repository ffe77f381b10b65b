/** Failure-carrying results and the Python exceptions the reader raises. */
module Wrappers {

  datatype Option<+T> = None | Some(value: T)

  datatype Result<+T, +E> = Success(value: T) | Failure(error: E)

  /** The exception classes that the reader can raise, by name. */
  datatype Exception =
    | AvaReadException   // the reader's own format error (bad magic, old version)
    | AttributeError     // unknown field name on a mapped structure
    | IndexError         // channel or frame index out of range
    | KeyError           // unknown channel serial number
    | ValueError         // enum value outside its set, bad date, bad version text, numpy shape error
    | OSError            // seek to a negative position
}
