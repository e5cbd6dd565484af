/** Small failure-carrying datatypes shared by the other modules. */
module Wrappers {

  /** A value that may be absent (a null reference, a missing archive entry, a failed match). */
  datatype Option<+T> = None | Some(value: T)

  /** The exceptions the extractor can raise, one constructor per .NET exception type. */
  datatype Error =
    | ArgumentNull     // ArgumentNullException: the path is null
    | FileNotFound     // FileNotFoundException: no file at the path
    | NotSupported     // NotSupportedException: bad signature, or no document entry
    | EndOfStream      // EndOfStreamException: the header read came back short
    | InvalidData      // InvalidDataException: the container cannot be opened as an archive

  /** Either the value a call returns or the exception it throws. */
  datatype Result<+T> = Success(value: T) | Failure(error: Error)
}
