/**
  The exceptions the Python downloaders raise or let escape: the built-in
  lookup errors and the tool's own download errors.
*/
module PythonErrors {
  import opened Wrappers

  datatype PyError =
    | KeyError
    | IndexError
    | ValueError
    | FabricVersionNotFoundError
    | ServerDownloadError

  /** A Python call that returns a `T` or raises. */
  type Raises<T> = Result<T, PyError>
}
