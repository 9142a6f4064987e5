/** Return codes and optional values. */
module Outcomes {
  datatype Option<+T> = None | Some(value: T)
  datatype Result<+T, +E> = Ok(value: T) | Err(error: E)

  /** The `QDMI_*` codes the modelled functions return. `Undefined` marks a call that leaves the behaviour defined by
      C++: a read or write outside an object. */
  datatype Code =
    | Success
    | OutOfMem
    | OutOfRange
    | InvalidArgument
    | NotSupported
    | BadState
    | PermissionDenied
    | Fatal
    | Undefined
}
