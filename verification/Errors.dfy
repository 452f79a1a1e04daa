/** Error codes and optional values shared by every component. */
module Errors {

  datatype Option<+T> = None | Some(value: T)

  /** A `boost::system::error_code`. `Ok` is the only one whose `value()` is zero. */
  datatype ErrorCode =
    | Ok
    | Eof
    | NotFound
    | Aborted
    | InvalidResponse
    | Other(code: nat)
}
