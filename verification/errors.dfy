// The server's error codes (utils/error/qls_error.h) and the value a call that
// may throw one of them produces.

module Errors {

  datatype Errc =
    | IncompletePackage
    | EmptyLength
    | DataTooSmall
    | InvalidData
    | UserNotExisted
    | PrivateRoomExisted
    | InvalidVerification
    | VerificationExisted
    | VerificationNotExisted
    | SocketPointerExisted
    | SocketPointerNotExisted
    | NullSocketPointer
    | LogicError

  datatype Result<+T> = Ok(value: T) | Err(error: Errc)

  datatype Option<+T> = None | Some(value: T)
}
