/** The error taxonomy of the speed tester and the result and option
    wrappers every tester and the orchestrator return. */
module Errors {

  /** Why a well-formed exchange produced an unusable measurement.
      The source carries this as a formatted message; the model keeps
      the information the message is built from. */
  datatype Reason =
    | ZeroDuration                 // "zero duration"
    | HttpStatus(status: int)      // "HTTP status: <code>" from the download connection
    | UploadStatus(status: int)    // "upload endpoint returned status <code>"

  datatype SpeedTestError =
    | Network(message: string)
    | Io(message: string)          // reserved, never produced by the core
    | InvalidResponse(reason: Reason)
    | Aborted(message: string)     // reserved, never produced by the core

  datatype Result<+T> = Ok(value: T) | Err(error: SpeedTestError)

  datatype Option<+T> = None | Some(value: T)
}
