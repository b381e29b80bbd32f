/** Error codes and small value types shared by every component. */
module Errors {

  datatype Error =
    | NoError
    | InvalidArgument
    | NotFound
    | Conflict
    | StorageUnavailable
    | StorageFull
    | StorageCorrupt
    | MacroSyntax
    | MacroLimit
    | UsbNotReady
    | ExecutorBusy
    | ExecutionCancelled
    | AuthRequired
    | AuthFailed
    | RateLimited
    | Timeout
    | IoError
    | InternalError
    | CommitUncertain

  datatype Option<+T> = None | Some(value: T)

  const UINT32_MAX := 0xFFFF_FFFF
  const UINT64_MAX := 0xFFFF_FFFF_FFFF_FFFF

  /** The first failure wins; a later one never replaces it. */
  function FirstError(kept: Error, candidate: Error): Error {
    if kept == NoError then candidate else kept
  }
}
