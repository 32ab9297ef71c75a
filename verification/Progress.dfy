/** Progress of plugin operations (pkg/plugin/resource/resource.go). */
module Progress {

  datatype PluginOp = ReadOp | CreateOp | UpdateOp | DeleteOp | Unnamed

  datatype Status = Succeeded | Failure | InProgress | Pending

  datatype ErrorCode =
    | NotUpdatable | InvalidRequest | AccessDenied | UnauthorizedTaggingOperation | InvalidCredentials | AlreadyExists
    | NotFound | ResourceConflict | Throttling | ServiceLimitExceeded | NotStabilized | GeneralServiceException
    | ServiceInternalError | ServiceTimeout | NetworkFailure | InternalFailure
    | DependencyFailure | UnforeseenError | PluginNotFound | NotSet

  predicate IsRecoverable(code: ErrorCode) {
    code in {Throttling, NotStabilized, ServiceInternalError, ServiceTimeout, NetworkFailure, InternalFailure, NotFound}
  }

  datatype ProgressResult = ProgressResult(
    operation: PluginOp, status: Status, errorCode: ErrorCode, attempts: int, maxAttempts: int,
    statusMessage: string)
  {
    predicate FinishedSuccessfully() { status == Succeeded }

    /** A failure that will not be tried again. */
    predicate Failed() { status == Failure && (!IsRecoverable(errorCode) || attempts > maxAttempts) }

    predicate HasFinished() { FinishedSuccessfully() || Failed() }
  }
}
