/** Vocabulary shared by every operator model: optional values, results that
    carry one of the library's error codes, and the two executor kinds. */
module Base {

  datatype Option<+T> = None | Some(value: T)

  /** The error conditions the operators raise. */
  datatype Error =
    | InvalidDim          // matxInvalidDim: slice dimension bookkeeping violated
    | NotSupported        // matxNotSupported: an operation the operator refuses at run time
    | UnsupportedExecutor // a static_assert on the executor kind does not hold
    | InvalidAssignment   // a static_assert on the output tuple's arity does not hold

  datatype Result<+T> = Success(value: T) | Failure(error: Error)

  /** Where evaluation happens: the sequential host or a stream on the device.
      Every operator reads this kind statically (is_device_executor_v). */
  datatype Executor = HostExecutor | DeviceExecutor
}
