/** Stands for the C++ exceptions: an operation that throws returns `Failure`. */
module Common {

  datatype Error = InvalidArgument | RuntimeError

  datatype Result<+T> = Success(value: T) | Failure(error: Error)

  datatype Outcome = Pass | Fail(error: Error)
}
