/** Failure-carrying values shared by every module of the model. */
module Wrappers {

  datatype Option<+T> = None | Some(value: T)

  /**
   * What a Go function of the system hands back instead of a result:
   * - AppError: a `*types.AppError` carrying an HTTP status and a message;
   * - Plain: a bare Go `error` value (models/admin.go returns these);
   * - RuntimePanic: an index out of range or a nil dereference; net/http
   *   recovers it for the one request and sends no response.
   */
  datatype AppError = AppError(statusCode: int, message: string) | Plain(text: string) | RuntimePanic

  datatype Result<+T> = Ok(value: T) | Err(error: AppError) {

    predicate IsFailure() {
      Err?
    }

    function PropagateFailure<U>(): Result<U>
      requires Err?
    {
      Err(error)
    }

    function Extract(): T
      requires Ok?
    {
      value
    }
  }
}
