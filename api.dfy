/** Option and Result wrappers, and the errors the request handlers answer with
    (an ApiError carries the HTTP status code and the message the handler throws). */
module Api {

  datatype Option<+T> = None | Some(value: T)

  /** The outcome of a handler: its value, or the error it throws. */
  datatype Result<+T> = Ok(value: T) | Err(error: Error)

  datatype Error =
    | ApiError(statusCode: nat, message: string)
      /** Mongoose could not cast a request value to the schema's Number type (the error handler answers 500). */
    | CastError(statusCode: nat)
      /** A schema validator refused the document Mongoose was about to save (the error handler answers 500). */
    | ValidationError(statusCode: nat)

  const FieldsRequired := ApiError(400, "Title, description, and due date are required")
  const SubTaskFieldsRequired := ApiError(400, "Task ID, title, and description are required")
  const PastOrInvalidDueDate := ApiError(400, "Due date cannot be in the past or invalid")
  const DueDateOrStatusRequired := ApiError(400, "Due date or status is required")
  const InvalidStatus := ApiError(400, "Invalid status")
  const InvalidDueDate := ApiError(400, "Invalid due date")
  const StatusRequired := ApiError(400, "Status is required")
  const TaskNotFound := ApiError(404, "Task not found")
  const SubTaskNotFound := ApiError(404, "Sub task not found")
  const NumberCastFailed := CastError(500)
  const RequiredFieldMissing := ValidationError(500)
}
