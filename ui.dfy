/** The values the two React components exchange with the API client: the
    task as the client hands it out, and how an awaited call settles. */
module Ui {
  /** A task as the frontend holds it. Only `id` is used by the state
      updates; the other fields are carried along unchanged. */
  datatype UiTask = UiTask(id: int, title: string, description: string, isCompleted: bool,
                           createdAt: string, updatedAt: string)

  /** What a `catch` block receives: an `Error` object with its message,
      or any other thrown value. */
  datatype Thrown = ErrorObject(message: string) | OtherValue

  /** How an awaited promise ends: it resolves with a value or rejects with
      a thrown value. */
  datatype Settled<T> = Resolved(value: T) | Rejected(thrown: Thrown)

  /** `err instanceof Error ? err.message : fallback`. An `Error` with an
      empty message gives the empty message, not the fallback. */
  function ErrorText(e: Thrown, fallback: string): (r: string)
    ensures e.ErrorObject? ==> r == e.message
    ensures e.OtherValue? ==> r == fallback
  {
    match e
    case ErrorObject(m) => m
    case OtherValue => fallback
  }
}
