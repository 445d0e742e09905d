/** Shared wrappers and the errors the interview server actions raise. */
module Common {

  /** A value that may be absent: JavaScript's `null`/`undefined`. */
  datatype Option<+T> = None | Some(value: T)

  /** The outcome of a server action: a value or the error it throws. */
  datatype Result<+R, +E> = Success(value: R) | Failure(error: E)

  /** The errors that reach the caller of a server action. */
  datatype Error =
    | Unauthorized      // no signed-in user
    | UserNotFound      // signed in, but no user record
    | GenerationFailed  // quiz generation failed, whatever the cause
    | SaveFailed        // the assessment could not be written

  /** The message each error carries to the caller. */
  function Message(e: Error): (m: string)
    ensures m != []
  {
    match e
    case Unauthorized => "Unauthorized"
    case UserNotFound => "User not found"
    case GenerationFailed => "Failed to generate quiz questions"
    case SaveFailed => "Failed to save quiz result"
  }

  /** Each error has its own message, so a caller can tell them apart. */
  lemma MessagesDistinct(a: Error, b: Error)
    ensures Message(a) == Message(b) <==> a == b
  {
  }
}
