/** Optional values, the settled result of one remote call, and a value-or-error result.
    JavaScript's `null`/`undefined` become `None`; a promise that resolves or rejects
    becomes an `Outcome`. */
module Wrappers {

  datatype Option<+T> = None | Some(value: T) {
    function GetOr(default: T): T {
      match this
      case Some(v) => v
      case None => default
    }
  }

  /** How one call to the hosted backend settled: it succeeded, or it failed with a
      human-readable message. Nothing else about the remote store is modelled. */
  datatype Outcome = Ok | Err(message: string)

  /** A request that is either built or refused before it reaches the backend. */
  datatype Result<+T> = Success(value: T) | Failure(error: string)

  /** A transient notification shown to the user. */
  datatype Toast = Toast(title: string, description: Option<string>, destructive: bool)

  /** One press of a form's submit button: the form state afterwards, the payload handed
      to the backend (`None` when nothing is sent) and the validation notice shown. */
  datatype Submission<F, P> = Submission(form: F, call: Option<P>, notice: Option<Toast>)
}
