/** How operations report what came of them. */
module Results {
  datatype Option<T> = None | Some(value: T)

  /** Why a step of the decoder stopped; the format errors are one value. */
  datatype Code = Success | NeedsMoreInput | NeedsMoreOutput | Failure
}
