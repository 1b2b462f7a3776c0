/** The absent-or-present value used for JavaScript's `null` / `undefined` results. */
module Optional {

  datatype Option<+T> = None | Some(value: T)

  /** The success-or-rejection value used where the source shows a notification and returns. */
  datatype Result<+R, +E> = Success(value: R) | Failure(error: E)
}
