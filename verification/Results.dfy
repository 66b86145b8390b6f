/** Values that may be missing, and outcomes of actions that may be refused. */
module Results {
  datatype Option<+T> = None | Some(value: T)

  /** A thrown exception is a failure carrying its message. */
  datatype Result<+T> = Ok(value: T) | Failed(message: string)
}
