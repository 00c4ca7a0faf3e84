/** Datatypes several modules share. */
module Common {

  datatype Option<+T> = None | Some(value: T)

  /** How the kernel answers one send: taken, EAGAIN/EINPROGRESS, or any other errno. */
  datatype Outcome = Took | Again | Fail
}
