/** What several of the modules share. */
module Basics {

  datatype Option<+T> = None | Some(value: T)

  /** A task is a closure; only its identity matters. */
  type Task = nat
}
