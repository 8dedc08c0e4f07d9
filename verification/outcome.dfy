/** How an operation of the emulator can end. */
module Outcomes {

  /** Why there is no next state. `Panic`: the program reports an error and exits.
      `OutOfBounds`: it indexes past the end of a memory buffer. `Endless`: it never returns. */
  datatype Why = Panic | OutOfBounds | Endless

  datatype Outcome<+T> = Running(value: T) | Stopped(why: Why)

  datatype Option<+T> = None | Some(value: T)
}
