/** Small building blocks shared by the other modules. */
module Wrappers {
  /** The optional value of the bot's Python code: `None` or a value. */
  datatype Option<+T> = None | Some(value: T)

  /** Python's `min` on two integers. */
  function Min(a: int, b: int): int {
    if a < b then a else b
  }
}
