/** The optional-value datatype used wherever the game looks something up that may be absent. */
module Wrappers {

  /** A value that may be missing; `None` stands for a failed dictionary lookup. */
  datatype Option<+T> = None | Some(value: T)
}
