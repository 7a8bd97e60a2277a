/** Small result types shared by the modules of this model. */
module Wrappers {

  /** A value that may be absent. For a JavaScript argument, `None` stands for
      `undefined` or `null`. */
  datatype Option<+T> = None | Some(value: T)

  /** What a JavaScript function call does: it returns a value or it throws
      an `Error` carrying a message. */
  datatype Outcome<+T> = Returned(value: T) | Thrown(message: string)
}
