/** The values that reach a catch block: whatever the store, or anything under it, throws. */
module Errors {
  import opened Wrappers

  /**
   * A thrown value, reduced to what the handlers and the error handler look at:
   * `message` is present exactly when the value is an Error instance, and `code` is its
   * `code` property when it has a numeric one.
   */
  datatype Thrown = Thrown(message: Option<string>, code: Option<int>)

  /** MongoDB's code for a unique-index violation. */
  const DuplicateKeyCode := 11000
}
