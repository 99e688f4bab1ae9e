/** The one optional-value type the model needs: JavaScript's `undefined`
    for a missing element, and a regular expression that does not match. */
module Wrappers {
  datatype Option<+T> = None | Some(value: T)
}
