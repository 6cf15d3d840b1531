/** The conventional optional value, used for JavaScript `null`, `NaN` and failed steps. */
module Wrappers {

  datatype Option<+T> = None | Some(value: T)
}
