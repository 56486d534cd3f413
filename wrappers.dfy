/** The optional value the model uses for "may be absent": a date that did not parse, a
    screen that has not loaded its customer, an error message not yet set. */
module Wrappers {

  datatype Option<+T> = None | Some(value: T)

}
