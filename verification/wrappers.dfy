/** A minimal Option type used where the modelled code can produce a value
    that is not a finite number (a division by zero in JavaScript). */
module Wrappers {

  datatype Option<+T> = None | Some(value: T)
}
