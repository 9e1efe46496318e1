/** The conventional optional value: `None` stands for "absent" (a missing
    file) or "failed" (an amount that does not parse). */
module Wrappers {

  datatype Option<T> = None | Some(value: T)

}
