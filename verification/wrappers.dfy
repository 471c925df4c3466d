/** The optional value used for the timer's callback slot and for the lookup tables
    that map an identifier to the register it selects (None: no register). */
module Wrappers {

  datatype Option<+T> = None | Some(value: T)
}
