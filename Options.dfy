/** The conventional optional value, used for absent request fields, a missing
    store file and the matcher's "no rule matched" reference. */
module Options {

  datatype Option<+T> = None | Some(value: T)
}
