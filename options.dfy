/** The usual optional-value wrapper, used for values that may be missing
    (a number that did not parse, a date that did not match, a key not found). */
module Options {

  datatype Option<+T> = None | Some(value: T)

}
