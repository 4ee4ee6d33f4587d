/** The conventional Some/None datatype, used where `getBalance` returns -1 and
    `getAccountType` the empty string for a missing account. */
module Optional {

  datatype Option<+T> = None | Some(value: T)
}
