/** The optional value used for Go's `*string` (nil or a pointer to a string)
    and for results that may be absent. */
module Optional {

  datatype Option<+T> = None | Some(value: T)
}
