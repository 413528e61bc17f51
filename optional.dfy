/** The optional-value datatype shared by the other modules: a Go function
    that returns a reference that may be `nil`, or a single `error` that may be `nil`,
    is modelled by an Option. */
module Optional {

  datatype Option<+T> = None | Some(value: T)

}
