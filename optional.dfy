/** The optional value both components use for JavaScript's `null`/`undefined`. */
module Optional {

  datatype Option<T> = None | Some(value: T)

}
