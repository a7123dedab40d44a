/** The optional value used for nullable references and nullable results
    (Kotlin's `T?`). */
module Options {

  datatype Option<+T> = None | Some(value: T)
}
