/** The nullable values of the Kotlin source (`Any?`, `String?`, `Entry?`). */
module Wrappers {

  datatype Option<+T> = None | Some(value: T)
}
