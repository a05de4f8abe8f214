/** The option type shared by the modules of this project. */
module Wrappers {

  datatype Option<+T> = None | Some(value: T)

  /** Two results of a step that may raise, one behind the other. */
  function Glue<T>(a: Option<seq<T>>, b: Option<seq<T>>): Option<seq<T>>
  {
    if a.None? || b.None? then None else Some(a.value + b.value)
  }
}
