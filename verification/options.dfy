/** The optional value used wherever a field of a record may be `undefined`
    or `null`, and wherever a remote lookup may fail. */
module Options {
  datatype Option<T> = None | Some(value: T) {
    /** The value, or `default` when there is none. */
    function GetOr(default: T): T {
      match this
      case Some(v) => v
      case None => default
    }
  }
}
