/** Python's `None`-or-value, as used for the optional name parts, the
    customer e-mail, the conversion note and nullable order dates. */
module Optional {

  datatype Option<+T> = None | Some(value: T) {

    /** The value, or `default` when absent (Python's `x if x is not None else default`). */
    function GetOr(default: T): T
    {
      match this
      case Some(v) => v
      case None => default
    }
  }
}
