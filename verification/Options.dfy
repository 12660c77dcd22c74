/** An optional value: the source's `undefined` or `null`. */
module Options {
  datatype Option<+T> = None | Some(value: T) {
    /** The source's `a ?? b`. */
    function OrElse(default: T): T {
      if Some? then value else default
    }
  }
}
