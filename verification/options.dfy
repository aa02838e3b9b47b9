/** The value-or-nothing type used wherever the Java code may see `null`. */
module Options {

  datatype Option<+T> = None | Some(value: T) {

    /** The carried value, or `default` for None (Objects.requireNonNullElse). */
    function GetOr(default: T): T {
      if Some? then value else default
    }
  }
}
