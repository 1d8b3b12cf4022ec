/** JavaScript's `null` / `undefined` for a value that may be missing. */
module Optional {

  /** `None` stands for both `null` and `undefined`: the detector tests with `== null`,
      which does not distinguish them. */
  datatype Option<+T> = None | Some(value: T) {

    /** The value, or `default` when it is missing (JavaScript's `??`). */
    function GetOr(default: T): T {
      match this
      case Some(v) => v
      case None => default
    }
  }
}
