/** Optional values, shared by every module of the model. */
module Common {

  /** A value that may be missing: Python's `None` versus a present value. */
  datatype Option<+T> = None | Some(value: T) {
    function GetOr(default: T): T {
      match this
      case Some(v) => v
      case None => default
    }
  }

  /** Python truthiness of an optional text: present and not empty. */
  predicate HasText(o: Option<string>) { o.Some? && o.value != "" }
}
