/** Presence or absence of a value: what the document library's getters return. */
module Options {

  datatype Option<+T> = None | Some(value: T) {

    /** The value if present, else the given default (JavaScript's `x || d` on a present, truthy x). */
    function GetOr(default: T): T {
      match this
      case Some(v) => v
      case None => default
    }
  }
}
