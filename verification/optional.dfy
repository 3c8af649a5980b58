/** Optional values: a key that may be absent from a JSON object, a request
    field that may be missing, or a file that may not exist yet. */
module Optional {

  datatype Option<+T> = None | Some(value: T) {

    /** The wrapped value, or `default` when there is none. */
    function GetOr(default: T): T {
      match this
      case Some(v) => v
      case None => default
    }
  }

  /** Python truthiness of a request field that should hold a string:
      present and non-empty. */
  function Truthy(field: Option<string>): (r: bool)
    ensures !r <==> field == None || field == Some("")
  {
    field.Some? && |field.value| > 0
  }
}
