/** Success/failure carriers used for Go's `(value, error)` returns. */
module Results {

  datatype Option<+T> = None | Some(value: T) {
    function GetOr(default: T): T {
      match this
      case Some(v) => v
      case None => default
    }
  }

  datatype Result<+T, +E> = Ok(value: T) | Err(error: E) {
    function ToOption(): Option<T> {
      match this
      case Ok(v) => Some(v)
      case Err(_) => None
    }
  }

  /** Go's `map[key]` lookup on a string map: the zero value when absent. */
  function Lookup(m: map<string, string>, key: string): (r: string)
    ensures key !in m ==> r == ""
    ensures key in m ==> r == m[key]
  {
    if key in m then m[key] else ""
  }
}
