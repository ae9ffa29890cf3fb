/** Byte strings and the optional / fallible result shapes used throughout. */
module Base {

  /** One octet of a Node.js Buffer. */
  type Byte = b: int | 0 <= b < 256

  datatype Option<+T> = None | Some(value: T) {
    function GetOr(default: T): T {
      match this
      case Some(v) => v
      case None => default
    }
  }

  datatype Result<+T, +E> = Ok(value: T) | Err(error: E)

  /** Concatenation of a list of byte strings, in order (Buffer.concat). */
  function Flatten(parts: seq<seq<Byte>>): seq<Byte>
  {
    if parts == [] then [] else Flatten(parts[..|parts| - 1]) + parts[|parts| - 1]
  }
}
