/** The stock result types shared by the other modules. */
module Wrappers {
  datatype Option<+T> = None | Some(value: T) {
    function GetOr(default: T): T {
      match this
      case Some(v) => v
      case None => default
    }
  }

  datatype Result<+T, +E> = Ok(value: T) | Err(error: E)
}

/** The smaller and the larger of two integers. */
module Integers {
  function Least(x: int, y: int): int { if x <= y then x else y }
  function Greatest(x: int, y: int): int { if x >= y then x else y }
}
