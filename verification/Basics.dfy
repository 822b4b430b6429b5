/** What the other modules share. */
module Basics {

  /** A pointer that may be nil, or a result that may be missing. */
  datatype Option<T> = None | Some(value: T)

  function Abs(x: real): (r: real)
    ensures r >= 0.0 && (r == x || r == -x)
  {
    if x < 0.0 then -x else x
  }
}
