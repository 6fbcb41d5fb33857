/** What the other modules share. */
module Basics {

  datatype Option<+T> = None | Some(value: T)
  {
    predicate IsFailure() { None? }

    function PropagateFailure<U>(): Option<U>
      requires None?
    {
      None
    }

    function Extract(): T
      requires Some?
    {
      value
    }
  }

  type Byte = b: int | 0 <= b < 256

  function Min(x: int, y: int): int { if y < x then y else x }
  function Max(x: int, y: int): int { if x < y then y else x }
}
