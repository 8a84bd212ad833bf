/** Shared vocabulary: optional values and the min/max helpers that JavaScript's
    `Math.min`, `Math.max` and the `??` / `||` defaulting operators turn into. */
module Common {

  /** A value that may be absent (`undefined`, `null`, a missing field). */
  datatype Option<+T> = None | Some(value: T) {

    /** The wrapped value, or `default` when absent: JavaScript's `x ?? default`. */
    function GetOr(default: T): T {
      match this
      case Some(v) => v
      case None => default
    }
  }

  function MinInt(a: int, b: int): int { if a <= b then a else b }

  function MaxInt(a: int, b: int): int { if a >= b then a else b }

  function MinReal(a: real, b: real): real { if a <= b then a else b }

  function MaxReal(a: real, b: real): real { if a >= b then a else b }

  function Abs(x: int): nat { if x < 0 then -x else x }
}
