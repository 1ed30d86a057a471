/** The three-valued algebra of dependency expressions: n < m < y. */
module Tristates {

  type Tristate = t: int | 0 <= t <= 2

  const NO: Tristate := 0
  const MOD: Tristate := 1
  const YES: Tristate := 2

  function TriOr(a: Tristate, b: Tristate): Tristate {
    if a > b then a else b
  }

  function TriAnd(a: Tristate, b: Tristate): Tristate {
    if a < b then a else b
  }

  function TriNot(a: Tristate): Tristate {
    2 - a
  }
}

/** A value that may be missing; models a pointer that may be NULL. */
module Options {
  datatype Option<+T> = None | Some(value: T)
}
