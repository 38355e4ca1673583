/**
 The three-valued logic of Kconfig: no < mod < yes, with conjunction as minimum,
 disjunction as maximum and negation as reflection around mod.
 */
module Tristate {

  type Tri = t: int | 0 <= t <= 2

  const NO: Tri := 0
  const MOD: Tri := 1
  const YES: Tri := 2

  function TriOr(a: Tri, b: Tri): Tri {
    if a > b then a else b
  }

  function TriAnd(a: Tri, b: Tri): Tri {
    if a < b then a else b
  }

  function TriNot(a: Tri): Tri {
    2 - a
  }

  function FromBool(b: bool): Tri {
    if b then YES else NO
  }

  /** The text a bool or tristate symbol shows for its value. */
  function TriText(t: Tri): string {
    if t == NO then "n" else if t == MOD then "m" else "y"
  }

  datatype Option<+T> = None | Some(value: T)
}
