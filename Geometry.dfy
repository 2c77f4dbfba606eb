/** Two-dimensional vectors (`Vec`) and the rounding the tile grid is measured with. */
module Geometry {

  /** A point or a displacement; every operation builds a fresh vector. */
  datatype Vec = Vec(x: real, y: real) {

    /** Component-wise sum (`Vec.plus`). */
    function Plus(other: Vec): (sum: Vec) {
      Vec(x + other.x, y + other.y)
    }

    /** Scaling by a factor (`Vec.times`). */
    function Times(factor: real): (scaled: Vec) {
      Vec(x * factor, y * factor)
    }
  }

  /** `Math.floor`: the greatest integer not above `r`. */
  function Floor(r: real): (f: int)
    ensures f as real <= r < f as real + 1.0
  {
    r.Floor
  }

  /** `Math.ceil`: the least integer not below `r`. */
  function Ceil(r: real): (c: int)
    ensures c as real - 1.0 < r <= c as real
  {
    -((-r).Floor)
  }

  /** Rounding is monotone: a larger real never has a smaller floor or ceiling. */
  lemma {:induction false} RoundingMonotone(r: real, s: real)
    requires r <= s
    ensures Floor(r) <= Floor(s)
    ensures Ceil(r) <= Ceil(s)
  {
  }

  /** Integers are fixed points of both roundings. */
  lemma RoundingOfIntegers(n: int)
    ensures Floor(n as real) == n && Ceil(n as real) == n
  {
  }
}
