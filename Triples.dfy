/** Ordered triples: grid counts, physical sizes, origins and points in (x, y, z) order. */
module Triples {

  datatype Triple<T> = Triple(x: T, y: T, z: T)
  {
    /** Component `d`, with 0, 1, 2 standing for x, y, z. */
    function At(d: nat): T
      requires d < 3
    {
      if d == 0 then x else if d == 1 then y else z
    }
  }

  type Vec = Triple<real>

  /** Product of the three counts (number of cells of a grid). */
  function Product(g: Triple<nat>): nat
  {
    g.x * g.y * g.z
  }

  /** Every count is at least one. */
  predicate Positive(g: Triple<nat>)
  {
    g.x >= 1 && g.y >= 1 && g.z >= 1
  }
}
