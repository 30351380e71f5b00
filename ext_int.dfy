/** Integers extended with the two infinities. The search seeds its window and its running
    best scores with float('-inf') and float('inf'); every other value they take is an
    integer centipawn score, so nothing else of floating point is needed. */
module ExtInt {

  datatype ExtInt = NegInf | Fin(n: int) | PosInf

  /** `x <= y`, as Python compares an int with a float infinity. */
  predicate Le(x: ExtInt, y: ExtInt) {
    x.NegInf? || y.PosInf? || (x.Fin? && y.Fin? && x.n <= y.n)
  }

  predicate Lt(x: ExtInt, y: ExtInt) {
    !Le(y, x)
  }

  /** Python's `max(x, y)`: the larger of the two. */
  function Max(x: ExtInt, y: ExtInt): (m: ExtInt)
    ensures Le(x, m) && Le(y, m)
    ensures m == x || m == y
  {
    if Le(x, y) then y else x
  }

  /** Python's `min(x, y)`: the smaller of the two. */
  function Min(x: ExtInt, y: ExtInt): (m: ExtInt)
    ensures Le(m, x) && Le(m, y)
    ensures m == x || m == y
  {
    if Le(x, y) then x else y
  }
}
