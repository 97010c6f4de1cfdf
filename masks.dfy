/** Permission masks: a Java `int` whose 32 bits are independent flags. The bits are wrapped
    in a datatype of their own so that the flag operations stay separate from the rest of the
    model. */
module Masks {
  datatype Mask = Mask(bits: bv32)

  /** The mask with no flag set (Java's 0). */
  const NONE: Mask := Mask(0)

  /** `a | b` */
  function Or(a: Mask, b: Mask): Mask {
    Mask(a.bits | b.bits)
  }

  /** `a & b` */
  function And(a: Mask, b: Mask): Mask {
    Mask(a.bits & b.bits)
  }

  /** `a & ~b` */
  function Without(a: Mask, b: Mask): Mask {
    Mask(a.bits & !b.bits)
  }

  /** Every flag of `a` is also set in `b`. */
  predicate Within(a: Mask, b: Mask) {
    a.bits & b.bits == a.bits
  }

  /** No flag is set in both masks. */
  predicate Disjoint(a: Mask, b: Mask) {
    a.bits & b.bits == 0
  }

  /** Both operands are within their union. */
  lemma OrBounds(a: Mask, b: Mask)
    ensures Within(a, Or(a, b)) && Within(b, Or(a, b))
  {
  }

  /** The intersection is within both operands. */
  lemma AndBounds(a: Mask, b: Mask)
    ensures Within(And(a, b), a) && Within(And(a, b), b)
  {
  }

  lemma WithinTransitive(a: Mask, b: Mask, c: Mask)
    requires Within(a, b) && Within(b, c)
    ensures Within(a, c)
  {
  }

  /** Intersection is monotone in both operands. */
  lemma AndMonotone(a: Mask, b: Mask, c: Mask, d: Mask)
    requires Within(a, c) && Within(b, d)
    ensures Within(And(a, b), And(c, d))
  {
  }

  /** A mask within both operands is within their intersection. */
  lemma WithinAnd(a: Mask, b: Mask, c: Mask)
    requires Within(a, b) && Within(a, c)
    ensures Within(a, And(b, c))
  {
  }

  /** A mask within one operand is within the union. */
  lemma WithinOr(a: Mask, b: Mask, c: Mask)
    requires Within(a, b)
    ensures Within(a, Or(b, c)) && Within(a, Or(c, b))
  {
  }
}
