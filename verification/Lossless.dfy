/**
 Which arithmetic conversions Google Mock takes to be lossless, decided from the
 kinds, sizes and signedness of the types alone.
 */
module Lossless {
  import opened Bits

  datatype Type = Bool | Integer(size: nat, signed: bool) | Floating(size: nat) | Other

  predicate LosslessConvertible(from: Type, to: Type) {
    match (from, to)
    case (Bool, Bool) => true
    case (Bool, Integer(_, _)) => true
    case (Bool, Floating(_)) => true
    case (Integer(m, s), Integer(n, t)) => (m < n && (!s || t)) || (m == n && s == t)
    case (Floating(m), Floating(n)) => m <= n
    case _ => false
  }

  /** Types with a range of integers; a size is in bytes of eight bits. */
  predicate Ranged(t: Type) {
    t.Bool? || (t.Integer? && t.size > 0)
  }

  function Lowest(t: Type): int
    requires Ranged(t)
  {
    if t.Integer? && t.signed then 0 - Pow2(8 * t.size - 1) else 0
  }

  function Highest(t: Type): int
    requires Ranged(t)
  {
    match t
    case Integer(n, true) => Pow2(8 * n - 1) - 1
    case Integer(n, false) => Pow2(8 * n) - 1
    case _ => 1
  }

  predicate Encloses(outer: Type, inner: Type)
    requires Ranged(outer) && Ranged(inner)
  {
    Lowest(outer) <= Lowest(inner) && Highest(inner) <= Highest(outer)
  }

  lemma BitsOrder(m: nat, n: nat)
    requires 0 < m
    ensures m < n ==> 4 * Pow2(8 * m) <= Pow2(8 * n - 1)
    ensures Pow2(8 * m) == 2 * Pow2(8 * m - 1)
    ensures 128 <= Pow2(8 * m - 1)
  {
    assert Pow2(7) == 128;
    Pow2Monotonic(7, 8 * m - 1);
    if m < n {
      Pow2Monotonic(8 * m + 2, 8 * n - 1);
      assert Pow2(8 * m + 2) == 2 * Pow2(8 * m + 1) && Pow2(8 * m + 1) == 2 * Pow2(8 * m);
    }
  }

  /** Between bool and integer types, the test holds exactly when the target's range encloses the source's. */
  lemma LosslessIsEnclosing(from: Type, to: Type)
    requires Ranged(from) && Ranged(to)
    ensures LosslessConvertible(from, to) <==> Encloses(to, from)
  {
    if from.Integer? {
      BitsOrder(from.size, if to.Integer? then to.size else 0);
    }
    if to.Integer? {
      BitsOrder(to.size, if from.Integer? then from.size else 0);
    }
  }

  lemma LosslessIsTransitive(a: Type, b: Type, c: Type)
    requires LosslessConvertible(a, b) && LosslessConvertible(b, c)
    ensures LosslessConvertible(a, c)
  {
  }

  /**
   With a floating-point type on either side: from bool always, from a floating
   type exactly to those at least as big, and never between it and an integer.
   Other types take part in no conversion.
   */
  lemma FloatingCases(m: nat, n: nat, t: Type)
    ensures LosslessConvertible(Floating(m), t) <==> t.Floating? && m <= t.size
    ensures LosslessConvertible(t, Floating(n)) <==> t.Bool? || (t.Floating? && t.size <= n)
    ensures !LosslessConvertible(Other, t) && !LosslessConvertible(t, Other)
  {
  }
}
