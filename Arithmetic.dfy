/** Facts about natural-number products that the size computations rely on. */
module Arithmetic {

  /** Multiplying by a positive count never shrinks a size. */
  lemma TimesAtLeastOne(a: nat, b: nat)
    requires b >= 1
    ensures a * b >= a
  {
    assert a * b == a * (b - 1) + a;
  }
}
