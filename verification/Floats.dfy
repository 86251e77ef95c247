/** What the model needs to know about floating-point rounding. */
module Floats {

  /** How a floating-point operation rounds its exact result. */
  type Rounding = real -> real

  /** Doubles hold every sixteenth up to here. */
  const EXACT := 0x2_0000_0000_0000

  predicate Representable(x: real)
  {
    0.0 <= x <= EXACT as real && (16.0 * x).Floor as real == 16.0 * x
  }

  /** Rounding keeps the order and leaves representable numbers alone. */
  ghost predicate Rounds(fl: Rounding)
  {
    && (forall x, y :: x <= y ==> fl(x) <= fl(y))
    && (forall x :: Representable(x) ==> fl(x) == x)
  }

  lemma InOrder(fl: Rounding, x: real, y: real)
    requires Rounds(fl) && x <= y
    ensures fl(x) <= fl(y)
  {
  }

  lemma ExactlyRounded(fl: Rounding, x: real)
    requires Rounds(fl) && Representable(x)
    ensures fl(x) == x
  {
  }

  /** A result between representable bounds stays there. */
  lemma Between(fl: Rounding, low: real, x: real, high: real)
    requires Rounds(fl) && Representable(low) && Representable(high) && low <= x <= high
    ensures low <= fl(x) <= high
  {
    InOrder(fl, low, x);
    InOrder(fl, x, high);
  }

  lemma WholeIsRepresentable(n: nat)
    requires n <= EXACT
    ensures Representable(n as real)
  {
    assert (16.0 * n as real).Floor == 16 * n;
  }

  function Distance(x: real, y: real): real
  {
    if x < y then y - x else x - y
  }

  /** The spacing of doubles between 2 and 4. */
  predicate OnGrid(x: real)
  {
    (x * 2251799813685248.0).Floor as real == x * 2251799813685248.0
  }

  /** Results between 2 and 4 are doubles, and no representable number is nearer to the exact result. */
  ghost predicate Nearest(fl: Rounding)
  {
    && Rounds(fl)
    && (forall x, r :: Representable(r) ==> Distance(fl(x), x) <= Distance(r, x))
    && (forall x :: 2.0 <= x <= 4.0 ==> OnGrid(fl(x)))
  }

  /** Half a unit in the last place of a 53-bit significand, relative to the result. */
  const HALF_ULP := 1.0 / 9007199254740992.0

  const NORMAL := 1.0 / 1024.0

  /** Nothing, or large enough for the relative error to be bounded. */
  predicate Normal(x: real)
  {
    x == 0.0 || x >= NORMAL
  }

  /** The relative error of such results. */
  ghost predicate Accurate(fl: Rounding)
  {
    forall x :: Normal(x) ==> Distance(fl(x), x) <= x * HALF_ULP
  }

  lemma WithinUlp(fl: Rounding, x: real)
    requires Accurate(fl) && Normal(x)
    ensures Distance(fl(x), x) <= x * HALF_ULP
  {
  }
}
