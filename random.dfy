/**
 * The two random draws of the game engine, with the random source given as
 * an arbitrary natural number u, so that a property proved for every u
 * holds for every draw.
 */
module Randomness {

  /** Random.Range(lo, hi) on integers: a value from lo up to, but not including, hi. */
  function RangeInt(lo: int, hi: int, u: nat): (r: int)
    requires lo < hi
    ensures lo <= r < hi
  {
    lo + u % (hi - lo)
  }

  /** Every value of the range is drawn by some u. */
  lemma RangeIntCovers(lo: int, hi: int, v: int)
    requires lo <= v < hi
    ensures RangeInt(lo, hi, (v - lo) as nat) == v
  {
  }

  /**
   * Random.Range(0f, 1f) on floats, in hundredths: both ends are included,
   * so the draw is one of 0, 1, ..., 100.
   */
  function Unit(u: nat): (r: int)
    ensures 0 <= r <= 100
  {
    RangeInt(0, 101, u)
  }
}
