/**
 Noise suppression for controller readings: every axis and button value is
 rounded to hundredths before it is stored, and a stored value is compared
 with a fresh reading only after rounding the reading too.

 Numbers are exact reals here; `Math.round` rounds to the nearest integer
 with halves going towards +infinity, which is `Floor(y + 1/2)`.
 */
module Quantise {

  /** `v` is a whole number of hundredths. */
  predicate Quantised(v: real)
  {
    (v * 100.0).Floor as real == v * 100.0
  }

  /** `Math.round(num * 100) / 100`: the hundredth nearest `x`, halves rounded up. */
  function Round(x: real): (r: real)
    ensures Quantised(r)
    ensures x - 0.005 < r <= x + 0.005
  {
    (x * 100.0 + 0.5).Floor as real / 100.0
  }

  /** The rounding cell of `x` holds exactly one hundredth, so the bounds above determine `Round`. */
  lemma RoundUnique(x: real, q: real)
    requires Quantised(q)
    requires x - 0.005 < q <= x + 0.005
    ensures Round(x) == q
  {
    var m := (q * 100.0).Floor;
    assert m as real <= x * 100.0 + 0.5 < m as real + 1.0;
    assert (x * 100.0 + 0.5).Floor == m;
  }

  /** Rounding leaves a value that is already a whole number of hundredths alone. */
  lemma RoundQuantised(q: real)
    requires Quantised(q)
    ensures Round(q) == q
  {
    RoundUnique(q, q);
  }

  /** Rounding twice is rounding once. */
  lemma RoundIdempotent(x: real)
    ensures Round(Round(x)) == Round(x)
  {
    RoundQuantised(Round(x));
  }

  /**
   Compares a stored (already rounded) value `stored` with a raw reading:
   equal when the reading rounds to the stored value, that is, when the
   reading lies in the half-open cell of width 0.01 around `stored`.
   */
  function FloatEq(stored: real, raw: real): (r: bool)
    ensures r <==> Quantised(stored) && stored - 0.005 <= raw < stored + 0.005
  {
    assert Quantised(stored) && stored - 0.005 <= raw < stored + 0.005 ==> stored == Round(raw) by {
      if Quantised(stored) && stored - 0.005 <= raw < stored + 0.005 {
        RoundUnique(raw, stored);
      }
    }
    stored == Round(raw)
  }

  /** A rounded reading always compares equal to the reading it came from. */
  lemma FloatEqRound(x: real)
    ensures FloatEq(Round(x), x)
  {
  }

  /** Sub-hundredth jitter is suppressed: 0.501 compares equal to a stored 0.5, but 0.505 does not. */
  lemma JitterSuppressed()
    ensures FloatEq(0.5, 0.501)
    ensures FloatEq(0.5, 0.4999)
    ensures !FloatEq(0.5, 0.505)
  {
  }
}
