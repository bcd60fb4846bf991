/**
 * The two pieces of arithmetic the confidence heuristics of the PDF text extractor and the OCR
 * worker share: the clamp into `[0.1, 1.0]` and the share of alphabetic characters.
 */
module Scores {
  import opened Strings

  /** `max(0.1, min(score, 1.0))`: a score inside the range is kept, one outside it is moved to
      the nearer end. */
  function Clamp(score: real): (r: real)
    ensures 0.1 <= r <= 1.0
    ensures 0.1 <= score <= 1.0 ==> r == score
    ensures score > 1.0 ==> r == 1.0
    ensures score < 0.1 ==> r == 0.1
  {
    var upper := if score < 1.0 then score else 1.0;
    if 0.1 < upper then upper else 0.1
  }

  /** Clamping never reverses the order of two scores. */
  lemma ClampMonotone(a: real, b: real)
    requires a <= b
    ensures Clamp(a) <= Clamp(b)
  {
  }

  /** `sum(c.isalpha() for c in text) / len(text) if text else 0`. */
  function AlphaRatio(text: string): (r: real)
    ensures 0.0 <= r <= 1.0
    ensures text == [] ==> r == 0.0
    ensures text != [] ==> r * (|text| as real) == CountAlpha(text) as real
  {
    if text == [] then 0.0
    else
      var n := |text| as real;
      var a := CountAlpha(text) as real;
      RatioAtMostOne(a, n);
      a / n
  }

  lemma RatioAtMostOne(a: real, n: real)
    requires 0.0 <= a <= n && n > 0.0
    ensures 0.0 <= a / n <= 1.0 && (a / n) * n == a
  {
    var q := a / n;
    assert q * n == a;
  }
}
