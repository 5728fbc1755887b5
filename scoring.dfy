/** The three-zone confidence scorer of `find_similar_questions` (src/main.py): a raw
    L2 distance becomes a similarity percentage by a piecewise-linear rule with cutoffs
    HIGH (0.3) and MEDIUM (1.0), a floor of 30 reached at distance 1.5, a clamp at 0 and
    rounding to two decimals. Arithmetic is exact (`real`); Python floats are not modelled. */
module Scoring {

  /** `HIGH_CONFIDENCE_DISTANCE`: distances up to here are very strong matches. */
  const HighConfidenceDistance: real := 0.3
  /** `MEDIUM_CONFIDENCE_DISTANCE`: distances below here are moderate matches. */
  const MediumConfidenceDistance: real := 1.0
  /** The distance at which the low zone reaches its floor (the literal 1.5). */
  const LowZoneEnd: real := 1.5

  function Min(a: real, b: real): real { if a <= b then a else b }
  function Max(a: real, b: real): real { if a >= b then a else b }

  /** The percentage before the clamp and the rounding, one branch per confidence zone. */
  function RawSimilarity(d: real): (r: real)
    ensures r >= 30.0
    ensures 0.0 <= d <= HighConfidenceDistance ==> 90.0 <= r <= 100.0
    ensures HighConfidenceDistance < d < MediumConfidenceDistance ==> 60.0 < r < 90.0
    ensures MediumConfidenceDistance <= d ==> 30.0 <= r <= 60.0
  {
    if d <= HighConfidenceDistance then
      var normalized := d / HighConfidenceDistance;
      90.0 + 10.0 * (1.0 - normalized)
    else if d < MediumConfidenceDistance then
      var normalized := (d - HighConfidenceDistance) / (MediumConfidenceDistance - HighConfidenceDistance);
      60.0 + 30.0 * (1.0 - normalized)
    else
      var normalized := (d - MediumConfidenceDistance) / (LowZoneEnd - MediumConfidenceDistance);
      30.0 + 30.0 * (1.0 - Min(1.0, normalized))
  }

  /** Python's `round(x, 2)` on an exact value: the nearest multiple of 0.01, ties to the
      even multiple. */
  function Round2(x: real): (r: real)
    ensures -0.005 <= r - x <= 0.005
    ensures (r * 100.0).Floor as real == r * 100.0
  {
    var y := x * 100.0;
    var n := y.Floor;
    var frac := y - n as real;
    var m := if frac < 0.5 then n else if frac > 0.5 then n + 1 else if n % 2 == 0 then n else n + 1;
    assert -0.5 <= m as real - y <= 0.5;
    assert (m as real / 100.0) * 100.0 == m as real;
    assert m as real / 100.0 - x == (m as real - y) / 100.0;
    m as real / 100.0
  }

  /** `similarity_percent` as returned to the caller. */
  function SimilarityPercent(d: real): real
  {
    Round2(Max(0.0, RawSimilarity(d)))
  }

  /** The zone formulas hold at their anchor points: 100 at distance 0, 90 at HIGH, 60 at
      MEDIUM, and 30 from 1.5 on. */
  lemma ScoreAnchors(d: real)
    ensures RawSimilarity(0.0) == 100.0
    ensures RawSimilarity(HighConfidenceDistance) == 90.0
    ensures RawSimilarity(MediumConfidenceDistance) == 60.0
    ensures d >= LowZoneEnd ==> RawSimilarity(d) == 30.0
  {
  }

  /** The score never increases with distance, across zone boundaries included. */
  lemma ScoreMonotone(a: real, b: real)
    requires a <= b
    ensures RawSimilarity(a) >= RawSimilarity(b)
  {
  }

  /** Within each zone (the low zone up to 1.5) the score strictly decreases. */
  lemma ScoreStrictWithinZones(a: real, b: real)
    requires a < b
    requires (b <= HighConfidenceDistance)
          || (HighConfidenceDistance < a && b < MediumConfidenceDistance)
          || (MediumConfidenceDistance <= a && b <= LowZoneEnd)
    ensures RawSimilarity(a) > RawSimilarity(b)
  {
  }

  /** The score is Lipschitz with constant 60, so it is continuous everywhere, in
      particular at both zone boundaries 0.3 and 1.0. */
  lemma ScoreLipschitz(a: real, b: real)
    requires a <= b
    ensures RawSimilarity(a) - RawSimilarity(b) <= 60.0 * (b - a)
  {
  }

  /** The `max(0, ·)` clamp never changes the score, since the score is at least 30. */
  lemma ClampIsIdentity(d: real)
    ensures Max(0.0, RawSimilarity(d)) == RawSimilarity(d)
  {
  }

  /** Rounding is monotone. */
  lemma Round2Monotone(x: real, y: real)
    requires x <= y
    ensures Round2(x) <= Round2(y)
  {
    var nx, ny := (x * 100.0).Floor, (y * 100.0).Floor;
    assert nx <= ny;
  }

  /** Rounding leaves a value that already has two decimals unchanged. */
  lemma Round2Exact(k: int)
    ensures Round2(k as real / 100.0) == k as real / 100.0
  {
    assert (k as real / 100.0) * 100.0 == k as real;
  }

  /** For every non-negative distance the returned percentage lies in [30, 100] and is
      within 0.005 of the unrounded zone formula. */
  lemma SimilarityPercentRange(d: real)
    requires d >= 0.0
    ensures 30.0 <= SimilarityPercent(d) <= 100.0
    ensures -0.005 <= SimilarityPercent(d) - RawSimilarity(d) <= 0.005
  {
    var raw := RawSimilarity(d);
    ClampIsIdentity(d);
    Round2Monotone(30.0, raw);
    Round2Monotone(raw, 100.0);
    Round2Exact(3000);
    Round2Exact(10000);
  }

  /** The returned percentage is non-increasing in distance. */
  lemma SimilarityPercentMonotone(a: real, b: real)
    requires a <= b
    ensures SimilarityPercent(a) >= SimilarityPercent(b)
  {
    ScoreMonotone(a, b);
    ClampIsIdentity(a);
    ClampIsIdentity(b);
    Round2Monotone(RawSimilarity(b), RawSimilarity(a));
  }
}
