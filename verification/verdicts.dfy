/** The three-way report shared by the linear and logistic comparison
    scripts (`linear_test.py`, `logistic_test.py`). */
module Verdicts {

  /** "Models match closely", "Small differences detected", "Significant
      differences detected". */
  datatype Verdict = Match | SmallDifferences | SignificantDifferences

  /** `1e-5`: below it the outputs count as matching. */
  const MatchTolerance: real := 0.00001

  /** `1e-3`: below it a gap is blamed on float versus double precision. */
  const PrecisionTolerance: real := 0.001

  /** How bad a verdict is: 0 for a match, 2 for significant differences. */
  function Severity(v: Verdict): nat {
    match v
    case Match => 0
    case SmallDifferences => 1
    case SignificantDifferences => 2
  }

  /** Python's `abs` on a float. */
  function Abs(x: real): (r: real)
    ensures r >= 0.0
    ensures r == x || r == -x
  {
    if x < 0.0 then -x else x
  }

  /** Python's `max(a, b)`: `b` only when it is strictly greater. */
  function Max(a: real, b: real): (r: real)
    ensures r >= a && r >= b
    ensures r == a || r == b
  {
    if b > a then b else a
  }

  /** The verdict `linear_test.py` prints for the largest difference. */
  function Grade(maxDiff: real): (v: Verdict)
    ensures v == Match <==> maxDiff < MatchTolerance
    ensures v == SmallDifferences <==> MatchTolerance <= maxDiff < PrecisionTolerance
    ensures v == SignificantDifferences <==> PrecisionTolerance <= maxDiff
  {
    if maxDiff < MatchTolerance then Match
    else if maxDiff < PrecisionTolerance then SmallDifferences
    else SignificantDifferences
  }

  /** A larger difference never earns a better verdict. */
  lemma GradeMonotone(a: real, b: real)
    requires a <= b
    ensures Severity(Grade(a)) <= Severity(Grade(b))
  {
  }
}
