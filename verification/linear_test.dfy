/** The comparison half of `linear_test.py`: read the C program's output,
    pair it with the Python predictions, track the largest absolute
    difference and pick a verdict. Building and running the C program is
    outside the model; its standard output is an input. */
module LinearTest {
  import opened Results
  import opened Text
  import opened Verdicts

  /** `[float(x) for x in result.stdout.strip().split('\n')]`; `parseFloat`
      is Python's `float(...)`, `None` meaning a `ValueError`. */
  function ParseOutput(stdout: string, parseFloat: string -> Option<real>): (r: Option<seq<real>>)
    ensures r.Some? <==> forall i :: 0 <= i < |OutputLines(stdout)| ==> parseFloat(OutputLines(stdout)[i]).Some?
    ensures r.Some? ==> |r.value| == |OutputLines(stdout)|
    ensures r.Some? ==> forall i :: 0 <= i < |r.value| ==> parseFloat(OutputLines(stdout)[i]) == Some(r.value[i])
  {
    ParseEach(OutputLines(stdout), parseFloat)
  }

  /** The values the C driver printed, one line each, read back in order
      (given that `parseFloat` accepts each printed text). */
  lemma ParseOutputRoundTrip(printed: seq<string>, parseFloat: string -> Option<real>)
    requires |printed| > 0
    requires forall i :: 0 <= i < |printed| ==> Trimmed(printed[i]) && '\n' !in printed[i]
    requires forall i :: 0 <= i < |printed| ==> parseFloat(printed[i]).Some?
    ensures ParseOutput(PrintLines(printed), parseFloat).Some?
    ensures var vs := ParseOutput(PrintLines(printed), parseFloat).value;
      |vs| == |printed| && forall i :: 0 <= i < |printed| ==> parseFloat(printed[i]) == Some(vs[i])
  {
    OutputLinesRoundTrip(printed);
  }

  /** Number of pairs `zip` forms: it stops at the shorter list. */
  function Paired(a: nat, b: nat): nat {
    if a < b then a else b
  }

  /** The loop over `zip(python_predictions, c_predictions)`: the largest
      `abs(py - c)` over the pairs, 0 when there are none. */
  method MaxDifference(py: seq<real>, c: seq<real>) returns (maxDiff: real)
    ensures maxDiff >= 0.0
    ensures forall i :: 0 <= i < Paired(|py|, |c|) ==> Abs(py[i] - c[i]) <= maxDiff
    ensures maxDiff == 0.0 || exists i :: 0 <= i < Paired(|py|, |c|) && maxDiff == Abs(py[i] - c[i])
  {
    var n := Paired(|py|, |c|);
    maxDiff := 0.0;
    var i := 0;
    while i < n
      invariant 0 <= i <= n
      invariant maxDiff >= 0.0
      invariant forall j :: 0 <= j < i ==> Abs(py[j] - c[j]) <= maxDiff
      invariant maxDiff == 0.0 || exists j :: 0 <= j < i && maxDiff == Abs(py[j] - c[j])
    {
      var diff := Abs(py[i] - c[i]);
      maxDiff := Max(maxDiff, diff);
      i := i + 1;
    }
  }

  /** The whole comparison: the verdict is a match exactly when every pair
      is closer than `1e-5`, and significant exactly when some pair is at
      least `1e-3` apart; outputs beyond the shorter list are ignored. */
  method Compare(py: seq<real>, c: seq<real>) returns (maxDiff: real, verdict: Verdict)
    ensures verdict == Grade(maxDiff)
    ensures verdict == Match <==>
      forall i :: 0 <= i < Paired(|py|, |c|) ==> Abs(py[i] - c[i]) < MatchTolerance
    ensures verdict == SignificantDifferences <==>
      exists i :: 0 <= i < Paired(|py|, |c|) && Abs(py[i] - c[i]) >= PrecisionTolerance
  {
    maxDiff := MaxDifference(py, c);
    verdict := Grade(maxDiff);
  }
}
