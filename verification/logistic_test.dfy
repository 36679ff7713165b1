/** The comparison half of `logistic_test.py`: read the C driver's
    `probability class` lines, pair them with the Python probabilities of
    class 1 and Python classes, and pick a verdict from the largest
    probability gap and whether every class agrees. */
module LogisticTest {
  import opened Results
  import opened Text
  import opened Verdicts
  import opened Transpiler

  /** `prob[1]` of each `predict_proba` row: the probability of class 1;
      a row without it is an `IndexError`. */
  function ClassOneProbabilities(rows: seq<seq<real>>): (r: Option<seq<real>>)
    ensures r.Some? <==> forall i :: 0 <= i < |rows| ==> |rows[i]| >= 2
    ensures r.Some? ==> |r.value| == |rows| && forall i :: 0 <= i < |rows| ==> r.value[i] == rows[i][1]
  {
    if |rows| == 0 then Some([])
    else if |rows[0]| < 2 then None
    else
      match ClassOneProbabilities(rows[1..])
      case None => None
      case Some(ps) => Some([rows[0][1]] + ps)
  }

  /** `prob, pred = line.split()` then `(float(prob), int(pred))`: exactly
      two blank-separated tokens, or a `ValueError`. */
  function ParseResultLine(line: string, parseFloat: string -> Option<real>): (r: Option<(real, int)>)
    ensures r.Some? <==>
      |Words(line)| == 2 && parseFloat(Words(line)[0]).Some? && ParseInt(Words(line)[1]).Some?
    ensures r.Some? ==> r.value == (parseFloat(Words(line)[0]).value, ParseInt(Words(line)[1]).value)
  {
    var words := Words(line);
    if |words| != 2 then None
    else
      var prob :- parseFloat(words[0]);
      var pred :- ParseInt(words[1]);
      Some((prob, pred))
  }

  /** The loop over `result.stdout.strip().split('\n')`. */
  function ParseOutput(stdout: string, parseFloat: string -> Option<real>): (r: Option<seq<(real, int)>>)
    ensures r.Some? <==>
      forall i :: 0 <= i < |OutputLines(stdout)| ==> ParseResultLine(OutputLines(stdout)[i], parseFloat).Some?
    ensures r.Some? ==> |r.value| == |OutputLines(stdout)|
    ensures r.Some? ==> forall i :: 0 <= i < |r.value| ==>
      ParseResultLine(OutputLines(stdout)[i], parseFloat) == Some(r.value[i])
  {
    ParseEach(OutputLines(stdout), (line: string) => ParseResultLine(line, parseFloat))
  }

  /** The line `printf("%.6f %d\n", prob, pred_class)` prints, given the
      probability's text. */
  function ResultLine(probText: string, cls: int): string {
    probText + " " + IntStr(cls)
  }

  lemma ResultLineReadsBack(probText: string, cls: int, parseFloat: string -> Option<real>)
    requires |probText| > 0 && NoSpace(probText) && parseFloat(probText).Some?
    ensures Trimmed(ResultLine(probText, cls)) && '\n' !in ResultLine(probText, cls)
    ensures ParseResultLine(ResultLine(probText, cls), parseFloat) == Some((parseFloat(probText).value, cls))
  {
    ResultLineShape(probText, cls);
    var n := IntStr(cls);
    IntStrNoSpace(cls);
    WordsOfPair(probText, n);
    IntStrRoundTrip(cls);
  }

  lemma ResultLineShape(probText: string, cls: int)
    requires |probText| > 0 && NoSpace(probText)
    ensures Trimmed(ResultLine(probText, cls)) && '\n' !in ResultLine(probText, cls)
  {
    var n := IntStr(cls);
    IntStrPrintable(cls);
    NoSpaceHasNoNewline(probText);
    var line := ResultLine(probText, cls);
    assert line[0] == probText[0];
    assert line[|line| - 1] == n[|n| - 1];
  }

  /** The driver's lines, one per case. */
  function ResultLines(probTexts: seq<string>, classes: seq<int>): (r: seq<string>)
    requires |probTexts| == |classes|
    ensures |r| == |classes|
    ensures forall i :: 0 <= i < |classes| ==> r[i] == ResultLine(probTexts[i], classes[i])
  {
    seq(|classes|, i requires 0 <= i < |classes| => ResultLine(probTexts[i], classes[i]))
  }

  /** Every line the driver prints is read back as the (probability, class)
      pair it was printed from, in order. */
  lemma ParseOutputRoundTrip(probTexts: seq<string>, classes: seq<int>, parseFloat: string -> Option<real>)
    requires |probTexts| == |classes| > 0
    requires forall i :: 0 <= i < |probTexts| ==>
      |probTexts[i]| > 0 && NoSpace(probTexts[i]) && parseFloat(probTexts[i]).Some?
    ensures ParseOutput(PrintLines(ResultLines(probTexts, classes)), parseFloat).Some?
    ensures var pairs := ParseOutput(PrintLines(ResultLines(probTexts, classes)), parseFloat).value;
      && |pairs| == |classes|
      && forall i :: 0 <= i < |classes| ==> pairs[i] == (parseFloat(probTexts[i]).value, classes[i])
  {
    var lines := ResultLines(probTexts, classes);
    forall i | 0 <= i < |lines|
      ensures Trimmed(lines[i]) && '\n' !in lines[i]
      ensures ParseResultLine(lines[i], parseFloat) == Some((parseFloat(probTexts[i]).value, classes[i]))
    {
      ResultLineReadsBack(probTexts[i], classes[i], parseFloat);
    }
    OutputLinesRoundTrip(lines);
  }

  /** Number of triples `zip` forms: it stops at the shortest list. */
  function Paired3(a: nat, b: nat, c: nat): nat {
    if a <= b && a <= c then a else if b <= c then b else c
  }

  /** The verdict `logistic_test.py` prints. */
  function LogisticGrade(maxProbDiff: real, allClassesMatch: bool): (v: Verdict)
    ensures v == Match <==> maxProbDiff < MatchTolerance && allClassesMatch
    ensures v == SmallDifferences <==>
      MatchTolerance <= maxProbDiff < PrecisionTolerance && allClassesMatch
    ensures !allClassesMatch ==> v == SignificantDifferences
  {
    if maxProbDiff < MatchTolerance && allClassesMatch then Match
    else if maxProbDiff < PrecisionTolerance && allClassesMatch then SmallDifferences
    else SignificantDifferences
  }

  /** With all classes agreeing the logistic script grades like the linear
      one; any class mismatch makes the verdict significant. */
  lemma LogisticGradeIsGrade(maxProbDiff: real, allClassesMatch: bool)
    ensures LogisticGrade(maxProbDiff, allClassesMatch)
         == if allClassesMatch then Grade(maxProbDiff) else SignificantDifferences
  {
  }

  /** A larger gap or a lost class agreement never earns a better verdict. */
  lemma LogisticGradeMonotone(d1: real, a1: bool, d2: real, a2: bool)
    requires d1 <= d2 && (a2 ==> a1)
    ensures Severity(LogisticGrade(d1, a1)) <= Severity(LogisticGrade(d2, a2))
  {
  }

  /** The loop over `zip(c_results, python_predictions, python_probabilities)`. */
  method Compare(cResults: seq<(real, int)>, pyClasses: seq<int>, pyProbs: seq<real>)
    returns (maxProbDiff: real, allClassesMatch: bool, verdict: Verdict)
    ensures maxProbDiff >= 0.0
    ensures forall i :: 0 <= i < Paired3(|cResults|, |pyClasses|, |pyProbs|) ==>
      Abs(pyProbs[i] - cResults[i].0) <= maxProbDiff
    ensures maxProbDiff == 0.0 ||
      (exists i :: 0 <= i < Paired3(|cResults|, |pyClasses|, |pyProbs|) && maxProbDiff == Abs(pyProbs[i] - cResults[i].0))
    ensures allClassesMatch <==>
      forall i :: 0 <= i < Paired3(|cResults|, |pyClasses|, |pyProbs|) ==> cResults[i].1 == pyClasses[i]
    ensures verdict == LogisticGrade(maxProbDiff, allClassesMatch)
  {
    var n := Paired3(|cResults|, |pyClasses|, |pyProbs|);
    maxProbDiff := 0.0;
    allClassesMatch := true;
    var i := 0;
    while i < n
      invariant 0 <= i <= n
      invariant maxProbDiff >= 0.0
      invariant forall j :: 0 <= j < i ==> Abs(pyProbs[j] - cResults[j].0) <= maxProbDiff
      invariant maxProbDiff == 0.0 || exists j :: 0 <= j < i && maxProbDiff == Abs(pyProbs[j] - cResults[j].0)
      invariant allClassesMatch <==> forall j :: 0 <= j < i ==> cResults[j].1 == pyClasses[j]
    {
      var (cProb, cClass) := cResults[i];
      var probDiff := Abs(pyProbs[i] - cProb);
      maxProbDiff := Max(maxProbDiff, probDiff);
      var classMatch := cClass == pyClasses[i];
      allClassesMatch := allClassesMatch && classMatch;
      i := i + 1;
    }
    verdict := LogisticGrade(maxProbDiff, allClassesMatch);
  }

  /** The probability the driver prints: it recomputes `z` from the first
      intercept and coefficient row with a loop fixed at three features. */
  function DriverProbability(intercept: real, coefs: seq<real>, x: seq<real>, exp: real -> real): real
    requires |coefs| >= 3 && |x| >= 3 && ExpLike(exp)
  {
    Sigmoid(exp, RunLoop(intercept, coefs, x, 0, 3))
  }

  /** For a three-feature model the driver's probability and the generated
      `predict` agree: the class printed is 1 exactly when the probability
      printed beside it is at least 0.5. */
  lemma DriverMatchesPredict(bs: seq<real>, cs: seq<seq<real>>, x: seq<real>, exp: real -> real)
    requires |bs| > 0 && |cs| > 0 && |cs[0]| == 3 && |x| >= 3 && ExpLike(exp)
    ensures Lower(LogisticRegression(bs, cs)).Success?
    ensures Run(Lower(LogisticRegression(bs, cs)).value.1, x, exp)
         == Class(if DriverProbability(bs[0], cs[0], x, exp) >= 0.5 then 1 else 0)
  {
  }
}
