/** The linear and logistic code generators (`transpiler.py`): the estimator's
    class name selects the output file and the shape of a C `predict` that
    starts from the intercept, adds `coefs[i] * x[i]` for every coefficient,
    and returns the sum (linear) or `sigmoid(z) >= 0.5f ? 1 : 0` (logistic).

    `Transpile` builds the text as the source does; `Lower` gives the same
    function as a structure whose meaning is `Run`. Printing of float64
    values (`render`) and the C library's `exp` are parameters. */
module Transpiler {
  import opened Results
  import opened Text

  /** A class name `transpile` does not support. */
  type OtherName = s: string | s != "LinearRegression" && s != "LogisticRegression"

  /** A fitted estimator; each constructor stands for the value of
      `type(model).__name__` the source dispatches on. `LinearRegression`
      carries the scalar `intercept_` and the 1-D `coef_`;
      `LogisticRegression` carries `intercept_` and the rows of `coef_`, of
      which only the first is used; any other class name is an
      `OtherEstimator`. */
  datatype Estimator =
    | LinearRegression(intercept: real, coef: seq<real>)
    | LogisticRegression(intercepts: seq<real>, coefRows: seq<seq<real>>)
    | OtherEstimator(typeName: OtherName)

  /** `CannotOpen("")`: the file name stays empty for an unsupported class,
      so `open(output, 'w')` fails before anything is written.
      `IndexOutOfRange`: `intercept_[0]` or `coef_[0]` of an empty array. */
  datatype TranspileError = CannotOpen(path: string) | IndexOutOfRange

  datatype GeneratedFile = GeneratedFile(path: string, code: string)

  // ---------------------------------------------------------------------------
  // The emitted text

  /** `f'{c}f'`: a float64 printed by Python, marked as a C float literal. */
  function FloatLiteral(v: real, render: real -> string): string {
    render(v) + "f"
  }

  /** `[f'{c}f' for c in coefs]`. */
  function Literals(coefs: seq<real>, render: real -> string): (r: seq<string>)
    ensures |r| == |coefs|
    ensures forall i :: 0 <= i < |coefs| ==> r[i] == FloatLiteral(coefs[i], render)
  {
    if |coefs| == 0 then [] else [FloatLiteral(coefs[0], render)] + Literals(coefs[1..], render)
  }

  /** `', '.join(...)`: the body of the `coefs[]` initializer. */
  function CoefList(coefs: seq<real>, render: real -> string): string {
    Join(", ", Literals(coefs, render))
  }

  /** The file written for a `LinearRegression`, one C line per piece. */
  function LinearText(intercept: string, coefList: string, bound: string): string {
    "#include <stdio.h>\n"
      + "\n"
      + "float predict(float *x) {\n"
      + "    float result = " + intercept + "f;\n"
      + "    float coefs[] = {" + coefList + "};\n"
      + "    for (int i = 0; i < " + bound + "; i++) result += coefs[i] * x[i];\n"
      + "    return result;\n"
      + "}\n"
  }

  /** The file written for a `LogisticRegression`, one C line per piece. */
  function LogisticText(intercept: string, coefList: string, bound: string): string {
    "#include <stdio.h>\n"
      + "#include <math.h>\n"
      + "\n"
      + "float sigmoid(float x) {\n"
      + "    return 1.0f / (1.0f + exp(-x));\n"
      + "}\n"
      + "\n"
      + "int predict(float *x) {\n"
      + "    float z = " + intercept + "f;\n"
      + "    float coefs[] = {" + coefList + "};\n"
      + "    for (int i = 0; i < " + bound + "; i++) z += coefs[i] * x[i];\n"
      + "    return sigmoid(z) >= 0.5f ? 1 : 0;\n"
      + "}\n"
  }

  /** `transpile(model_path)`, from the loaded estimator to the file it
      writes: the class name picks the file and the text; any other class
      leaves the file name empty and the write fails. */
  function Transpile(e: Estimator, render: real -> string): (r: Result<GeneratedFile, TranspileError>)
    ensures e.LinearRegression? ==> r.Success? && r.value.path == "linear_model.c"
    ensures e.LogisticRegression? && |e.intercepts| > 0 && |e.coefRows| > 0 ==>
      r.Success? && r.value.path == "logistic_model.c"
    ensures e.LogisticRegression? && (|e.intercepts| == 0 || |e.coefRows| == 0) ==>
      r == Failure(IndexOutOfRange)
    ensures e.OtherEstimator? ==> r == Failure(CannotOpen(""))
  {
    match e
    case LinearRegression(intercept, coefs) =>
      var nFeatures := |coefs|;
      Success(GeneratedFile("linear_model.c",
        LinearText(render(intercept), CoefList(coefs, render), IntStr(nFeatures))))
    case LogisticRegression(intercepts, coefRows) =>
      if |intercepts| == 0 || |coefRows| == 0 then Failure(IndexOutOfRange)
      else
        var intercept := intercepts[0];
        var coefs := coefRows[0];
        var nFeatures := |coefs|;
        Success(GeneratedFile("logistic_model.c",
          LogisticText(render(intercept), CoefList(coefs, render), IntStr(nFeatures))))
    case OtherEstimator(_) => Failure(CannotOpen(""))
  }

  // ---------------------------------------------------------------------------
  // The emitted function as a structure

  /** What `predict` does with the accumulated sum. */
  datatype Decision = ReturnSum | SigmoidThreshold

  /** A generated `predict`: the accumulator starts at `intercept`, the loop
      adds `coefs[i] * x[i]` for `i < bound`, then `decision` applies. */
  datatype PredictFunction = PredictFunction(decision: Decision, intercept: real, coefs: seq<real>, bound: int)

  /** The text of a generated file. */
  function Source(p: PredictFunction, render: real -> string): string {
    var intercept, coefList, bound := render(p.intercept), CoefList(p.coefs, render), IntStr(p.bound);
    match p.decision
    case ReturnSum => LinearText(intercept, coefList, bound)
    case SigmoidThreshold => LogisticText(intercept, coefList, bound)
  }

  /** The file name and the `predict` function the generator emits. */
  function Lower(e: Estimator): Result<(string, PredictFunction), TranspileError> {
    match e
    case LinearRegression(b, c) => Success(("linear_model.c", PredictFunction(ReturnSum, b, c, |c|)))
    case LogisticRegression(bs, cs) =>
      if |bs| == 0 || |cs| == 0 then Failure(IndexOutOfRange)
      else Success(("logistic_model.c", PredictFunction(SigmoidThreshold, bs[0], cs[0], |cs[0]|)))
    case OtherEstimator(_) => Failure(CannotOpen(""))
  }

  /** The text `Transpile` writes is the printing of `Lower`'s function, and
      that function's loop runs over exactly its coefficient array, which
      holds the estimator's coefficients (for a logistic model, the first
      row of `coef_` and the first intercept) in their original order. */
  lemma TranspileEmitsLowered(e: Estimator, render: real -> string)
    ensures Transpile(e, render).Success? <==> Lower(e).Success?
    ensures Lower(e).Failure? ==> Transpile(e, render).error == Lower(e).error
    ensures Lower(e).Success? ==>
      var path, p := Lower(e).value.0, Lower(e).value.1;
      && Transpile(e, render).value == GeneratedFile(path, Source(p, render))
      && p.bound == |p.coefs|
      && (e.LinearRegression? ==> p.decision == ReturnSum && p.intercept == e.intercept && p.coefs == e.coef)
      && (e.LogisticRegression? ==>
            p.decision == SigmoidThreshold && p.intercept == e.intercepts[0] && p.coefs == e.coefRows[0])
  {
    match e
    case LinearRegression(b, c) => LinearEmitsLowered(b, c, render);
    case LogisticRegression(bs, cs) =>
      if |bs| > 0 && |cs| > 0 {
        LogisticEmitsLowered(bs, cs, render);
      }
    case OtherEstimator(_) =>
  }

  lemma LinearEmitsLowered(b: real, c: seq<real>, render: real -> string)
    ensures Lower(LinearRegression(b, c)) == Success(("linear_model.c", PredictFunction(ReturnSum, b, c, |c|)))
    ensures Transpile(LinearRegression(b, c), render)
         == Success(GeneratedFile("linear_model.c", Source(PredictFunction(ReturnSum, b, c, |c|), render)))
  {
  }

  lemma LogisticEmitsLowered(bs: seq<real>, cs: seq<seq<real>>, render: real -> string)
    requires |bs| > 0 && |cs| > 0
    ensures Lower(LogisticRegression(bs, cs))
         == Success(("logistic_model.c", PredictFunction(SigmoidThreshold, bs[0], cs[0], |cs[0]|)))
    ensures Transpile(LogisticRegression(bs, cs), render)
         == Success(GeneratedFile("logistic_model.c",
              Source(PredictFunction(SigmoidThreshold, bs[0], cs[0], |cs[0]|), render)))
  {
  }

  // ---------------------------------------------------------------------------
  // Reading the coefficient array back

  /** The items of a C brace initializer `{a, b, c}` given its body: the
      comma-separated pieces without surrounding blanks; none for `{}`. */
  function InitializerItems(body: string): seq<string> {
    if Strip(body) == "" then [] else StripAll(SplitChar(body, ','))
  }

  function StripAll(xs: seq<string>): (r: seq<string>)
    ensures |r| == |xs|
    ensures forall i :: 0 <= i < |xs| ==> r[i] == Strip(xs[i])
  {
    if |xs| == 0 then [] else [Strip(xs[0])] + StripAll(xs[1..])
  }

  /** A printed number that fits in an initializer: non-empty, no blank at
      either end, no comma. */
  predicate InitializerSafe(s: string) {
    Trimmed(s) && ',' !in s
  }

  lemma {:induction false} SplitCommaJoin(xs: seq<string>)
    requires |xs| > 0
    requires forall i :: 0 <= i < |xs| ==> ',' !in xs[i]
    ensures var r := SplitChar(Join(", ", xs), ',');
      |r| == |xs| && r[0] == xs[0] && forall i :: 1 <= i < |xs| ==> r[i] == " " + xs[i]
  {
    if |xs| == 1 {
      SplitWithoutSeparator(xs[0], ',');
    } else {
      var tail := Join(", ", xs[1..]);
      SplitCommaJoin(xs[1..]);
      assert Join(", ", xs) == xs[0] + [','] + (" " + tail);
      SplitAtFirstSeparator(xs[0], " " + tail, ',');
      var rest := SplitChar(tail, ',');
      assert SplitChar(" " + tail, ',') == [" " + rest[0]] + rest[1..];
    }
  }

  lemma StripBlankThen(s: string)
    requires Trimmed(s)
    ensures Strip(" " + s) == s
  {
    assert (" " + s)[1..] == s;
    assert StripLeft(" " + s) == StripLeft(s) == s;
  }

  lemma LiteralsInitializerSafe(coefs: seq<real>, render: real -> string)
    requires forall i :: 0 <= i < |coefs| ==> InitializerSafe(render(coefs[i]))
    ensures forall i :: 0 <= i < |coefs| ==> InitializerSafe(Literals(coefs, render)[i])
  {
    var lits := Literals(coefs, render);
    forall i | 0 <= i < |coefs|
      ensures InitializerSafe(lits[i])
    {
      assert lits[i] == render(coefs[i]) + "f";
    }
  }

  /** Items joined with `", "` read back as the same items. */
  lemma InitializerOfJoin(xs: seq<string>)
    requires |xs| > 0
    requires forall i :: 0 <= i < |xs| ==> InitializerSafe(xs[i])
    ensures InitializerItems(Join(", ", xs)) == xs
  {
    var body := Join(", ", xs);
    JoinEnds(", ", xs);
    StripNonEmpty(body);
    ItemsOfJoin(xs);
  }

  lemma StripNonEmpty(s: string)
    requires |s| > 0 && !IsSpace(s[0])
    ensures Strip(s) != ""
  {
    assert StripLeft(s) == s;
  }

  lemma ItemsOfJoin(xs: seq<string>)
    requires |xs| > 0
    requires forall i :: 0 <= i < |xs| ==> InitializerSafe(xs[i])
    ensures StripAll(SplitChar(Join(", ", xs), ',')) == xs
  {
    SplitCommaJoin(xs);
    StripPieces(SplitChar(Join(", ", xs), ','), xs);
  }

  /** Pieces that are the items, all but the first after one blank, strip
      back to the items. */
  lemma StripPieces(pieces: seq<string>, xs: seq<string>)
    requires |pieces| == |xs| > 0 && pieces[0] == xs[0]
    requires forall i :: 1 <= i < |xs| ==> pieces[i] == " " + xs[i]
    requires forall i :: 0 <= i < |xs| ==> InitializerSafe(xs[i])
    ensures StripAll(pieces) == xs
  {
    var items := StripAll(pieces);
    forall i | 0 <= i < |xs|
      ensures items[i] == xs[i]
    {
      if i == 0 {
        StripTrimmed(xs[0]);
      } else {
        StripBlankThen(xs[i]);
      }
    }
  }

  /** The array the generated code declares holds one item per coefficient,
      each the coefficient's printed value with the `f` suffix, in the
      coefficients' order; the loop bound the code prints reads back as that
      same item count. */
  lemma CoefficientArrayReadsBack(coefs: seq<real>, render: real -> string)
    requires forall i :: 0 <= i < |coefs| ==> InitializerSafe(render(coefs[i]))
    ensures InitializerItems(CoefList(coefs, render)) == Literals(coefs, render)
    ensures ParseInt(IntStr(|coefs|)) == Some(|InitializerItems(CoefList(coefs, render))|)
  {
    IntStrRoundTrip(|coefs|);
    if |coefs| > 0 {
      LiteralsInitializerSafe(coefs, render);
      InitializerOfJoin(Literals(coefs, render));
    }
  }

  // ---------------------------------------------------------------------------
  // Meaning of the emitted function

  /** `for (int i = k; i < n; i++) acc += coefs[i] * x[i];`, left to right. */
  function RunLoop(acc: real, coefs: seq<real>, x: seq<real>, k: nat, n: nat): real
    requires k <= n <= |coefs| && n <= |x|
    decreases n - k
  {
    if k == n then acc else RunLoop(acc + coefs[k] * x[k], coefs, x, k + 1, n)
  }

  /** The mathematical weighted sum `Σ coefs[i] * x[i]` over the coefficients. */
  function Dot(coefs: seq<real>, x: seq<real>): real
    requires |coefs| <= |x|
  {
    if |coefs| == 0 then 0.0 else coefs[0] * x[0] + Dot(coefs[1..], x[1..])
  }

  lemma {:induction false} RunLoopIsSum(acc: real, coefs: seq<real>, x: seq<real>, k: nat, n: nat)
    requires k <= n <= |coefs| && n <= |x|
    ensures RunLoop(acc, coefs, x, k, n) == acc + Dot(coefs[k..n], x[k..n])
    decreases n - k
  {
    if k < n {
      RunLoopIsSum(acc + coefs[k] * x[k], coefs, x, k + 1, n);
      assert coefs[k..n][1..] == coefs[k + 1..n];
      assert x[k..n][1..] == x[k + 1..n];
    }
  }

  /** The generated `sigmoid`: `1.0f / (1.0f + exp(-x))`. It lies in
      `(0, 1]` and reaches one half exactly when `exp(-z)` is at most 1. */
  function Sigmoid(exp: real -> real, z: real): (r: real)
    requires exp(-z) >= 0.0
    ensures 0.0 < r <= 1.0
    ensures r >= 0.5 <==> exp(-z) <= 1.0
  {
    HalfOrMore(exp(-z));
    1.0 / (1.0 + exp(-z))
  }

  /** What the C library's `exp` guarantees and the logistic code relies on. */
  ghost predicate ExpLike(exp: real -> real) {
    && (forall a :: exp(a) > 0.0)
    && (forall a, b :: a < b ==> exp(a) < exp(b))
    && exp(0.0) == 1.0
  }

  /** What a generated `predict` returns. */
  datatype Output = Value(y: real) | Class(k: int)

  /** Runs a generated `predict` on `x`: reading outside the coefficient
      array or the input is undefined in C, hence the precondition. */
  function Run(p: PredictFunction, x: seq<real>, exp: real -> real): Output
    requires 0 <= p.bound <= |p.coefs| && p.bound <= |x|
    requires p.decision == SigmoidThreshold ==> ExpLike(exp)
  {
    var z := RunLoop(p.intercept, p.coefs, x, 0, p.bound);
    match p.decision
    case ReturnSum => Value(z)
    case SigmoidThreshold => Class(if Sigmoid(exp, z) >= 0.5 then 1 else 0)
  }

  lemma {:induction false} DotIgnoresExtraInputs(c: seq<real>, x: seq<real>)
    requires |c| <= |x|
    ensures Dot(c, x[..|c|]) == Dot(c, x)
  {
    if |c| > 0 {
      DotIgnoresExtraInputs(c[1..], x[1..]);
      assert x[..|c|][1..] == x[1..][..|c| - 1];
    }
  }

  /** The loop of a generated function over its whole array computes the
      intercept plus the weighted sum. */
  lemma LoopOverArrayIsSum(b: real, c: seq<real>, x: seq<real>)
    requires |c| <= |x|
    ensures RunLoop(b, c, x, 0, |c|) == b + Dot(c, x)
  {
    RunLoopIsSum(b, c, x, 0, |c|);
    assert c[0..|c|] == c;
    assert x[0..|c|] == x[..|c|];
    DotIgnoresExtraInputs(c, x);
  }

  /** The generated linear `predict` computes `intercept + Σ coef[i] * x[i]`. */
  lemma LinearPredictMeaning(b: real, c: seq<real>, x: seq<real>, exp: real -> real)
    requires |c| <= |x|
    ensures Lower(LinearRegression(b, c)).Success?
    ensures Run(Lower(LinearRegression(b, c)).value.1, x, exp) == Value(b + Dot(c, x))
  {
    LoopOverArrayIsSum(b, c, x);
  }

  /** The emitted sigmoid reaches 0.5 exactly when its argument is
      non-negative: `sigmoid(z) >= 0.5f` is the sign test `z >= 0`. */
  lemma SigmoidThresholdIsSign(exp: real -> real, z: real)
    requires ExpLike(exp)
    ensures Sigmoid(exp, z) >= 0.5 <==> z >= 0.0
  {
    var e := exp(-z);
    assert e > 0.0;
    if z > 0.0 {
      assert e < exp(0.0);
    } else if z < 0.0 {
      assert exp(0.0) < e;
    }
    assert (e <= 1.0) <==> z >= 0.0;
  }

  lemma HalfOrMore(e: real)
    requires e >= 0.0
    ensures 1.0 / (1.0 + e) >= 0.5 <==> e <= 1.0
  {
    var q := 1.0 / (1.0 + e);
    assert q * (1.0 + e) == 1.0;
    if e <= 1.0 {
      assert q * 2.0 >= q * (1.0 + e);
    } else {
      assert q * 2.0 < q * (1.0 + e);
    }
  }

  /** The generated logistic `predict` answers 1 exactly when the first
      intercept plus the weighted sum with the first coefficient row is
      non-negative, and 0 otherwise. */
  lemma LogisticPredictMeaning(bs: seq<real>, cs: seq<seq<real>>, x: seq<real>, exp: real -> real)
    requires |bs| > 0 && |cs| > 0 && |cs[0]| <= |x| && ExpLike(exp)
    ensures Lower(LogisticRegression(bs, cs)).Success?
    ensures Run(Lower(LogisticRegression(bs, cs)).value.1, x, exp)
         == Class(if bs[0] + Dot(cs[0], x) >= 0.0 then 1 else 0)
  {
    LoopOverArrayIsSum(bs[0], cs[0], x);
    SigmoidThresholdIsSign(exp, bs[0] + Dot(cs[0], x));
  }

  /** The house-price example: intercept 50000 and coefficients
      (200, 15000, 10000) on the vector (100, 3, 1) give 125000. */
  lemma HousePriceExample(exp: real -> real)
    ensures Run(Lower(LinearRegression(50000.0, [200.0, 15000.0, 10000.0])).value.1, [100.0, 3.0, 1.0], exp)
         == Value(125000.0)
  {
  }
}
