/** The comparison half of `tree_test.py`: the Python predictions for the
    test vectors, the C driver's output read back as integers, a mark per
    test vector and the final all-or-nothing comparison. Compiling and
    running the C program is outside the model; what it prints is described
    by evaluating the generated statement (`TreeCodegen.Eval`). */
module TreeTest {
  import opened Results
  import opened Text
  import opened DecisionTree
  import opened TreeCodegen

  /** The four feature vectors both sides are asked about. */
  const TestCases: seq<seq<real>> := [[-1.0, -1.0], [-1.0, 1.0], [1.0, -1.0], [1.0, 1.0]]

  /** The tree can be asked about every vector: it is well formed and every
      feature it tests exists in every vector. */
  predicate Classifiable(t: Tree, cases: seq<seq<real>>, d: nat) {
    && Bounded(t, 0, d)
    && forall i :: 0 <= i < |cases| ==> FeaturesWithin(t, |cases[i]|)
  }

  /** The class the tree assigns to each vector, by the recursive walk. */
  function Decisions(t: Tree, cases: seq<seq<real>>, ghost d: nat): (r: seq<int>)
    requires Classifiable(t, cases, d)
    ensures |r| == |cases|
  {
    seq(|cases|, i requires 0 <= i < |cases| => Walk(t, 0, cases[i], d))
  }

  /** A bound that vouches for the tree can be raised, and the decisions do
      not depend on which bound is used. */
  lemma DecisionsAnyBound(t: Tree, cases: seq<seq<real>>, d: nat, e: nat)
    requires Classifiable(t, cases, d) && d <= e
    ensures Classifiable(t, cases, e)
    ensures Decisions(t, cases, e) == Decisions(t, cases, d)
  {
    BoundedMonotone(t, 0, d, e);
    forall i | 0 <= i < |cases|
      ensures Walk(t, 0, cases[i], e) == Walk(t, 0, cases[i], d)
    {
      WalkDeterministic(t, 0, cases[i], d, e);
    }
  }

  /** The loop that fills `py_preds`, one `model.predict([features])[0]` per
      test vector, with `Predict` standing for the fitted model's descent. */
  method PythonPredictions(t: Tree, cases: seq<seq<real>>, ghost d: nat) returns (preds: seq<int>)
    requires Classifiable(t, cases, d)
    ensures |preds| == |cases|
    ensures forall i :: 0 <= i < |cases| ==> preds[i] == Walk(t, 0, cases[i], d)
  {
    preds := [];
    var i := 0;
    while i < |cases|
      invariant 0 <= i <= |cases|
      invariant |preds| == i
      invariant forall j :: 0 <= j < i ==> preds[j] == Walk(t, 0, cases[j], d)
    {
      var pred := Predict(t, cases[i], d);
      preds := preds + [pred];
      i := i + 1;
    }
  }

  /** What the C driver prints: `predict(tests[i])` and a line break for
      every test vector. */
  function DriverOutput(code: Code<real>, tests: seq<seq<real>>): string
    requires forall i :: 0 <= i < |tests| ==> ReadsWithin(code, |tests[i]|)
  {
    PrintLines(seq(|tests|, i requires 0 <= i < |tests| => IntStr(Eval(code, tests[i]))))
  }

  /** `[int(x) for x in result.stdout.strip().split('\n')]`. */
  function ParseOutput(stdout: string): (r: Option<seq<int>>)
    ensures r.Some? <==> forall i :: 0 <= i < |OutputLines(stdout)| ==> ParseInt(OutputLines(stdout)[i]).Some?
    ensures r.Some? ==> |r.value| == |OutputLines(stdout)|
    ensures r.Some? ==> forall i :: 0 <= i < |r.value| ==> ParseInt(OutputLines(stdout)[i]) == Some(r.value[i])
  {
    ParseEach(OutputLines(stdout), ParseInt)
  }

  /** Printed integers, one per line, are read back as themselves. */
  lemma ParseOutputRoundTrip(values: seq<int>)
    requires |values| > 0
    ensures ParseOutput(PrintLines(seq(|values|, i requires 0 <= i < |values| => IntStr(values[i]))))
         == Some(values)
  {
    var lines := seq(|values|, i requires 0 <= i < |values| => IntStr(values[i]));
    forall i | 0 <= i < |lines|
      ensures Trimmed(lines[i]) && '\n' !in lines[i]
      ensures ParseInt(lines[i]) == Some(values[i])
    {
      IntStrPrintable(values[i]);
    }
    OutputLinesRoundTrip(lines);
    var r := ParseEach(lines, ParseInt);
    assert r.value == values;
  }

  /** The C predictions `tree_test.py` reads are the tree's own decisions:
      the driver prints what the generated statement returns, and that is
      the class of the leaf the walk reaches. */
  lemma DriverReportsDecisions(t: Tree, tests: seq<seq<real>>, d: nat)
    requires |tests| > 0 && Classifiable(t, tests, d)
    ensures forall i :: 0 <= i < |tests| ==> ReadsWithin(ToCode(t, 0, d), |tests[i]|)
    ensures ParseOutput(DriverOutput(ToCode(t, 0, d), tests)) == Some(Decisions(t, tests, d))
  {
    var code := ToCode(t, 0, d);
    var values := Decisions(t, tests, d);
    forall i | 0 <= i < |tests|
      ensures ReadsWithin(code, |tests[i]|)
      ensures Eval(code, tests[i]) == values[i]
    {
      EvalMatchesWalk(t, 0, tests[i], d);
    }
    var lines := seq(|tests|, i requires 0 <= i < |tests| => IntStr(Eval(code, tests[i])));
    assert lines == seq(|values|, i requires 0 <= i < |values| => IntStr(values[i]));
    ParseOutputRoundTrip(values);
  }

  /** The per-vector lines `✓` / `✗`: `py_preds[i]` and `c_preds[i]` for
      each of the `n` test vectors, `None` being the `IndexError` raised
      when either list is too short. */
  function Marks(n: nat, py: seq<int>, c: seq<int>): (r: Option<seq<bool>>)
    ensures r.Some? <==> n <= |py| && n <= |c|
    ensures r.Some? ==> |r.value| == n && forall i :: 0 <= i < n ==> (r.value[i] <==> py[i] == c[i])
  {
    if n > |py| || n > |c| then None
    else Some(seq(n, i requires 0 <= i < n => py[i] == c[i]))
  }

  /** `py_preds == c_preds`, compared element by element. */
  method SameList(a: seq<int>, b: seq<int>) returns (eq: bool)
    ensures eq <==> a == b
  {
    if |a| != |b| {
      return false;
    }
    var i := 0;
    while i < |a|
      invariant 0 <= i <= |a|
      invariant a[..i] == b[..i]
    {
      if a[i] != b[i] {
        assert a[i] == a[..i + 1][i];
        return false;
      }
      i := i + 1;
    }
    assert a == a[..i] && b == b[..i];
    eq := true;
  }

  /** The closing line agrees with the marks when C printed one line per
      test vector: all match exactly when every mark is `✓`. */
  lemma SummaryAgreesWithMarks(py: seq<int>, c: seq<int>)
    requires |py| == |c|
    ensures Marks(|py|, py, c).Some?
    ensures py == c <==> forall i :: 0 <= i < |py| ==> Marks(|py|, py, c).value[i]
  {
    var m := Marks(|py|, py, c).value;
    if forall i :: 0 <= i < |py| ==> m[i] {
      forall i | 0 <= i < |py|
        ensures py[i] == c[i]
      {
        assert m[i];
      }
    }
  }

  /** Extra lines from C leave every mark `✓` possible yet make the closing
      line report a difference. */
  lemma ExtraOutputDiffers(py: seq<int>, c: seq<int>)
    requires |py| < |c| && py == c[..|py|]
    ensures Marks(|py|, py, c).Some?
    ensures forall i :: 0 <= i < |py| ==> Marks(|py|, py, c).value[i]
    ensures py != c
  {
    assert forall i :: 0 <= i < |py| ==> py[i] == c[..|py|][i];
  }

  /** End to end: for a tree the generator accepts, the script's C
      predictions are its Python predictions, every mark is `✓` and the
      closing line says all predictions match. */
  lemma GeneratedTreeAgrees(t: Tree, tests: seq<seq<real>>, d: nat, py: seq<int>)
    requires |tests| > 0 && Classifiable(t, tests, d)
    requires |py| == |tests| && forall i :: 0 <= i < |tests| ==> py[i] == Walk(t, 0, tests[i], d)
    ensures forall i :: 0 <= i < |tests| ==> ReadsWithin(ToCode(t, 0, d), |tests[i]|)
    ensures ParseOutput(DriverOutput(ToCode(t, 0, d), tests)).Some?
    ensures var c := ParseOutput(DriverOutput(ToCode(t, 0, d), tests)).value;
      && c == py
      && Marks(|tests|, py, c).Some?
      && forall i :: 0 <= i < |tests| ==> Marks(|tests|, py, c).value[i]
  {
    DriverReportsDecisions(t, tests, d);
    PredictionsAreDecisions(t, tests, d, py);
    AllMarked(py);
  }

  lemma PredictionsAreDecisions(t: Tree, tests: seq<seq<real>>, d: nat, py: seq<int>)
    requires Classifiable(t, tests, d)
    requires |py| == |tests| && forall i :: 0 <= i < |tests| ==> py[i] == Walk(t, 0, tests[i], d)
    ensures py == Decisions(t, tests, d)
  {
  }

  /** Two equal lists get a `✓` for every case. */
  lemma AllMarked(py: seq<int>)
    ensures Marks(|py|, py, py).Some?
    ensures forall i :: 0 <= i < |py| ==> Marks(|py|, py, py).value[i]
  {
  }

  // ---------------------------------------------------------------------------
  // A concrete tree

  /** A depth-two tree separating the training points the way the training
      labels do (class 1 only for `[-1, -1]`), nodes in depth-first order:
      0 tests feature 0 against 0.0, 1 tests feature 1 against 0.0, 2 is a
      class-1 leaf, 3 and 4 are class-0 leaves. */
  const Example: Tree := Tree(
    [0, 1, LEAF, LEAF, LEAF],
    [0.0, 0.0, -2.0, -2.0, -2.0],
    [1, 2, -1, -1, -1],
    [4, 3, -1, -1, -1],
    [[[3.0, 1.0]], [[1.0, 1.0]], [[0.0, 1.0]], [[1.0, 0.0]], [[2.0, 0.0]]])

  /** The example classifies the four test vectors as the training labels
      do, whatever bound (two branchings or more) is used to vouch for it. */
  lemma ExampleDecisions(d: nat)
    requires d >= 2
    ensures Classifiable(Example, TestCases, d)
    ensures Decisions(Example, TestCases, d) == [1, 0, 0, 0]
  {
    assert Bounded(Example, 1, 1);
    assert Bounded(Example, 4, 1);
    assert LeafClass(Example, 2) == 1;
    assert LeafClass(Example, 3) == 0;
    assert LeafClass(Example, 4) == 0;
    assert Decisions(Example, TestCases, 2) == [1, 0, 0, 0];
    DecisionsAnyBound(Example, TestCases, 2, d);
  }
}
