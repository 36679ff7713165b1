# Model of the mlops-tp2 C code generators and their comparison scripts

The repository turns fitted scikit-learn models into stand-alone C
`predict` functions and then checks that the C code agrees with Python:

- `tree_transpiler.py` walks a decision tree's node arrays (sklearn's
  `tree_`: `feature`, `threshold`, `children_left`, `children_right`,
  `value`) from the root and emits nested
  `if(features[f]<=t){...}else{...}` statements with `return k;` at the
  leaves, inside `int predict(float *features)`.
- `transpiler.py` emits, for a `LinearRegression`, a `predict` that starts
  from the intercept and adds `coefs[i] * x[i]` in a loop, and for a
  `LogisticRegression` the same sum followed by
  `sigmoid(z) >= 0.5f ? 1 : 0`, each into its own file.
- `linear_test.py`, `logistic_test.py` and `tree_test.py` read what the
  compiled C driver prints, pair it with Python's predictions and report a
  verdict.

The Dafny modules follow those files:

| module | file | models |
|---|---|---|
| `Results` | results.dfy | `Option` / `Result` with early return (`:-`) |
| `Text` | text.dfy | `str.strip`, `split('\n')`, `split()`, `', '.join`, `str(int)`, `int(str)` |
| `DecisionTree` | decision_tree.dfy | the node arena, well-formedness, numpy `argmax`, the tree's own decision |
| `TreeCodegen` | tree_codegen.dfy | `transpile_node` and the `predict` wrapper of `tree_transpiler.py` |
| `Transpiler` | transpiler.dfy | `transpile` of `transpiler.py` and the meaning of the emitted C |
| `Verdicts` | verdicts.dfy | the three-way verdict and its thresholds `1e-5` / `1e-3` |
| `LinearTest` | linear_test.dfy | output parsing, the max-difference fold, the verdict |
| `LogisticTest` | logistic_test.dfy | line parsing, probability fold, class agreement, the verdict |
| `TreeTest` | tree_test.dfy | Python predictions, output parsing, per-case marks, list equality |

The tree generator is modelled twice. `TreeCodegen.TranspileNode` builds
the text by the same concatenation as the source. `TreeCodegen.ToCode`
builds the same statement as a syntax tree `Code`, and `TreeCodegen.Eval`
gives that tree its meaning. The two are tied together twice: the text
is the printing of the syntax tree, and a parser reads the printed text
back into the same tree (with its thresholds as printed text). The lemmas
about `Eval` therefore describe the written file provided that the C
compiler reads each printed threshold `render(t)` as the number `t`, an
assumption the model makes about `render` and does not prove.

The source never checks a tree. A child index outside the arrays raises
`IndexError`; a cycle makes `transpile_node` recurse until CPython raises
`RecursionError` at its recursion limit (about 1000 frames by default).
The model therefore requires `DecisionTree.Bounded(t, node, d)`. It says
four things: the five node arrays have equal length (`DecisionTree.Arena`),
every descent from `node` stays inside the arrays, it reaches
a leaf within `d` branchings, and every leaf it reaches has a non-empty
first row of class weights (numpy's `argmax` raises `ValueError` on an
empty row). The bound `d` is a ghost parameter: the emitted text cannot
depend on it, and `TreeCodegen.ToCodeDeterministic` proves it does not.

Printing a float64 (`f'{x}'`), Python's `float(...)`, and the C library's
`exp` are function-valued parameters (`render`, `parseFloat`, `exp`).
Numbers are exact reals. The facts about `exp` that the logistic proofs
need (positive, strictly increasing, `exp(0) = 1`) are the predicate
`Transpiler.ExpLike`.

## Model

| member | source | states |
|---|---|---|
| DecisionTree.ArgMax | tree_transpiler.py:6 | the leaf class is an index whose weight is at least every other weight, and no earlier index has as large a weight (numpy's first-maximum tie rule) |
| DecisionTree.ArgMaxIsFirstMaximum | tree_transpiler.py:6 | any index that is maximal and has no earlier equal-maximal index is the argmax, so the tie rule fixes the class uniquely |
| DecisionTree.BoundedMonotone | tree_transpiler.py:4-13 | a tree that terminates within `d` branchings also terminates within any larger bound |
| DecisionTree.WalkDeterministic | tree_test.py:20 | the tree's decision for a vector depends only on the arrays and the vector, not on the termination bound |
| DecisionTree.Predict | tree_test.py:20 | the model's iterative root-to-leaf descent (`model.predict`) answers the same class as the recursive walk |
| TreeCodegen.TranspileNode | tree_transpiler.py:4-13 | the text `transpile_node` concatenates is exactly the printing of the statement `ToCode` builds: `return k;` for a leaf with its argmax class, and `if(features[f]<=t){left}else{right}` with the left child in the then-branch |
| TreeCodegen.ToCodeDeterministic | tree_transpiler.py:4-13 | the emitted statement depends only on the node arrays and the start node, not on the termination bound |
| TreeCodegen.TranspileNodeDeterministic | tree_transpiler.py:4-13 | equal arrays and start node give identical text |
| TreeCodegen.ToCodeReadsWithin | tree_transpiler.py:8-13 | every position `features[f]` the emitted code reads is a feature that some internal node of the tree tests; so when every tested feature is below `n`, every read stays inside a vector of `n` features |
| TreeCodegen.EvalMatchesWalk | tree_transpiler.py:4-13 | evaluating the emitted code on a feature vector gives the class of the leaf that the tree walk reaches when it goes left exactly when `x[feature] <= threshold` |
| TreeCodegen.ShapeMatchesTree | tree_transpiler.py:5-13 | the code is isomorphic to the tree: along every left/right path the code has a `return` of the argmax class exactly where the tree has a leaf, and an `if` on the same feature and threshold exactly where the tree has an internal node |
| TreeCodegen.CountsMatchTree | tree_transpiler.py:4-13 | the code has one `return` per leaf and one `if` per internal node, each counted once per root-to-node path, so a leaf that several parents share is emitted once per path |
| TreeCodegen.ReturnsOutnumberIfs | tree_transpiler.py:13 | every `if` the generator can emit has both branches, so any such statement has exactly one more `return` than `if` |
| TreeCodegen.LeavesOutnumberInternalNodes | tree_transpiler.py:4-13 | counted per path, a well-formed tree has one more leaf than internal nodes, as the code printed from it has one more `return` than `if` |
| TreeCodegen.TranspileTree | tree_transpiler.py:19-23 | the written file begins with the `#include` line and `int predict(float *features){` line, and ends with the closing brace line |
| TreeCodegen.ParsePrint | tree_transpiler.py:5-13 | any printed statement whose thresholds contain no `)` reads back as itself, whatever text follows it |
| TreeCodegen.GeneratedFileReadsBack | tree_transpiler.py:19-23 | the generated file reads back as the root's statement, node 0, with its thresholds printed, wrapped in the `predict` header and footer |
| Transpiler.Transpile | transpiler.py:4-47 | a `LinearRegression` writes `linear_model.c`; a `LogisticRegression` writes `logistic_model.c`, or fails with an index error when `intercept_` or `coef_` is empty; any other class fails to open the empty file name |
| Transpiler.TranspileEmitsLowered | transpiler.py:9-44 | the written text is the printing of a `predict` whose loop bound equals its coefficient count; the linear one holds `intercept_` and `coef_`; the logistic one holds only `intercept_[0]` and `coef_[0]`; both succeed or fail together with the same error |
| Transpiler.Literals | transpiler.py:19 | one literal per coefficient, in order, each the printed value followed by `f` |
| Transpiler.CoefficientArrayReadsBack | transpiler.py:13-20 | the `coefs[]` initializer lists exactly the coefficients' literals in their original order, and the printed loop bound reads back as the number of items |
| Transpiler.RunLoopIsSum | transpiler.py:20 | the C loop from `k` to `n` adds the weighted sum of that slice to the accumulator |
| Transpiler.LoopOverArrayIsSum | transpiler.py:18-20 | the loop over the whole coefficient array gives the intercept plus `Σ coefs[i] * x[i]`; input features beyond the array are ignored |
| Transpiler.LinearPredictMeaning | transpiler.py:17-21 | the generated linear `predict` returns `intercept + Σ coef[i] * x[i]` |
| Transpiler.Sigmoid | transpiler.py:34-36 | the emitted `sigmoid` lies in `(0, 1]` whenever `exp(-z)` is non-negative, and reaches one half exactly when `exp(-z) <= 1` |
| Transpiler.SigmoidThresholdIsSign | transpiler.py:34-35 | the emitted `sigmoid(z)` is at least 0.5 exactly when `z >= 0` |
| Transpiler.LogisticPredictMeaning | transpiler.py:38-42 | the generated logistic `predict` returns 1 when `intercept_[0] + Σ coef_[0][i] * x[i] >= 0` and 0 otherwise, so its result is always 0 or 1 |
| Transpiler.HousePriceExample | transpiler.py:17-21 | a concrete linear model: intercept 50000 and coefficients (200, 15000, 10000) on (100, 3, 1) predict 125000 |
| Text.Strip | linear_test.py:62 | `strip()` returns the slice of the input that is left once its leading and trailing white space is removed: only white space surrounds it, and it is empty or begins and ends with a non-blank; a trimmed or blank-free text comes back unchanged |
| Text.SplitChar | linear_test.py:62 | `split('\n')` yields at least one piece, no piece holds the separator, and joining the pieces with the separator gives back the input |
| Text.Words | logistic_test.py:75 | `split()` yields only non-empty tokens free of white space, and no token at all exactly when the text is empty or all white space |
| Text.WordsSplitAtBlank | logistic_test.py:75 | `split()` cuts at every white-space character: the tokens of `a + c + b`, where `c` is a blank, are the tokens of `a` followed by the tokens of `b` (with `WordsOfWord` and `Words("") == []` from `Words`' contract, this fixes the tokens of every input) |
| Text.WordsOfWord | logistic_test.py:75 | a non-empty blank-free text is a single token |
| Text.IntStr | tree_transpiler.py:6 | `str(n)` starts with `-` exactly when `n` is negative, and the rest is a non-empty run of decimal digits whose first digit is `0` only for zero (no leading zero that C would read as octal) |
| Text.ParseInt | tree_test.py:42 | `int(s)` succeeds exactly when the stripped text is an optional sign followed by at least one decimal digit; only a minus sign gives a negative value; an unsigned text reads as its decimal value |
| Text.OutputLinesRoundTrip | linear_test.py:62 | lines printed one per line read back unchanged through `strip().split('\n')`, as long as each is non-empty, unpadded and has no line break |
| Text.ParseEach | linear_test.py:62 | the list comprehension parses every line or fails; on success it has one value per line, in order |
| Text.IntStrRoundTrip | tree_test.py:42 | `int(str(n)) == n` for every integer |
| Text.WordsOfPair | logistic_test.py:75 | `split()` on two blank-free tokens joined by one blank gives exactly those two tokens |
| Verdicts.Grade | linear_test.py:80-85 | the verdict is a match exactly below `1e-5`, small differences exactly from `1e-5` to below `1e-3`, significant exactly from `1e-3` up |
| Verdicts.GradeMonotone | linear_test.py:80-85 | a larger maximum difference never yields a better verdict |
| Verdicts.Max | linear_test.py:72 | Python's `max` returns one of its arguments and is at least both |
| LinearTest.ParseOutput | linear_test.py:62 | the C output parses exactly when every line of `stdout.strip().split('\n')` is a float, and then holds one value per line, in order |
| LinearTest.ParseOutputRoundTrip | linear_test.py:62 | the C driver's printed values parse back as one float per line, in order |
| LinearTest.MaxDifference | linear_test.py:69-72 | `max_diff` is at least 0, bounds every paired `abs(py - c)`, and is either 0 or attained by one pair; only the shorter list's length is paired |
| LinearTest.Compare | linear_test.py:69-85 | the verdict is a match exactly when every paired difference is below `1e-5`, and significant exactly when some paired difference reaches `1e-3` |
| LogisticTest.ClassOneProbabilities | logistic_test.py:26-29 | the recorded Python probability of each case is column 1 of its `predict_proba` row; a row without that column is an index error |
| LogisticTest.ParseResultLine | logistic_test.py:75-76 | a line parses exactly when it splits into two tokens, the first a float and the second an int; otherwise it is a `ValueError`; the pair holds the two parsed values |
| LogisticTest.ParseOutput | logistic_test.py:74-76 | the C output parses exactly when every line parses as a result line, and then holds one (probability, class) pair per line, in order |
| LogisticTest.ResultLineReadsBack | logistic_test.py:74-76 | a printed `probability class` line splits into exactly two tokens that parse back as the probability and the class |
| LogisticTest.ParseOutputRoundTrip | logistic_test.py:74-76 | the driver's whole output parses back as one (probability, class) pair per line, in order |
| LogisticTest.LogisticGrade | logistic_test.py:102-107 | match exactly when the gap is below `1e-5` and all classes agree; small exactly when the gap is from `1e-5` to below `1e-3` and all classes agree; any class mismatch is significant |
| LogisticTest.LogisticGradeIsGrade | logistic_test.py:102-107 | with all classes agreeing, the logistic verdict is the linear one; otherwise it is significant |
| LogisticTest.LogisticGradeMonotone | logistic_test.py:102-107 | a larger gap or a lost class agreement never yields a better verdict |
| LogisticTest.Compare | logistic_test.py:83-90 | `max_prob_diff` is at least 0, bounds every paired probability gap and is 0 or attained; `all_classes_match` holds exactly when every paired C class equals the Python class; the verdict follows from both |
| LogisticTest.DriverMatchesPredict | logistic_test.py:51-56 | for three features, the driver's recomputed `z` and the generated `predict` agree: the printed class is 1 exactly when the computed probability is at least 0.5 (before `%.6f` rounds it: 0.4999997 prints as `0.500000` beside class 0) |
| TreeTest.PythonPredictions | tree_test.py:18-21 | one Python prediction per test case, in test-case order, each the tree's decision for that case |
| TreeTest.ParseOutput | tree_test.py:42 | the C output parses exactly when every line is an int, and then holds one value per line, in order |
| TreeTest.ParseOutputRoundTrip | tree_test.py:42 | integers printed one per line parse back as the same list |
| TreeTest.DriverReportsDecisions | tree_test.py:28-42 | the C predictions read back from the driver are the tree's decisions for the test vectors |
| TreeTest.Marks | tree_test.py:45-47 | each case's mark is ✓ exactly when `py_preds[i] == c_preds[i]`; too short a list is an index error |
| TreeTest.SameList | tree_test.py:49-52 | "all predictions match" is printed exactly when the two lists are equal: same length and equal element by element |
| TreeTest.SummaryAgreesWithMarks | tree_test.py:45-52 | when C printed one line per case, the lists are equal exactly when every mark is ✓ |
| TreeTest.ExtraOutputDiffers | tree_test.py:45-52 | extra C output lines leave every mark ✓ yet make the closing line report a difference |
| TreeTest.GeneratedTreeAgrees | tree_test.py:18-52 | for any well-formed tree, the C predictions equal the Python predictions, every mark is ✓, and the lists are equal |
| TreeTest.DecisionsAnyBound | tree_test.py:18-21 | a termination bound that vouches for the tree can be raised, and the Python predictions do not depend on which bound is used |
| TreeTest.ExampleDecisions | tree_test.py:8-13 | a depth-two tree that separates the training labels classifies the four test vectors as 1, 0, 0, 0, for any bound of two branchings or more |

## Left out

- Loading models with `joblib`: the estimator's arrays and scalars are inputs (`DecisionTree.Tree`, `Transpiler.Estimator`).
- File writes, the `Transpiled ...` messages, `gcc` and running the binaries with `subprocess`, and the `CalledProcessError` / `FileNotFoundError` handlers are external I/O. What a driver prints is an input, or, in `TreeTest`, the evaluation of the generated statement.
- Console printing and formatting (`:.6f`, `:.6e`, the ✓ / ✗ glyphs) is left out. Only which verdict branch is taken is modelled.
- The `__main__` argument handling of `transpiler.py` and `tree_transpiler.py` is left out. `tree_transpiler.py`'s `output` file name is not modelled.
- The training scripts are left out. `TreeTest.ExampleDecisions` uses a hand-built tree, not the one sklearn fits.
- Python's float printing (`repr` of a float64) and parsing (`float(...)`) are the parameters `render` and `parseFloat`. The model assumes, without proof, that C reads the literal `render(t)` back as `t`; the meaning of the written files rests on it.
- float32 narrowing in C and IEEE arithmetic are left out: arithmetic is on exact reals, so the float-versus-double differences the scripts tolerate do not arise, and NaN is not modelled.
- Python's `int(...)` accepts `_` digit separators and non-ASCII digits. `Text.ParseInt` accepts only ASCII digits with an optional sign, which covers every text that `str(int)` and C's `%d` produce.
- Transpiler.CoefficientArrayReadsBack: requires every printed coefficient to be non-empty, without surrounding blanks and without a comma. A Python float never prints otherwise.
- TreeCodegen.GeneratedFileReadsBack: requires that no printed threshold contains `)`. A Python float never prints one.
- DecisionTree.Walk: the tree's class is the argmax index. sklearn's `predict` returns `classes_[argmax]`, which is the same value only when the labels are `0..k-1`, as in the training data.
- LogisticTest.DriverMatchesPredict: relates the driver to the generated code only. sklearn's own `predict` for a binary logistic model tests `z > 0`, not `z >= 0`; that library is outside the model, so its answer is an input to `LogisticTest.Compare`.
- `transpile_node` has no range or cycle check, and `transpile` has no check for an empty coefficient list. Tree well-formedness is a precondition (`Bounded`). An empty coefficient list emits `coefs[] = {}` with loop bound 0.
- An unsupported class leaves `output` empty, and `open("")` raises `FileNotFoundError` before anything is written. The model returns `CannotOpen("")`.
- Python's recursion limit is not modelled. `transpile_node` recurses once per level, so on a well-formed tree deeper than about 1000 levels the source raises `RecursionError`, while `TreeCodegen.TranspileNode` and `TreeCodegen.TranspileTree` return the text.
- A negative numpy child index `-k` with `1 <= k <= n` (for `n` nodes) would wrap around to node `n - k`. `Bounded` rules out every child outside `0..n-1`, so those cases are excluded rather than modelled.
- DecisionTree.Predict: it stops at a node whose `feature` is `-2`, the same leaf test the generator uses. sklearn's own `predict` descends while `children_left != -1` and compares float32 features. The two agree on every tree sklearn builds, but not on every arena that `Bounded` admits (for example a `-2` node whose children are in range). On such arenas `TreeTest.GeneratedTreeAgrees` holds only because the Python side is modelled with the generator's leaf test.
