/** The decision-tree code generator (`tree_transpiler.py`): each leaf becomes
    `return k;`, each internal node `if(features[f]<=t){..}else{..}` with the
    left subtree in the then-branch, and the whole is wrapped in
    `int predict(float *features)`.

    Two layers: `TranspileNode` builds the text exactly as the source
    concatenates it; `ToCode` builds the same statement as a small syntax
    tree whose meaning is `Eval`. `TranspileNode`'s contract ties the layers
    together and `ParsePrint` shows the text can be read back into the tree,
    so what is proved about `Eval` is about the emitted text, provided the
    C compiler reads each printed threshold `render(t)` as the number `t`
    (an assumption about `render` that is not proved). */
module TreeCodegen {
  import opened Results
  import opened Text
  import opened DecisionTree

  /** An emitted statement. The threshold is a number (`N = real`) or the
      text it was printed as (`N = string`). */
  datatype Code<N> =
    | Return(cls: int)
    | IfLe(feature: int, threshold: N, onTrue: Code<N>, onFalse: Code<N>)

  // ---------------------------------------------------------------------------
  // The generator, as text and as syntax

  /** `transpile_node(tree, node_id)`; `render` prints a float64 the way a
      Python f-string does. The text is the printing of the statement
      `ToCode` builds, so each leaf becomes `return k;` with its argmax
      class and each internal node an `if` with the left child first. */
  function TranspileNode(t: Tree, node: int, render: real -> string, ghost d: nat): (r: string)
    requires Bounded(t, node, d)
    ensures r == Print(RenderThresholds(ToCode(t, node, d), render))
    decreases d
  {
    if t.feature[node] == LEAF then
      "return " + IntStr(ArgMax(t.value[node][0])) + ";"
    else
      var feat := t.feature[node];
      var thresh := t.threshold[node];
      var left := t.childrenLeft[node];
      var right := t.childrenRight[node];
      "if(features[" + IntStr(feat) + "]<=" + render(thresh) + "){"
        + TranspileNode(t, left, render, d - 1) + "}else{"
        + TranspileNode(t, right, render, d - 1) + "}"
  }

  /** The statement `transpile_node(tree, node)` emits, as syntax. */
  function ToCode(t: Tree, node: int, ghost d: nat): Code<real>
    requires Bounded(t, node, d)
    decreases d
  {
    if t.feature[node] == LEAF then Return(LeafClass(t, node))
    else
      IfLe(t.feature[node], t.threshold[node],
           ToCode(t, t.childrenLeft[node], d - 1),
           ToCode(t, t.childrenRight[node], d - 1))
  }

  /** The C text of a statement whose thresholds are already printed. */
  function Print(c: Code<string>): string {
    match c
    case Return(k) => "return " + IntStr(k) + ";"
    case IfLe(f, th, a, b) =>
      "if(features[" + IntStr(f) + "]<=" + th + "){" + Print(a) + "}else{" + Print(b) + "}"
  }

  /** Prints every threshold of `c` with `render`. */
  function RenderThresholds(c: Code<real>, render: real -> string): Code<string> {
    match c
    case Return(k) => Return(k)
    case IfLe(f, th, a, b) => IfLe(f, render(th), RenderThresholds(a, render), RenderThresholds(b, render))
  }

  /** The emitted statement depends only on the arrays and the start node,
      never on how much depth bound a caller could vouch for. */
  lemma {:induction false} ToCodeDeterministic(t: Tree, node: int, d: nat, e: nat)
    requires Bounded(t, node, d) && Bounded(t, node, e)
    ensures ToCode(t, node, d) == ToCode(t, node, e)
    decreases d
  {
    if t.feature[node] != LEAF {
      ToCodeDeterministic(t, t.childrenLeft[node], d - 1, e - 1);
      ToCodeDeterministic(t, t.childrenRight[node], d - 1, e - 1);
    }
  }

  /** Equal inputs give identical text. */
  lemma TranspileNodeDeterministic(t: Tree, node: int, render: real -> string, d: nat, e: nat)
    requires Bounded(t, node, d) && Bounded(t, node, e)
    ensures TranspileNode(t, node, render, d) == TranspileNode(t, node, render, e)
  {
    ToCodeDeterministic(t, node, d, e);
  }

  // ---------------------------------------------------------------------------
  // Meaning of the emitted code

  /** Every `features[f]` the statement reads is within a vector of `n`. */
  predicate ReadsWithin(c: Code<real>, n: nat) {
    match c
    case Return(_) => true
    case IfLe(f, _, a, b) => 0 <= f < n && ReadsWithin(a, n) && ReadsWithin(b, n)
  }

  /** What the emitted C statement returns for a feature vector. */
  function Eval(c: Code<real>, x: seq<real>): int
    requires ReadsWithin(c, |x|)
  {
    match c
    case Return(k) => k
    case IfLe(f, th, a, b) => if x[f] <= th then Eval(a, x) else Eval(b, x)
  }

  /** The positions `features[f]` the statement reads. */
  function Reads(c: Code<real>): set<int> {
    match c
    case Return(_) => {}
    case IfLe(f, _, a, b) => {f} + Reads(a) + Reads(b)
  }

  /** The tree tests feature `f` at some internal node. */
  predicate Tests(t: Tree, f: int) {
    exists i :: 0 <= i < |t.feature| && t.feature[i] != LEAF && t.feature[i] == f
  }

  /** The emitted code reads only positions that some internal node of the
      tree tests, so when every tested feature is below `n`, every read is
      inside a vector of `n` features. */
  lemma {:induction false} ToCodeReadsWithin(t: Tree, node: int, d: nat, n: nat)
    requires Bounded(t, node, d)
    ensures forall f :: f in Reads(ToCode(t, node, d)) ==> Tests(t, f)
    ensures FeaturesWithin(t, n) ==> ReadsWithin(ToCode(t, node, d), n)
    decreases d
  {
    if t.feature[node] != LEAF {
      ToCodeReadsWithin(t, t.childrenLeft[node], d - 1, n);
      ToCodeReadsWithin(t, t.childrenRight[node], d - 1, n);
      assert Tests(t, t.feature[node]) by {
        assert 0 <= node < |t.feature| && t.feature[node] != LEAF;
      }
    }
  }

  /** The generated code decides like the tree: evaluating it on `x` gives
      the class of the leaf reached by going left exactly when
      `x[feature] <= threshold`. */
  lemma {:induction false} EvalMatchesWalk(t: Tree, node: int, x: seq<real>, d: nat)
    requires Bounded(t, node, d) && FeaturesWithin(t, |x|)
    ensures ReadsWithin(ToCode(t, node, d), |x|)
    ensures Eval(ToCode(t, node, d), x) == Walk(t, node, x, d)
    decreases d
  {
    ToCodeReadsWithin(t, node, d, |x|);
    if t.feature[node] != LEAF {
      EvalMatchesWalk(t, t.childrenLeft[node], x, d - 1);
      EvalMatchesWalk(t, t.childrenRight[node], x, d - 1);
    }
  }

  // ---------------------------------------------------------------------------
  // Shape of the emitted code

  /** What sits at a position of a tree or of the code. */
  datatype Label = Leaf(cls: int) | Test(feature: int, threshold: real)

  /** The statement reached by following `path` through the code, `true`
      meaning the then-branch. */
  function CodeAt(c: Code<real>, path: seq<bool>): Option<Label> {
    match c
    case Return(k) => if |path| == 0 then Some(Leaf(k)) else None
    case IfLe(f, th, a, b) =>
      if |path| == 0 then Some(Test(f, th))
      else if path[0] then CodeAt(a, path[1..])
      else CodeAt(b, path[1..])
  }

  /** The node reached by following `path` from `node` in the arena, `true`
      meaning the left child. */
  function TreeAt(t: Tree, node: int, path: seq<bool>, ghost d: nat): Option<Label>
    requires Bounded(t, node, d)
    decreases d
  {
    if t.feature[node] == LEAF then
      if |path| == 0 then Some(Leaf(LeafClass(t, node))) else None
    else if |path| == 0 then Some(Test(t.feature[node], t.threshold[node]))
    else if path[0] then TreeAt(t, t.childrenLeft[node], path[1..], d - 1)
    else TreeAt(t, t.childrenRight[node], path[1..], d - 1)
  }

  /** The code is isomorphic to the tree: every path selects a `return` in the
      code exactly when it selects a leaf in the tree (with its argmax
      class), and an `if` exactly when it selects an internal node (with its
      feature and threshold); left subtrees are never swapped into the
      else-branch. */
  lemma {:induction false} ShapeMatchesTree(t: Tree, node: int, path: seq<bool>, d: nat)
    requires Bounded(t, node, d)
    ensures CodeAt(ToCode(t, node, d), path) == TreeAt(t, node, path, d)
    decreases d
  {
    if t.feature[node] != LEAF && |path| > 0 {
      if path[0] {
        ShapeMatchesTree(t, t.childrenLeft[node], path[1..], d - 1);
      } else {
        ShapeMatchesTree(t, t.childrenRight[node], path[1..], d - 1);
      }
    }
  }

  function Returns<N>(c: Code<N>): nat {
    match c
    case Return(_) => 1
    case IfLe(_, _, a, b) => Returns(a) + Returns(b)
  }

  function Ifs<N>(c: Code<N>): nat {
    match c
    case Return(_) => 0
    case IfLe(_, _, a, b) => 1 + Ifs(a) + Ifs(b)
  }

  /** Each `if` carries both branches, so the code has one more `return`
      than it has `if`s, as a strict binary tree has one more leaf than
      internal nodes. */
  lemma {:induction false} ReturnsOutnumberIfs<N>(c: Code<N>)
    ensures Returns(c) == Ifs(c) + 1
  {
    match c
    case Return(_) =>
    case IfLe(_, _, a, b) =>
      ReturnsOutnumberIfs(a);
      ReturnsOutnumberIfs(b);
  }

  /** Leaves reachable from `node`, counted once per path that reaches them. */
  function LeafCount(t: Tree, node: int, ghost d: nat): nat
    requires Bounded(t, node, d)
    decreases d
  {
    if t.feature[node] == LEAF then 1
    else LeafCount(t, t.childrenLeft[node], d - 1) + LeafCount(t, t.childrenRight[node], d - 1)
  }

  /** Internal nodes reachable from `node`, counted the same way. */
  function InternalCount(t: Tree, node: int, ghost d: nat): nat
    requires Bounded(t, node, d)
    decreases d
  {
    if t.feature[node] == LEAF then 0
    else 1 + InternalCount(t, t.childrenLeft[node], d - 1) + InternalCount(t, t.childrenRight[node], d - 1)
  }

  /** One `return` per reachable leaf and one `if` per reachable internal
      node. */
  lemma {:induction false} CountsMatchTree(t: Tree, node: int, d: nat)
    requires Bounded(t, node, d)
    ensures Returns(ToCode(t, node, d)) == LeafCount(t, node, d)
    ensures Ifs(ToCode(t, node, d)) == InternalCount(t, node, d)
    decreases d
  {
    if t.feature[node] != LEAF {
      CountsMatchTree(t, t.childrenLeft[node], d - 1);
      CountsMatchTree(t, t.childrenRight[node], d - 1);
    }
  }

  /** A well-formed tree, shared leaves counted once per path, has one more
      leaf than internal nodes: the code it is printed as has one more
      `return` than `if`. */
  lemma LeavesOutnumberInternalNodes(t: Tree, node: int, d: nat)
    requires Bounded(t, node, d)
    ensures LeafCount(t, node, d) == InternalCount(t, node, d) + 1
  {
    CountsMatchTree(t, node, d);
    ReturnsOutnumberIfs(ToCode(t, node, d));
  }

  // ---------------------------------------------------------------------------
  // The whole generated file

  const Header: string := "#include <stdio.h>\nint predict(float *features){\n"
  const Footer: string := "\n}\n"

  /** `transpile(model_path)`: the file always starts the descent at the
      root, node 0. */
  function TranspileTree(t: Tree, render: real -> string, ghost d: nat): (code: string)
    requires Bounded(t, 0, d)
    ensures |code| > |Header| + |Footer|
    ensures code[..|Header|] == Header
    ensures code[|code| - |Footer|..] == Footer
  {
    Header + TranspileNode(t, 0, render, d) + Footer
  }

  // ---------------------------------------------------------------------------
  // Reading the emitted text back

  predicate HasPrefix(s: string, p: string) {
    |p| <= |s| && s[..|p|] == p
  }

  /** Splits `s` at the first occurrence of `c`. */
  function UpTo(s: string, c: char): (r: Option<(string, string)>)
    ensures r.Some? ==> s == r.value.0 + [c] + r.value.1 && c !in r.value.0
    ensures r.None? ==> c !in s
  {
    if |s| == 0 then None
    else if s[0] == c then Some(("", s[1..]))
    else
      match UpTo(s[1..], c)
      case None => None
      case Some((a, b)) => Some(([s[0]] + a, b))
  }

  lemma {:induction false} UpToFirst(a: string, b: string, c: char)
    requires c !in a
    ensures UpTo(a + [c] + b, c) == Some((a, b))
  {
    var s := a + [c] + b;
    if |a| > 0 {
      assert s[1..] == a[1..] + [c] + b;
      UpToFirst(a[1..], b, c);
      assert [a[0]] + a[1..] == a;
    } else {
      assert s[1..] == b;
    }
  }

  /** `s` without its leading `p`, if it starts with `p`. */
  function Skip(s: string, p: string): (r: Option<string>)
    ensures r.Some? ==> |r.value| == |s| - |p|
  {
    if HasPrefix(s, p) then Some(s[|p|..]) else None
  }

  /** Reads `k;` after `return `. */
  function ParseReturn(s: string): (r: Option<(Code<string>, string)>)
    ensures r.Some? ==> |r.value.1| < |s|
  {
    var (num, rest) :- UpTo(s, ';');
    var k :- ParseInt(num);
    Some((Return(k), rest))
  }

  /** Reads `f]<=t)` after `if(features[`. */
  function ParseCondition(s: string): (r: Option<(int, string, string)>)
    ensures r.Some? ==> |r.value.2| < |s|
  {
    var (f, r1) :- UpTo(s, ']');
    var feat :- ParseInt(f);
    var r2 :- Skip(r1, "<=");
    var (th, r3) :- UpTo(r2, ')');
    Some((feat, th, r3))
  }

  /** Reads one statement off the front of `s`, returning it and the text
      that follows. */
  function ParseStatement(s: string): (r: Option<(Code<string>, string)>)
    ensures r.Some? ==> |r.value.1| < |s|
    decreases |s|, 1
  {
    match Skip(s, "return ")
    case Some(t) => ParseReturn(t)
    case None =>
      match Skip(s, "if(features[")
      case Some(t) => ParseIf(t)
      case None => None
  }

  /** Reads the rest of an `if` after `if(features[`. */
  function ParseIf(s: string): (r: Option<(Code<string>, string)>)
    ensures r.Some? ==> |r.value.1| < |s|
    decreases |s|, 0
  {
    var (feat, th, r1) :- ParseCondition(s);
    var r2 :- Skip(r1, "{");
    var (a, r3) :- ParseStatement(r2);
    var r4 :- Skip(r3, "}else{");
    var (b, r5) :- ParseStatement(r4);
    var r6 :- Skip(r5, "}");
    Some((IfLe(feat, th, a, b), r6))
  }

  /** No printed threshold contains the `)` that closes the condition. */
  predicate Readable(c: Code<string>) {
    match c
    case Return(_) => true
    case IfLe(_, th, a, b) => ')' !in th && Readable(a) && Readable(b)
  }

  lemma SkipPrefix(p: string, r: string)
    ensures Skip(p + r, p) == Some(r)
  {
    assert (p + r)[..|p|] == p;
    assert (p + r)[|p|..] == r;
  }

  lemma ParseReturnPrint(k: int, rest: string)
    ensures ParseReturn(IntStr(k) + ";" + rest) == Some((Return(k), rest))
  {
    IntStrHasNo(k, ';');
    UpToFirst(IntStr(k), rest, ';');
    IntStrRoundTrip(k);
  }

  /** Reads `f]<=t)` off the front of the condition's text, leaving the
      `{` that opens the then-branch. */
  lemma ParseConditionPrint(f: int, th: string, body: string)
    requires ')' !in th
    ensures ParseCondition(IntStr(f) + ("]<=" + (th + ("){" + body)))) == Some((f, th, "{" + body))
  {
    var n := IntStr(f);
    var r2 := th + ("){" + body);
    var r1 := "<=" + r2;
    SplitLe(r2);
    Regroup3(n, [']'], r1);
    IntStrHasNo(f, ']');
    UpToFirst(n, r1, ']');
    IntStrRoundTrip(f);
    SkipPrefix("<=", r2);
    SplitParenBrace(body);
    Regroup3(th, [')'], "{" + body);
    UpToFirst(th, "{" + body, ')');
    ParseConditionOf(n + ("]<=" + r2), n, r1, r2, f, th, "{" + body);
  }

  lemma SplitLe(x: string)
    ensures "]<=" + x == [']'] + ("<=" + x)
  {
  }

  lemma SplitParenBrace(x: string)
    ensures "){" + x == [')'] + ("{" + x)
  {
  }

  lemma Regroup3(x1: string, x2: string, x3: string)
    ensures x1 + x2 + x3 == x1 + (x2 + x3)
  {
  }

  /** `ParseCondition` succeeds once each of its steps does. */
  lemma ParseConditionOf(s: string, n: string, r1: string, r2: string, f: int, th: string, after: string)
    requires UpTo(s, ']') == Some((n, r1))
    requires ParseInt(n) == Some(f)
    requires Skip(r1, "<=") == Some(r2)
    requires UpTo(r2, ')') == Some((th, after))
    ensures ParseCondition(s) == Some((f, th, after))
  {
  }

  /** The text after `if(features[` in a printed `if`, grouped from the
      right. */
  function IfTail(f: int, th: string, pa: string, pb: string, rest: string): string {
    IntStr(f) + ("]<=" + (th + ("){" + (pa + ("}else{" + (pb + ("}" + rest)))))))
  }

  /** One step of `ParseIf`: the condition, then each branch as the
      recursive reads deliver it. */
  lemma ParseIfStep(f: int, th: string, pa: string, a: Code<string>, pb: string, b: Code<string>, rest: string)
    requires ')' !in th
    ensures ParseStatement(pa + ("}else{" + (pb + ("}" + rest)))) == Some((a, "}else{" + (pb + ("}" + rest))))
         && ParseStatement(pb + ("}" + rest)) == Some((b, "}" + rest))
         ==> ParseIf(IfTail(f, th, pa, pb, rest)) == Some((IfLe(f, th, a, b), rest))
  {
    var r5 := "}" + rest;
    var r3 := "}else{" + (pb + r5);
    ParseConditionPrint(f, th, pa + r3);
    SkipPrefix("{", pa + r3);
    SkipPrefix("}else{", pb + r5);
    SkipPrefix("}", rest);
  }

  lemma ParseStatementOfReturn(k: int, rest: string)
    ensures ParseStatement(Print(Return(k)) + rest) == Some((Return(k), rest))
  {
    var tail := IntStr(k) + ";" + rest;
    Regroup4("return ", IntStr(k), ";", rest);
    SkipPrefix("return ", tail);
    ParseReturnPrint(k, rest);
  }

  lemma Regroup4(x1: string, x2: string, x3: string, x4: string)
    ensures x1 + x2 + x3 + x4 == x1 + (x2 + x3 + x4)
  {
  }

  lemma ParseStatementOfIf(tail: string)
    ensures ParseStatement("if(features[" + tail) == ParseIf(tail)
  {
    var s := "if(features[" + tail;
    SkipPrefix("if(features[", tail);
    assert Skip(s, "return ").None? by {
      assert s[0] == 'i';
    }
  }

  /** A printed `if` followed by `rest`, grouped from the right. */
  lemma PrintIfShape(f: int, th: string, a: Code<string>, b: Code<string>, rest: string)
    ensures Print(IfLe(f, th, a, b)) + rest == "if(features[" + IfTail(f, th, Print(a), Print(b), rest)
  {
    Regroup("if(features[", IntStr(f), "]<=", th, "){", Print(a), "}else{", Print(b), "}", rest);
  }

  lemma Regroup(x1: string, x2: string, x3: string, x4: string, x5: string,
                x6: string, x7: string, x8: string, x9: string, x10: string)
    ensures x1 + x2 + x3 + x4 + x5 + x6 + x7 + x8 + x9 + x10
         == x1 + (x2 + (x3 + (x4 + (x5 + (x6 + (x7 + (x8 + (x9 + x10))))))))
  {
  }

  /** The printed statement reads back as itself, whatever text follows it. */
  lemma {:induction false} ParsePrint(c: Code<string>, rest: string)
    requires Readable(c)
    ensures ParseStatement(Print(c) + rest) == Some((c, rest))
  {
    match c
    case Return(k) =>
      ParseStatementOfReturn(k, rest);
    case IfLe(f, th, a, b) =>
      var pa, pb := Print(a), Print(b);
      ParsePrint(a, "}else{" + (pb + ("}" + rest)));
      ParsePrint(b, "}" + rest);
      ParseIfStep(f, th, pa, a, pb, b, rest);
      PrintIfShape(f, th, a, b, rest);
      ParseStatementOfIf(IfTail(f, th, pa, pb, rest));
  }

  /** Reads a whole generated file: header, one statement, footer. */
  function ParseProgram(s: string): Option<Code<string>> {
    var body :- Skip(s, Header);
    var (c, rest) :- ParseStatement(body);
    if rest == Footer then Some(c) else None
  }

  lemma {:induction false} RenderedReadable(t: Tree, node: int, render: real -> string, d: nat)
    requires Bounded(t, node, d)
    requires forall i :: 0 <= i < |t.threshold| ==> ')' !in render(t.threshold[i])
    ensures Readable(RenderThresholds(ToCode(t, node, d), render))
    decreases d
  {
    if t.feature[node] != LEAF {
      RenderedReadable(t, t.childrenLeft[node], render, d - 1);
      RenderedReadable(t, t.childrenRight[node], render, d - 1);
    }
  }

  /** The generated file is exactly the root's statement inside the
      `predict` wrapper: reading it back yields `ToCode(t, 0)` with its
      thresholds printed, provided no printed threshold contains `)`. */
  lemma GeneratedFileReadsBack(t: Tree, render: real -> string, d: nat)
    requires Bounded(t, 0, d)
    requires forall i :: 0 <= i < |t.threshold| ==> ')' !in render(t.threshold[i])
    ensures ParseProgram(TranspileTree(t, render, d)) == Some(RenderThresholds(ToCode(t, 0, d), render))
  {
    var c := RenderThresholds(ToCode(t, 0, d), render);
    RenderedReadable(t, 0, render, d);
    ParsePrint(c, Footer);
    Regroup3(Header, Print(c), Footer);
    ParseProgramOf(Print(c), c);
  }

  /** A file made of the header, a statement's text and the footer reads
      back as that statement. */
  lemma ParseProgramOf(p: string, c: Code<string>)
    ensures ParseStatement(p + Footer) == Some((c, Footer)) ==>
      ParseProgram(Header + (p + Footer)) == Some(c)
  {
    SkipPrefix(Header, p + Footer);
  }
}
