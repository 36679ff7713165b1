/** A fitted decision-tree classifier as the generator sees it: five parallel
    per-node arrays (sklearn's `tree_` object), node 0 being the root. */
module DecisionTree {

  /** The feature index sklearn stores for a leaf (`TREE_UNDEFINED`). */
  const LEAF: int := -2

  /** `feature[i]`, `threshold[i]`, `childrenLeft[i]`, `childrenRight[i]` and
      `value[i]` describe node `i`; `value[i][o][k]` is the weight of class
      `k` for output `o` at that node. */
  datatype Tree = Tree(
    feature: seq<int>,
    threshold: seq<real>,
    childrenLeft: seq<int>,
    childrenRight: seq<int>,
    value: seq<seq<seq<real>>>)

  /** The five arrays describe the same nodes. */
  predicate Arena(t: Tree) {
    && |t.threshold| == |t.feature|
    && |t.childrenLeft| == |t.feature|
    && |t.childrenRight| == |t.feature|
    && |t.value| == |t.feature|
  }

  /** Every descent from `node` stays inside the arena and reaches, within
      `d` branchings, a leaf whose first output row holds at least one class
      weight. The generator performs no such check: this is what a caller
      must guarantee for it to terminate. A cycle, or a child index outside
      the arena, makes it false for every `d`. */
  predicate Bounded(t: Tree, node: int, d: nat)
    decreases d
  {
    && Arena(t)
    && 0 <= node < |t.feature|
    && if t.feature[node] == LEAF then
         |t.value[node]| > 0 && |t.value[node][0]| > 0
       else
         && d > 0
         && Bounded(t, t.childrenLeft[node], d - 1)
         && Bounded(t, t.childrenRight[node], d - 1)
  }

  /** Every internal node tests a valid position of a vector of `n` features. */
  predicate FeaturesWithin(t: Tree, n: nat) {
    forall i :: 0 <= i < |t.feature| && t.feature[i] != LEAF ==> 0 <= t.feature[i] < n
  }

  /** A bound that suffices stays sufficient when raised: callers that vouch
      for different bounds can agree on the larger one. */
  lemma {:induction false} BoundedMonotone(t: Tree, node: int, d: nat, e: nat)
    requires Bounded(t, node, d) && d <= e
    ensures Bounded(t, node, e)
    decreases d
  {
    if t.feature[node] != LEAF {
      BoundedMonotone(t, t.childrenLeft[node], d - 1, e - 1);
      BoundedMonotone(t, t.childrenRight[node], d - 1, e - 1);
    }
  }

  /** numpy's `argmax`: the first index holding the largest weight. */
  function ArgMax(s: seq<real>): (k: nat)
    requires |s| > 0
    ensures k < |s|
    ensures forall j :: 0 <= j < |s| ==> s[j] <= s[k]
    ensures forall j :: 0 <= j < k ==> s[j] < s[k]
  {
    if |s| == 1 then 0
    else
      var k := ArgMax(s[..|s| - 1]);
      if s[|s| - 1] > s[k] then |s| - 1 else k
  }

  /** Only the first maximal index satisfies `ArgMax`'s contract: ties go to
      the lowest index. */
  lemma ArgMaxIsFirstMaximum(s: seq<real>, k: nat)
    requires k < |s|
    requires forall j :: 0 <= j < |s| ==> s[j] <= s[k]
    requires forall j :: 0 <= j < k ==> s[j] < s[k]
    ensures ArgMax(s) == k
  {
  }

  /** The class a leaf predicts. */
  function LeafClass(t: Tree, node: int): nat
    requires Arena(t) && 0 <= node < |t.feature|
    requires |t.value[node]| > 0 && |t.value[node][0]| > 0
  {
    ArgMax(t.value[node][0])
  }

  /** The tree's decision: from `node`, go to the left child when
      `x[feature] <= threshold` and to the right child otherwise, until a
      leaf is reached; answer that leaf's class. */
  function Walk(t: Tree, node: int, x: seq<real>, ghost d: nat): nat
    requires Bounded(t, node, d) && FeaturesWithin(t, |x|)
    decreases d
  {
    if t.feature[node] == LEAF then LeafClass(t, node)
    else if x[t.feature[node]] <= t.threshold[node] then Walk(t, t.childrenLeft[node], x, d - 1)
    else Walk(t, t.childrenRight[node], x, d - 1)
  }

  /** The decision does not depend on the termination bound a caller can
      vouch for. */
  lemma {:induction false} WalkDeterministic(t: Tree, node: int, x: seq<real>, d: nat, e: nat)
    requires Bounded(t, node, d) && Bounded(t, node, e) && FeaturesWithin(t, |x|)
    ensures Walk(t, node, x, d) == Walk(t, node, x, e)
    decreases d
  {
    if t.feature[node] != LEAF {
      WalkDeterministic(t, t.childrenLeft[node], x, d - 1, e - 1);
      WalkDeterministic(t, t.childrenRight[node], x, d - 1, e - 1);
    }
  }

  /** The iterative form of the same decision: a cursor moves from the
      root until it stands on a node marked as a leaf. This stands for
      `model.predict`, whose own descent is not part of this model. */
  method Predict(t: Tree, x: seq<real>, ghost d: nat) returns (cls: nat)
    requires Bounded(t, 0, d) && FeaturesWithin(t, |x|)
    ensures cls == Walk(t, 0, x, d)
  {
    var node := 0;
    ghost var fuel := d;
    while t.feature[node] != LEAF
      invariant Bounded(t, node, fuel)
      invariant Walk(t, node, x, fuel) == Walk(t, 0, x, d)
      decreases fuel
    {
      if x[t.feature[node]] <= t.threshold[node] {
        node := t.childrenLeft[node];
      } else {
        node := t.childrenRight[node];
      }
      fuel := fuel - 1;
    }
    cls := ArgMax(t.value[node][0]);
  }
}
