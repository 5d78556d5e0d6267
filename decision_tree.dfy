/**
 * Decision-tree induction and inference of ml/ml.go: a binary tree grown by
 * recursive partitioning on "feature value <= threshold", choosing the split
 * of highest information gain, and a traversal that predicts the attack label.
 *
 * The entropy formula needs a base-2 logarithm on floats; it is the parameter
 * `log2`, about which nothing is assumed. Everything else in entropy and gain
 * (the early returns for empty and pure partitions, the weights) is modelled
 * as written, over exact reals.
 */
module DecisionTree {
  import opened Wrappers
  import opened Ecu

  /** A tree node: Go's Node with IsLeaf as the tag; an internal node always has both children. */
  datatype Node =
    | Leaf(prediction: bool)
    | Internal(feature: int, threshold: int, left: Node, right: Node)

  function Height(t: Node): nat
  {
    match t
    case Leaf(_) => 0
    case Internal(_, _, l, r) => 1 + if Height(l) < Height(r) then Height(r) else Height(l)
  }

  // ---------------------------------------------------------------------------
  // Counting attacks

  /** The number of records labelled as attacks. */
  function Attacks(ds: seq<ECUData>): (n: nat)
    ensures n <= |ds|
  {
    if |ds| == 0 then 0 else Attacks(ds[..|ds| - 1]) + (if ds[|ds| - 1].isAttack then 1 else 0)
  }

  /** calculateAttackProportion, as the real quotient of two counts. */
  function AttackProportion(ds: seq<ECUData>): real
    requires |ds| > 0
  {
    Attacks(ds) as real / |ds| as real
  }

  lemma ScaleCompare(p: real, c: real, n: real)
    requires n > 0.0
    ensures p > c ==> p * n > c * n
    ensures p < c ==> p * n < c * n
  {
    if p > c { assert (p - c) * n > 0.0; assert (p - c) * n == p * n - c * n; }
    if p < c { assert (c - p) * n > 0.0; assert (c - p) * n == c * n - p * n; }
  }

  /** Comparing a quotient with `c` is comparing the numerator with `c` times the denominator. */
  lemma QuotientCompare(a: real, n: real, c: real)
    requires n > 0.0
    ensures a / n > c <==> a > c * n
    ensures a / n < c <==> a < c * n
    ensures a / n == c <==> a == c * n
  {
    var p := a / n;
    assert p * n == a;
    ScaleCompare(p, c, n);
  }

  /** The quotient tests of the source, as tests on numerator and denominator. */
  lemma QuotientTests(a: real, n: real)
    requires n > 0.0
    ensures a / n >= 0.5 <==> 2.0 * a >= n
    ensures a / n == 0.0 <==> a == 0.0
    ensures a / n == 1.0 <==> a == n
  {
    QuotientCompare(a, n, 0.5);
    QuotientCompare(a, n, 0.0);
    QuotientCompare(a, n, 1.0);
  }

  /** The proportion tests the source makes are tests on the counts. */
  lemma ProportionTests(ds: seq<ECUData>)
    requires |ds| > 0
    ensures AttackProportion(ds) >= 0.5 <==> 2 * Attacks(ds) >= |ds|
    ensures AttackProportion(ds) == 0.0 <==> Attacks(ds) == 0
    ensures AttackProportion(ds) == 1.0 <==> Attacks(ds) == |ds|
  {
    QuotientTests(Attacks(ds) as real, |ds| as real);
  }

  /** The loop of calculateAttackProportion; it returns the count, the proportion being count / |ds|. */
  method CalculateAttackProportion(ds: seq<ECUData>) returns (attackCount: nat)
    ensures attackCount == Attacks(ds)
    ensures attackCount <= |ds|
  {
    attackCount := 0;
    for i := 0 to |ds|
      invariant attackCount == Attacks(ds[..i])
    {
      assert ds[..i + 1][..i] == ds[..i];
      if ds[i].isAttack {
        attackCount := attackCount + 1;
      }
    }
    assert ds[..|ds|] == ds;
  }

  /** The majority label the stopping rules emit: attack when at least half are attacks. */
  predicate Majority(ds: seq<ECUData>)
  {
    2 * Attacks(ds) >= |ds|
  }

  // ---------------------------------------------------------------------------
  // Partitioning

  predicate GoesLeft(r: ECUData, feature: int, threshold: int)
  {
    r.GetFeatureValue(feature) <= threshold
  }

  /** The records on one side of a split, in their original order. */
  function Part(ds: seq<ECUData>, feature: int, threshold: int, left: bool): (p: seq<ECUData>)
    ensures |p| <= |ds|
  {
    if |ds| == 0 then []
    else
      var last := ds[|ds| - 1];
      Part(ds[..|ds| - 1], feature, threshold, left) + (if GoesLeft(last, feature, threshold) == left then [last] else [])
  }

  /** Every record on a side belongs there: its feature value selects that side. */
  lemma {:induction false} PartSound(ds: seq<ECUData>, feature: int, threshold: int, left: bool, x: ECUData)
    requires x in Part(ds, feature, threshold, left)
    ensures GoesLeft(x, feature, threshold) == left
  {
    var init := ds[..|ds| - 1];
    if x in Part(init, feature, threshold, left) {
      PartSound(init, feature, threshold, left, x);
    }
  }

  /** The two sides of a split share out the records: their sizes add up to the whole. */
  lemma {:induction false} PartSizes(ds: seq<ECUData>, feature: int, threshold: int)
    ensures |Part(ds, feature, threshold, true)| + |Part(ds, feature, threshold, false)| == |ds|
  {
    if |ds| > 0 {
      PartSizes(ds[..|ds| - 1], feature, threshold);
    }
  }

  lemma MultisetLast<T>(s: seq<T>)
    requires |s| > 0
    ensures multiset(s) == multiset(s[..|s| - 1] + [s[|s| - 1]])
  {
    assert s == s[..|s| - 1] + [s[|s| - 1]];
  }

  /** Appending a record to exactly one of two sides that share out `all`. */
  lemma ShareOut<T>(left: seq<T>, right: seq<T>, all: seq<T>, r: T, toLeft: bool)
    requires multiset(left) + multiset(right) == multiset(all)
    ensures multiset(left + (if toLeft == true then [r] else [])) + multiset(right + (if toLeft == false then [r] else []))
      == multiset(all + [r])
  {
    if toLeft {
      assert left + [r] == left + (if toLeft == true then [r] else []);
      assert right == right + (if toLeft == false then [r] else []);
    } else {
      assert left == left + (if toLeft == true then [r] else []);
      assert right + [r] == right + (if toLeft == false then [r] else []);
    }
  }

  /** One record more: it lands on exactly one side. */
  lemma PartsPermuteStep(ds: seq<ECUData>, feature: int, threshold: int)
    requires |ds| > 0
    requires multiset(Part(ds[..|ds| - 1], feature, threshold, true)) + multiset(Part(ds[..|ds| - 1], feature, threshold, false))
      == multiset(ds[..|ds| - 1])
    ensures multiset(Part(ds, feature, threshold, true)) + multiset(Part(ds, feature, threshold, false)) == multiset(ds)
  {
    var init, last := ds[..|ds| - 1], ds[|ds| - 1];
    ShareOut(Part(init, feature, threshold, true), Part(init, feature, threshold, false), init, last, GoesLeft(last, feature, threshold));
    MultisetLast(ds);
  }

  /** No record is lost or duplicated by a split: the two sides together are a permutation of the whole. */
  lemma {:induction false} PartsPermute(ds: seq<ECUData>, feature: int, threshold: int)
    ensures multiset(Part(ds, feature, threshold, true)) + multiset(Part(ds, feature, threshold, false)) == multiset(ds)
  {
    if |ds| > 0 {
      PartsPermute(ds[..|ds| - 1], feature, threshold);
      PartsPermuteStep(ds, feature, threshold);
    }
  }

  /** A side that receives no record leaves the whole dataset, in order, to the other side. */
  lemma {:induction false} EmptySideKeepsAll(ds: seq<ECUData>, feature: int, threshold: int, left: bool)
    requires |Part(ds, feature, threshold, left)| == 0
    ensures Part(ds, feature, threshold, !left) == ds
  {
    if |ds| > 0 {
      var init := ds[..|ds| - 1];
      EmptySideKeepsAll(init, feature, threshold, left);
      assert ds == init + [ds[|ds| - 1]];
    }
  }

  /** splitDataset: one pass appending each record to the side it goes to. */
  method SplitDataset(ds: seq<ECUData>, feature: int, threshold: int) returns (left: seq<ECUData>, right: seq<ECUData>)
    ensures left == Part(ds, feature, threshold, true)
    ensures right == Part(ds, feature, threshold, false)
    ensures |left| + |right| == |ds|
  {
    left, right := [], [];
    for i := 0 to |ds|
      invariant left == Part(ds[..i], feature, threshold, true)
      invariant right == Part(ds[..i], feature, threshold, false)
    {
      assert ds[..i + 1][..i] == ds[..i];
      if ds[i].GetFeatureValue(feature) <= threshold {
        left := left + [ds[i]];
      } else {
        right := right + [ds[i]];
      }
    }
    assert ds[..|ds|] == ds;
    PartSizes(ds, feature, threshold);
  }

  // ---------------------------------------------------------------------------
  // Entropy and information gain

  /** calculateEntropy: 0 for an empty or pure partition, the binary entropy formula otherwise. */
  function Entropy(ds: seq<ECUData>, log2: real -> real): real
  {
    if |ds| == 0 then 0.0
    else
      var p := AttackProportion(ds);
      if p == 0.0 || p == 1.0 then 0.0
      else -p * log2(p) - (1.0 - p) * log2(1.0 - p)
  }

  /** calculateInformationGain: parent entropy minus the size-weighted entropy of the two sides. */
  function Gain(ds: seq<ECUData>, feature: int, threshold: int, log2: real -> real): real
    requires |ds| > 0
  {
    var left := Part(ds, feature, threshold, true);
    var right := Part(ds, feature, threshold, false);
    Weighted(Entropy(ds, log2), |left|, Entropy(left, log2), |right|, Entropy(right, log2), |ds|)
  }

  /** Parent entropy `e` minus the entropies of the sides, each weighted by its share of the `n` records. */
  function Weighted(e: real, leftSize: nat, leftEntropy: real, rightSize: nat, rightEntropy: real, n: nat): real
    requires n > 0
  {
    var leftWeight := leftSize as real / n as real;
    var rightWeight := rightSize as real / n as real;
    e - (leftWeight * leftEntropy + rightWeight * rightEntropy)
  }

  lemma PureEntropy(ds: seq<ECUData>, log2: real -> real)
    requires |ds| == 0 || Attacks(ds) == 0 || Attacks(ds) == |ds|
    ensures Entropy(ds, log2) == 0.0
  {
    if |ds| > 0 {
      ProportionTests(ds);
    }
  }

  /**
   * A split that sends every record to one side has gain exactly 0, whatever
   * log2 is: the empty side weighs 0 and the other side is the parent itself.
   */
  lemma EmptySideNoGain(ds: seq<ECUData>, feature: int, threshold: int, log2: real -> real)
    requires |ds| > 0
    requires |Part(ds, feature, threshold, true)| == 0 || |Part(ds, feature, threshold, false)| == 0
    ensures Gain(ds, feature, threshold, log2) == 0.0
  {
    var left, right := Part(ds, feature, threshold, true), Part(ds, feature, threshold, false);
    if |left| == 0 {
      EmptySideKeepsAll(ds, feature, threshold, true);
      WholeSideNoGain(Entropy(ds, log2), Entropy(left, log2), |ds|);
    } else {
      EmptySideKeepsAll(ds, feature, threshold, false);
      WholeSideNoGain(Entropy(ds, log2), Entropy(right, log2), |ds|);
    }
  }

  /** The weighting of a split whose one side is empty. */
  lemma WholeSideNoGain(e: real, x: real, n: nat)
    requires n > 0
    ensures Weighted(e, 0, x, n, e, n) == 0.0
    ensures Weighted(e, n, e, 0, x, n) == 0.0
  {
    assert n as real / n as real == 1.0;
  }

  // ---------------------------------------------------------------------------
  // Split search

  /** The distinct values a feature takes in the dataset: the candidate thresholds. */
  function Observed(ds: seq<ECUData>, feature: int): set<int>
  {
    if |ds| == 0 then {} else Observed(ds[..|ds| - 1], feature) + {ds[|ds| - 1].GetFeatureValue(feature)}
  }

  lemma {:induction false} ObservedValues(ds: seq<ECUData>, feature: int, v: int)
    ensures v in Observed(ds, feature) <==> exists i :: 0 <= i < |ds| && ds[i].GetFeatureValue(feature) == v
  {
    if |ds| > 0 {
      var init := ds[..|ds| - 1];
      ObservedValues(init, feature, v);
      if v in Observed(init, feature) {
        var i :| 0 <= i < |init| && init[i].GetFeatureValue(feature) == v;
        assert ds[i] == init[i];
      }
      if exists i :: 0 <= i < |ds| && ds[i].GetFeatureValue(feature) == v {
        var i :| 0 <= i < |ds| && ds[i].GetFeatureValue(feature) == v;
        if i < |init| { assert init[i] == ds[i]; }
      }
    }
  }

  /** The loop of findBestSplit that collects a feature's distinct values (a Go map used as a set). */
  method FeatureValues(ds: seq<ECUData>, feature: int) returns (values: set<int>)
    ensures values == Observed(ds, feature)
  {
    values := {};
    for i := 0 to |ds|
      invariant values == Observed(ds[..i], feature)
    {
      assert ds[..i + 1][..i] == ds[..i];
      values := values + {ds[i].GetFeatureValue(feature)};
    }
    assert ds[..|ds|] == ds;
  }

  /** A (feature, threshold) pair findBestSplit evaluates. */
  predicate IsCandidate(ds: seq<ECUData>, feature: int, threshold: int)
  {
    |ds| > 0 && 0 <= feature < 3 && threshold in Observed(ds, feature)
  }

  /**
   * A candidate of positive gain that no candidate beats, and that every
   * candidate of a lower feature index falls short of: features are tried in
   * the order 0, 1, 2 and only a strictly larger gain replaces the best.
   */
  ghost predicate IsBestSplit(ds: seq<ECUData>, feature: int, threshold: int, log2: real -> real)
  {
    && IsCandidate(ds, feature, threshold)
    && Gain(ds, feature, threshold, log2) > 0.0
    && (forall f, v :: IsCandidate(ds, f, v) ==> Gain(ds, f, v, log2) <= Gain(ds, feature, threshold, log2))
    && (forall f, v :: IsCandidate(ds, f, v) && f < feature ==> Gain(ds, f, v, log2) < Gain(ds, feature, threshold, log2))
  }

  /**
   * findBestSplit: the argmax of the gain over all candidates, kept only when
   * it beats 0. Among equal maximal gains the lowest feature index wins; the
   * thresholds of one feature are visited in an unspecified order (a Go map),
   * so among equal gains within that feature any one may be returned.
   */
  method FindBestSplit(ds: seq<ECUData>, log2: real -> real) returns (bestFeature: int, bestThreshold: int, bestGain: real)
    ensures bestGain >= 0.0
    ensures forall f, v :: IsCandidate(ds, f, v) ==> Gain(ds, f, v, log2) <= bestGain
    ensures bestGain > 0.0 ==> IsCandidate(ds, bestFeature, bestThreshold) && Gain(ds, bestFeature, bestThreshold, log2) == bestGain
    ensures bestGain == 0.0 ==> bestFeature == 0 && bestThreshold == 0
    ensures forall f, v :: IsCandidate(ds, f, v) && f < bestFeature ==> Gain(ds, f, v, log2) < bestGain
  {
    bestFeature, bestThreshold, bestGain := 0, 0, 0.0;
    for feature := 0 to 3
      invariant bestGain >= 0.0
      invariant bestGain > 0.0 ==> IsCandidate(ds, bestFeature, bestThreshold) && Gain(ds, bestFeature, bestThreshold, log2) == bestGain
      invariant bestGain == 0.0 ==> bestFeature == 0 && bestThreshold == 0
      invariant forall f, v :: IsCandidate(ds, f, v) && f < feature ==> Gain(ds, f, v, log2) <= bestGain
      invariant bestFeature <= feature
      invariant forall f, v :: IsCandidate(ds, f, v) && f < bestFeature ==> Gain(ds, f, v, log2) < bestGain
    {
      var values := FeatureValues(ds, feature);
      var score := v => if |ds| > 0 then Gain(ds, feature, v, log2) else 0.0;
      ghost var gainBefore := bestGain;
      bestFeature, bestThreshold, bestGain := ScanThresholds(values, score, feature, bestFeature, bestThreshold, bestGain);
      forall f, v | IsCandidate(ds, f, v) && f <= feature
        ensures Gain(ds, f, v, log2) <= bestGain
      {
        if f == feature {
          assert score(v) == Gain(ds, f, v, log2);
        } else {
          assert Gain(ds, f, v, log2) <= gainBefore;
        }
      }
      forall f, v | IsCandidate(ds, f, v) && f < bestFeature
        ensures Gain(ds, f, v, log2) < bestGain
      {
        assert Gain(ds, f, v, log2) <= gainBefore;
      }
    }
  }

  /**
   * The inner loop of findBestSplit: every threshold of `values`, in any
   * order, against the best (feature0, threshold0, gain0) found so far; a
   * threshold replaces it only when its score is strictly larger.
   */
  method ScanThresholds<T>(values: set<T>, score: T -> real, feature: int, feature0: int, threshold0: T, gain0: real)
    returns (bestFeature: int, bestThreshold: T, bestGain: real)
    ensures bestGain >= gain0
    ensures forall v :: v in values ==> score(v) <= bestGain
    ensures bestGain == gain0 ==> bestFeature == feature0 && bestThreshold == threshold0
    ensures bestGain > gain0 ==> bestFeature == feature && bestThreshold in values && score(bestThreshold) == bestGain
  {
    bestFeature, bestThreshold, bestGain := feature0, threshold0, gain0;
    var remaining := values;
    while remaining != {}
      invariant remaining <= values
      invariant bestGain >= gain0
      invariant bestGain == gain0 ==> bestFeature == feature0 && bestThreshold == threshold0
      invariant bestGain > gain0 ==> bestFeature == feature && bestThreshold in values && score(bestThreshold) == bestGain
      invariant forall v :: v in values && v !in remaining ==> score(v) <= bestGain
      decreases remaining
    {
      var value :| value in remaining;
      var gain := score(value);
      if gain > bestGain {
        bestGain := gain;
        bestFeature := feature;
        bestThreshold := value;
      }
      remaining := remaining - {value};
    }
  }

  // ---------------------------------------------------------------------------
  // Tree induction

  /**
   * The trees BuildTree may return for `ds` at `depth`, checked in the order
   * of the source: empty, maximum depth, pure partition, no positive gain,
   * and otherwise a best split with each child built on its side one level down.
   */
  ghost predicate Builds(t: Node, ds: seq<ECUData>, depth: int, maxDepth: int, log2: real -> real)
    decreases t
  {
    if |ds| == 0 then t == Leaf(false)
    else if depth >= maxDepth then t == Leaf(Majority(ds))
    else if Attacks(ds) == 0 || Attacks(ds) == |ds| then t == Leaf(Majority(ds))
    else if forall f, v :: IsCandidate(ds, f, v) ==> Gain(ds, f, v, log2) <= 0.0 then t == Leaf(Majority(ds))
    else
      && t.Internal?
      && IsBestSplit(ds, t.feature, t.threshold, log2)
      && Builds(t.left, Part(ds, t.feature, t.threshold, true), depth + 1, maxDepth, log2)
      && Builds(t.right, Part(ds, t.feature, t.threshold, false), depth + 1, maxDepth, log2)
  }

  /** BuildTree, with the tracing output left out. */
  method BuildTree(ds: seq<ECUData>, depth: int, maxDepth: int, log2: real -> real) returns (t: Node)
    ensures Builds(t, ds, depth, maxDepth, log2)
    ensures Height(t) <= if depth < maxDepth then maxDepth - depth else 0
    decreases maxDepth - depth
  {
    if |ds| == 0 {
      return Leaf(false);
    }
    var attackCount := CalculateAttackProportion(ds);
    var attackProp := attackCount as real / |ds| as real;
    ProportionTests(ds);
    if depth >= maxDepth {
      return Leaf(attackProp >= 0.5);
    }
    if attackProp == 0.0 || attackProp == 1.0 {
      return Leaf(attackProp >= 0.5);
    }
    var bestFeature, bestThreshold, bestGain := FindBestSplit(ds, log2);
    if bestGain == 0.0 {
      return Leaf(attackProp >= 0.5);
    }
    var leftData, rightData := SplitDataset(ds, bestFeature, bestThreshold);
    var left := BuildTree(leftData, depth + 1, maxDepth, log2);
    var right := BuildTree(rightData, depth + 1, maxDepth, log2);
    t := Internal(bestFeature, bestThreshold, left, right);
  }

  /** Every internal node of the tree splits its partition into two non-empty sides. */
  ghost predicate SplitsProper(t: Node, ds: seq<ECUData>)
  {
    match t
    case Leaf(_) => true
    case Internal(f, th, l, r) =>
      && |Part(ds, f, th, true)| > 0 && |Part(ds, f, th, false)| > 0
      && SplitsProper(l, Part(ds, f, th, true))
      && SplitsProper(r, Part(ds, f, th, false))
  }

  /** A committed split has positive gain, so neither of its sides is empty. */
  lemma {:induction false} BuiltSplitsProper(t: Node, ds: seq<ECUData>, depth: int, maxDepth: int, log2: real -> real)
    requires Builds(t, ds, depth, maxDepth, log2)
    ensures SplitsProper(t, ds)
  {
    if t.Internal? {
      var f, th := t.feature, t.threshold;
      if |Part(ds, f, th, true)| == 0 || |Part(ds, f, th, false)| == 0 {
        EmptySideNoGain(ds, f, th, log2);
        assert false;
      }
      BuiltSplitsProper(t.left, Part(ds, f, th, true), depth + 1, maxDepth, log2);
      BuiltSplitsProper(t.right, Part(ds, f, th, false), depth + 1, maxDepth, log2);
    }
  }

  /** The stopping rules in terms of counts. */
  lemma StoppingRules(t: Node, ds: seq<ECUData>, depth: int, maxDepth: int, log2: real -> real)
    requires Builds(t, ds, depth, maxDepth, log2)
    ensures |ds| == 0 ==> t == Leaf(false)
    ensures |ds| > 0 && depth >= maxDepth ==> t == Leaf(2 * Attacks(ds) >= |ds|)
    ensures |ds| > 0 && depth < maxDepth && Attacks(ds) == 0 ==> t == Leaf(false)
    ensures |ds| > 0 && depth < maxDepth && Attacks(ds) == |ds| ==> t == Leaf(true)
    ensures t.Internal? ==> |ds| > 0 && depth < maxDepth && 0 < Attacks(ds) < |ds|
  {
  }

  lemma PairFacts(a: ECUData, b: ECUData, feature: int, threshold: int)
    ensures Attacks([a, b]) == (if a.isAttack then 1 else 0) + (if b.isAttack then 1 else 0)
    ensures Observed([a, b], feature) == {a.GetFeatureValue(feature), b.GetFeatureValue(feature)}
    ensures Part([a, b], feature, threshold, true)
      == (if GoesLeft(a, feature, threshold) then [a] else []) + (if GoesLeft(b, feature, threshold) then [b] else [])
    ensures Part([a, b], feature, threshold, false)
      == (if GoesLeft(a, feature, threshold) then [] else [a]) + (if GoesLeft(b, feature, threshold) then [] else [b])
  {
    assert [a, b][..1] == [a];
    assert [a][..0] == [];
    assert Observed([a], feature) == {a.GetFeatureValue(feature)};
  }

  /** The entropy of an evenly mixed partition is -log2(0.5), one bit for the true logarithm. */
  lemma EvenEntropy(ds: seq<ECUData>, log2: real -> real)
    requires |ds| == 2 && Attacks(ds) == 1
    ensures Entropy(ds, log2) == -log2(0.5)
  {
    var p := AttackProportion(ds);
    assert p == 0.5 && 1.0 - p == 0.5;
    assert Entropy(ds, log2) == -p * log2(p) - (1.0 - p) * log2(1.0 - p);
  }

  /** In the two-record example, "rpm <= 1000" is the one split of positive gain. */
  lemma TwoRecordSplits(log2: real -> real)
    ensures var ds := [ECUData(1000, 0, 0, false), ECUData(6000, 0, 0, true)];
      && IsCandidate(ds, 0, 1000) && Gain(ds, 0, 1000, log2) == -log2(0.5)
      && forall f, v :: IsCandidate(ds, f, v) && (f, v) != (0, 1000) ==> Gain(ds, f, v, log2) == 0.0
  {
    var normal, attack := ECUData(1000, 0, 0, false), ECUData(6000, 0, 0, true);
    var ds := [normal, attack];
    PairFacts(normal, attack, 0, 1000);
    EvenEntropy(ds, log2);
    PureEntropy([normal], log2);
    PureEntropy([attack], log2);
    assert Gain(ds, 0, 1000, log2) == Weighted(-log2(0.5), 1, 0.0, 1, 0.0, 2);
    forall f, v | IsCandidate(ds, f, v) && (f, v) != (0, 1000)
      ensures Gain(ds, f, v, log2) == 0.0
    {
      PairFacts(normal, attack, f, v);
      EmptySideNoGain(ds, f, v, log2);
    }
  }

  /**
   * Two records that differ in RPM and label, grown to depth 1 with any log2
   * that is negative at 0.5: the only tree is the split "rpm <= 1000", and it
   * classifies both records correctly.
   */
  lemma TwoRecordTree(t: Node, log2: real -> real)
    requires log2(0.5) < 0.0
    requires Builds(t, [ECUData(1000, 0, 0, false), ECUData(6000, 0, 0, true)], 0, 1, log2)
    ensures t == Internal(0, 1000, Leaf(false), Leaf(true))
    ensures Correct(t, [ECUData(1000, 0, 0, false), ECUData(6000, 0, 0, true)]) == 2
  {
    var normal, attack := ECUData(1000, 0, 0, false), ECUData(6000, 0, 0, true);
    var ds := [normal, attack];
    TwoRecordRoot(t, log2);
    PairFacts(normal, attack, 0, 1000);
    assert [normal][..0] == [] && [attack][..0] == [];
    assert Attacks([normal]) == 0 && Attacks([attack]) == 1;
    AllCorrect(t, ds);
  }

  /** The root of the two-record example is the split "rpm <= 1000". */
  lemma TwoRecordRoot(t: Node, log2: real -> real)
    requires log2(0.5) < 0.0
    requires Builds(t, [ECUData(1000, 0, 0, false), ECUData(6000, 0, 0, true)], 0, 1, log2)
    ensures t.Internal? && t.feature == 0 && t.threshold == 1000
  {
    var ds := [ECUData(1000, 0, 0, false), ECUData(6000, 0, 0, true)];
    PairFacts(ds[0], ds[1], 0, 1000);
    TwoRecordSplits(log2);
    UniqueSplitRoot(t, ds, 0, 1, log2, 0, 1000);
  }

  /** When one candidate alone has positive gain, a tree that is not stopped early splits on it. */
  lemma UniqueSplitRoot(t: Node, ds: seq<ECUData>, depth: int, maxDepth: int, log2: real -> real, feature: int, threshold: int)
    requires Builds(t, ds, depth, maxDepth, log2)
    requires depth < maxDepth && 0 < Attacks(ds) < |ds|
    requires IsCandidate(ds, feature, threshold) && Gain(ds, feature, threshold, log2) > 0.0
    requires forall f, v :: IsCandidate(ds, f, v) && (f, v) != (feature, threshold) ==> Gain(ds, f, v, log2) <= 0.0
    ensures t.Internal? && t.feature == feature && t.threshold == threshold
  {
  }

  // ---------------------------------------------------------------------------
  // Inference and accuracy

  /** Predict: at an internal node go left iff the record's value is at most the threshold. */
  function Predict(t: Node, data: ECUData): bool
  {
    match t
    case Leaf(p) => p
    case Internal(f, th, l, r) => if data.GetFeatureValue(f) <= th then Predict(l, data) else Predict(r, data)
  }

  /** The label of a record never influences its prediction. */
  lemma {:induction false} PredictIgnoresLabel(t: Node, data: ECUData, newLabel: bool)
    ensures Predict(t, data.(isAttack := newLabel)) == Predict(t, data)
  {
    if t.Internal? {
      PredictIgnoresLabel(t.left, data, newLabel);
      PredictIgnoresLabel(t.right, data, newLabel);
    }
  }

  /** A record lands on the side of a split its own feature value selects. */
  lemma {:induction false} PartContains(ds: seq<ECUData>, feature: int, threshold: int, data: ECUData)
    requires data in ds
    ensures data in Part(ds, feature, threshold, GoesLeft(data, feature, threshold))
  {
    var init := ds[..|ds| - 1];
    if data != ds[|ds| - 1] {
      assert ds == init + [ds[|ds| - 1]];
      PartContains(init, feature, threshold, data);
    }
  }

  /** The records of `ds` that Predict routes to the same leaf as `data`. */
  function Reach(t: Node, ds: seq<ECUData>, data: ECUData): seq<ECUData>
  {
    match t
    case Leaf(_) => ds
    case Internal(f, th, l, r) =>
      if GoesLeft(data, f, th) then Reach(l, Part(ds, f, th, true), data) else Reach(r, Part(ds, f, th, false), data)
  }

  /**
   * On a tree built from `ds`, a training record reaches a leaf whose partition
   * contains it, and is predicted as the majority label of that partition.
   */
  lemma {:induction false} PredictTrainingRecord(t: Node, ds: seq<ECUData>, depth: int, maxDepth: int, log2: real -> real, data: ECUData)
    requires Builds(t, ds, depth, maxDepth, log2) && data in ds
    ensures data in Reach(t, ds, data)
    ensures Predict(t, data) == Majority(Reach(t, ds, data))
    decreases t
  {
    if t.Internal? {
      var f, th := t.feature, t.threshold;
      PartContains(ds, f, th, data);
      if GoesLeft(data, f, th) {
        PredictTrainingRecord(t.left, Part(ds, f, th, true), depth + 1, maxDepth, log2, data);
      } else {
        PredictTrainingRecord(t.right, Part(ds, f, th, false), depth + 1, maxDepth, log2, data);
      }
    }
  }

  /** The number of records whose prediction matches their label. */
  function Correct(t: Node, ds: seq<ECUData>): (n: nat)
    ensures n <= |ds|
  {
    if |ds| == 0 then 0
    else Correct(t, ds[..|ds| - 1]) + (if Predict(t, ds[|ds| - 1]) == ds[|ds| - 1].isAttack then 1 else 0)
  }

  lemma {:induction false} AllCorrect(t: Node, ds: seq<ECUData>)
    ensures Correct(t, ds) == |ds| <==> forall i :: 0 <= i < |ds| ==> Predict(t, ds[i]) == ds[i].isAttack
  {
    if |ds| > 0 {
      var init := ds[..|ds| - 1];
      AllCorrect(t, init);
      assert forall i :: 0 <= i < |init| ==> init[i] == ds[i];
    }
  }

  lemma PercentBounds(correct: nat, n: nat)
    requires 0 < n && correct <= n
    ensures 0.0 <= correct as real / n as real * 100.0 <= 100.0
    ensures correct as real / n as real * 100.0 == 100.0 <==> correct == n
  {
    QuotientTests(correct as real, n as real);
    QuotientCompare(correct as real, n as real, 1.0);
  }

  /**
   * GetPredictionAccuration: the percentage of records predicted correctly.
   * Go divides 0 by 0 on an empty test set, giving NaN: that is None here.
   */
  method GetPredictionAccuracy(testData: seq<ECUData>, tree: Node) returns (accuracy: Option<real>)
    ensures |testData| == 0 <==> accuracy == None
    ensures |testData| > 0 ==> accuracy == Some(Correct(tree, testData) as real / |testData| as real * 100.0)
    ensures accuracy.Some? ==> 0.0 <= accuracy.value <= 100.0
    ensures accuracy == Some(100.0) <==>
      |testData| > 0 && forall i :: 0 <= i < |testData| ==> Predict(tree, testData[i]) == testData[i].isAttack
  {
    var correct := 0;
    for i := 0 to |testData|
      invariant correct == Correct(tree, testData[..i])
    {
      assert testData[..i + 1][..i] == testData[..i];
      if Predict(tree, testData[i]) == testData[i].isAttack {
        correct := correct + 1;
      }
    }
    assert testData[..|testData|] == testData;
    if |testData| == 0 {
      return None;
    }
    AllCorrect(tree, testData);
    PercentBounds(correct, |testData|);
    accuracy := Some(correct as real / |testData| as real * 100.0);
  }
}
