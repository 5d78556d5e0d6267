/**
 * SplitTrainTest of ml/utils.go: a Fisher-Yates shuffle of a copy of the
 * dataset, then a cut at int(len * trainRatio).
 *
 * The pseudo-random source is replaced by the sequence of draws it makes:
 * `choices[i]` is the value r.Intn(i + 1) returned in the iteration for index
 * i, so it lies in [0, i]; choices[0] is never drawn.
 */
module TrainTest {

  /** The draws a run of the shuffle can make on a dataset of length n. */
  predicate ValidChoices(choices: seq<int>, n: int)
  {
    |choices| == n && forall i :: 0 < i < n ==> 0 <= choices[i] <= i
  }

  /** The sequence with the elements at i and j exchanged. */
  function Swap<T>(s: seq<T>, i: int, j: int): (r: seq<T>)
    requires 0 <= i < |s| && 0 <= j < |s|
    ensures |r| == |s| && r[i] == s[j] && r[j] == s[i]
    ensures forall k :: 0 <= k < |s| && k != i && k != j ==> r[k] == s[k]
  {
    s[i := s[j]][j := s[i]]
  }

  /** The iterations of the shuffle loop for indices i, i-1, ..., 1, starting from `s`. */
  function ShuffleFrom<T>(s: seq<T>, choices: seq<int>, i: int): seq<T>
    requires ValidChoices(choices, |s|) && -1 <= i < |s|
    decreases i
  {
    if i <= 0 then s else ShuffleFrom(Swap(s, i, choices[i]), choices, i - 1)
  }

  /** The order Fisher-Yates puts `s` in, given the draws. */
  function Shuffle<T>(s: seq<T>, choices: seq<int>): seq<T>
    requires ValidChoices(choices, |s|)
  {
    ShuffleFrom(s, choices, |s| - 1)
  }

  lemma SwapPermutes<T>(s: seq<T>, i: int, j: int)
    requires 0 <= i < |s| && 0 <= j < |s|
    ensures multiset(Swap(s, i, j)) == multiset(s)
  {
    var r := s[i := s[j]];
    assert multiset(r) == multiset(s) - multiset{s[i]} + multiset{s[j]};
    assert multiset(r[j := s[i]]) == multiset(r) - multiset{r[j]} + multiset{s[i]};
  }

  lemma {:induction false} ShuffleFromPermutes<T>(s: seq<T>, choices: seq<int>, i: int)
    requires ValidChoices(choices, |s|) && -1 <= i < |s|
    ensures |ShuffleFrom(s, choices, i)| == |s|
    ensures multiset(ShuffleFrom(s, choices, i)) == multiset(s)
    decreases i
  {
    if i > 0 {
      SwapPermutes(s, i, choices[i]);
      ShuffleFromPermutes(Swap(s, i, choices[i]), choices, i - 1);
    }
  }

  /** Shuffling reorders the dataset: nothing is lost, duplicated or invented. */
  lemma ShufflePermutes<T>(s: seq<T>, choices: seq<int>)
    requires ValidChoices(choices, |s|)
    ensures |Shuffle(s, choices)| == |s|
    ensures multiset(Shuffle(s, choices)) == multiset(s)
  {
    ShuffleFromPermutes(s, choices, |s| - 1);
  }

  lemma {:induction false} ShuffleFromIdentity<T>(s: seq<T>, choices: seq<int>, i: int)
    requires ValidChoices(choices, |s|) && -1 <= i < |s|
    requires forall k :: 0 < k <= i ==> choices[k] == k
    ensures ShuffleFrom(s, choices, i) == s
    decreases i
  {
    if i > 0 {
      assert Swap(s, i, choices[i]) == s;
      ShuffleFromIdentity(s, choices, i - 1);
    }
  }

  /** When every draw picks the current index itself, no element moves. */
  lemma ShuffleIdentity<T>(s: seq<T>, choices: seq<int>)
    requires ValidChoices(choices, |s|)
    requires forall k :: 0 < k < |s| ==> choices[k] == k
    ensures Shuffle(s, choices) == s
  {
    ShuffleFromIdentity(s, choices, |s| - 1);
  }

  /** Go's int(x) on a float: truncation toward zero. */
  function Trunc(x: real): int
  {
    if x >= 0.0 then x.Floor else -((-x).Floor)
  }

  /** The cut index: int(float64(n) * trainRatio). */
  function SplitPoint(n: nat, trainRatio: real): int
  {
    Trunc(n as real * trainRatio)
  }

  /** A ratio in [0, 1] gives a cut within the dataset, at the floor of n * ratio. */
  lemma SplitPointBounds(n: nat, trainRatio: real)
    requires 0.0 <= trainRatio <= 1.0
    ensures 0 <= SplitPoint(n, trainRatio) <= n
    ensures SplitPoint(n, trainRatio) as real <= n as real * trainRatio < SplitPoint(n, trainRatio) as real + 1.0
  {
    ScaleWithin(n as real, trainRatio);
  }

  /** Scaling a non-negative amount by a factor in [0, 1] stays between 0 and the amount. */
  lemma ScaleWithin(a: real, f: real)
    requires a >= 0.0 && 0.0 <= f <= 1.0
    ensures 0.0 <= a * f <= a
  {
    assert a * f >= 0.0;
    assert a - a * f == a * (1.0 - f);
    assert a * (1.0 - f) >= 0.0;
  }

  /**
   * SplitTrainTest: the dataset is copied into an array, shuffled in place with
   * the draws `choices`, and cut at the split point. Go panics on a cut outside
   * the slice, hence the requirement on the ratio.
   */
  method SplitTrainTest<T>(dataset: seq<T>, trainRatio: real, choices: seq<int>) returns (train: seq<T>, test: seq<T>)
    requires ValidChoices(choices, |dataset|)
    requires 0 <= SplitPoint(|dataset|, trainRatio) <= |dataset|
    ensures train + test == Shuffle(dataset, choices)
    ensures |train| == SplitPoint(|dataset|, trainRatio)
    ensures multiset(train) + multiset(test) == multiset(dataset)
  {
    var shuffled := new T[|dataset|](k requires 0 <= k < |dataset| => dataset[k]);
    assert shuffled[..] == dataset;
    var i := shuffled.Length - 1;
    while i > 0
      invariant -1 <= i < shuffled.Length
      invariant |shuffled[..]| == |dataset|
      invariant ShuffleFrom(shuffled[..], choices, i) == Shuffle(dataset, choices)
      decreases i
    {
      var j := choices[i];
      ghost var before := shuffled[..];
      shuffled[i], shuffled[j] := shuffled[j], shuffled[i];
      assert shuffled[..] == Swap(before, i, j);
      i := i - 1;
    }
    var splitPoint := SplitPoint(|dataset|, trainRatio);
    train := shuffled[..splitPoint];
    test := shuffled[splitPoint..];
    assert train + test == shuffled[..];
    ShufflePermutes(dataset, choices);
  }
}
