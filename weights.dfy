/** Class-balance weights for sampling: `compute_default_weights` and
    `compute_adjusted_weights` give every sample of a labelled dataset a weight from the
    `np.bincount` of its labels. Labels are integers; weights are reals. */
module Weights {
  import opened Common

  // ---------------------------------------------------------------------------------------
  // Labels, counts and bins

  /** The length of `np.bincount(y)`: one past the largest label, zero without labels. */
  function Bins(y: seq<int>): (r: nat)
    ensures forall i :: 0 <= i < |y| ==> y[i] < r
  {
    if y == [] then 0
    else
      var b := Bins(y[..|y| - 1]);
      assert forall i :: 0 <= i < |y| - 1 ==> y[..|y| - 1][i] == y[i];
      if y[|y| - 1] >= b then y[|y| - 1] + 1 else b
  }

  /** What both functions rely on without checking: the labels are exactly 0, 1, ..., K-1 with
      every class present, so that the positions of `list(set(y))` and the bins of
      `np.bincount(y)` name the same classes. */
  predicate Dense(y: seq<int>) {
    (forall i :: 0 <= i < |y| ==> y[i] >= 0) && forall k :: 0 <= k < Bins(y) ==> k in y
  }

  /** `list(set(y))` for dense labels: CPython iterates a set of small non-negative integers
      in ascending order. */
  function Labels(y: seq<int>): (r: seq<int>)
    ensures |r| == Bins(y) && forall k :: 0 <= k < |r| ==> 0 <= r[k] < Bins(y)
  {
    seq(Bins(y), k requires 0 <= k => k)
  }

  /** The labels listed are exactly the distinct labels of the samples, ascending. */
  lemma LabelsAreTheSet(y: seq<int>)
    requires Dense(y)
    ensures forall x :: x in Labels(y) <==> x in y
    ensures forall a, b :: 0 <= a < b < |Labels(y)| ==> Labels(y)[a] < Labels(y)[b]
  {
    forall x | x in y ensures x in Labels(y) {
      var i :| 0 <= i < |y| && y[i] == x;
      assert Labels(y)[x] == x;
    }
  }

  /** `np.bincount(y)`: bin k holds the count of label k. */
  function Bincount(y: seq<int>): (r: seq<nat>)
    ensures |r| == Bins(y) && forall k :: 0 <= k < |r| ==> r[k] == Count(y, k)
  {
    seq(Bins(y), k requires 0 <= k => Count(y, k))
  }

  /** Python's `sum` over the bins. */
  function Total(occ: seq<nat>): nat {
    if occ == [] then 0 else Total(occ[..|occ| - 1]) + occ[|occ| - 1]
  }

  /** `[100 * count / sum(occurrences) for count in occurrences]`. */
  function Probs(occ: seq<nat>): (r: seq<real>)
    requires occ == [] || Total(occ) > 0
    ensures |r| == |occ|
  {
    seq(|occ|, k requires 0 <= k < |occ| => 100.0 * (occ[k] as real) / (Total(occ) as real))
  }

  // ---------------------------------------------------------------------------------------
  // Sums of weights

  /** The total weight of the samples of class k. */
  function Mass(w: seq<real>, y: seq<int>, k: int): real
    requires |w| == |y|
  {
    if w == [] then 0.0
    else Mass(w[..|w| - 1], y[..|y| - 1], k) + (if y[|y| - 1] == k then w[|w| - 1] else 0.0)
  }

  /** The total weight of classes 0 to K-1, class by class. */
  function Masses(w: seq<real>, y: seq<int>, K: nat): real
    requires |w| == |y|
  {
    if K == 0 then 0.0 else Masses(w, y, K - 1) + Mass(w, y, K - 1)
  }

  /** When every sample of class k weighs c, the class weighs its count times c. */
  lemma {:induction false} MassOfConstant(w: seq<real>, y: seq<int>, k: int, c: real)
    requires |w| == |y| && forall i :: 0 <= i < |y| && y[i] == k ==> w[i] == c
    ensures Mass(w, y, k) == (Count(y, k) as real) * c
  {
    if w != [] {
      var w', y' := w[..|w| - 1], y[..|y| - 1];
      assert forall i :: 0 <= i < |y'| && y'[i] == k ==> w'[i] == c;
      MassOfConstant(w', y', k, c);
    }
  }

  /** Dropping the last sample takes its weight off the classes below K that hold it. */
  lemma {:induction false} MassesSnoc(w: seq<real>, y: seq<int>, K: nat)
    requires |w| == |y| && w != []
    ensures Masses(w, y, K) == Masses(w[..|w| - 1], y[..|y| - 1], K)
                                + (if 0 <= y[|y| - 1] < K then w[|w| - 1] else 0.0)
  {
    if K > 0 {
      MassesSnoc(w, y, K - 1);
    }
  }

  /** With every label below K, the weights add up class by class. */
  lemma {:induction false} MassesTotal(w: seq<real>, y: seq<int>, K: nat)
    requires |w| == |y| && forall i :: 0 <= i < |y| ==> 0 <= y[i] < K
    ensures Sum(w) == Masses(w, y, K)
  {
    if w == [] {
      MassesEmpty(w, y, K);
    } else {
      var w', y' := w[..|w| - 1], y[..|y| - 1];
      assert forall i :: 0 <= i < |y'| ==> y'[i] == y[i];
      MassesTotal(w', y', K);
      MassesSnoc(w, y, K);
    }
  }

  lemma {:induction false} MassesEmpty(w: seq<real>, y: seq<int>, K: nat)
    requires |w| == |y| && w == []
    ensures Masses(w, y, K) == 0.0
  {
    if K > 0 {
      MassesEmpty(w, y, K - 1);
    }
  }

  /** Classes that each weigh m weigh K times m together. */
  lemma {:induction false} MassesOfEqual(w: seq<real>, y: seq<int>, K: nat, m: real)
    requires |w| == |y| && forall k :: 0 <= k < K ==> Mass(w, y, k) == m
    ensures Masses(w, y, K) == (K as real) * m
  {
    if K > 0 {
      MassesOfEqual(w, y, K - 1, m);
    }
  }

  /** One weight per sample. */
  function Ones(n: nat): (r: seq<real>)
    ensures |r| == n && forall i :: 0 <= i < n ==> r[i] == 1.0
  {
    seq(n, _ => 1.0)
  }

  /** Summing the bins visits every sample once. */
  lemma {:induction false} TotalOfCounts(y: seq<int>, K: nat)
    ensures Total(seq(K, k requires 0 <= k => Count(y, k))) as real == Masses(Ones(|y|), y, K)
  {
    if K > 0 {
      var s := seq(K, k requires 0 <= k => Count(y, k));
      assert s[..K - 1] == seq(K - 1, k requires 0 <= k => Count(y, k));
      TotalOfCounts(y, K - 1);
      MassOfConstant(Ones(|y|), y, K - 1, 1.0);
    }
  }

  lemma {:induction false} SumOfOnes(n: nat)
    ensures Sum(Ones(n)) == n as real
  {
    if n > 0 {
      assert Ones(n)[..n - 1] == Ones(n - 1);
      SumOfOnes(n - 1);
    }
  }

  /** For dense labels the bins count every class, each count is positive, and they add up to
      the number of samples. */
  lemma BincountFacts(y: seq<int>)
    requires Dense(y)
    ensures forall k :: 0 <= k < Bins(y) ==> Count(y, k) > 0
    ensures Total(Bincount(y)) == |y|
    ensures y != [] <==> Bins(y) > 0
  {
    forall k | 0 <= k < Bins(y) ensures Count(y, k) > 0 {
      CountPositive(y, k);
    }
    assert Bincount(y) == seq(Bins(y), k requires 0 <= k => Count(y, k));
    TotalOfCounts(y, Bins(y));
    MassesTotal(Ones(|y|), y, Bins(y));
    SumOfOnes(|y|);
    if y != [] {
      assert y[0] < Bins(y);
    }
  }

  // ---------------------------------------------------------------------------------------
  // Masked updates: `weights[y == label] = v` and `weights[y == label] += v`

  method AssignWhere(weights: array<real>, y: seq<int>, cls: int, v: real)
    requires weights.Length == |y|
    modifies weights
    ensures forall i :: 0 <= i < |y| ==> weights[i] == if y[i] == cls then v else old(weights[i])
  {
    for i := 0 to |y|
      invariant forall j :: 0 <= j < |y| ==> weights[j] == if j < i && y[j] == cls then v else old(weights[j])
    {
      if y[i] == cls {
        weights[i] := v;
      }
    }
  }

  method AddWhere(weights: array<real>, y: seq<int>, cls: int, v: real)
    requires weights.Length == |y|
    modifies weights
    ensures forall i :: 0 <= i < |y| ==> weights[i] == if y[i] == cls then old(weights[i]) + v else old(weights[i])
  {
    for i := 0 to |y|
      invariant forall j :: 0 <= j < |y| ==> weights[j] == if j < i && y[j] == cls then old(weights[j]) + v else old(weights[j])
    {
      if y[i] == cls {
        weights[i] := weights[i] + v;
      }
    }
  }

  /** The loop both functions share (645-646, 661-662): for each label in turn, its samples get
      the class's share divided by the class's count. */
  method SpreadShares(weights: array<real>, y: seq<int>, labels: seq<int>, occ: seq<nat>, probs: seq<real>)
    requires weights.Length == |y| && |labels| == |occ| == |probs|
    requires forall k :: 0 <= k < |labels| ==> labels[k] == k && occ[k] > 0
    requires forall i :: 0 <= i < |y| ==> 0 <= y[i] < |labels| && weights[i] == 0.0
    modifies weights
    ensures forall i :: 0 <= i < |y| ==> weights[i] == probs[y[i]] / (occ[y[i]] as real)
  {
    for idx := 0 to |labels|
      invariant forall i :: 0 <= i < |y| ==>
                  weights[i] == if y[i] < idx then probs[y[i]] / (occ[y[i]] as real) else 0.0
    {
      AssignWhere(weights, y, labels[idx], probs[idx] / (occ[idx] as real));
    }
  }

  // ---------------------------------------------------------------------------------------
  // compute_default_weights

  /** A class's share of the total spread over its samples is the same for every class. */
  lemma DefaultRatio(c: real, n: real)
    requires c > 0.0 && n > 0.0
    ensures (100.0 * c / n) / c == 100.0 / n
  {
    calc {
      (100.0 * c / n) / c;
      (100.0 * c) / (n * c);
      100.0 / n;
    }
  }

  /** `compute_default_weights` (635-648): every sample gets its class's share of 100 divided by
      the class's count, which is 100 over the number of samples whatever the class. No labels
      give no weights. */
  method DefaultWeights(y: seq<int>) returns (w: seq<real>)
    requires Dense(y)
    ensures |w| == |y|
    ensures forall i :: 0 <= i < |y| ==> w[i] == 100.0 / (|y| as real)
  {
    var weights := new real[|y|](_ => 0.0);
    var labels := Labels(y);
    var occ := Bincount(y);
    BincountFacts(y);
    var probs := Probs(occ);
    SpreadShares(weights, y, labels, occ, probs);
    forall i | 0 <= i < |y| ensures weights[i] == 100.0 / (|y| as real) {
      DefaultRatio(occ[y[i]] as real, |y| as real);
    }
    return weights[..];
  }

  /** The default weights add up to 100, and each class weighs its count times 100/n. */
  lemma DefaultMasses(y: seq<int>, w: seq<real>)
    requires y != []
    requires |w| == |y| && forall i :: 0 <= i < |y| ==> w[i] == 100.0 / (|y| as real)
    ensures forall k :: Mass(w, y, k) == (Count(y, k) as real) * (100.0 / (|y| as real))
    ensures Sum(w) == 100.0
  {
    ConstantMasses(w, y, 100.0 / (|y| as real));
    EvenTotal(w);
  }

  lemma ConstantMasses(w: seq<real>, y: seq<int>, c: real)
    requires |w| == |y| && forall i :: 0 <= i < |y| ==> w[i] == c
    ensures forall k :: Mass(w, y, k) == (Count(y, k) as real) * c
  {
    forall k ensures Mass(w, y, k) == (Count(y, k) as real) * c {
      MassOfConstant(w, y, k, c);
    }
  }

  /** n weights of 100/n each add up to 100. */
  lemma EvenTotal(w: seq<real>)
    requires w != [] && forall i :: 0 <= i < |w| ==> w[i] == 100.0 / (|w| as real)
    ensures Sum(w) == 100.0
  {
    var n := |w| as real;
    assert w == seq(|w|, _ => 100.0 / n);
    SumOfConstant(|w|, 100.0 / n);
    Shares(|w|);
  }

  lemma {:induction false} SumOfConstant(n: nat, c: real)
    ensures Sum(seq(n, _ => c)) == (n as real) * c
  {
    if n > 0 {
      assert seq(n, _ => c)[..n - 1] == seq(n - 1, _ => c);
      SumOfConstant(n - 1, c);
    }
  }

  // ---------------------------------------------------------------------------------------
  // compute_adjusted_weights

  /** The weight of a sample of a class with c samples when K classes share 100 equally. */
  function Balanced(K: nat, c: nat): real
    requires K > 0 && c > 0
  {
    100.0 / ((K as real) * (c as real))
  }

  /** The balanced weights the adjustment aims at: each of the K classes weighs 100/K in all,
      spread evenly over its samples. */
  function Adjusted(y: seq<int>): (r: seq<real>)
    requires y != [] && y[0] >= 0
    ensures |r| == |y|
  {
    seq(|y|, i requires 0 <= i < |y| => Balanced(Bins(y), ClassSize(y, i)))
  }

  /** The number of samples in the class of sample i, which holds at least that sample. */
  function ClassSize(y: seq<int>, i: nat): (c: nat)
    requires i < |y|
    ensures c == Count(y, y[i]) && c > 0
  {
    CountPositive(y, y[i]);
    Count(y, y[i])
  }

  /** A default weight plus its correction is the class's desired share over its count. */
  lemma Corrected(p: real, c: nat, K: nat)
    requires c > 0 && K > 0
    ensures p / (c as real) + (100.0 / (K as real) - p) / (c as real) == Balanced(K, c)
  {
    var c', d := c as real, 100.0 / (K as real);
    assert p / c' + (d - p) / c' == d / c';
  }

  /** The c samples of one class, each weighing its balanced weight, weigh 100/K together. */
  lemma ClassShare(w: seq<real>, y: seq<int>, k: int, K: nat)
    requires |w| == |y| && K > 0 && Count(y, k) > 0
    requires forall i :: 0 <= i < |y| && y[i] == k ==> w[i] == Balanced(K, Count(y, k))
    ensures Mass(w, y, k) == 100.0 / (K as real)
  {
    var c := Count(y, k);
    MassOfConstant(w, y, k, Balanced(K, c));
    ShareOfClass(c as real, K as real);
  }

  /** c samples of weight 100 / (K c) weigh 100 / K. */
  lemma ShareOfClass(c: real, K: real)
    requires c > 0.0 && K > 0.0
    ensures c * (100.0 / (K * c)) == 100.0 / K
  {
    assert 100.0 / (K * c) == (100.0 / K) / c;
  }

  /** K classes of 100/K each weigh 100. */
  lemma Shares(K: nat)
    requires K > 0
    ensures (K as real) * (100.0 / (K as real)) == 100.0
  {
  }

  /** The correction loop (665-668): each class's samples move by the gap between the desired
      share and the class's share, divided by the class's count. */
  method Correct(weights: array<real>, y: seq<int>, labels: seq<int>, occ: seq<nat>, probs: seq<real>, desired: real)
    requires weights.Length == |y| && |labels| == |occ| == |probs|
    requires forall k :: 0 <= k < |labels| ==> labels[k] == k && occ[k] > 0
    requires forall i :: 0 <= i < |y| ==> 0 <= y[i] < |labels|
    modifies weights
    ensures forall i :: 0 <= i < |y| ==>
              weights[i] == old(weights[i]) + (desired - probs[y[i]]) / (occ[y[i]] as real)
  {
    for idx := 0 to |probs|
      invariant forall i :: 0 <= i < |y| ==>
                  weights[i] == old(weights[i]) + if y[i] < idx then (desired - probs[y[i]]) / (occ[y[i]] as real) else 0.0
    {
      var delta := desired - probs[idx];
      var correction := delta / (occ[idx] as real);
      AddWhere(weights, y, labels[idx], correction);
    }
  }

  /** `compute_adjusted_weights` (651-670): the default weights, then each class corrected by
      the gap between 100/K and its share, spread over its samples. It divides by the number
      of classes, so no labels are a ZeroDivisionError. */
  method AdjustedWeights(y: seq<int>) returns (r: Result<seq<real>>)
    requires Dense(y)
    ensures r.Err? <==> y == []
    ensures r.Err? ==> r.error == ZeroDivisionError
    ensures r.Ok? ==> r.value == Adjusted(y)
  {
    var weights := new real[|y|](_ => 0.0);
    var labels := Labels(y);
    var occ := Bincount(y);
    BincountFacts(y);
    var probs := Probs(occ);
    SpreadShares(weights, y, labels, occ, probs);
    if |labels| == 0 {
      return Err(ZeroDivisionError);
    }
    var desired := 100.0 / (|labels| as real);
    Correct(weights, y, labels, occ, probs, desired);
    CorrectedIsAdjusted(y, occ, probs, desired, weights[..]);
    return Ok(weights[..]);
  }

  /** Shares plus corrections are the balanced weights. */
  lemma CorrectedIsAdjusted(y: seq<int>, occ: seq<nat>, probs: seq<real>, desired: real, w: seq<real>)
    requires Dense(y) && y != [] && occ == Bincount(y) && |probs| == |occ| && |w| == |y|
    requires occ != [] && forall k :: 0 <= k < |occ| ==> occ[k] > 0
    requires forall i :: 0 <= i < |y| ==> 0 <= y[i] < |occ|
    requires desired == 100.0 / (|occ| as real)
    requires forall i :: 0 <= i < |y| ==>
               w[i] == probs[y[i]] / (occ[y[i]] as real) + (desired - probs[y[i]]) / (occ[y[i]] as real)
    ensures w == Adjusted(y)
  {
    BincountFacts(y);
    assert forall i :: 0 <= i < |y| ==> occ[y[i]] == ClassSize(y, i);
    CorrectedEach(w, y, probs, Bins(y));
  }

  lemma CorrectedEach(w: seq<real>, y: seq<int>, probs: seq<real>, K: nat)
    requires K > 0 && |w| == |y| && forall i :: 0 <= i < |y| ==> 0 <= y[i] < |probs|
    requires forall i :: 0 <= i < |y| ==>
               w[i] == probs[y[i]] / (ClassSize(y, i) as real)
                       + (100.0 / (K as real) - probs[y[i]]) / (ClassSize(y, i) as real)
    ensures forall i :: 0 <= i < |y| ==> w[i] == Balanced(K, ClassSize(y, i))
  {
    forall i | 0 <= i < |y| ensures w[i] == Balanced(K, ClassSize(y, i)) {
      Corrected(probs[y[i]], ClassSize(y, i), K);
    }
  }

  /** Every class of the adjusted weights weighs 100/K, samples of one class weigh the same,
      and all weights add up to 100. */
  lemma AdjustedMasses(y: seq<int>)
    requires Dense(y) && y != []
    ensures forall k :: 0 <= k < Bins(y) ==> Mass(Adjusted(y), y, k) == 100.0 / (Bins(y) as real)
    ensures forall i, j :: 0 <= i < |y| && 0 <= j < |y| && y[i] == y[j] ==> Adjusted(y)[i] == Adjusted(y)[j]
    ensures Sum(Adjusted(y)) == 100.0
  {
    var w, K := Adjusted(y), Bins(y);
    BincountFacts(y);
    forall k | 0 <= k < K ensures Mass(w, y, k) == 100.0 / (K as real) {
      AdjustedClassMass(y, k);
    }
    SharesTotal(w, y, K);
  }

  /** Weights whose K classes weigh 100/K each add up to 100. */
  lemma SharesTotal(w: seq<real>, y: seq<int>, K: nat)
    requires |w| == |y| && K > 0 && forall i :: 0 <= i < |y| ==> 0 <= y[i] < K
    requires forall k :: 0 <= k < K ==> Mass(w, y, k) == 100.0 / (K as real)
    ensures Sum(w) == 100.0
  {
    MassesTotal(w, y, K);
    MassesOfEqual(w, y, K, 100.0 / (K as real));
    Shares(K);
  }

  lemma AdjustedClassMass(y: seq<int>, k: nat)
    requires Dense(y) && y != [] && k < Bins(y)
    ensures Mass(Adjusted(y), y, k) == 100.0 / (Bins(y) as real)
  {
    BincountFacts(y);
    ClassShare(Adjusted(y), y, k, Bins(y));
  }
}
