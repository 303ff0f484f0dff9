/** The Partitioner: the validation window of `get_cv_idxs` and the boolean-mask split of
    parallel arrays done by `split_by_idx`. The seeded `np.random.permutation(n)` is taken
    as a parameter: any permutation of range(n). */
module Partition {
  import opened Common

  /** `n_val = int(val_pct * n)`. */
  function ValCount(n: nat, valPct: real): (r: int)
    ensures 0.0 <= valPct ==> 0 <= r && r as real <= valPct * n as real < r as real + 1.0
    ensures 0.0 <= valPct <= 1.0 ==> r <= n
    ensures valPct <= 0.0 ==> r <= 0
  {
    Trunc(valPct * n as real)
  }

  /** What `np.random.permutation(n)` yields: every position of range(n) exactly once. */
  predicate IsPermutation(perm: seq<int>, n: nat) {
    |perm| == n && Distinct(perm) && forall k :: 0 <= k < n ==> 0 <= perm[k] < n
  }

  /** `get_cv_idxs(n, cv_idx, val_pct)`: the slice `idxs[cv_idx*n_val : cv_idx*n_val + n_val]`
      of the permutation. Whatever the arguments, the result holds distinct positions of range(n). */
  function GetCvIdxs(n: nat, cvIdx: int, valPct: real, perm: seq<int>): (r: seq<int>)
    requires IsPermutation(perm, n)
    ensures Distinct(r)
    ensures forall k :: 0 <= k < |r| ==> 0 <= r[k] < n
  {
    var nVal := ValCount(n, valPct);
    var start := cvIdx * nVal;
    var positions := SlicePositions(Some(start), Some(start + nVal), None, n).value;
    RangeDistinct(positions);
    PickDistinct(perm, positions);
    Pick(perm, positions)
  }

  lemma RangeDistinct(positions: seq<int>)
    requires exists lo, hi :: positions == Range(lo, hi, 1)
    ensures Distinct(positions)
  {
    var lo, hi :| positions == Range(lo, hi, 1);
    RangeIncreasing(lo, hi);
  }

  lemma {:induction false} RangeIncreasing(lo: int, hi: int)
    ensures forall i, j :: 0 <= i < j < |Range(lo, hi, 1)| ==> Range(lo, hi, 1)[i] < Range(lo, hi, 1)[j]
    decreases hi - lo
  {
    if lo < hi {
      RangeIncreasing(lo + 1, hi);
      assert Range(lo, hi, 1) == [lo] + Range(lo + 1, hi, 1);
    }
  }

  lemma PickDistinct<T>(s: seq<T>, positions: seq<int>)
    requires Distinct(s) && Distinct(positions)
    requires forall k :: 0 <= k < |positions| ==> 0 <= positions[k] < |s|
    ensures Distinct(Pick(s, positions))
  {
  }

  /** For non-negative `cv_idx` and `val_pct`, the result is the window of the permutation
      starting at `cv_idx * n_val`, cut off at the end: its length is
      min(n_val, max(0, n - cv_idx*n_val)). */
  lemma CvIdxsWindow(n: nat, cvIdx: int, valPct: real, perm: seq<int>)
    requires IsPermutation(perm, n) && cvIdx >= 0 && valPct >= 0.0
    ensures var nVal := ValCount(n, valPct);
            var start := cvIdx * nVal;
            var r := GetCvIdxs(n, cvIdx, valPct, perm);
            && nVal >= 0 && start >= 0
            && |r| == (if nVal <= n - start then nVal else if start <= n then n - start else 0)
            && (start < n ==> r == perm[start..if start + nVal <= n then start + nVal else n])
  {
    var nVal := ValCount(n, valPct);
    assert valPct * n as real >= 0.0;
    var start := cvIdx * nVal;
    assert start >= 0;
    PySliceLength(perm, start, start + nVal);
  }

  /** Two different non-negative folds `cv_idx` select disjoint validation sets. */
  lemma CvFoldsDisjoint(n: nat, i: int, j: int, valPct: real, perm: seq<int>)
    requires IsPermutation(perm, n) && 0 <= i < j && valPct >= 0.0
    ensures forall a, b :: 0 <= a < |GetCvIdxs(n, i, valPct, perm)| && 0 <= b < |GetCvIdxs(n, j, valPct, perm)|
              ==> GetCvIdxs(n, i, valPct, perm)[a] != GetCvIdxs(n, j, valPct, perm)[b]
  {
    var nVal := ValCount(n, valPct);
    var ri, rj := GetCvIdxs(n, i, valPct, perm), GetCvIdxs(n, j, valPct, perm);
    CvIdxsWindow(n, i, valPct, perm);
    CvIdxsWindow(n, j, valPct, perm);
    FoldStartsApart(i, j, nVal);
    forall a, b | 0 <= a < |ri| && 0 <= b < |rj| ensures ri[a] != rj[b] {
      WindowAt(n, i, valPct, perm, a);
      WindowAt(n, j, valPct, perm, b);
    }
  }

  lemma FoldStartsApart(i: int, j: int, nVal: int)
    requires 0 <= i < j && nVal >= 0
    ensures i * nVal + nVal <= j * nVal
  {
    var d := j - (i + 1);
    assert d >= 0;
    assert j * nVal == (i + 1) * nVal + d * nVal;
    assert (i + 1) * nVal == i * nVal + nVal;
    assert d * nVal >= 0;
  }

  /** Element `a` of a fold is the permutation at `cv_idx * n_val + a`, with `a < n_val`. */
  lemma WindowAt(n: nat, cvIdx: int, valPct: real, perm: seq<int>, a: int)
    requires IsPermutation(perm, n) && cvIdx >= 0 && valPct >= 0.0
    requires 0 <= a < |GetCvIdxs(n, cvIdx, valPct, perm)|
    ensures a < ValCount(n, valPct) && 0 <= cvIdx * ValCount(n, valPct) + a < n
    ensures GetCvIdxs(n, cvIdx, valPct, perm)[a] == perm[cvIdx * ValCount(n, valPct) + a]
  {
    CvIdxsWindow(n, cvIdx, valPct, perm);
  }

  /** When the window fits (`(cv_idx+1) * n_val <= n`) it holds exactly `n_val` positions. */
  lemma CvIdxsFullWindow(n: nat, cvIdx: int, valPct: real, perm: seq<int>)
    requires IsPermutation(perm, n) && cvIdx >= 0 && valPct >= 0.0
    requires cvIdx * ValCount(n, valPct) + ValCount(n, valPct) <= n
    ensures |GetCvIdxs(n, cvIdx, valPct, perm)| == ValCount(n, valPct)
  {
    CvIdxsWindow(n, cvIdx, valPct, perm);
  }

  // ---------------------------------------------------------------------------------------
  // split_by_idx

  /** Position k is set by `mask[np.array(idxs)] = True` on a mask of length n. */
  predicate Hit(idxs: seq<int>, n: nat, k: int) {
    exists j :: 0 <= j < |idxs| && PyIndex(idxs[j], n) == Ok(k)
  }

  /** Every index is one numpy accepts for an axis of length n. */
  predicate InBounds(idxs: seq<int>, n: nat) {
    forall j :: 0 <= j < |idxs| ==> PyIndex(idxs[j], n).Ok?
  }

  /** The mask as `split_by_idx` leaves it. */
  function MaskOf(idxs: seq<int>, n: nat): (r: seq<bool>)
    ensures |r| == n
    ensures InBounds(idxs, n) ==> forall k :: 0 <= k < n ==> (r[k] <==> k in Targets(idxs, n))
  {
    seq(n, k => Hit(idxs, n, k))
  }

  /** `~mask`. */
  function Invert(mask: seq<bool>): (r: seq<bool>)
    ensures |r| == |mask| && forall k :: 0 <= k < |r| ==> r[k] != mask[k]
  {
    seq(|mask|, k requires 0 <= k < |mask| => !mask[k])
  }

  /** Taking one more index into account adds exactly the position it names. */
  lemma HitSnoc(idxs: seq<int>, j: nat, n: nat, k: int)
    requires j < |idxs|
    ensures Hit(idxs[..j + 1], n, k) <==> Hit(idxs[..j], n, k) || PyIndex(idxs[j], n) == Ok(k)
  {
    assert idxs[..j + 1][j] == idxs[j];
    if Hit(idxs[..j], n, k) {
      var m :| 0 <= m < j && PyIndex(idxs[..j][m], n) == Ok(k);
      assert idxs[..j + 1][m] == idxs[..j][m];
    }
    if Hit(idxs[..j + 1], n, k) {
      var m :| 0 <= m < j + 1 && PyIndex(idxs[..j + 1][m], n) == Ok(k);
      if m < j { assert idxs[..j][m] == idxs[..j + 1][m]; }
    }
  }

  /** Lines 630-631: a zero mask of length n with every position named by `idxs` set;
      an index outside [-n, n) is numpy's IndexError. */
  method BuildMask(idxs: seq<int>, n: nat) returns (r: Result<seq<bool>>)
    ensures r.Ok? <==> InBounds(idxs, n)
    ensures r.Ok? ==> r.value == MaskOf(idxs, n)
  {
    var mask := new bool[n](_ => false);
    var j := 0;
    while j < |idxs|
      invariant 0 <= j <= |idxs|
      invariant InBounds(idxs[..j], n)
      invariant forall k :: 0 <= k < n ==> (mask[k] <==> Hit(idxs[..j], n, k))
    {
      var p := PyIndex(idxs[j], n);
      if p.Err? {
        assert !PyIndex(idxs[j], n).Ok?;
        return Err(p.error);
      }
      mask[p.value] := true;
      forall k | 0 <= k < n ensures mask[k] <==> Hit(idxs[..j + 1], n, k) {
        HitSnoc(idxs, j, n, k);
      }
      j := j + 1;
    }
    assert idxs[..j] == idxs;
    return Ok(mask[..]);
  }

  /** `o[mask]`: the elements whose mask entry is set, in their original order. */
  function Select<T>(o: seq<T>, mask: seq<bool>): (r: seq<T>)
    requires |o| == |mask|
    ensures |r| <= |o|
  {
    if o == [] then []
    else Select(o[..|o| - 1], mask[..|mask| - 1]) + (if mask[|mask| - 1] then [o[|o| - 1]] else [])
  }

  /** The set positions of a mask, ascending. */
  function Positions(mask: seq<bool>): (r: seq<int>)
    ensures forall i, j :: 0 <= i < j < |r| ==> r[i] < r[j]
    ensures forall k :: k in r <==> 0 <= k < |mask| && mask[k]
  {
    if mask == [] then []
    else
      var p := Positions(mask[..|mask| - 1]);
      assert forall k :: 0 <= k < |mask| - 1 ==> mask[..|mask| - 1][k] == mask[k];
      assert forall i :: 0 <= i < |p| ==> p[i] < |mask| - 1 by {
        forall i | 0 <= i < |p| ensures p[i] < |mask| - 1 { assert p[i] in p; }
      }
      p + (if mask[|mask| - 1] then [|mask| - 1] else [])
  }

  /** Positions below |o| - 1 read the same from `o` and from `o` without its last element. */
  lemma PickOfPrefix<T>(o: seq<T>, ps: seq<int>)
    requires o != [] && forall k :: 0 <= k < |ps| ==> 0 <= ps[k] < |o| - 1
    ensures Pick(o, ps) == Pick(o[..|o| - 1], ps)
  {
  }

  /** Reading one more position appends one element. */
  lemma PickAppend<T>(o: seq<T>, ps: seq<int>, x: int)
    requires 0 <= x < |o| && forall k :: 0 <= k < |ps| ==> 0 <= ps[k] < |o|
    ensures Pick(o, ps + [x]) == Pick(o, ps) + [o[x]]
  {
  }

  /** `o[mask]` is `o` read at the ascending set positions: selection keeps the original
      relative order and takes each set position once. */
  lemma {:induction false} SelectIsPick<T>(o: seq<T>, mask: seq<bool>)
    requires |o| == |mask|
    ensures forall k :: 0 <= k < |Positions(mask)| ==> 0 <= Positions(mask)[k] < |o|
    ensures Select(o, mask) == Pick(o, Positions(mask))
  {
    if o != [] {
      var o', m' := o[..|o| - 1], mask[..|mask| - 1];
      SelectIsPick(o', m');
      var p, p' := Positions(mask), Positions(m');
      PickOfPrefix(o, p');
      if mask[|mask| - 1] {
        assert p == p' + [|mask| - 1];
        PickAppend(o, p', |o| - 1);
      } else {
        assert p == p';
      }
    }
  }

  /** The two halves of a split: together they hold every element exactly once. */
  lemma {:induction false} SelectComplement<T>(o: seq<T>, mask: seq<bool>)
    requires |o| == |mask|
    ensures |Select(o, mask)| + |Select(o, Invert(mask))| == |o|
    ensures multiset(Select(o, mask)) + multiset(Select(o, Invert(mask))) == multiset(o)
  {
    if o != [] {
      var o', m' := o[..|o| - 1], mask[..|mask| - 1];
      SelectComplement(o', m');
      SelectSnoc(o, mask);
      SplitStep(Select(o', m'), Select(o', Invert(m')), mask[|mask| - 1],
                Select(o, mask), Select(o, Invert(mask)), o);
    }
  }

  /** A split of o without its last element, extended by that element on one side, is a split of o. */
  lemma SplitStep<T>(a: seq<T>, b: seq<T>, toA: bool, a2: seq<T>, b2: seq<T>, o: seq<T>)
    requires o != []
    requires |a| + |b| == |o| - 1 && multiset(a) + multiset(b) == multiset(o[..|o| - 1])
    requires a2 == a + (if toA then [o[|o| - 1]] else []) && b2 == b + (if toA then [] else [o[|o| - 1]])
    ensures |a2| + |b2| == |o| && multiset(a2) + multiset(b2) == multiset(o)
  {
    assert o == o[..|o| - 1] + [o[|o| - 1]];
  }

  /** The last element goes to exactly one of the two halves. */
  lemma SelectSnoc<T>(o: seq<T>, mask: seq<bool>)
    requires |o| == |mask| > 0
    ensures var o', m', x := o[..|o| - 1], mask[..|mask| - 1], o[|o| - 1];
            && Select(o, mask) == Select(o', m') + (if mask[|mask| - 1] then [x] else [])
            && Select(o, Invert(mask)) == Select(o', Invert(m')) + (if mask[|mask| - 1] then [] else [x])
  {
    var inv := Invert(mask);
    assert inv[..|inv| - 1] == Invert(mask[..|mask| - 1]);
  }

  /** A sequence without repetitions has as many elements as its set. */
  lemma {:induction false} DistinctCard<T>(s: seq<T>)
    requires Distinct(s)
    ensures |set x | x in s| == |s|
  {
    if s != [] {
      var init := s[..|s| - 1];
      DistinctCard(init);
      assert (set x | x in s) == (set x | x in init) + {s[|s| - 1]};
      assert s[|s| - 1] !in init;
    }
  }

  /** Validation positions of a split on `idxs`: every in-range index, wrapped. */
  function Targets(idxs: seq<int>, n: nat): set<int>
    requires InBounds(idxs, n)
  {
    set j | 0 <= j < |idxs| :: PyIndex(idxs[j], n).value
  }

  /** Duplicate indices select once: the selected half has as many elements as there are
      distinct positions named by `idxs`. */
  lemma SelectedCount<T>(o: seq<T>, idxs: seq<int>)
    requires InBounds(idxs, |o|)
    ensures |Select(o, MaskOf(idxs, |o|))| == |Targets(idxs, |o|)|
  {
    var m := MaskOf(idxs, |o|);
    SelectIsPick(o, m);
    DistinctCard(Positions(m));
    PositionsAreTargets(idxs, |o|);
  }

  /** The positions the mask sets are the positions the indices name. */
  lemma PositionsAreTargets(idxs: seq<int>, n: nat)
    requires InBounds(idxs, n)
    ensures (set x | x in Positions(MaskOf(idxs, n))) == Targets(idxs, n)
  {
    var p := Positions(MaskOf(idxs, n));
    forall x | x in p ensures x in Targets(idxs, n) {
      var j :| 0 <= j < |idxs| && PyIndex(idxs[j], n) == Ok(x);
    }
    forall x | x in Targets(idxs, n) ensures x in p {
      var j :| 0 <= j < |idxs| && x == PyIndex(idxs[j], n).value;
      assert Hit(idxs, n, x);
    }
  }

  /** Positions that are already distinct and non-negative are all selected. */
  lemma TargetsOfDistinct(idxs: seq<int>, n: nat)
    requires Distinct(idxs) && forall j :: 0 <= j < |idxs| ==> 0 <= idxs[j] < n
    ensures InBounds(idxs, n) && |Targets(idxs, n)| == |idxs|
  {
    DistinctCard(idxs);
    assert Targets(idxs, n) == set x | x in idxs;
  }

  /** `split_by_idx(idxs, *a)`: one mask over `len(a[0])`, then for every array the pair
      (selected, remaining). An empty `a`, an index out of range, or an array whose length
      differs from `a[0]` is an IndexError. */
  method SplitByIdx<T>(idxs: seq<int>, arrays: seq<seq<T>>) returns (r: Result<seq<(seq<T>, seq<T>)>>)
    ensures r.Ok? <==> |arrays| > 0 && InBounds(idxs, |arrays[0]|)
                       && forall a :: 0 <= a < |arrays| ==> |arrays[a]| == |arrays[0]|
    ensures r.Ok? ==> |r.value| == |arrays|
    ensures r.Ok? ==> forall a :: 0 <= a < |arrays| ==>
              r.value[a] == (Select(arrays[a], MaskOf(idxs, |arrays[0]|)),
                             Select(arrays[a], Invert(MaskOf(idxs, |arrays[0]|))))
  {
    if |arrays| == 0 {
      return Err(IndexError);
    }
    var mask :- BuildMask(idxs, |arrays[0]|);
    if exists a :: 0 <= a < |arrays| && |arrays[a]| != |mask| {
      return Err(IndexError);
    }
    return Ok(seq(|arrays|, a requires 0 <= a < |arrays| => (Select(arrays[a], mask), Select(arrays[a], Invert(mask)))));
  }

  /** `from_names_and_array`'s use: the default validation indices split an array of n
      elements into a validation half of exactly n_val elements and a training half of the
      rest, whenever the fold's window fits. */
  lemma CvSplitSizes<T>(o: seq<T>, cvIdx: int, valPct: real, perm: seq<int>)
    requires IsPermutation(perm, |o|) && cvIdx >= 0 && valPct >= 0.0
    requires cvIdx * ValCount(|o|, valPct) + ValCount(|o|, valPct) <= |o|
    ensures var idxs := GetCvIdxs(|o|, cvIdx, valPct, perm);
            && InBounds(idxs, |o|)
            && |Select(o, MaskOf(idxs, |o|))| == ValCount(|o|, valPct)
            && |Select(o, Invert(MaskOf(idxs, |o|)))| == |o| - ValCount(|o|, valPct)
  {
    var idxs := GetCvIdxs(|o|, cvIdx, valPct, perm);
    CvIdxsFullWindow(|o|, cvIdx, valPct, perm);
    TargetsOfDistinct(idxs, |o|);
    SelectedCount(o, idxs);
    SelectComplement(o, MaskOf(idxs, |o|));
  }
}
