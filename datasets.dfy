/** The dataset classes: how many classes a label array declares (the `get_c` variants),
    how a dataset is indexed by an integer or a slice (`BaseDataset.__getitem__`), and which
    datasets `ImageData.get_ds` builds from a training and a validation split. */
module Datasets {
  import opened Common
  import Weights

  // ---------------------------------------------------------------------------------------
  // Class counts

  /** The largest of a non-empty list of integers. */
  function MaxOf(s: seq<int>): (r: int)
    requires s != []
    ensures r in s && forall i :: 0 <= i < |s| ==> s[i] <= r
  {
    if |s| == 1 then s[0]
    else
      var m := MaxOf(s[..|s| - 1]);
      assert forall i :: 0 <= i < |s| - 1 ==> s[..|s| - 1][i] == s[i];
      if s[|s| - 1] > m then s[|s| - 1] else m
  }

  /** The largest of a non-empty list of reals. */
  function MaxReal(s: seq<real>): (r: real)
    requires s != []
    ensures r in s && forall i :: 0 <= i < |s| ==> s[i] <= r
  {
    if |s| == 1 then s[0]
    else
      var m := MaxReal(s[..|s| - 1]);
      assert forall i :: 0 <= i < |s| - 1 ==> s[..|s| - 1][i] == s[i];
      if s[|s| - 1] > m then s[|s| - 1] else m
  }

  /** x is an entry of the matrix. */
  predicate IsEntry(rows: seq<seq<real>>, x: real) {
    exists i, j :: 0 <= i < |rows| && 0 <= j < |rows[i]| && x == rows[i][j]
  }

  /** The entries of a matrix, row after row. */
  function Entries(rows: seq<seq<real>>): (r: seq<real>)
    ensures forall i, j :: 0 <= i < |rows| && 0 <= j < |rows[i]| ==> rows[i][j] in r
    ensures forall k :: 0 <= k < |r| ==> IsEntry(rows, r[k])
  {
    if rows == [] then []
    else
      var init := Entries(rows[..|rows| - 1]);
      var last := rows[|rows| - 1];
      assert forall i :: 0 <= i < |rows| - 1 ==> rows[..|rows| - 1][i] == rows[i];
      var r := init + last;
      assert forall k :: 0 <= k < |init| ==> r[k] == init[k];
      assert forall k :: |init| <= k < |r| ==> r[k] == last[k - |init|];
      assert forall k :: |init| <= k < |r| ==> IsEntry(rows, r[k]) by {
        forall k | |init| <= k < |r| ensures IsEntry(rows, r[k]) {
          assert r[k] == rows[|rows| - 1][k - |init|];
        }
      }
      r
  }

  /** `FilesArrayDataset.get_c`, and so that of `FilesNhotArrayDataset`: the second dimension of
      the label array, and 0 when it has only one. */
  function ArrayClassCount(y: LabelArray): (c: nat)
    ensures y.Flat? ==> c == 0
    ensures y.Grid? && WellShaped(y) ==> forall i :: 0 <= i < |y.rows| ==> |y.rows[i]| == c
  {
    match y
    case Flat(_) => 0
    case Grid(width, _) => width
  }

  /** `ArraysNhotDataset.get_c`: the second dimension of the label array; a 1-D array has none
      and `shape[1]` is an IndexError. */
  function NhotClassCount(y: LabelArray): (r: Result<nat>)
    ensures r.Ok? <==> y.Grid?
    ensures r.Err? ==> r.error == IndexError
    ensures r.Ok? && WellShaped(y) ==> forall i :: 0 <= i < |y.rows| ==> |y.rows[i]| == r.value
  {
    match y
    case Flat(_) => Err(IndexError)
    case Grid(width, _) => Ok(width)
  }

  /** `FilesIndexArrayDataset.get_c` and `ArraysIndexDataset.get_c`: `int(y.max()) + 1`. The
      result is the least bound above every label: the integers of a 1-D array, and the
      truncated entries of a 2-D float array. An array without entries has no maximum, which
      numpy reports as a ValueError. */
  function IndexClassCount(y: LabelArray): (r: Result<int>)
    ensures r.Err? ==> r.error == ValueError
    ensures y.Flat? ==> (r.Ok? <==> y.values != [])
    ensures y.Flat? && r.Ok? ==>
              && (forall i :: 0 <= i < |y.values| ==> y.values[i] < r.value)
              && r.value - 1 in y.values
    ensures y.Grid? ==> (r.Ok? <==> Entries(y.rows) != [])
    ensures y.Grid? && r.Ok? ==>
              && (forall i, j :: 0 <= i < |y.rows| && 0 <= j < |y.rows[i]| ==> Trunc(y.rows[i][j]) < r.value)
              && exists i, j :: 0 <= i < |y.rows| && 0 <= j < |y.rows[i]| && Trunc(y.rows[i][j]) == r.value - 1
  {
    match y
    case Flat(values) =>
      if values == [] then Err(ValueError) else Ok(MaxOf(values) + 1)
    case Grid(_, rows) =>
      var e := Entries(rows);
      if e == [] then Err(ValueError)
      else
        var m := MaxReal(e);
        forall i, j | 0 <= i < |rows| && 0 <= j < |rows[i]| ensures Trunc(rows[i][j]) <= Trunc(m) {
          var k :| 0 <= k < |e| && e[k] == rows[i][j];
          TruncMonotone(rows[i][j], m);
        }
        Ok(Trunc(m) + 1)
  }

  /** On non-negative integer labels the class count is the number of bins `np.bincount` makes,
      the count the class-balance weights are built on. */
  lemma {:induction false} IndexClassCountIsBins(values: seq<int>)
    requires values != [] && forall i :: 0 <= i < |values| ==> values[i] >= 0
    ensures IndexClassCount(Flat(values)) == Ok(Weights.Bins(values))
  {
    if |values| > 1 {
      var init := values[..|values| - 1];
      assert forall i :: 0 <= i < |init| ==> init[i] == values[i];
      IndexClassCountIsBins(init);
      assert MaxOf(values) == if values[|values| - 1] > MaxOf(init) then values[|values| - 1] else MaxOf(init);
    } else {
      assert values[..0] == [];
    }
  }

  // ---------------------------------------------------------------------------------------
  // Indexing

  /** What `get1item` yields: the example, its label and its source index. */
  datatype Sample<X, Y> = Sample(x: X, y: Y, src: Option<int>)

  /** A dataset as `__getitem__` sees it: `get_x(i)` is `xs[i]` (an array row, or the image read
      from the i-th file name), `get_y(i)` is `ys[i]`, and `get_src_idx(i)` is `src[i]`, or None
      when no source indices were given. */
  datatype Source<X, Y> = Source(xs: seq<X>, ys: seq<Y>, srcIdx: Option<seq<int>>)

  /** The constructors assert that there are as many examples as labels. */
  predicate Valid<X, Y>(ds: Source<X, Y>) {
    |ds.xs| == |ds.ys|
  }

  /** `get_n`, the length `__getitem__` resolves slices against. */
  function Size<X, Y>(ds: Source<X, Y>): nat {
    |ds.ys|
  }

  /** An integer index or a slice `start:stop:step` with absent parts as None. */
  datatype Index = At(i: int) | Slice(start: Option<int>, stop: Option<int>, step: Option<int>)

  /** One sample, or the batch a slice yields: the stacked examples, the labels and the source
      indices, each in slice order. */
  datatype Got<X, Y> = One(s: Sample<X, Y>) | Batch(xs: seq<X>, ys: seq<Y>, srcs: seq<Option<int>>)

  /** `get`: the transform, when there is one, applied to the sample. */
  function Apply<X, Y>(tfm: Option<Sample<X, Y> -> Sample<X, Y>>, s: Sample<X, Y>): Sample<X, Y> {
    if tfm.None? then s else tfm.value(s)
  }

  /** `get_src_idx(i)`. The constructors do not check the length of the source indices. */
  function SrcAt(srcIdx: Option<seq<int>>, i: int): (r: Result<Option<int>>)
    ensures srcIdx.None? ==> r == Ok(None)
    ensures srcIdx.Some? ==> (r.Ok? <==> PyIndex(i, |srcIdx.value|).Ok?)
  {
    match srcIdx
    case None => Ok(None)
    case Some(s) =>
      var j :- PyIndex(i, |s|);
      Ok(Some(s[j]))
  }

  /** `get1item(i)`: the parts at index i, with Python's reading of negative indices, passed
      through the transform. */
  function Get1Item<X, Y>(ds: Source<X, Y>, tfm: Option<Sample<X, Y> -> Sample<X, Y>>, i: int)
    : (r: Result<Sample<X, Y>>)
    ensures r.Err? ==> r.error == IndexError
    ensures r.Ok? <==> PyIndex(i, |ds.xs|).Ok? && PyIndex(i, |ds.ys|).Ok? && SrcAt(ds.srcIdx, i).Ok?
  {
    var px :- PyIndex(i, |ds.xs|);
    var py :- PyIndex(i, |ds.ys|);
    var src :- SrcAt(ds.srcIdx, i);
    Ok(Apply(tfm, Sample(ds.xs[px], ds.ys[py], src)))
  }

  /** `get1item` at each position in turn; the first failure stops the list. */
  function GetAll<X, Y>(ds: Source<X, Y>, tfm: Option<Sample<X, Y> -> Sample<X, Y>>, ps: seq<int>)
    : (r: Result<seq<Sample<X, Y>>>)
    ensures r.Ok? <==> forall k :: 0 <= k < |ps| ==> Get1Item(ds, tfm, ps[k]).Ok?
    ensures r.Err? ==> r.error == IndexError
    ensures r.Ok? ==> |r.value| == |ps| && forall k :: 0 <= k < |ps| ==> Get1Item(ds, tfm, ps[k]) == Ok(r.value[k])
  {
    if ps == [] then Ok([])
    else
      var s :- Get1Item(ds, tfm, ps[0]);
      var rest :- GetAll(ds, tfm, ps[1..]);
      assert forall k :: 1 <= k < |ps| ==> ps[k] == ps[1..][k - 1];
      Ok([s] + rest)
  }

  /** `BaseDataset.__getitem__`: an integer gives one sample; a slice is resolved against the
      dataset's length and gives the samples at its positions, unzipped into examples, labels
      and source indices. A slice with no positions leaves nothing to unzip into three parts,
      a ValueError. */
  function GetItem<X, Y>(ds: Source<X, Y>, tfm: Option<Sample<X, Y> -> Sample<X, Y>>, idx: Index)
    : (r: Result<Got<X, Y>>)
    ensures idx.At? ==> (r.Ok? <==> Get1Item(ds, tfm, idx.i).Ok?)
    ensures idx.At? && r.Ok? ==> r.value == One(Get1Item(ds, tfm, idx.i).value)
    ensures idx.Slice? && r.Ok? ==> r.value.Batch?
  {
    match idx
    case At(i) =>
      var s :- Get1Item(ds, tfm, i);
      Ok(One(s))
    case Slice(start, stop, step) =>
      var ps :- SlicePositions(start, stop, step, Size(ds));
      var samples :- GetAll(ds, tfm, ps);
      if samples == [] then Err(ValueError)
      else
        Ok(Batch(seq(|samples|, k requires 0 <= k < |samples| => samples[k].x),
                 seq(|samples|, k requires 0 <= k < |samples| => samples[k].y),
                 seq(|samples|, k requires 0 <= k < |samples| => samples[k].src)))
  }

  /** Source indices, when given, cover every example. */
  predicate SrcCovers<X, Y>(ds: Source<X, Y>) {
    ds.srcIdx.Some? ==> |ds.srcIdx.value| == |ds.ys|
  }

  /** On a dataset whose parts have equal lengths an integer index succeeds exactly when it lies
      in [-n, n), and then yields the parts at the position it denotes. */
  lemma GetItemAt<X, Y>(ds: Source<X, Y>, tfm: Option<Sample<X, Y> -> Sample<X, Y>>, i: int)
    requires Valid(ds) && SrcCovers(ds)
    ensures var r := GetItem(ds, tfm, At(i));
            var n := Size(ds);
            && (r.Ok? <==> -(n as int) <= i < n)
            && (r.Err? ==> r.error == IndexError)
            && (r.Ok? ==>
                  var j := if i < 0 then i + n else i;
                  r.value == One(Apply(tfm, Sample(ds.xs[j], ds.ys[j],
                                                   if ds.srcIdx.None? then None else Some(ds.srcIdx.value[j])))))
  {
  }

  /** Slicing is integer indexing at each of the slice's positions: a slice that succeeds
      yields, in order, what indexing each position yields. A zero step and a slice that
      selects nothing are ValueErrors; on a dataset whose parts have equal lengths nothing
      else fails. */
  lemma SliceIsIndexing<X, Y>(ds: Source<X, Y>, tfm: Option<Sample<X, Y> -> Sample<X, Y>>,
                              start: Option<int>, stop: Option<int>, step: Option<int>)
    requires Valid(ds) && SrcCovers(ds)
    ensures var r := GetItem(ds, tfm, Slice(start, stop, step));
            var ps := SlicePositions(start, stop, step, Size(ds));
            && (r.Err? <==> step == Some(0) || ps.value == [])
            && (r.Err? ==> r.error == ValueError)
            && (r.Ok? ==>
                  && |r.value.xs| == |r.value.ys| == |r.value.srcs| == |ps.value|
                  && forall k :: 0 <= k < |ps.value| ==>
                       GetItem(ds, tfm, At(ps.value[k]))
                       == Ok(One(Sample(r.value.xs[k], r.value.ys[k], r.value.srcs[k]))))
  {
    var ps := SlicePositions(start, stop, step, Size(ds));
    if ps.Ok? {
      forall k | 0 <= k < |ps.value| ensures Get1Item(ds, tfm, ps.value[k]).Ok? {
        GetItemAt(ds, tfm, ps.value[k]);
      }
    }
  }

  /** Without a transform, `ds[lo:hi]` with non-negative bounds is Python's slicing of the
      examples, the labels and the source indices; an empty slice is a ValueError. */
  lemma SliceIsPySlice<X, Y>(ds: Source<X, Y>, lo: int, hi: int)
    requires Valid(ds) && SrcCovers(ds) && 0 <= lo <= hi
    ensures var r := GetItem(ds, None, Slice(Some(lo), Some(hi), None));
            && (r.Ok? <==> PySlice(ds.ys, lo, hi) != [])
            && (r.Ok? ==>
                  && r.value.xs == PySlice(ds.xs, lo, hi)
                  && r.value.ys == PySlice(ds.ys, lo, hi)
                  && (ds.srcIdx.Some? ==>
                        && |r.value.srcs| == |PySlice(ds.srcIdx.value, lo, hi)|
                        && forall k :: 0 <= k < |r.value.srcs| ==> r.value.srcs[k] == Some(PySlice(ds.srcIdx.value, lo, hi)[k]))
                  && (ds.srcIdx.None? ==> forall k :: 0 <= k < |r.value.srcs| ==> r.value.srcs[k].None?))
  {
    var ps := SlicePositions(Some(lo), Some(hi), None, Size(ds)).value;
    SliceIsIndexing(ds, None, Some(lo), Some(hi), None);
    var r := GetItem(ds, None, Slice(Some(lo), Some(hi), None));
    if r.Ok? {
      forall k | 0 <= k < |ps| ensures r.value.xs[k] == ds.xs[ps[k]] && r.value.ys[k] == ds.ys[ps[k]]
        && r.value.srcs[k] == (if ds.srcIdx.None? then None else Some(ds.srcIdx.value[ps[k]]))
      {
        GetItemAt(ds, None, ps[k]);
      }
    }
  }

  // ---------------------------------------------------------------------------------------
  // get_ds

  /** A call `fn(x, y, tfm, src_idx)` of the dataset constructor `get_ds` is given. */
  datatype Call<A, T> = Call(x: A, y: A, tfm: T, src: Option<A>)

  /** The `test` argument: absent, a tuple of parts, or a bare list of examples. */
  datatype TestArg<A> = NoTest | TupleTest(fields: seq<A>) | ArrayTest(items: A)

  /** `ImageData.get_ds` (457-509) for splits given as tuples of parts: the train, val, fix and
      aug datasets, then test and test_aug. A 5-part training tuple passes the fourth part of
      each split as its source indices. Missing parts or transforms are IndexErrors. A bare
      test list reaches a constructor without its positional source indices, a TypeError for
      every dataset class of this file. */
  function GetDs<A, T>(trn: seq<A>, val: seq<A>, tfms: seq<T>, test: TestArg<A>)
    : (r: Result<seq<Option<Call<A, T>>>>)
    ensures r.Ok? <==> && |trn| >= 2 && |val| >= (if |trn| == 5 then 4 else 2) && |tfms| >= 2
                       && (test.NoTest? || (test.TupleTest? && |test.fields| >= 4 && |tfms| >= 3))
    ensures r.Err? ==> r.error == IndexError || r.error == TypeError
    ensures r.Err? && r.error == TypeError <==>
              && |trn| >= 2 && |val| >= (if |trn| == 5 then 4 else 2) && test.ArrayTest? && |tfms| >= 3
    ensures r.Ok? ==>
              var res := r.value;
              && |res| == 6 && res[0].Some? && res[1].Some? && res[2].Some? && res[3].Some?
              // train and val: each split with its own transform
              && res[0].value.x == trn[0] && res[0].value.y == trn[1] && res[0].value.tfm == tfms[0]
              && res[1].value.x == val[0] && res[1].value.y == val[1] && res[1].value.tfm == tfms[1]
              // fix: the training data under the validation transform; aug: the reverse
              && res[2].value == res[0].value.(tfm := res[1].value.tfm)
              && res[3].value == res[1].value.(tfm := res[0].value.tfm)
              // source indices exactly for a 5-part training tuple
              && (res[0].value.src.Some? <==> |trn| == 5) && (res[1].value.src.Some? <==> |trn| == 5)
              && (|trn| == 5 ==> res[0].value.src == Some(trn[3]) && res[1].value.src == Some(val[3]))
              && (test.NoTest? ==> res[4].None? && res[5].None?)
              && (test.TupleTest? ==>
                    && res[4] == Some(Call(test.fields[0], test.fields[1], tfms[2], Some(test.fields[3])))
                    && res[5] == Some(res[4].value.(tfm := res[0].value.tfm)))
  {
    var five := |trn| == 5;
    if |trn| < 2 || |val| < (if five then 4 else 2) || |tfms| < 2 then Err(IndexError)
    else
      var ts := if five then Some(trn[3]) else None;
      var vs := if five then Some(val[3]) else None;
      var res := [Some(Call(trn[0], trn[1], tfms[0], ts)), Some(Call(val[0], val[1], tfms[1], vs)),
                  Some(Call(trn[0], trn[1], tfms[1], ts)), Some(Call(val[0], val[1], tfms[0], vs))];
      match test
      case NoTest => Ok(res + [None, None])
      case TupleTest(f) =>
        if |f| < 4 || |tfms| < 3 then Err(IndexError)
        else Ok(res + [Some(Call(f[0], f[1], tfms[2], Some(f[3]))), Some(Call(f[0], f[1], tfms[0], Some(f[3])))])
      case ArrayTest(_) =>
        if |tfms| < 3 then Err(IndexError) else Err(TypeError)
  }
}
