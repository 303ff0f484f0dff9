/** The Index Builder's manifest mode: `n_hot`, `nhot_labels` and the non-continuous branch
    of `dict_source`, which turn a mapping from file names to label lists into an n-hot
    matrix, or into one class index per file when every file has a single label. */
module Manifest {
  import opened Common
  import opened Partition

  // ---------------------------------------------------------------------------------------
  // n_hot

  /** What `n_hot(ids, c)` returns: a length-c row of zeros with a one at every position an
      index names (negative ones counting from the end); an index outside [-c, c) is an
      IndexError. */
  function NHotRow(ids: seq<int>, c: nat): (r: Result<seq<real>>)
    ensures r.Ok? <==> InBounds(ids, c)
    ensures r.Ok? ==> |r.value| == c
  {
    if InBounds(ids, c) then Ok(seq(c, k => if Hit(ids, c, k) then 1.0 else 0.0)) else Err(IndexError)
  }

  /** `n_hot` (92-98): fill a zero array of length c, then set the named entries to one. */
  method NHot(ids: seq<int>, c: nat) returns (r: Result<seq<real>>)
    ensures r == NHotRow(ids, c)
  {
    var res := new real[c](_ => 0.0);
    var j := 0;
    while j < |ids|
      invariant 0 <= j <= |ids|
      invariant InBounds(ids[..j], c)
      invariant forall k :: 0 <= k < c ==> res[k] == if Hit(ids[..j], c, k) then 1.0 else 0.0
    {
      var p := PyIndex(ids[j], c);
      if p.Err? {
        assert !PyIndex(ids[j], c).Ok?;
        return Err(p.error);
      }
      res[p.value] := 1.0;
      forall k | 0 <= k < c ensures res[k] == if Hit(ids[..j + 1], c, k) then 1.0 else 0.0 {
        HitSnoc(ids, j, c, k);
      }
      j := j + 1;
    }
    assert ids[..j] == ids;
    assert res[..] == NHotRow(ids, c).value;
    return Ok(res[..]);
  }

  /** Every entry of a row is 0 or 1. */
  predicate Binary(row: seq<real>) {
    forall k :: 0 <= k < |row| ==> row[k] == 0.0 || row[k] == 1.0
  }

  /** An n-hot row is binary, and its k-th entry is one exactly when some index names k. */
  lemma NHotRowEntries(ids: seq<int>, c: nat)
    requires InBounds(ids, c)
    ensures Binary(NHotRow(ids, c).value)
    ensures forall k :: 0 <= k < c ==>
              (NHotRow(ids, c).value[k] == 1.0 <==> exists j :: 0 <= j < |ids| && PyIndex(ids[j], c) == Ok(k))
  {
  }

  // ---------------------------------------------------------------------------------------
  // nhot_labels

  /** The items of the dict `csv_labels` in insertion order: a file name and its labels. */
  type Manifest = seq<(string, seq<string>)>

  /** `csv_labels[f]`. With the dict's keys unique this is the one entry for f; as in a dict
      built from pairs, a later entry would win. */
  function Find(m: Manifest, f: string): (r: Option<seq<string>>)
    ensures r.Some? <==> exists j :: 0 <= j < |m| && m[j].0 == f
    ensures r.Some? ==> exists j :: 0 <= j < |m| && m[j] == (f, r.value)
  {
    if m == [] then None
    else if m[|m| - 1].0 == f then Some(m[|m| - 1].1)
    else
      var r := Find(m[..|m| - 1], f);
      assert forall j :: 0 <= j < |m| - 1 ==> m[..|m| - 1][j] == m[j];
      r
  }

  /** The labels of f, none when f is not in the dict. */
  function LabelsOf(m: Manifest, f: string): seq<string> {
    match Find(m, f)
    case Some(v) => v
    case None => []
  }

  /** The first label of f, the empty string when it has none. */
  function FirstLabel(m: Manifest, f: string): string {
    var v := LabelsOf(m, f);
    if v == [] then "" else v[0]
  }

  /** `[label2idx[o] for o in v]`; the first label missing from `label2idx` is a KeyError. */
  function LabelIds(label2idx: map<string, int>, v: seq<string>): (r: Result<seq<int>>)
    ensures r.Ok? <==> forall j :: 0 <= j < |v| ==> v[j] in label2idx
    ensures r.Ok? ==> |r.value| == |v| && forall j :: 0 <= j < |v| ==> r.value[j] == label2idx[v[j]]
    ensures r.Err? ==> exists j :: 0 <= j < |v| && v[j] !in label2idx && r.error == KeyError(v[j])
  {
    if v == [] then Ok([])
    else
      var init := v[..|v| - 1];
      assert forall j :: 0 <= j < |init| ==> init[j] == v[j];
      match LabelIds(label2idx, init)
      case Err(e) => Err(e)
      case Ok(ids) =>
        if v[|v| - 1] !in label2idx then Err(KeyError(v[|v| - 1]))
        else Ok(ids + [label2idx[v[|v| - 1]]])
  }

  /** The row that `nhot_labels` encodes for one label list. */
  function RowOf(label2idx: map<string, int>, v: seq<string>, c: nat): Result<seq<real>> {
    var ids :- LabelIds(label2idx, v);
    NHotRow(ids, c)
  }

  /** `all_idx` (168-169): one encoded row per dict entry, built in insertion order; the first
      failing entry's error is raised. */
  function AllIdx(label2idx: map<string, int>, m: Manifest, c: nat): (r: Result<map<string, seq<real>>>)
    ensures r.Ok? <==> forall j :: 0 <= j < |m| ==> RowOf(label2idx, m[j].1, c).Ok?
    ensures r.Ok? ==> forall f :: f in r.value <==> Find(m, f).Some?
    ensures r.Ok? ==> forall f :: f in r.value ==> r.value[f] == RowOf(label2idx, Find(m, f).value, c).value
  {
    if m == [] then Ok(map[])
    else
      var init := m[..|m| - 1];
      assert forall j :: 0 <= j < |init| ==> init[j] == m[j];
      match AllIdx(label2idx, init, c)
      case Err(e) => Err(e)
      case Ok(d) =>
        match RowOf(label2idx, m[|m| - 1].1, c)
        case Err(e) => Err(e)
        case Ok(row) => Ok(d[m[|m| - 1].0 := row])
  }

  /** `[all_idx[o] for o in fnames]`: the first name that is not a key is a KeyError. */
  function Rows(d: map<string, seq<real>>, fnames: seq<string>): (r: Result<seq<seq<real>>>)
    ensures r.Ok? <==> forall i :: 0 <= i < |fnames| ==> fnames[i] in d
    ensures r.Ok? ==> |r.value| == |fnames| && forall i :: 0 <= i < |fnames| ==> r.value[i] == d[fnames[i]]
    ensures r.Err? ==> exists i :: 0 <= i < |fnames| && fnames[i] !in d && r.error == KeyError(fnames[i])
  {
    if fnames == [] then Ok([])
    else
      var init := fnames[..|fnames| - 1];
      assert forall i :: 0 <= i < |init| ==> init[i] == fnames[i];
      match Rows(d, init)
      case Err(e) => Err(e)
      case Ok(rows) =>
        var f := fnames[|fnames| - 1];
        if f !in d then Err(KeyError(f)) else Ok(rows + [d[f]])
  }

  /** `nhot_labels` (167-170): encode every entry, then stack the rows of `fnames` in that
      order; `np.stack` of no rows is a ValueError. */
  function NhotLabels(label2idx: map<string, int>, m: Manifest, fnames: seq<string>, c: nat): (r: Result<seq<seq<real>>>)
    ensures fnames == [] ==> r.Err?
    ensures r.Ok? ==> forall j :: 0 <= j < |m| ==> RowOf(label2idx, m[j].1, c).Ok?
    ensures r.Ok? ==> |r.value| == |fnames| && forall i :: 0 <= i < |fnames| ==>
              Find(m, fnames[i]).Some? && r.value[i] == RowOf(label2idx, Find(m, fnames[i]).value, c).value
  {
    var d :- AllIdx(label2idx, m, c);
    var rows :- Rows(d, fnames);
    if rows == [] then Err(ValueError) else Ok(rows)
  }

  /** The stacked matrix has one row per requested file, in the order of `fnames`, each the
      encoding of that file's labels. It fails with a KeyError naming a file exactly when the
      entries encode and some requested file is not in the dict, and with a ValueError when
      nothing is requested. */
  lemma NhotLabelsRows(label2idx: map<string, int>, m: Manifest, fnames: seq<string>, c: nat)
    requires forall j :: 0 <= j < |m| ==> RowOf(label2idx, m[j].1, c).Ok?
    ensures var r := NhotLabels(label2idx, m, fnames, c);
            && (r.Ok? <==> fnames != [] && forall i :: 0 <= i < |fnames| ==> Find(m, fnames[i]).Some?)
            && (fnames == [] ==> r == Err(ValueError))
            && (r.Ok? ==> |r.value| == |fnames| && forall i :: 0 <= i < |fnames| ==>
                            r.value[i] == RowOf(label2idx, Find(m, fnames[i]).value, c).value)
            && (r.Err? && fnames != [] ==> exists i :: 0 <= i < |fnames| && Find(m, fnames[i]).None?
                                                      && r.error == KeyError(fnames[i]))
  {
  }

  // ---------------------------------------------------------------------------------------
  // dict_source (non-continuous)

  /** `(p for o in csv_labels.values() for p in o)`. */
  function Tokens(m: Manifest): (r: seq<string>)
    ensures forall t :: t in r <==> exists j :: 0 <= j < |m| && t in m[j].1
  {
    if m == [] then []
    else
      var init := m[..|m| - 1];
      assert forall j :: 0 <= j < |init| ==> init[j] == m[j];
      Tokens(init) + m[|m| - 1].1
  }

  /** `sorted(list(set(tokens)))`. */
  function AllLabels(m: Manifest): (r: seq<string>)
    ensures SortedBy(r, Id)
    ensures forall t :: t in r <==> exists j :: 0 <= j < |m| && t in m[j].1
  {
    var u := Dedup(Tokens(m));
    var r := SortStrings(u);
    SameTokens(m, u, r);
    r
  }

  /** A rearrangement of the deduplicated tokens holds exactly the tokens that occur. */
  lemma SameTokens(m: Manifest, u: seq<string>, r: seq<string>)
    requires u == Dedup(Tokens(m)) && multiset(r) == multiset(u)
    ensures forall t :: t in r <==> exists j :: 0 <= j < |m| && t in m[j].1
  {
    forall t ensures t in r <==> t in u {
      assert t in r <==> t in multiset(r);
      assert t in u <==> t in multiset(u);
    }
    DedupMembers(Tokens(m));
  }

  /** `{v: k for k, v in enumerate(all_labels)}`. */
  function LabelIndex(all: seq<string>): (r: map<string, int>)
    ensures forall t :: t in r <==> t in all
    ensures forall t :: t in r ==> 0 <= r[t] < |all| && all[r[t]] == t
  {
    map t | t in all :: IndexOf(all, t)
  }

  /** `np.argmax(row)`: the first position of the largest entry. */
  function Argmax(row: seq<real>): (r: nat)
    requires row != []
    ensures r < |row| && forall k :: 0 <= k < |row| ==> row[k] <= row[r]
    ensures forall k :: 0 <= k < r ==> row[k] < row[r]
  {
    if |row| == 1 then 0
    else
      var j := Argmax(row[..|row| - 1]);
      assert forall k :: 0 <= k < |row| - 1 ==> row[..|row| - 1][k] == row[k];
      if row[|row| - 1] > row[j] then |row| - 1 else j
  }

  /** `np.all(label_arr.sum(axis=1) == 1)`. */
  predicate AllSingle(rows: seq<seq<real>>) {
    forall i :: 0 <= i < |rows| ==> Sum(rows[i]) == 1.0
  }

  /** The result of `dict_source`: full names, the label array, and `all_labels`. */
  datatype Source = Source(fullNames: seq<string>, labels: LabelArray, allLabels: seq<string>)

  /** `[os.path.join(folder, fn + suffix) for fn in fnames]` (180): one name per file, each
      ending with the file name and the suffix. */
  function FullNames(folder: string, fnames: seq<string>, suffix: string): (r: seq<string>)
    ensures |r| == |fnames|
    ensures forall i :: 0 <= i < |fnames| ==> var s := fnames[i] + suffix;
              |s| <= |r[i]| && r[i][|r[i]| - |s|..] == s
  {
    seq(|fnames|, i requires 0 <= i < |fnames| => PathJoin(folder, fnames[i] + suffix))
  }

  /** `dict_source(folder, fnames, csv_labels, suffix)` with `continuous=False` (178-189). */
  function DictSource(folder: string, fnames: seq<string>, m: Manifest, suffix: string): (r: Result<Source>)
    ensures fnames == [] ==> r.Err?
    ensures r.Ok? ==> |r.value.fullNames| == |fnames| == Len(r.value.labels) && r.value.allLabels == AllLabels(m)
    ensures r.Ok? ==> r.value.fullNames == FullNames(folder, fnames, suffix)
  {
    var all := AllLabels(m);
    var fullNames := FullNames(folder, fnames, suffix);
    var labels :- Encode(all, m, fnames);
    Ok(Source(fullNames, labels, all))
  }

  /** Lines 185-187: the label array for a given label universe. */
  function Encode(all: seq<string>, m: Manifest, fnames: seq<string>): (r: Result<LabelArray>)
    ensures fnames == [] ==> r.Err?
    ensures r.Ok? ==> Len(r.value) == |fnames| && (r.value.Grid? ==> r.value.width == |all|)
  {
    var rows :- NhotLabels(LabelIndex(all), m, fnames, |all|);
    Ok(Collapse(rows, |all|))
  }

  /** Lines 186-187: when every row sums to one, each row becomes the position of its largest
      entry; otherwise the matrix is kept. */
  function Collapse(rows: seq<seq<real>>, width: nat): (r: LabelArray)
    ensures Len(r) == |rows|
    ensures r.Flat? <==> AllSingle(rows)
    ensures r.Grid? ==> r == Grid(width, rows)
    ensures r.Flat? ==> forall i :: 0 <= i < |rows| && rows[i] != [] ==>
              0 <= r.values[i] < |rows[i]| && forall k :: 0 <= k < |rows[i]| ==> rows[i][k] <= rows[i][r.values[i]]
  {
    if AllSingle(rows) then Flat(seq(|rows|, i requires 0 <= i < |rows| => if rows[i] == [] then 0 else Argmax(rows[i])))
    else Grid(width, rows)
  }

  // ---------------------------------------------------------------------------------------
  // What dict_source promises

  /** `all_labels` is sorted ascending, has no repetitions, and holds exactly the tokens that
      occur in some label list. */
  lemma AllLabelsFacts(m: Manifest)
    ensures SortedBy(AllLabels(m), Id) && Distinct(AllLabels(m))
    ensures forall t :: t in AllLabels(m) <==> exists j :: 0 <= j < |m| && t in m[j].1
    ensures Covers(AllLabels(m), m)
  {
    var all := AllLabels(m);
    forall i, j | 0 <= i < j < |all| ensures all[i] != all[j] {
      StrLtIrreflexive(all[i]);
    }
  }

  /** Every label of every entry is in `all`. */
  predicate Covers(all: seq<string>, m: Manifest) {
    forall j, t :: 0 <= j < |m| && t in m[j].1 ==> t in all
  }

  /** Over a label universe without repetitions that holds the labels of `v`, no label is
      unknown and no index is out of range, so the row is `v`'s indicator over the universe. */
  lemma RowOfIndicator(all: seq<string>, v: seq<string>)
    requires Distinct(all) && forall t :: t in v ==> t in all
    ensures var r := RowOf(LabelIndex(all), v, |all|);
            && r.Ok? && |r.value| == |all| && Binary(r.value)
            && forall k :: 0 <= k < |all| ==> (r.value[k] == 1.0 <==> all[k] in v)
  {
    var ids := LabelIds(LabelIndex(all), v).value;
    assert forall j :: 0 <= j < |v| ==> ids[j] == IndexOf(all, v[j]);
    IdsInRange(all, v, ids);
    NHotRowEntries(ids, |all|);
    IdsName(all, v, ids);
  }

  /** Positions in the universe are in range. */
  lemma IdsInRange(all: seq<string>, v: seq<string>, ids: seq<int>)
    requires forall t :: t in v ==> t in all
    requires |ids| == |v| && forall j :: 0 <= j < |v| ==> ids[j] == IndexOf(all, v[j])
    ensures InBounds(ids, |all|)
    ensures forall j :: 0 <= j < |ids| ==> PyIndex(ids[j], |all|) == Ok(ids[j])
  {
    assert forall j :: 0 <= j < |v| ==> v[j] in all;
  }

  /** Position k is named by some label exactly when the k-th label of the universe is one of
      them. */
  lemma IdsName(all: seq<string>, v: seq<string>, ids: seq<int>)
    requires Distinct(all) && forall t :: t in v ==> t in all
    requires |ids| == |v| && forall j :: 0 <= j < |v| ==> ids[j] == IndexOf(all, v[j])
    requires forall j :: 0 <= j < |ids| ==> PyIndex(ids[j], |all|) == Ok(ids[j])
    ensures forall k :: 0 <= k < |all| ==> ((exists j :: 0 <= j < |ids| && PyIndex(ids[j], |all|) == Ok(k)) <==> all[k] in v)
  {
    forall k | 0 <= k < |all| ensures (exists j :: 0 <= j < |ids| && PyIndex(ids[j], |all|) == Ok(k)) <==> all[k] in v {
      if all[k] in v {
        var j :| 0 <= j < |v| && v[j] == all[k];
        IndexOfDistinct(all, k);
        assert PyIndex(ids[j], |all|) == Ok(k);
      }
      if j :| 0 <= j < |ids| && PyIndex(ids[j], |all|) == Ok(k) {
        assert v[j] in all;
        assert all[k] == v[j];
      }
    }
  }

  /** A binary row sums to one exactly when it has a single one. */
  lemma {:induction false} SumBinary(row: seq<real>)
    requires Binary(row)
    ensures Sum(row) >= 0.0
    ensures Sum(row) == 0.0 <==> forall k :: 0 <= k < |row| ==> row[k] == 0.0
    ensures Sum(row) == 1.0 <==> exists k :: 0 <= k < |row| && row[k] == 1.0
                                             && forall j :: 0 <= j < |row| && j != k ==> row[j] == 0.0
  {
    if row != [] {
      var init := row[..|row| - 1];
      var n := |row| - 1;
      assert forall k :: 0 <= k < n ==> init[k] == row[k];
      SumBinary(init);
      if Sum(row) == 1.0 {
        if row[n] == 1.0 {
          assert Sum(init) == 0.0;
          assert forall j :: 0 <= j < |row| && j != n ==> row[j] == 0.0;
        } else {
          var k :| 0 <= k < n && init[k] == 1.0 && forall j :: 0 <= j < n && j != k ==> init[j] == 0.0;
          assert forall j :: 0 <= j < |row| && j != k ==> row[j] == 0.0;
        }
      }
      if k :| 0 <= k < |row| && row[k] == 1.0 && forall j :: 0 <= j < |row| && j != k ==> row[j] == 0.0 {
        if k == n {
          assert forall j :: 0 <= j < n ==> init[j] == 0.0;
        } else {
          assert forall j :: 0 <= j < n && j != k ==> init[j] == 0.0;
        }
      }
    }
  }

  /** A label list holds one label, possibly repeated. */
  predicate SingleLabel(v: seq<string>) {
    v != [] && forall j :: 0 <= j < |v| ==> v[j] == v[0]
  }

  /** A row sums to one exactly when its label list names one label; the row's single one
      then sits at that label's position in the universe. */
  lemma RowSingle(all: seq<string>, v: seq<string>)
    requires Distinct(all) && forall t :: t in v ==> t in all
    ensures var row := RowOf(LabelIndex(all), v, |all|).value;
            && (Sum(row) == 1.0 <==> SingleLabel(v))
            && (SingleLabel(v) ==> row != [] && all[Argmax(row)] == v[0])
  {
    RowOfIndicator(all, v);
    var row := RowOf(LabelIndex(all), v, |all|).value;
    SumBinary(row);
    if SingleLabel(v) {
      SingleLabelRow(all, v, row);
    }
    if Sum(row) == 1.0 {
      var k :| 0 <= k < |row| && row[k] == 1.0 && forall j :: 0 <= j < |row| && j != k ==> row[j] == 0.0;
      OneHotLabel(all, v, row, k);
    }
  }

  /** The indicator row of a single label is one exactly at that label, so its first maximum
      is there. */
  lemma SingleLabelRow(all: seq<string>, v: seq<string>, row: seq<real>)
    requires Distinct(all) && SingleLabel(v) && v[0] in all
    requires |row| == |all| && forall k :: 0 <= k < |all| ==> (row[k] == 1.0 <==> all[k] in v)
    requires Binary(row)
    ensures row != [] && all[Argmax(row)] == v[0]
    ensures exists k :: 0 <= k < |row| && row[k] == 1.0 && forall j :: 0 <= j < |row| && j != k ==> row[j] == 0.0
  {
    var k := IndexOf(all, v[0]);
    assert forall t :: t in v ==> t == v[0];
    forall j | 0 <= j < |row| && j != k ensures row[j] == 0.0 {
      assert all[j] != all[k];
    }
    assert row[k] == 1.0;
    var a := Argmax(row);
    assert row[a] == 1.0;
  }

  /** A row with a single one comes from a label list naming only that position's label. */
  lemma OneHotLabel(all: seq<string>, v: seq<string>, row: seq<real>, k: nat)
    requires Distinct(all) && forall t :: t in v ==> t in all
    requires |row| == |all| && forall q :: 0 <= q < |all| ==> (row[q] == 1.0 <==> all[q] in v)
    requires k < |row| && row[k] == 1.0 && forall j :: 0 <= j < |row| && j != k ==> row[j] == 0.0
    ensures SingleLabel(v)
  {
    forall j | 0 <= j < |v| ensures v[j] == all[k] {
      var kj := IndexOf(all, v[j]);
      assert row[kj] == 1.0;
    }
  }

  /** Every dict entry encodes without error over a covering universe. */
  lemma EveryRowEncodes(all: seq<string>, m: Manifest)
    requires Distinct(all) && Covers(all, m)
    ensures forall j :: 0 <= j < |m| ==> RowOf(LabelIndex(all), m[j].1, |all|).Ok?
  {
    forall j | 0 <= j < |m| ensures RowOf(LabelIndex(all), m[j].1, |all|).Ok? {
      RowOfIndicator(all, m[j].1);
    }
  }

  /** The labels of a file of the dict are covered. */
  lemma FindCovered(all: seq<string>, m: Manifest, f: string)
    requires Covers(all, m)
    ensures forall t :: t in LabelsOf(m, f) ==> t in all
  {
    if Find(m, f).Some? {
      var j :| 0 <= j < |m| && m[j] == (f, Find(m, f).value);
    }
  }

  /** Over a covering universe the encoding fails exactly when no file is requested
      (ValueError) or a requested file is not in the dict (KeyError). On success it is 1-D
      exactly when every requested file has a single label, and otherwise the n-hot matrix
      with one row per file, in the order of `fnames`, whose entry for label t is one exactly
      when t is among that file's labels. */
  lemma EncodeRows(all: seq<string>, m: Manifest, fnames: seq<string>)
    requires Distinct(all) && Covers(all, m)
    ensures var r := Encode(all, m, fnames);
            && (r.Ok? <==> fnames != [] && forall i :: 0 <= i < |fnames| ==> Find(m, fnames[i]).Some?)
            && (fnames == [] ==> r == Err(ValueError))
            && (r.Ok? ==>
                  && Len(r.value) == |fnames|
                  && (r.value.Flat? <==> forall i :: 0 <= i < |fnames| ==> SingleLabel(LabelsOf(m, fnames[i])))
                  && (r.value.Grid? ==>
                        && r.value.width == |all|
                        && forall i :: 0 <= i < |fnames| ==>
                             && |r.value.rows[i]| == |all| && Binary(r.value.rows[i])
                             && forall k :: 0 <= k < |all| ==>
                                  (r.value.rows[i][k] == 1.0 <==> all[k] in LabelsOf(m, fnames[i]))))
  {
    EveryRowEncodes(all, m);
    NhotLabelsRows(LabelIndex(all), m, fnames, |all|);
    if NhotLabels(LabelIndex(all), m, fnames, |all|).Ok? {
      RowsEncodeLabels(all, m, fnames);
    }
  }

  /** Each row `nhot_labels` builds over `all_labels` is the 0/1 indicator of its file's labels,
      and sums to one exactly when the file has a single label. */
  lemma RowsEncodeLabels(all: seq<string>, m: Manifest, fnames: seq<string>)
    requires Distinct(all) && Covers(all, m)
    requires NhotLabels(LabelIndex(all), m, fnames, |all|).Ok?
    ensures var rows := NhotLabels(LabelIndex(all), m, fnames, |all|).value;
            && |rows| == |fnames|
            && forall i :: 0 <= i < |fnames| ==>
                 && |rows[i]| == |all| && Binary(rows[i])
                 && (Sum(rows[i]) == 1.0 <==> SingleLabel(LabelsOf(m, fnames[i])))
                 && forall k :: 0 <= k < |all| ==> (rows[i][k] == 1.0 <==> all[k] in LabelsOf(m, fnames[i]))
  {
    EveryRowEncodes(all, m);
    NhotLabelsRows(LabelIndex(all), m, fnames, |all|);
    var rows := NhotLabels(LabelIndex(all), m, fnames, |all|).value;
    forall i | 0 <= i < |fnames|
      ensures var v := LabelsOf(m, fnames[i]);
              && |rows[i]| == |all| && Binary(rows[i])
              && (Sum(rows[i]) == 1.0 <==> SingleLabel(v))
              && forall k :: 0 <= k < |all| ==> (rows[i][k] == 1.0 <==> all[k] in v)
    {
      var v := LabelsOf(m, fnames[i]);
      assert v == Find(m, fnames[i]).value;
      FindCovered(all, m, fnames[i]);
      RowOfIndicator(all, v);
      RowSingle(all, v);
    }
  }


  /** When every requested file has exactly one label, the encoding is 1-D: each file's
      entry is the position of its label in the universe. */
  lemma EncodeCollapses(all: seq<string>, m: Manifest, fnames: seq<string>)
    requires Distinct(all) && Covers(all, m)
    requires Encode(all, m, fnames).Ok?
    requires forall i :: 0 <= i < |fnames| ==> SingleLabel(LabelsOf(m, fnames[i]))
    ensures var y := Encode(all, m, fnames).value;
            && y.Flat? && |y.values| == |fnames|
            && forall i :: 0 <= i < |fnames| ==>
                 0 <= y.values[i] < |all| && all[y.values[i]] == FirstLabel(m, fnames[i])
  {
    var rows := NhotLabels(LabelIndex(all), m, fnames, |all|).value;
    SingleRows(all, m, fnames);
    CollapseSingles(rows, |all|);
  }

  /** With single labels, every row sums to one and its largest entry marks the label. */
  lemma SingleRows(all: seq<string>, m: Manifest, fnames: seq<string>)
    requires Distinct(all) && Covers(all, m)
    requires NhotLabels(LabelIndex(all), m, fnames, |all|).Ok?
    requires forall i :: 0 <= i < |fnames| ==> SingleLabel(LabelsOf(m, fnames[i]))
    ensures var rows := NhotLabels(LabelIndex(all), m, fnames, |all|).value;
            && |rows| == |fnames|
            && forall i :: 0 <= i < |fnames| ==>
                 Sum(rows[i]) == 1.0 && rows[i] != [] && all[Argmax(rows[i])] == FirstLabel(m, fnames[i])
  {
    EveryRowEncodes(all, m);
    NhotLabelsRows(LabelIndex(all), m, fnames, |all|);
    var rows := NhotLabels(LabelIndex(all), m, fnames, |all|).value;
    forall i | 0 <= i < |fnames|
      ensures Sum(rows[i]) == 1.0 && rows[i] != [] && all[Argmax(rows[i])] == FirstLabel(m, fnames[i])
    {
      FindCovered(all, m, fnames[i]);
      assert LabelsOf(m, fnames[i]) == Find(m, fnames[i]).value;
      RowSingle(all, LabelsOf(m, fnames[i]));
    }
  }

  /** Rows that all sum to one collapse to their first maxima. */
  lemma CollapseSingles(rows: seq<seq<real>>, width: nat)
    requires forall i :: 0 <= i < |rows| ==> Sum(rows[i]) == 1.0 && rows[i] != []
    ensures var y := Collapse(rows, width);
            && y.Flat? && |y.values| == |rows| && forall i :: 0 <= i < |rows| ==> y.values[i] == Argmax(rows[i])
  {
  }

  /** `dict_source` fails exactly when no file is requested (ValueError) or a requested file
      is not in the dict (KeyError). On success: one full name `folder/fname+suffix` per
      file; `all_labels` sorted, without repetitions, exactly the labels that occur; and the
      label array as the encoding over `all_labels` describes it. */
  lemma DictSourceFacts(folder: string, fnames: seq<string>, m: Manifest, suffix: string)
    ensures var r := DictSource(folder, fnames, m, suffix);
            && (r.Ok? <==> fnames != [] && forall i :: 0 <= i < |fnames| ==> Find(m, fnames[i]).Some?)
            && (fnames == [] ==> r == Err(ValueError))
            && (r.Ok? ==>
                  && |r.value.fullNames| == |fnames|
                  && (forall i :: 0 <= i < |fnames| ==> r.value.fullNames[i] == PathJoin(folder, fnames[i] + suffix))
                  && r.value.allLabels == AllLabels(m)
                  && r.value.labels == Encode(AllLabels(m), m, fnames).value)
  {
    AllLabelsFacts(m);
    EncodeRows(AllLabels(m), m, fnames);
  }

  /** Through `dict_source`: when every requested file has exactly one label, each file's
      entry in the 1-D result is that label's position in `all_labels`. */
  lemma DictSourceCollapses(folder: string, fnames: seq<string>, m: Manifest, suffix: string)
    requires DictSource(folder, fnames, m, suffix).Ok?
    requires forall i :: 0 <= i < |fnames| ==> SingleLabel(LabelsOf(m, fnames[i]))
    ensures var s := DictSource(folder, fnames, m, suffix).value;
            && s.labels.Flat? && |s.labels.values| == |fnames|
            && forall i :: 0 <= i < |fnames| ==>
                 0 <= s.labels.values[i] < |s.allLabels| && s.allLabels[s.labels.values[i]] == FirstLabel(m, fnames[i])
  {
    AllLabelsFacts(m);
    EncodeCollapses(AllLabels(m), m, fnames);
  }
}
