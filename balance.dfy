/** Oversampling: `balance_ds` grows every class of a labelled file list to the size of the
    most common class, appending file names drawn at random from the list as it stands and
    labelling them with the class being grown. */
module Balance {
  import opened Common

  /** The file-name list `dataset[0]`. `list(dataset)` copies only the tuple, so `balance_ds`
      extends the caller's own list object. */
  class Names {
    var items: seq<string>

    constructor(items0: seq<string>)
      ensures items == items0
    {
      items := items0;
    }
  }

  // ---------------------------------------------------------------------------------------
  // Counter.most_common(1)

  /** `max(keys, key=count)`: the first key whose count is largest. */
  function FirstMax(keys: seq<int>, labels: seq<int>): (r: int)
    requires keys != [] && Distinct(keys)
    ensures r in keys
    ensures forall x :: x in keys ==> Count(labels, x) <= Count(labels, r)
    ensures forall j :: 0 <= j < IndexOf(keys, r) ==> Count(labels, keys[j]) < Count(labels, r)
  {
    if |keys| == 1 then keys[0]
    else
      var m := FirstMax(keys[..|keys| - 1], labels);
      FirstMaxStep(keys, labels, m);
      if Count(labels, keys[|keys| - 1]) > Count(labels, m) then keys[|keys| - 1] else m
  }

  /** The last key replaces the first maximum of the others only when it is strictly more frequent. */
  lemma FirstMaxStep(keys: seq<int>, labels: seq<int>, m: int)
    requires |keys| > 1 && Distinct(keys)
    requires var init := keys[..|keys| - 1];
             && m in init
             && (forall x :: x in init ==> Count(labels, x) <= Count(labels, m))
             && forall j :: 0 <= j < IndexOf(init, m) ==> Count(labels, init[j]) < Count(labels, m)
    ensures var last := keys[|keys| - 1];
            var r := if Count(labels, last) > Count(labels, m) then last else m;
            && r in keys
            && (forall x :: x in keys ==> Count(labels, x) <= Count(labels, r))
            && forall j :: 0 <= j < IndexOf(keys, r) ==> Count(labels, keys[j]) < Count(labels, r)
  {
    var init, last := keys[..|keys| - 1], keys[|keys| - 1];
    PrefixIndexOf(keys, init, m);
    assert forall j :: 0 <= j < |keys| - 1 ==> keys[j] == init[j];
    assert keys == init + [last];
    if Count(labels, last) > Count(labels, m) {
      IndexOfDistinct(keys, |keys| - 1);
    }
  }


  /** `counter.most_common(1)[0]` for `counter = Counter(labels)`: the most frequent label and
      its count, ties going to the label seen first. */
  function MostCommon(labels: seq<int>): (r: (int, nat))
    requires labels != []
    ensures r.0 in labels && r.1 == Count(labels, r.0)
    ensures forall x :: x in labels ==> Count(labels, x) <= r.1
  {
    var top := FirstMax(Dedup(labels), labels);
    (top, Count(labels, top))
  }

  /** A label seen before the most common one is strictly less frequent. */
  lemma MostCommonFirst(labels: seq<int>, x: int)
    requires labels != [] && x in labels
    requires IndexOf(labels, x) < IndexOf(labels, MostCommon(labels).0)
    ensures Count(labels, x) < MostCommon(labels).1
  {
    var keys := Dedup(labels);
    var top := MostCommon(labels).0;
    var i, t := IndexOf(keys, x), IndexOf(keys, top);
    if t < i {
      DedupFirstAppearance(labels, t, i);
    } else {
      assert i != t;
    }
  }

  // ---------------------------------------------------------------------------------------
  // The growth steps

  /** The file names and the labels. */
  datatype Ds = Ds(names: seq<string>, labels: seq<int>)

  /** Where the loop stopped: the state at that point, and the error that stopped it, if any. */
  datatype Outcome = Outcome(st: Ds, err: Option<Error>)

  /** `for label in set(labels)` visits each distinct label once, in the order `order`. */
  predicate SetOrder(labels: seq<int>, order: seq<int>) {
    && Distinct(order)
    && (forall i :: 0 <= i < |order| ==> order[i] in labels)
    && (forall i :: 0 <= i < |labels| ==> labels[i] in order)
  }

  /** What `np.random.choice(population, delta, replace=False)` may return, as positions:
      delta distinct positions of a population of n. */
  predicate Fits(d: seq<nat>, delta: nat, n: nat) {
    |d| == delta && Distinct(d) && forall k :: 0 <= k < |d| ==> d[k] < n
  }

  /** How the loop of `balance_ds` is determined: the original labels, the most common label
      and its count, the order in which the set of labels is visited, and what each visit
      draws. */
  datatype Run = Run(orig: seq<int>, top: int, maxCount: nat, order: seq<int>, draws: seq<seq<nat>>)

  /** No label counts more than `max_count`, and there is a draw for every visit. */
  ghost predicate Bounded(p: Run) {
    |p.draws| == |p.order| && forall x :: Count(p.orig, x) <= p.maxCount
  }

  /** No label is more frequent than the most common one. */
  lemma MostCommonBounds(labels: seq<int>)
    requires labels != []
    ensures forall x :: Count(labels, x) <= MostCommon(labels).1
  {
    forall x ensures Count(labels, x) <= MostCommon(labels).1 {
      CountPositive(labels, x);
    }
  }

  /** The run `balance_ds` makes on `labels`. */
  function RunOf(labels: seq<int>, order: seq<int>, draws: seq<seq<nat>>): (p: Run)
    requires labels != [] && |draws| == |order|
    ensures Bounded(p)
  {
    MostCommonBounds(labels);
    Run(labels, MostCommon(labels).0, MostCommon(labels).1, order, draws)
  }

  /** `max_count - counter[label]`: how many names a label is short of the most common one. */
  function Shortfall(p: Run, x: int): (r: nat)
    requires Bounded(p)
    ensures r <= p.maxCount
    ensures x !in p.orig ==> r == p.maxCount
    ensures r == 0 <==> Count(p.orig, x) == p.maxCount
  {
    CountPositive(p.orig, x);
    p.maxCount - Count(p.orig, x)
  }

  /** The names added at step k: none for the most common label, its shortfall otherwise. */
  function Added(p: Run, k: nat): nat
    requires Bounded(p) && k < |p.order|
  {
    if p.order[k] == p.top then 0 else Shortfall(p, p.order[k])
  }

  /** The length of the name list before step k, when no step before it failed. */
  function SizeBefore(p: Run, n0: nat, k: nat): nat
    requires Bounded(p) && k <= |p.order|
  {
    if k == 0 then n0 else SizeBefore(p, n0, k - 1) + Added(p, k - 1)
  }

  /** The draws are ones `np.random.choice` can make: at every step that draws, as many
      distinct positions of the current list as the label is short. */
  predicate DrawsFit(p: Run, n0: nat)
    requires Bounded(p)
  {
    forall k {:trigger p.draws[k]} :: 0 <= k < |p.order| && p.order[k] != p.top && Shortfall(p, p.order[k]) <= SizeBefore(p, n0, k) ==>
      Fits(p.draws[k], Shortfall(p, p.order[k]), SizeBefore(p, n0, k))
  }

  /** Lines 687-693 for the first k labels of the order, one `Step` per label. */
  function Grow(p: Run, names0: seq<string>, k: nat): (o: Outcome)
    requires Bounded(p) && DrawsFit(p, |names0|) && k <= |p.order|
    ensures o.err.None? ==> |o.st.names| == SizeBefore(p, |names0|, k)
    ensures o.err.None? || o.err == Some(ValueError)
  {
    if k == 0 then Outcome(Ds(names0, p.orig), None)
    else Step(p, |names0|, Grow(p, names0, k - 1), k - 1)
  }

  /** The visit of label `order[k]`: a label other than the most common one draws its
      shortfall of names from the current list and appends them, with as many copies of the
      label. Drawing more than the list holds is a ValueError, raised after the earlier steps
      have already extended the list. A failed run stays where it stopped. */
  function Step(p: Run, n0: nat, o: Outcome, k: nat): (r: Outcome)
    requires Bounded(p) && DrawsFit(p, n0) && k < |p.order|
    requires o.err.None? ==> |o.st.names| == SizeBefore(p, n0, k)
    requires o.err.None? || o.err == Some(ValueError)
    ensures r.err.None? ==> |r.st.names| == SizeBefore(p, n0, k + 1)
    ensures r.err.None? ==> o.err.None?
    ensures o.st.names <= r.st.names && (r.err.None? ==> o.st.labels <= r.st.labels)
    ensures o.err.Some? ==> r == o
    ensures r.err.None? || r.err == Some(ValueError)
  {
    var x := p.order[k];
    if o.err.Some? || x == p.top then o
    else
      var delta := Shortfall(p, x);
      if delta > |o.st.names| then Outcome(o.st, Some(ValueError))
      else Outcome(Ds(o.st.names + Pick(o.st.names, p.draws[k]), o.st.labels + seq(delta, _ => x)), None)
  }

  /** `balance_ds` (673-700) on a dataset whose file-name list is `names` and whose labels are
      `labels`: extends `names` in place and returns the new labels. Without labels there is no
      most common one: an IndexError, with nothing changed. */
  method BalanceDs(names: Names, labels: seq<int>, order: seq<int>, draws: seq<seq<nat>>) returns (r: Result<seq<int>>)
    requires |draws| == |order|
    requires labels != [] ==> DrawsFit(RunOf(labels, order, draws), |names.items|)
    modifies names
    ensures labels == [] ==> r == Err(IndexError) && names.items == old(names.items)
    ensures labels != [] ==>
              var o := Grow(RunOf(labels, order, draws), old(names.items), |order|);
              && names.items == o.st.names
              && r == (if o.err.None? then Ok(o.st.labels) else Err(o.err.value))
  {
    if labels == [] {
      return Err(IndexError);
    }
    ghost var p := RunOf(labels, order, draws);
    var (maxLabel, maxCount) := MostCommon(labels);
    r := Extend(names, p, labels, order, draws, maxLabel, maxCount);
  }

  /** The loop of `balance_ds` (687-693) for the run `p`, with the most common label and its
      count already taken from the counter. */
  method Extend(names: Names, ghost p: Run, labels: seq<int>, order: seq<int>, draws: seq<seq<nat>>,
                maxLabel: int, maxCount: nat)
    returns (r: Result<seq<int>>)
    requires p == Run(labels, maxLabel, maxCount, order, draws)
    requires Bounded(p) && DrawsFit(p, |names.items|)
    modifies names
    ensures var o := Grow(p, old(names.items), |order|);
            && names.items == o.st.names
            && r == (if o.err.None? then Ok(o.st.labels) else Err(o.err.value))
  {
    ghost var names0 := names.items;
    var lbls := labels;
    for k := 0 to |order|
      invariant Grow(p, names0, k) == Outcome(Ds(names.items, lbls), None)
    {
      var x := order[k];
      if x != maxLabel {
        var delta := maxCount - Count(labels, x);
        if delta > |names.items| {
          StepFails(p, names0, k);
          return Err(ValueError);
        }
        StepDraws(p, names0, k);
        var additions := Pick(names.items, draws[k]);
        names.items := names.items + additions;
        lbls := lbls + seq(delta, _ => x);
      } else {
        StepSkips(p, names0, k);
      }
    }
    return Ok(lbls);
  }

  /** A step that draws more names than the list holds fails the whole run. */
  lemma StepFails(p: Run, names0: seq<string>, k: nat)
    requires Bounded(p) && DrawsFit(p, |names0|) && k < |p.order|
    requires Grow(p, names0, k).err.None? && p.order[k] != p.top
    requires Shortfall(p, p.order[k]) > |Grow(p, names0, k).st.names|
    ensures Grow(p, names0, |p.order|) == Outcome(Grow(p, names0, k).st, Some(ValueError))
  {
    GrowStaysFailed(p, names0, k + 1, |p.order|);
  }

  /** A step that can draw appends the names at its draw positions and its copies of the
      label. */
  lemma StepDraws(p: Run, names0: seq<string>, k: nat)
    requires Bounded(p) && DrawsFit(p, |names0|) && k < |p.order|
    requires Grow(p, names0, k).err.None? && p.order[k] != p.top
    requires Shortfall(p, p.order[k]) <= |Grow(p, names0, k).st.names|
    ensures var o := Grow(p, names0, k);
            && Fits(p.draws[k], Shortfall(p, p.order[k]), |o.st.names|)
            && Grow(p, names0, k + 1)
               == Outcome(Ds(o.st.names + Pick(o.st.names, p.draws[k]),
                             o.st.labels + seq(Shortfall(p, p.order[k]), _ => p.order[k])), None)
  {
  }

  /** The most common label's step changes nothing. */
  lemma StepSkips(p: Run, names0: seq<string>, k: nat)
    requires Bounded(p) && DrawsFit(p, |names0|) && k < |p.order|
    requires Grow(p, names0, k).err.None? && p.order[k] == p.top
    ensures Grow(p, names0, k + 1) == Grow(p, names0, k)
  {
  }

  // ---------------------------------------------------------------------------------------
  // What balance_ds promises

  /** The original names stay a prefix of the list, and on success the original labels stay
      a prefix of the labels. */
  lemma {:induction false} GrowKeepsPrefix(p: Run, names0: seq<string>, k: nat)
    requires Bounded(p) && DrawsFit(p, |names0|) && k <= |p.order|
    ensures var o := Grow(p, names0, k);
            names0 <= o.st.names && (o.err.None? ==> p.orig <= o.st.labels)
  {
    if k > 0 {
      GrowKeepsPrefix(p, names0, k - 1);
    }
  }

  /** After the first k steps each label visited other than the most common one counts
      `max_count`, and every other label keeps its count. */
  lemma {:induction false} GrowCounts(p: Run, names0: seq<string>, k: nat)
    requires Bounded(p) && DrawsFit(p, |names0|) && k <= |p.order| && Distinct(p.order)
    requires Grow(p, names0, k).err.None?
    ensures forall x :: Count(Grow(p, names0, k).st.labels, x)
                         == if x in p.order[..k] && x != p.top then p.maxCount else Count(p.orig, x)
  {
    if k > 0 {
      GrowCounts(p, names0, k - 1);
      var prev := Grow(p, names0, k - 1).st.labels;
      var y := p.order[k - 1];
      VisitedPrefix(p.order, k);
      if y != p.top {
        var delta := Shortfall(p, y);
        assert Grow(p, names0, k).st.labels == prev + seq(delta, _ => y);
        AppendCopies(prev, y, delta);
      }
    }
  }

  /** The labels visited in the first k steps are those of the first k - 1 and the k-th, which
      is new. */
  lemma VisitedPrefix(order: seq<int>, k: nat)
    requires Distinct(order) && 0 < k <= |order|
    ensures order[..k] == order[..k - 1] + [order[k - 1]]
    ensures order[k - 1] !in order[..k - 1]
  {
    assert order[..k] == order[..k - 1] + [order[k - 1]];
    forall j | 0 <= j < k - 1 ensures order[j] != order[k - 1] { assert order[..k - 1][j] == order[j]; }
  }

  /** Appending n copies of y adds n to its count and leaves every other count alone. */
  lemma AppendCopies(prev: seq<int>, y: int, n: nat)
    ensures forall x :: Count(prev + seq(n, _ => y), x) == Count(prev, x) + (if x == y then n else 0)
  {
    forall x ensures Count(prev + seq(n, _ => y), x) == Count(prev, x) + (if x == y then n else 0) {
      CountAppend(prev, seq(n, _ => y), x);
      CountRepeat(y, n, x);
    }
  }

  /** On success every label occurs exactly `max_count` times, and no new label appears. */
  lemma BalancedCounts(names0: seq<string>, labels: seq<int>, order: seq<int>, draws: seq<seq<nat>>)
    requires labels != [] && SetOrder(labels, order) && |draws| == |order|
    requires DrawsFit(RunOf(labels, order, draws), |names0|)
    requires Grow(RunOf(labels, order, draws), names0, |order|).err.None?
    ensures var out := Grow(RunOf(labels, order, draws), names0, |order|).st.labels;
            && (forall x :: x in labels ==> Count(out, x) == MostCommon(labels).1)
            && (forall x :: x in out <==> x in labels)
  {
    var p := RunOf(labels, order, draws);
    assert forall i :: 0 <= i < |p.orig| ==> p.orig[i] in p.order;
    assert forall i :: 0 <= i < |p.order| ==> p.order[i] in p.orig;
    RunBalances(p, names0);
  }

  /** `BalancedCounts` for any run whose order visits every label once and whose top label
      has the largest count. */
  lemma RunBalances(p: Run, names0: seq<string>)
    requires Bounded(p) && DrawsFit(p, |names0|) && Distinct(p.order)
    requires forall i :: 0 <= i < |p.orig| ==> p.orig[i] in p.order
    requires forall i :: 0 <= i < |p.order| ==> p.order[i] in p.orig
    requires p.top in p.orig && p.maxCount == Count(p.orig, p.top)
    requires Grow(p, names0, |p.order|).err.None?
    ensures var out := Grow(p, names0, |p.order|).st.labels;
            && (forall x :: x in p.orig ==> Count(out, x) == p.maxCount)
            && (forall x :: x in out <==> x in p.orig)
  {
    var out := Grow(p, names0, |p.order|).st.labels;
    GrowCounts(p, names0, |p.order|);
    assert p.order[..|p.order|] == p.order;
    CountPositive(p.orig, p.top);
    forall x ensures x in out <==> x in p.orig {
      CountPositive(out, x);
      CountPositive(p.orig, x);
    }
  }

  /** Step k appends exactly the names at its draw positions in the list as it stood before the
      step, the positions distinct and as many as the label is short; the most common label's
      step appends nothing. */
  lemma GrowDraws(p: Run, names0: seq<string>, k: nat)
    requires Bounded(p) && DrawsFit(p, |names0|) && k < |p.order|
    requires Grow(p, names0, k + 1).err.None?
    ensures var before := Grow(p, names0, k).st.names;
            var after := Grow(p, names0, k + 1).st.names;
            && Grow(p, names0, k).err.None?
            && (p.order[k] == p.top ==> after == before)
            && (p.order[k] != p.top ==>
                  && Fits(p.draws[k], Shortfall(p, p.order[k]), |before|)
                  && after == before + Pick(before, p.draws[k]))
  {
  }

  /** The list after k steps is a prefix of the list after any later step that succeeds. */
  lemma {:induction false} GrowPrefixOfLater(p: Run, names0: seq<string>, k: nat, m: nat)
    requires Bounded(p) && DrawsFit(p, |names0|) && k <= m <= |p.order|
    requires Grow(p, names0, m).err.None?
    ensures Grow(p, names0, k).err.None?
    ensures Grow(p, names0, k).st.names <= Grow(p, names0, m).st.names
    decreases m - k
  {
    if k < m {
      GrowPrefixOfLater(p, names0, k, m - 1);
    }
  }

  /** A run that failed stays as it stopped. */
  lemma {:induction false} GrowStaysFailed(p: Run, names0: seq<string>, k: nat, m: nat)
    requires Bounded(p) && DrawsFit(p, |names0|) && k <= m <= |p.order|
    requires Grow(p, names0, k).err.Some?
    ensures Grow(p, names0, m) == Grow(p, names0, k)
    decreases m - k
  {
    if k < m {
      GrowStaysFailed(p, names0, k, m - 1);
    }
  }

  /** With at least as many names as labels, no draw exceeds the list. */
  lemma {:induction false} NoValueError(p: Run, names0: seq<string>, k: nat)
    requires Bounded(p) && DrawsFit(p, |names0|) && k <= |p.order|
    requires p.maxCount <= |p.orig| <= |names0|
    ensures Grow(p, names0, k).err.None?
    ensures SizeBefore(p, |names0|, k) >= |names0|
  {
    if k > 0 {
      NoValueError(p, names0, k - 1);
    }
  }

  /** The most common label's count is at most the number of labels. */
  lemma {:induction false} CountAtMostLength<T>(s: seq<T>, x: T)
    ensures Count(s, x) <= |s|
  {
    if s != [] {
      CountAtMostLength(s[..|s| - 1], x);
    }
  }
}
