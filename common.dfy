/** Vocabulary shared by the dataset modules: the exceptions the Python code can raise,
    Python and numpy index and slice semantics, and the list, string and path operations
    (dict.fromkeys, sorted, str.split, os.path.join) that the dataset code is built from. */
module Common {

  /** The exceptions raised by the modelled code. */
  datatype Error =
    | IndexError                 // a list, array or tuple position that does not exist
    | KeyError(key: string)      // a dict lookup of a missing key
    | ValueError                 // an empty np.stack / max / unpacking, or a zero slice step
    | TypeError                  // a call that misses a positional argument
    | ZeroDivisionError
    | FileNotFound(path: string)
    | NotADirectory(path: string)
    | AssertionError

  datatype Result<+T> = Ok(value: T) | Err(error: Error) {
    predicate IsFailure() { Err? }
    function PropagateFailure<U>(): Result<U> requires Err? { Err(error) }
    function Extract(): T requires Ok? { value }
  }

  datatype Option<+T> = None | Some(value: T)

  predicate Distinct<T(==)>(s: seq<T>) {
    forall i, j :: 0 <= i < j < |s| ==> s[i] != s[j]
  }

  /** A numpy label array: one integer per sample (1-D), or a rectangular float matrix with
      one row of `width` entries per sample (2-D). */
  datatype LabelArray = Flat(values: seq<int>) | Grid(width: nat, rows: seq<seq<real>>)

  predicate WellShaped(y: LabelArray) {
    y.Grid? ==> forall i :: 0 <= i < |y.rows| ==> |y.rows[i]| == y.width
  }

  /** The sum of a vector of floats, added left to right (`arr.sum()`, `sum(xs)`). */
  function Sum(v: seq<real>): real {
    if v == [] then 0.0 else Sum(v[..|v| - 1]) + v[|v| - 1]
  }

  /** len(y): the first dimension. */
  function Len(y: LabelArray): nat {
    match y
    case Flat(v) => |v|
    case Grid(_, rows) => |rows|
  }

  /** `int(x)` on a Python float: truncation toward zero. */
  function Trunc(x: real): (r: int)
    ensures 0.0 <= x ==> r as real <= x < r as real + 1.0
    ensures x < 0.0 ==> r as real - 1.0 < x <= r as real
  {
    if x >= 0.0 then x.Floor else -((-x).Floor)
  }

  /** Truncation keeps the order of its arguments. */
  lemma TruncMonotone(a: real, b: real)
    requires a <= b
    ensures Trunc(a) <= Trunc(b)
  {
  }

  // ---------------------------------------------------------------------------------------
  // Indexing and slicing

  /** The position that a Python or numpy integer index `i` denotes in a sequence of length
      `n`: negative indices count from the end, anything else outside is an IndexError. */
  function PyIndex(i: int, n: nat): (r: Result<nat>)
    ensures r.Ok? <==> -(n as int) <= i < n
    ensures r.Ok? ==> r.value < n && (r.value - i) % n == 0
  {
    if 0 <= i < n then Ok(i) else if -(n as int) <= i < 0 then Ok(i + n) else Err(IndexError)
  }

  /** One bound of `slice.indices(n)`: an absent bound takes its default, a negative one
      counts from the end, and the result is clamped into [lower, upper]. */
  function ClampBound(v: Option<int>, default: int, lower: int, upper: int, n: nat): int {
    match v
    case None => default
    case Some(x) =>
      if x < 0 then (if x + n < lower then lower else x + n)
      else if x > upper then upper else x
  }

  /** `slice(start, stop, step).indices(n)`; a zero step is a ValueError. */
  function SliceIndices(start: Option<int>, stop: Option<int>, step: Option<int>, n: nat)
    : (r: Result<(int, int, int)>)
    ensures r.Ok? <==> step != Some(0)
    ensures r.Ok? && r.value.2 > 0 ==> 0 <= r.value.0 <= n && 0 <= r.value.1 <= n
    ensures r.Ok? && r.value.2 < 0 ==> -1 <= r.value.0 <= n - 1 && -1 <= r.value.1 <= n - 1
  {
    var st := if step.None? then 1 else step.value;
    if st == 0 then Err(ValueError)
    else
      var lower := if st < 0 then -1 else 0;
      var upper := if st < 0 then n - 1 else n;
      Ok((ClampBound(start, if st < 0 then upper else lower, lower, upper, n),
          ClampBound(stop, if st < 0 then lower else upper, lower, upper, n),
          st))
  }

  /** `range(a, b, st)` as a sequence. */
  function Range(a: int, b: int, st: int): (r: seq<int>)
    requires st != 0
    ensures st > 0 ==> forall k :: 0 <= k < |r| ==> a <= r[k] < b
    ensures st < 0 ==> forall k :: 0 <= k < |r| ==> b < r[k] <= a
    decreases if st > 0 then b - a else a - b
  {
    if (st > 0 && a < b) || (st < 0 && a > b) then [a] + Range(a + st, b, st) else []
  }

  /** The positions a slice selects from a sequence of length n, in the order `range` yields them. */
  function SlicePositions(start: Option<int>, stop: Option<int>, step: Option<int>, n: nat)
    : (r: Result<seq<int>>)
    ensures r.Ok? <==> step != Some(0)
    ensures r.Ok? ==> forall k :: 0 <= k < |r.value| ==> 0 <= r.value[k] < n
  {
    var (lo, hi, st) :- SliceIndices(start, stop, step, n);
    Ok(Range(lo, hi, st))
  }

  /** The elements of `s` at `positions`, in that order (numpy fancy indexing with in-range indices). */
  function Pick<T>(s: seq<T>, positions: seq<int>): (r: seq<T>)
    requires forall k :: 0 <= k < |positions| ==> 0 <= positions[k] < |s|
    ensures |r| == |positions|
    ensures forall k :: 0 <= k < |r| ==> r[k] == s[positions[k]]
  {
    seq(|positions|, k requires 0 <= k < |positions| => s[positions[k]])
  }

  /** Python slicing `s[start:stop]`. */
  function PySlice<T>(s: seq<T>, start: int, stop: int): seq<T> {
    Pick(s, SlicePositions(Some(start), Some(stop), None, |s|).value)
  }

  lemma {:induction false} RangeUnitStep(a: int, b: int)
    requires a <= b
    ensures Range(a, b, 1) == seq(b - a, k => a + k)
    decreases b - a
  {
    if a < b {
      RangeUnitStep(a + 1, b);
      assert Range(a, b, 1) == [a] + seq(b - a - 1, k => a + 1 + k);
    }
  }

  /** A step-1 slice whose bounds already lie in [0, |s|] is the contiguous subsequence. */
  lemma PySliceInRange<T>(s: seq<T>, lo: int, hi: int)
    requires 0 <= lo <= hi <= |s|
    ensures PySlice(s, lo, hi) == s[lo..hi]
  {
    RangeUnitStep(lo, hi);
  }

  /** With non-negative bounds, slicing clamps the stop to the length and yields nothing past it. */
  lemma {:induction false} PySliceLength<T>(s: seq<T>, lo: int, hi: int)
    requires 0 <= lo <= hi
    ensures |PySlice(s, lo, hi)| == if lo >= |s| then 0 else (if hi <= |s| then hi else |s|) - lo
    ensures lo < |s| ==> PySlice(s, lo, hi) == s[lo..if hi <= |s| then hi else |s|]
  {
    var top := if hi <= |s| then hi else |s|;
    if lo < |s| {
      PySliceInRange(s, lo, top);
      assert SlicePositions(Some(lo), Some(hi), None, |s|) == SlicePositions(Some(lo), Some(top), None, |s|);
    } else {
      assert SlicePositions(Some(lo), Some(hi), None, |s|).value == Range(|s|, |s|, 1) == [];
    }
  }

  // ---------------------------------------------------------------------------------------
  // Lists

  /** `list(dict.fromkeys(s))`: the distinct elements of `s` in order of first appearance. */
  function Dedup<T(==)>(s: seq<T>): (r: seq<T>)
    ensures forall i :: 0 <= i < |r| ==> r[i] in s
    ensures forall i :: 0 <= i < |s| ==> s[i] in r
    ensures Distinct(r)
    ensures |r| <= |s|
  {
    if s == [] then []
    else
      var p := Dedup(s[..|s| - 1]);
      if s[|s| - 1] in p then p else p + [s[|s| - 1]]
  }

  /** `s.count(x)`, or `Counter(s)[x]`. */
  function Count<T(==)>(s: seq<T>, x: T): nat {
    if s == [] then 0 else Count(s[..|s| - 1], x) + (if s[|s| - 1] == x then 1 else 0)
  }

  /** An element occurs exactly when its count is positive. */
  lemma {:induction false} CountPositive<T>(s: seq<T>, x: T)
    ensures Count(s, x) > 0 <==> x in s
  {
    if s != [] {
      var init := s[..|s| - 1];
      CountPositive(init, x);
      assert s == init + [s[|s| - 1]];
    }
  }

  /** Counts add over concatenation. */
  lemma {:induction false} CountAppend<T>(s: seq<T>, t: seq<T>, x: T)
    ensures Count(s + t, x) == Count(s, x) + Count(t, x)
  {
    if t == [] {
      assert s + t == s;
    } else {
      var t' := t[..|t| - 1];
      CountAppend(s, t', x);
      assert (s + t)[..|s + t| - 1] == s + t';
      assert (s + t)[|s + t| - 1] == t[|t| - 1];
    }
  }

  /** n copies of y hold x n times if x is y, and otherwise never. */
  lemma {:induction false} CountRepeat<T>(y: T, n: nat, x: T)
    ensures Count(seq(n, _ => y), x) == if x == y then n else 0
  {
    if n > 0 {
      assert seq(n, _ => y)[..n - 1] == seq(n - 1, _ => y);
      CountRepeat(y, n - 1, x);
    }
  }

  /** `[f(x) for x in s if keep(x)]`. */
  function FilterMap<T, U>(s: seq<T>, keep: T -> bool, f: T -> U): seq<U> {
    if s == [] then []
    else FilterMap(s[..|s| - 1], keep, f) + (if keep(s[|s| - 1]) then [f(s[|s| - 1])] else [])
  }

  /** The comprehension keeps exactly the images of the elements that pass the test. */
  lemma {:induction false} FilterMapExactly<T, U>(s: seq<T>, keep: T -> bool, f: T -> U)
    ensures |FilterMap(s, keep, f)| <= |s|
    ensures forall x :: x in FilterMap(s, keep, f) <==> exists k :: 0 <= k < |s| && keep(s[k]) && x == f(s[k])
  {
    if s != [] {
      var init := s[..|s| - 1];
      FilterMapExactly(init, keep, f);
      var r0 := FilterMap(init, keep, f);
      var r := FilterMap(s, keep, f);
      forall x ensures x in r <==> exists k :: 0 <= k < |s| && keep(s[k]) && x == f(s[k]) {
        if x in r0 {
          var k :| 0 <= k < |init| && keep(init[k]) && x == f(init[k]);
          assert s[k] == init[k];
        } else if x in r {
          assert keep(s[|s| - 1]) && x == f(s[|s| - 1]);
        }
        if k :| 0 <= k < |s| && keep(s[k]) && x == f(s[k]) {
          if k < |init| {
            assert init[k] == s[k];
            assert x in r0;
          }
        }
      }
    }
  }

  /** The dict that `for i in range(n): d[keys[i]] = vals[i]` writes into an empty one. */
  function ZipPrefix<K, V>(keys: seq<K>, vals: seq<V>, n: nat): map<K, V>
    requires n <= |keys| && n <= |vals|
  {
    if n == 0 then map[] else ZipPrefix(keys, vals, n - 1)[keys[n - 1] := vals[n - 1]]
  }

  /** That dict has exactly the first n keys, whether or not some repeat. */
  lemma {:induction false} ZipPrefixKeys<K, V>(keys: seq<K>, vals: seq<V>, n: nat)
    requires n <= |keys| && n <= |vals|
    ensures forall x :: x in ZipPrefix(keys, vals, n) <==> x in keys[..n]
  {
    if n > 0 {
      ZipPrefixKeys(keys, vals, n - 1);
      assert keys[..n] == keys[..n - 1] + [keys[n - 1]];
    }
  }

  /** Without repeated keys, that dict has exactly the first n keys, each with its own value. */
  lemma {:induction false} ZipPrefixFacts<K, V>(keys: seq<K>, vals: seq<V>, n: nat)
    requires n <= |keys| && n <= |vals| && Distinct(keys)
    ensures forall x :: x in ZipPrefix(keys, vals, n) <==> x in keys[..n]
    ensures forall k :: 0 <= k < n ==> ZipPrefix(keys, vals, n)[keys[k]] == vals[k]
  {
    if n > 0 {
      ZipPrefixFacts(keys, vals, n - 1);
      assert keys[..n] == keys[..n - 1] + [keys[n - 1]];
      forall k | 0 <= k < n - 1 ensures ZipPrefix(keys, vals, n)[keys[k]] == vals[k] {
        assert keys[k] != keys[n - 1];
      }
    }
  }

  /** `s.index(x)`: the first position holding x. */
  function IndexOf<T(==)>(s: seq<T>, x: T): (i: nat)
    requires x in s
    ensures i < |s| && s[i] == x
    ensures forall j :: 0 <= j < i ==> s[j] != x
  {
    if s[0] == x then 0 else 1 + IndexOf(s[1..], x)
  }

  /** In a sequence without repetitions, an element's index is its only position. */
  lemma IndexOfDistinct<T>(s: seq<T>, i: nat)
    requires Distinct(s) && i < |s|
    ensures IndexOf(s, s[i]) == i
  {
  }

  /** A sequence without repetitions is its own `dict.fromkeys` list. */
  lemma {:induction false} DedupOfDistinct<T>(s: seq<T>)
    requires Distinct(s)
    ensures Dedup(s) == s
  {
    if s != [] {
      DedupOfDistinct(s[..|s| - 1]);
    }
  }

  /** `dict.fromkeys` loses no element and adds none. */
  lemma DedupMembers<T>(s: seq<T>)
    ensures forall t :: t in Dedup(s) <==> t in s
  {
    var u := Dedup(s);
    forall t ensures t in u <==> t in s {
      if t in u {
        var i :| 0 <= i < |u| && u[i] == t;
      }
      if t in s {
        var i :| 0 <= i < |s| && s[i] == t;
      }
    }
  }

  /** `Dedup` keeps the order of first appearance: earlier in the result means first seen earlier. */
  lemma {:induction false} DedupFirstAppearance<T>(s: seq<T>, i: nat, j: nat)
    requires i < j < |Dedup(s)|
    ensures IndexOf(s, Dedup(s)[i]) < IndexOf(s, Dedup(s)[j])
  {
    var init := s[..|s| - 1];
    var last := s[|s| - 1];
    var p := Dedup(init);
    var x, y := Dedup(s)[i], Dedup(s)[j];
    assert x in init by { assert x in p; }
    PrefixIndexOf(s, init, x);
    if j < |p| {
      DedupFirstAppearance(init, i, j);
      PrefixIndexOf(s, init, y);
    } else {
      assert y == last && last !in init;
      assert IndexOf(s, y) == |s| - 1 by {
        forall k | 0 <= k < |s| - 1 ensures s[k] != y { assert s[k] == init[k]; }
      }
    }
  }

  lemma PrefixIndexOf<T>(s: seq<T>, init: seq<T>, x: T)
    requires init <= s && x in init
    ensures x in s && IndexOf(s, x) == IndexOf(init, x)
  {
    var k := IndexOf(init, x);
    assert s[k] == x;
    var m := IndexOf(s, x);
    assert m <= k;
    assert init[m] == s[m];
  }

  // ---------------------------------------------------------------------------------------
  // Strings

  /** Python's `<` on str: code-point lexicographic order, a proper prefix sorting first. */
  predicate StrLt(a: string, b: string) {
    if |a| == 0 then |b| > 0
    else if |b| == 0 then false
    else if a[0] != b[0] then a[0] < b[0]
    else StrLt(a[1..], b[1..])
  }

  lemma {:induction false} StrLtIrreflexive(a: string)
    ensures !StrLt(a, a)
  {
    if |a| > 0 { StrLtIrreflexive(a[1..]); }
  }

  lemma {:induction false} StrLtTransitive(a: string, b: string, c: string)
    requires StrLt(a, b) && StrLt(b, c)
    ensures StrLt(a, c)
  {
    if |a| > 0 && |b| > 0 && |c| > 0 && a[0] == b[0] == c[0] {
      StrLtTransitive(a[1..], b[1..], c[1..]);
    }
  }

  lemma {:induction false} StrLtTotal(a: string, b: string)
    requires a != b
    ensures StrLt(a, b) || StrLt(b, a)
  {
    if |a| > 0 && |b| > 0 && a[0] == b[0] {
      assert a == [a[0]] + a[1..] && b == [b[0]] + b[1..];
      StrLtTotal(a[1..], b[1..]);
    }
  }

  predicate SortedBy<T>(s: seq<T>, key: T -> string) {
    forall i, j :: 0 <= i < j < |s| ==> StrLt(key(s[i]), key(s[j]))
  }

  predicate KeysDistinct<T>(s: seq<T>, key: T -> string) {
    forall i, j :: 0 <= i < j < |s| ==> key(s[i]) != key(s[j])
  }

  function InsertBy<T(==)>(x: T, s: seq<T>, key: T -> string): (r: seq<T>)
    requires SortedBy(s, key)
    requires forall i :: 0 <= i < |s| ==> key(s[i]) != key(x)
    ensures SortedBy(r, key) && multiset(r) == multiset(s) + multiset{x}
  {
    if s == [] then [x]
    else if StrLt(key(x), key(s[0])) then
      InsertBeforeHead(x, s, key);
      [x] + s
    else
      var t := InsertBy(x, s[1..], key);
      InsertAfterHead(x, s, t, key);
      [s[0]] + t
  }

  /** A key below the first of a sorted list is below all of them. */
  lemma InsertBeforeHead<T>(x: T, s: seq<T>, key: T -> string)
    requires s != [] && SortedBy(s, key) && StrLt(key(x), key(s[0]))
    ensures SortedBy([x] + s, key)
  {
    forall j | 0 < j < |s| ensures StrLt(key(x), key(s[j])) {
      StrLtTransitive(key(x), key(s[0]), key(s[j]));
    }
  }

  /** Keeping the head and inserting into the tail keeps the list sorted when the new key is
      above the head. */
  lemma InsertAfterHead<T>(x: T, s: seq<T>, t: seq<T>, key: T -> string)
    requires s != [] && SortedBy(s, key) && key(s[0]) != key(x) && !StrLt(key(x), key(s[0]))
    requires SortedBy(t, key) && multiset(t) == multiset(s[1..]) + multiset{x}
    ensures SortedBy([s[0]] + t, key) && multiset([s[0]] + t) == multiset(s) + multiset{x}
  {
    StrLtTotal(key(x), key(s[0]));
    assert s == [s[0]] + s[1..];
    forall j | 0 <= j < |t| ensures StrLt(key(s[0]), key(t[j])) {
      assert t[j] in multiset(t);
      if t[j] != x {
        assert t[j] in multiset(s[1..]);
        var m :| 0 <= m < |s[1..]| && s[1..][m] == t[j];
        assert s[m + 1] == t[j];
      }
    }
  }

  /** `sorted(s, key=key)` for keys without repetitions. */
  function SortBy<T(==)>(s: seq<T>, key: T -> string): (r: seq<T>)
    requires KeysDistinct(s, key)
    ensures SortedBy(r, key) && multiset(r) == multiset(s)
  {
    if s == [] then []
    else
      var t := SortBy(s[1..], key);
      assert s == [s[0]] + s[1..];
      assert forall i :: 0 <= i < |t| ==> key(t[i]) != key(s[0]) by {
        forall i | 0 <= i < |t| ensures key(t[i]) != key(s[0]) {
          assert t[i] in multiset(s[1..]);
          var m :| 0 <= m < |s[1..]| && s[1..][m] == t[i];
          assert s[m + 1] == t[i];
        }
      }
      InsertBy(s[0], t, key)
  }

  /** The key of a plain `sorted` on strings. */
  function Id(s: string): string { s }

  /** `sorted` of distinct strings. */
  function SortStrings(s: seq<string>): (r: seq<string>)
    requires Distinct(s)
    ensures SortedBy(r, Id) && multiset(r) == multiset(s)
  {
    SortBy(s, Id)
  }

  /** `str.split(sep)`: the maximal runs between separators, always at least one. */
  function SplitOn(s: string, sep: char): (r: seq<string>)
    ensures |r| == multiset(s)[sep] + 1
    ensures forall k :: 0 <= k < |r| ==> sep !in r[k]
  {
    if s == [] then [""]
    else
      var rest := SplitOn(s[1..], sep);
      assert s == [s[0]] + s[1..];
      if s[0] == sep then [""] + rest else [[s[0]] + rest[0]] + rest[1..]
  }

  /** `sep.join(parts)`: the inverse of `SplitOn`. */
  function JoinWith(parts: seq<string>, sep: char): string
    requires |parts| > 0
  {
    if |parts| == 1 then parts[0] else parts[0] + [sep] + JoinWith(parts[1..], sep)
  }

  /** Splitting then joining gives the string back. */
  lemma {:induction false} SplitThenJoin(s: string, sep: char)
    ensures JoinWith(SplitOn(s, sep), sep) == s
  {
    if s != [] {
      SplitThenJoin(s[1..], sep);
      SplitOnCons(s, sep);
      JoinStep(s, SplitOn(s, sep), SplitOn(s[1..], sep), sep);
    }
  }

  /** One step of `SplitOn`: a leading separator starts a new part, any other character
      joins the first part. */
  lemma SplitOnCons(s: string, sep: char)
    requires s != []
    ensures SplitOn(s, sep) == if s[0] == sep then [""] + SplitOn(s[1..], sep)
                               else [[s[0]] + SplitOn(s[1..], sep)[0]] + SplitOn(s[1..], sep)[1..]
  {
  }

  /** Joining the parts one step of `SplitOn` builds puts the first character back in front. */
  lemma JoinStep(s: string, parts: seq<string>, rest: seq<string>, sep: char)
    requires s != [] && |rest| > 0 && JoinWith(rest, sep) == s[1..]
    requires parts == if s[0] == sep then [""] + rest else [[s[0]] + rest[0]] + rest[1..]
    ensures JoinWith(parts, sep) == s
  {
    assert s == [s[0]] + s[1..];
    if s[0] == sep {
      assert parts[1..] == rest;
    } else if |rest| > 1 {
      var tail := JoinWith(rest[1..], sep);
      assert parts[1..] == rest[1..];
      assert s[1..] == rest[0] + [sep] + tail;
      assert JoinWith(parts, sep) == ([s[0]] + rest[0]) + [sep] + tail;
    }
  }

  /** posixpath.join(a, b): an absolute `b` replaces `a`; otherwise one '/' separates them. */
  function PathJoin(a: string, b: string): (r: string)
    ensures |b| <= |r| && r[|r| - |b|..] == b
    ensures (b == [] || b[0] != '/') ==> |a| <= |r| && r[..|a|] == a
  {
    if |b| > 0 && b[0] == '/' then b
    else if a == [] || a[|a| - 1] == '/' then a + b
    else a + "/" + b
  }

  /** Python's `x in s` on two strings: `x` occurs contiguously in `s`. */
  predicate Occurs(x: string, s: string)
    decreases |s|
  {
    |x| <= |s| && (s[..|x|] == x || (|s| > 0 && Occurs(x, s[1..])))
  }

  predicate OccursAt(x: string, s: string, i: int) {
    0 <= i <= |s| - |x| && s[i..i + |x|] == x
  }

  /** `Occurs` is substring containment. */
  lemma {:induction false} OccursIff(x: string, s: string)
    ensures Occurs(x, s) <==> exists i :: OccursAt(x, s, i)
    decreases |s|
  {
    if |x| <= |s| {
      if s[..|x|] == x {
        assert OccursAt(x, s, 0);
      } else {
        OccursIff(x, s[1..]);
        if i :| OccursAt(x, s[1..], i) {
          assert s[i + 1..i + 1 + |x|] == s[1..][i..i + |x|];
          assert OccursAt(x, s, i + 1);
        }
        if i :| OccursAt(x, s, i) {
          assert i != 0;
          assert s[1..][i - 1..i - 1 + |x|] == s[i..i + |x|];
          assert OccursAt(x, s[1..], i - 1);
        }
      }
    }
  }
}
