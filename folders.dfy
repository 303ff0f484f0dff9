/** The Index Builder's folder mode and the Label Resolver: `read_dirs` turns a directory
    listing into (file, label) pairs, and `folder_source` resolves each label to a source
    index and a class index through a table shared by the train and validation calls.
    The file system is abstract: the model is given what `os.listdir` would return. */
module Folders {
  import opened Common

  /** One entry of `os.listdir(path/folder)`: a sub-directory together with the names that
      `os.listdir` gives inside it, or a plain file. */
  datatype Entry = Dir(name: string, files: seq<string>) | File(name: string)

  function NameOf(e: Entry): string { e.name }

  /** Line 83: the label-folder names `read_dirs` ignores (a real tuple membership test). */
  predicate Hidden(name: string) {
    name == ".ipynb_checkpoints" || name == ".DS_Store"
  }

  /** Line 86: `fname not in ('.DS_Store')`. The parentheses make no tuple, so the test is
      whether `fname` is a substring of ".DS_Store": "Store", "S" or "" are skipped too. */
  predicate Skipped(fname: string) {
    Occurs(fname, ".DS_Store")
  }

  /** The triple `read_dirs` returns. */
  datatype Listing = Listing(fnames: seq<string>, lbls: seq<string>, allLbls: seq<string>)

  /** The inner loop (85-88) over one label folder: the kept files as `folder/lbl/fname`. */
  function KeptFiles(folder: string, lbl: string, files: seq<string>): (r: seq<string>)
    ensures |r| <= |files|
    ensures forall x :: x in r ==>
              exists k :: 0 <= k < |files| && !Skipped(files[k]) && x == PathJoin(PathJoin(folder, lbl), files[k])
  {
    FilterMapExactly(files, f => !Skipped(f), f => PathJoin(PathJoin(folder, lbl), f));
    FilterMap(files, f => !Skipped(f), f => PathJoin(PathJoin(folder, lbl), f))
  }

  /** One step of the outer loop (82-88). `os.listdir` on a plain file is NotADirectoryError. */
  function AddEntry(folder: string, acc: Listing, e: Entry): (r: Result<Listing>)
    ensures r.Err? <==> !Hidden(e.name) && e.File?
    ensures r.Err? ==> r.error == NotADirectory(PathJoin(folder, e.name))
    ensures Hidden(e.name) ==> r == Ok(acc)
    ensures r.Ok? ==> acc.fnames <= r.value.fnames && acc.lbls <= r.value.lbls && acc.allLbls <= r.value.allLbls
    ensures r.Ok? ==> |r.value.fnames| - |acc.fnames| == |r.value.lbls| - |acc.lbls|
    ensures r.Ok? && !Hidden(e.name) ==> r.value.allLbls == acc.allLbls + [e.name]
  {
    if Hidden(e.name) then Ok(acc)
    else
      match e
      case File(name) => Err(NotADirectory(PathJoin(folder, name)))
      case Dir(name, files) =>
        var kept := KeptFiles(folder, name, files);
        Ok(Listing(acc.fnames + kept, acc.lbls + seq(|kept|, _ => name), acc.allLbls + [name]))
  }

  /** The outer loop over the entries in the order given. */
  function Scan(folder: string, es: seq<Entry>): (r: Result<Listing>)
    ensures r.Ok? ==> |r.value.fnames| == |r.value.lbls| && |r.value.allLbls| <= |es|
    ensures r.Err? ==> r.error.NotADirectory?
  {
    if es == [] then Ok(Listing([], [], []))
    else
      var acc :- Scan(folder, es[..|es| - 1]);
      AddEntry(folder, acc, es[|es| - 1])
  }

  /** What `read_dirs(path, folder)` returns for the listing of `path/folder` (None: the
      folder does not exist). Directory names are unique, so `sorted` never compares ties. */
  function ReadDirsSpec(folder: string, listing: Option<seq<Entry>>): (r: Result<Listing>)
    requires listing.Some? ==> KeysDistinct(listing.value, NameOf)
    ensures listing.None? ==> r == Err(FileNotFound(folder))
    ensures listing.Some? && r.Err? ==> r.error.NotADirectory?
    ensures r.Ok? ==> |r.value.fnames| == |r.value.lbls| && |r.value.allLbls| <= |listing.value|
  {
    match listing
    case None => Err(FileNotFound(folder))
    case Some(es) =>
      var sorted := SortBy(es, NameOf);
      assert |sorted| == |multiset(sorted)| == |es|;
      Scan(folder, sorted)
  }

  /** Once the scan of a prefix fails, the whole scan fails with that error. */
  lemma {:induction false} ScanErrSticky(folder: string, es: seq<Entry>, i: nat)
    requires i <= |es| && Scan(folder, es[..i]).Err?
    ensures Scan(folder, es) == Scan(folder, es[..i])
    decreases |es| - i
  {
    if i < |es| {
      assert es[..i + 1][..i] == es[..i];
      ScanErrSticky(folder, es, i + 1);
    } else {
      assert es[..i] == es;
    }
  }

  /** The inner loop of `read_dirs` (85-88) over the names in one label folder. */
  method KeepFiles(folder: string, lbl: string, files: seq<string>) returns (kept: seq<string>)
    ensures kept == KeptFiles(folder, lbl, files)
  {
    kept := [];
    var j := 0;
    while j < |files|
      invariant 0 <= j <= |files|
      invariant kept == KeptFiles(folder, lbl, files[..j])
    {
      assert files[..j + 1][..j] == files[..j];
      if !Skipped(files[j]) {
        kept := kept + [PathJoin(PathJoin(folder, lbl), files[j])];
      }
      j := j + 1;
    }
    assert files[..j] == files;
  }

  /** The outer loop of `read_dirs` (82-88) over entries already in order. */
  method ScanEntries(folder: string, es: seq<Entry>) returns (r: Result<Listing>)
    ensures r == Scan(folder, es)
  {
    var acc := Listing([], [], []);
    var i := 0;
    while i < |es|
      invariant 0 <= i <= |es|
      invariant Scan(folder, es[..i]) == Ok(acc)
    {
      var e := es[i];
      assert es[..i + 1][..i] == es[..i] && es[..i + 1][i] == e;
      assert Scan(folder, es[..i + 1]) == AddEntry(folder, acc, e);
      if !Hidden(e.name) {
        if e.File? {
          ScanErrSticky(folder, es, i + 1);
          return Err(NotADirectory(PathJoin(folder, e.name)));
        }
        var kept := KeepFiles(folder, e.name, e.files);
        acc := Listing(acc.fnames + kept, acc.lbls + seq(|kept|, _ => e.name), acc.allLbls + [e.name]);
      }
      i := i + 1;
    }
    assert es[..i] == es;
    return Ok(acc);
  }

  /** `read_dirs` (76-89) over the abstract listing: the sorted label folders, each one's
      files, and the label of every file. */
  method ReadDirs(folder: string, listing: Option<seq<Entry>>) returns (r: Result<Listing>)
    requires listing.Some? ==> KeysDistinct(listing.value, NameOf)
    ensures r == ReadDirsSpec(folder, listing)
  {
    if listing.None? {
      return Err(FileNotFound(folder));
    }
    var es := SortBy(listing.value, NameOf);
    r := ScanEntries(folder, es);
  }

  /** The scan fails exactly when some entry that is not hidden is a plain file. */
  lemma {:induction false} ScanOk(folder: string, es: seq<Entry>)
    ensures Scan(folder, es).Ok? <==> forall k :: 0 <= k < |es| ==> Hidden(es[k].name) || es[k].Dir?
  {
    if es != [] {
      var init := es[..|es| - 1];
      ScanOk(folder, init);
      assert forall k :: 0 <= k < |init| ==> init[k] == es[k];
    }
  }

  /** A successful scan gives one label per file, each label one of `all_lbls`. */
  lemma {:induction false} ScanLabels(folder: string, es: seq<Entry>)
    requires Scan(folder, es).Ok?
    ensures |Scan(folder, es).value.fnames| == |Scan(folder, es).value.lbls|
    ensures forall i :: 0 <= i < |Scan(folder, es).value.lbls| ==>
              Scan(folder, es).value.lbls[i] in Scan(folder, es).value.allLbls
  {
    if es != [] {
      ScanLabels(folder, es[..|es| - 1]);
    }
  }

  /** The names of the entries that are not hidden, in order. */
  function Shown(es: seq<Entry>): seq<string> {
    FilterMap(es, (e: Entry) => !Hidden(e.name), NameOf)
  }

  /** A successful scan's `all_lbls` is the list of names that are not hidden. */
  lemma {:induction false} ScanAllLblsIsShown(folder: string, es: seq<Entry>)
    requires Scan(folder, es).Ok?
    ensures Scan(folder, es).value.allLbls == Shown(es)
  {
    if es != [] {
      ScanAllLblsIsShown(folder, es[..|es| - 1]);
    }
  }

  /** After a successful scan, `all_lbls` holds exactly the names of the folders that are not
      hidden. */
  lemma ScanAllLbls(folder: string, es: seq<Entry>)
    requires Scan(folder, es).Ok?
    ensures forall x :: x in Scan(folder, es).value.allLbls <==>
              exists k :: 0 <= k < |es| && es[k].Dir? && !Hidden(es[k].name) && es[k].name == x
  {
    ScanAllLblsIsShown(folder, es);
    ScanOk(folder, es);
    FilterMapExactly(es, (e: Entry) => !Hidden(e.name), NameOf);
  }

  /** Entries sorted by name show their names sorted. */
  lemma {:induction false} ShownSorted(es: seq<Entry>)
    requires SortedBy(es, NameOf)
    ensures SortedBy(Shown(es), Id)
  {
    if es != [] {
      var init := es[..|es| - 1];
      var e := es[|es| - 1];
      assert forall k :: 0 <= k < |init| ==> init[k] == es[k];
      assert SortedBy(init, NameOf);
      ShownSorted(init);
      FilterMapExactly(init, (e: Entry) => !Hidden(e.name), NameOf);
      var p := Shown(init);
      if !Hidden(e.name) {
        var all := p + [e.name];
        assert Shown(es) == all;
        forall t | 0 <= t < |p| ensures StrLt(p[t], e.name) {
          assert p[t] in p;
          var k :| 0 <= k < |init| && !Hidden(init[k].name) && p[t] == NameOf(init[k]);
          assert es[k] == init[k];
          assert StrLt(NameOf(es[k]), NameOf(es[|es| - 1]));
        }
        forall a, b | 0 <= a < b < |all| ensures StrLt(Id(all[a]), Id(all[b])) {
          if b < |p| {
            assert all[a] == p[a] && all[b] == p[b];
          } else {
            assert all[a] == p[a] && all[b] == e.name;
          }
        }
      } else {
        assert Shown(es) == p;
      }
    }
  }

  /** One label per file name, every label one of `all_lbls`, and `all_lbls` strictly
      ascending. */
  predicate Consistent(L: Listing) {
    && |L.fnames| == |L.lbls|
    && (forall i :: 0 <= i < |L.lbls| ==> L.lbls[i] in L.allLbls)
    && SortedBy(L.allLbls, Id)
  }

  /** `read_dirs` on an existing folder fails exactly when a non-hidden entry is a plain
      file. On success: one label per file name, every label one of `all_lbls`, and
      `all_lbls` the non-hidden folder names sorted ascending without repetitions. */
  lemma ReadDirsFacts(folder: string, es: seq<Entry>)
    requires KeysDistinct(es, NameOf)
    ensures ReadDirsSpec(folder, Some(es)).Ok? <==> forall e :: e in es ==> Hidden(e.name) || e.Dir?
    ensures ReadDirsSpec(folder, Some(es)).Ok? ==>
              && Consistent(ReadDirsSpec(folder, Some(es)).value)
              && forall x :: x in ReadDirsSpec(folder, Some(es)).value.allLbls <==>
                   exists e :: e in es && e.Dir? && !Hidden(e.name) && e.name == x
  {
    var sorted := SortBy(es, NameOf);
    assert forall e :: e in es <==> e in sorted by {
      forall e ensures e in es <==> e in sorted {
        assert e in es <==> e in multiset(es);
        assert e in sorted <==> e in multiset(sorted);
      }
    }
    ScanOk(folder, sorted);
    if Scan(folder, sorted).Ok? {
      ScanLabels(folder, sorted);
      ScanAllLbls(folder, sorted);
      ScanAllLblsIsShown(folder, sorted);
      ShownSorted(sorted);
      var L := Scan(folder, sorted).value;
      forall x | x in L.allLbls ensures exists e :: e in es && e.Dir? && !Hidden(e.name) && e.name == x {
        var k :| 0 <= k < |sorted| && sorted[k].Dir? && !Hidden(sorted[k].name) && sorted[k].name == x;
        assert sorted[k] in es;
      }
      forall x | exists e :: e in es && e.Dir? && !Hidden(e.name) && e.name == x ensures x in L.allLbls {
        var e :| e in es && e.Dir? && !Hidden(e.name) && e.name == x;
        var k :| 0 <= k < |sorted| && sorted[k] == e;
      }
    }
  }

  /** A strictly sorted list has no repetitions. */
  lemma SortedDistinct(s: seq<string>)
    requires SortedBy(s, Id)
    ensures Distinct(s)
  {
    forall i, j | 0 <= i < j < |s| ensures s[i] != s[j] {
      StrLtIrreflexive(s[i]);
    }
  }

  /** "Store" is a substring of ".DS_Store" and so is skipped; "a.tif" is not. */
  lemma SkippedExamples()
    ensures Skipped("Store") && !Skipped("a.tif")
  {
    OccursIff("Store", ".DS_Store");
    assert OccursAt("Store", ".DS_Store", 4);
    var s := ".DS_Store";
    assert !Occurs("a.tif", s[5..]);
    assert !Occurs("a.tif", s[4..]) by { assert s[4..][1..] == s[5..]; }
    assert !Occurs("a.tif", s[3..]) by { assert s[3..][1..] == s[4..]; }
    assert !Occurs("a.tif", s[2..]) by { assert s[2..][1..] == s[3..]; }
    assert !Occurs("a.tif", s[1..]) by { assert s[1..][1..] == s[2..]; }
  }

  /** The files of a label folder that `read_dirs` keeps are exactly the names that are
      not skipped, each prefixed by `folder/lbl/`, in listing order. */
  lemma KeptFilesExactly(folder: string, lbl: string, files: seq<string>)
    ensures |KeptFiles(folder, lbl, files)| <= |files|
    ensures forall x :: x in KeptFiles(folder, lbl, files) <==>
              exists k :: 0 <= k < |files| && !Skipped(files[k]) && x == PathJoin(PathJoin(folder, lbl), files[k])
  {
    FilterMapExactly(files, f => !Skipped(f), f => PathJoin(PathJoin(folder, lbl), f));
  }

  // ---------------------------------------------------------------------------------------
  // folder_source

  /** `lbl.split('_')[1]`: the class a label folder belongs to (e.g. "exp01_WT" is of class
      "WT"). A label without '_' leaves one part only, so indexing it is an IndexError. */
  function ClassOf(lbl: string): (r: Result<string>)
    ensures r.Ok? <==> '_' in lbl
    ensures r.Ok? ==> '_' !in r.value
  {
    var parts := SplitOn(lbl, '_');
    assert '_' in lbl <==> multiset(lbl)['_'] > 0;
    if |parts| < 2 then Err(IndexError) else Ok(parts[1])
  }

  /** The class is the text between the first and the second '_' of the label. */
  lemma ClassOfSegment(lbl: string)
    requires ClassOf(lbl).Ok?
    ensures var parts := SplitOn(lbl, '_');
            |parts| >= 2 && '_' !in parts[0] && ClassOf(lbl).value == parts[1]
            && lbl == parts[0] + "_" + JoinWith(parts[1..], '_')
  {
    SplitThenJoin(lbl, '_');
  }

  /** `lbls2classes.values()` (117) in the order of `all_lbls`; the first label without '_'
      raises. */
  function ClassesOf(lbls: seq<string>): (r: Result<seq<string>>)
    ensures r.Ok? <==> forall i :: 0 <= i < |lbls| ==> ClassOf(lbls[i]).Ok?
    ensures r.Ok? ==> |r.value| == |lbls| && forall i :: 0 <= i < |lbls| ==> r.value[i] == ClassOf(lbls[i]).value
    ensures r.Err? ==> r.error == IndexError
  {
    if lbls == [] then Ok([])
    else
      var init := ClassesOf(lbls[..|lbls| - 1]);
      assert forall i :: 0 <= i < |lbls| - 1 ==> lbls[..|lbls| - 1][i] == lbls[i];
      match init
      case Err(e) => Err(e)
      case Ok(cs) =>
        var c :- ClassOf(lbls[|lbls| - 1]);
        Ok(cs + [c])
  }

  /** One value of the shared dict `d`: `[src_idx, cls_idx, class]`. */
  datatype LabelEntry = LabelEntry(src: nat, cls: nat, className: string)

  type Table = map<string, LabelEntry>

  /** The entry line 126 writes for the i-th label: its position, the position of its
      class in `u_classes`, and the class. */
  function TableEntry(classes: seq<string>, i: nat): LabelEntry
    requires i < |classes|
  {
    LabelEntry(i, IndexOf(Dedup(classes), classes[i]), classes[i])
  }

  /** The entries the population loop writes, in the order of `all_lbls`. */
  function Entries(classes: seq<string>): seq<LabelEntry> {
    seq(|classes|, i requires 0 <= i < |classes| => TableEntry(classes, i))
  }

  /** Lines 121-126: the table written when `d` is empty. */
  function BuildTable(allLbls: seq<string>, classes: seq<string>): (r: Table)
    requires |allLbls| == |classes|
    ensures forall l :: l in r <==> l in allLbls
  {
    ZipPrefixKeys(allLbls, Entries(classes), |allLbls|);
    assert allLbls[..|allLbls|] == allLbls;
    ZipPrefix(allLbls, Entries(classes), |allLbls|)
  }

  /** Lines 128-129: every image's (source, class) read from the table; the first label
      missing from the table is a KeyError. */
  function LookupAll(d: Table, lbls: seq<string>): (r: Result<(seq<nat>, seq<nat>)>)
    ensures r.Ok? <==> forall i :: 0 <= i < |lbls| ==> lbls[i] in d
    ensures r.Ok? ==> |r.value.0| == |lbls| == |r.value.1|
    ensures r.Ok? ==> forall i :: 0 <= i < |lbls| ==> r.value.0[i] == d[lbls[i]].src && r.value.1[i] == d[lbls[i]].cls
    ensures r.Err? ==> exists i :: 0 <= i < |lbls| && lbls[i] !in d && r.error == KeyError(lbls[i])
                                   && forall j :: 0 <= j < i ==> lbls[j] in d
  {
    if lbls == [] then Ok(([], []))
    else
      var init := lbls[..|lbls| - 1];
      var last := lbls[|lbls| - 1];
      assert forall i :: 0 <= i < |init| ==> init[i] == lbls[i];
      match LookupAll(d, init)
      case Err(e) => Err(e)
      case Ok((src, cls)) =>
        if last !in d then Err(KeyError(last))
        else Ok((src + [d[last].src], cls + [d[last].cls]))
  }

  /** What `folder_source` returns: (fnames, cls_idx_arr, u_classes, src_idx_arr, all_lbls). */
  datatype FolderOut = FolderOut(fnames: seq<string>, clsIdxs: seq<nat>, uClasses: seq<string>,
                                 srcIdxs: seq<nat>, allLbls: seq<string>)

  /** `folder_source(path, folder, d)` as a function of what `read_dirs` gave and of the
      table before the call: the result and the table after it. The table is written only
      when it is empty. */
  function Resolve(d: Table, rd: Result<Listing>): (r: (Result<FolderOut>, Table))
    ensures rd.Err? ==> r == (Err(rd.error), d)
    ensures d != map[] ==> r.1 == d
    ensures rd.Ok? && d == map[] && r.0.Ok? ==> forall l :: l in r.1 <==> l in rd.value.allLbls
    ensures r.0.Ok? ==> rd.Ok? && r.0.value.fnames == rd.value.fnames && r.0.value.allLbls == rd.value.allLbls
    ensures r.0.Ok? ==> |r.0.value.srcIdxs| == |r.0.value.clsIdxs| == |rd.value.lbls|
    ensures r.0.Ok? ==> forall i :: 0 <= i < |rd.value.lbls| ==> rd.value.lbls[i] in r.1
    ensures r.0.Err? && rd.Ok? ==> r.0.error == IndexError || r.0.error.KeyError?
  {
    match rd
    case Err(e) => (Err(e), d)
    case Ok(L) =>
      match ClassesOf(L.allLbls)
      case Err(e) => (Err(e), d)
      case Ok(cs) =>
        var d' := if d == map[] then BuildTable(L.allLbls, cs) else d;
        match LookupAll(d', L.lbls)
        case Err(e) => (Err(e), d')
        case Ok((src, cls)) => (Ok(FolderOut(L.fnames, cls, Dedup(cs), src, L.allLbls)), d')
  }

  /** The dict `d` that `prepare_from_path` creates empty and passes to successive calls. */
  class LabelTable {
    var d: Table

    constructor ()
      ensures d == map[]
    {
      d := map[];
    }
  }

  /** The population loop of `folder_source` (121-126), run on an empty table. */
  method Populate(table: LabelTable, allLbls: seq<string>, classes: seq<string>)
    requires |allLbls| == |classes| && table.d == map[]
    modifies table
    ensures table.d == BuildTable(allLbls, classes)
  {
    var uClasses := Dedup(classes);
    var i := 0;
    while i < |allLbls|
      invariant 0 <= i <= |allLbls|
      invariant table.d == ZipPrefix(allLbls, Entries(classes), i)
    {
      table.d := table.d[allLbls[i] := LabelEntry(i, IndexOf(uClasses, classes[i]), classes[i])];
      i := i + 1;
    }
  }

  /** `folder_source` (101-137): read the folder; derive each label's class; when the shared
      table is empty, write one entry per label; then look every image's label up. */
  method FolderSource(folder: string, listing: Option<seq<Entry>>, table: LabelTable) returns (r: Result<FolderOut>)
    requires listing.Some? ==> KeysDistinct(listing.value, NameOf)
    modifies table
    ensures (r, table.d) == Resolve(old(table.d), ReadDirsSpec(folder, listing))
  {
    var rd := ReadDirs(folder, listing);
    if rd.Err? {
      return Err(rd.error);
    }
    var L := rd.value;
    var classes := ClassesOf(L.allLbls);
    if classes.Err? {
      return Err(classes.error);
    }
    var cs := classes.value;
    if table.d == map[] {
      Populate(table, L.allLbls, cs);
    }
    assert table.d == Resolve(old(table.d), rd).1;
    var lk := LookupAll(table.d, L.lbls);
    if lk.Err? {
      return Err(lk.error);
    }
    return Ok(FolderOut(L.fnames, lk.value.1, Dedup(cs), lk.value.0, L.allLbls));
  }

  // ---------------------------------------------------------------------------------------
  // What the shared table guarantees

  /** The table a first call writes: exactly the keys of `all_lbls`; each label's source
      index is its position in `all_lbls`; its class index is the position of its class in
      `u_classes`; and the stored class is `lbl.split('_')[1]`. */
  lemma FirstCallTable(L: Listing)
    requires Consistent(L) && Resolve(map[], Ok(L)).0.Ok?
    ensures var (r, d) := Resolve(map[], Ok(L));
            && (forall l :: l in d <==> l in L.allLbls)
            && forall l :: l in d ==>
                 && l in L.allLbls && d[l].src == IndexOf(L.allLbls, l)
                 && ClassOf(l).Ok? && d[l].className == ClassOf(l).value
                 && d[l].cls < |r.value.uClasses| && r.value.uClasses[d[l].cls] == d[l].className
  {
    var (r, d) := Resolve(map[], Ok(L));
    var cs := ClassesOf(L.allLbls).value;
    assert d == BuildTable(L.allLbls, cs);
    assert r.value.uClasses == Dedup(cs);
    SortedDistinct(L.allLbls);
    BuiltTableFacts(L.allLbls, cs);
  }

  lemma BuiltTableFacts(allLbls: seq<string>, classes: seq<string>)
    requires ClassesOf(allLbls) == Ok(classes) && Distinct(allLbls)
    ensures var d := BuildTable(allLbls, classes);
            && (forall l :: l in d <==> l in allLbls)
            && forall l :: l in d ==>
                 && l in allLbls && d[l].src == IndexOf(allLbls, l)
                 && ClassOf(l).Ok? && d[l].className == ClassOf(l).value
                 && d[l].cls < |Dedup(classes)| && Dedup(classes)[d[l].cls] == d[l].className
  {
    var d := BuildTable(allLbls, classes);
    ZipPrefixFacts(allLbls, Entries(classes), |allLbls|);
    assert allLbls[..|allLbls|] == allLbls;
    forall l | l in d
      ensures l in allLbls && d[l].src == IndexOf(allLbls, l)
      ensures ClassOf(l).Ok? && d[l].cls < |Dedup(classes)| && Dedup(classes)[d[l].cls] == d[l].className == ClassOf(l).value
    {
      var k := IndexOf(allLbls, l);
      IndexOfDistinct(allLbls, k);
      assert d[l] == TableEntry(classes, k);
      assert classes[k] == ClassOf(allLbls[k]).value;
    }
  }

  /** Looking labels of `all_lbls` up in the table built from it never fails, and gives
      indices in range. */
  lemma LookupBuilt(allLbls: seq<string>, classes: seq<string>, lbls: seq<string>)
    requires |allLbls| == |classes| && Distinct(allLbls)
    requires forall i :: 0 <= i < |lbls| ==> lbls[i] in allLbls
    ensures LookupAll(BuildTable(allLbls, classes), lbls).Ok?
    ensures forall i :: 0 <= i < |lbls| ==>
              && LookupAll(BuildTable(allLbls, classes), lbls).value.0[i] < |allLbls|
              && LookupAll(BuildTable(allLbls, classes), lbls).value.1[i] < |Dedup(classes)|
  {
    var d := BuildTable(allLbls, classes);
    ZipPrefixFacts(allLbls, Entries(classes), |allLbls|);
    assert allLbls[..|allLbls|] == allLbls;
    forall i | 0 <= i < |lbls| ensures lbls[i] in d && d[lbls[i]].src < |allLbls| && d[lbls[i]].cls < |Dedup(classes)| {
      var k := IndexOf(allLbls, lbls[i]);
      assert d[allLbls[k]] == TableEntry(classes, k);
    }
  }

  /** A first call on what `read_dirs` returns never fails on a lookup: it resolves every
      image, with indices into `all_lbls` and `u_classes`. It fails only on a label without
      '_'. */
  lemma FirstCallResolvesAll(L: Listing)
    requires Consistent(L)
    ensures Resolve(map[], Ok(L)).0.Ok? <==> forall i :: 0 <= i < |L.allLbls| ==> '_' in L.allLbls[i]
    ensures var r := Resolve(map[], Ok(L)).0;
            r.Ok? ==>
              && |r.value.srcIdxs| == |r.value.fnames| == |r.value.clsIdxs|
              && forall i :: 0 <= i < |r.value.fnames| ==>
                   r.value.srcIdxs[i] < |r.value.allLbls| && r.value.clsIdxs[i] < |r.value.uClasses|
  {
    if ClassesOf(L.allLbls).Ok? {
      var cs := ClassesOf(L.allLbls).value;
      SortedDistinct(L.allLbls);
      LookupBuilt(L.allLbls, cs, L.lbls);
    }
  }

  /** Class indices follow the first appearance of classes along the sorted labels: a label
      with a smaller class index has its class show up earlier in `all_lbls`. */
  lemma FirstCallClassOrder(L: Listing, l1: string, l2: string)
    requires Consistent(L) && Resolve(map[], Ok(L)).0.Ok?
    requires l1 in Resolve(map[], Ok(L)).1 && l2 in Resolve(map[], Ok(L)).1
    requires Resolve(map[], Ok(L)).1[l1].cls < Resolve(map[], Ok(L)).1[l2].cls
    ensures var cs := ClassesOf(L.allLbls).value;
            var d := Resolve(map[], Ok(L)).1;
            && d[l1].className in cs && d[l2].className in cs
            && IndexOf(cs, d[l1].className) < IndexOf(cs, d[l2].className)
  {
    var (r, d) := Resolve(map[], Ok(L));
    FirstCallTable(L);
    var cs := ClassesOf(L.allLbls).value;
    DedupFirstAppearance(cs, d[l1].cls, d[l2].cls);
  }

  /** A later call (non-empty table) leaves the table as it was; it fails with a KeyError
      exactly when the folder holds an image whose label the table lacks, and otherwise gives
      every image the indices stored for its label. */
  lemma LaterCallLooksUp(d: Table, L: Listing)
    requires d != map[]
    ensures Resolve(d, Ok(L)).1 == d
    ensures ClassesOf(L.allLbls).Ok? ==>
              var r := Resolve(d, Ok(L)).0;
              && (r.Ok? <==> forall i :: 0 <= i < |L.lbls| ==> L.lbls[i] in d)
              && (r.Ok? ==> forall i :: 0 <= i < |L.lbls| ==>
                              r.value.srcIdxs[i] == d[L.lbls[i]].src && r.value.clsIdxs[i] == d[L.lbls[i]].cls)
              && (r.Err? ==> exists i :: 0 <= i < |L.lbls| && L.lbls[i] !in d && r.error == KeyError(L.lbls[i]))
  {
  }

  /** Whatever the table, a successful call returns the scanned file names and, for each,
      the indices that the table after the call stores for its label. */
  lemma ResolveLooksUp(d: Table, L: Listing)
    requires Resolve(d, Ok(L)).0.Ok?
    ensures var (r, d') := Resolve(d, Ok(L));
            && r.value.fnames == L.fnames && r.value.allLbls == L.allLbls
            && |r.value.srcIdxs| == |L.lbls| == |r.value.clsIdxs|
            && forall i :: 0 <= i < |L.lbls| ==>
                 L.lbls[i] in d' && r.value.srcIdxs[i] == d'[L.lbls[i]].src && r.value.clsIdxs[i] == d'[L.lbls[i]].cls
  {
  }

  /** Train then validation with one shared table: when the train folder has at least one
      label, the validation call keeps the table the train call wrote, and images with the
      same label get the same (source, class) indices in both results. */
  lemma SharedTableAgrees(trn: Listing, val: Listing)
    requires Consistent(trn) && Resolve(map[], Ok(trn)).0.Ok? && trn.allLbls != []
    ensures var (rt, d1) := Resolve(map[], Ok(trn));
            var (rv, d2) := Resolve(d1, Ok(val));
            && d2 == d1
            && (rv.Ok? ==>
                  forall i, j :: 0 <= i < |trn.lbls| && 0 <= j < |val.lbls| && trn.lbls[i] == val.lbls[j]
                    ==> rt.value.srcIdxs[i] == rv.value.srcIdxs[j] && rt.value.clsIdxs[i] == rv.value.clsIdxs[j])
  {
    var (rt, d1) := Resolve(map[], Ok(trn));
    FirstCallTable(trn);
    assert trn.allLbls[0] in d1;
    LaterCallLooksUp(d1, val);
    ResolveLooksUp(map[], trn);
    if Resolve(d1, Ok(val)).0.Ok? {
      ResolveLooksUp(d1, val);
    }
  }
}
