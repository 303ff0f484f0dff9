# Dataset indexing and label logic of YNet's `dataset.py`, in Dafny

This project models the part of `YNet_dev/resources/dataset.py` that decides which samples
exist, what labels they carry and how they are indexed. YNet is a fastai-based training
pipeline for microscopy images. The model covers:

- **Validation folds and splits.** `get_cv_idxs` takes a window out of a permutation, and
  `split_by_idx` splits parallel arrays by a boolean mask into (selected, remaining). Module
  `Partition`.
- **Folder labels.** `read_dirs` flattens a directory listing into file names and labels, and
  `folder_source` resolves each label folder to a source index and a class index through a
  dict `d` shared between calls. Module `Folders`. `d` is a class, `LabelTable`, that
  successive calls update in place.
- **Manifest labels.** `n_hot`, `nhot_labels` and the non-continuous `dict_source` build n-hot
  rows over the sorted label universe and collapse them to class indices when each row has a
  single label. Module `Manifest`.
- **Class-balance weights.** `compute_default_weights` and `compute_adjusted_weights` are
  methods over an `array<real>` that they assign into and add to. Module `Weights`.
- **Oversampling.** `balance_ds` extends the caller's file-name list in place. It is a class
  `Names` plus a specification function `Grow`. Module `Balance`.
- **Dataset wiring.** The `get_c` variants, `BaseDataset.__getitem__` over an integer or a
  slice, and `ImageData.get_ds`. Module `Datasets`.
- **Python semantics everything relies on** are in module `Common`: negative indices,
  `slice.indices`, `range`, `int()` truncation, `dict.fromkeys`, `sorted` on strings,
  `str.split`, `os.path.join`, substring tests, and `Counter`-style counting.

Randomness is a parameter:

- the permutation of `np.random.permutation`;
- the positions `np.random.choice` draws in each step of `balance_ds`;
- the order in which `balance_ds` iterates `set(labels)`.

The weight functions' `list(set(y))` is not a parameter: for their labels, small non-negative
integers, it is taken as CPython's ascending order.

File-system listings are parameters too: a listing is a sequence of entries, each a
directory with its files or a plain file.

Three behaviours of the code that the model keeps:

- `compute_default_weights` on an empty label list returns an empty weight vector. Only the
  adjusted variant divides by `len(labels)` and fails.
- `balance_ds` draws its additions from the whole current file-name list (line 689). It does
  not draw only from files of the class being grown, and the drawn names are then labelled
  with that class.
- The default weights are `100/n` for every sample, as the formula reduces. The model proves
  this rather than "fixing" it.

## Model

| member | source | states |
|---|---|---|
| Common.Trunc | YNet_dev/resources/dataset.py:31 | `int()` on a float truncates toward zero: at most x and within one of it for x >= 0, at least x and within one of it below 0 |
| Common.PyIndex | YNet_dev/resources/dataset.py:631 | A numpy/Python index is accepted exactly in [-n, n) and denotes a position congruent to it modulo n |
| Common.SliceIndices | YNet_dev/resources/dataset.py:213 | `slice.indices(n)` fails exactly for a zero step; its bounds are clamped into [0, n] (positive step) or [-1, n-1] (negative step) |
| Common.Range | YNet_dev/resources/dataset.py:213 | `range(a, b, st)` yields only values between a and b on the side the step walks |
| Common.SlicePositions | YNet_dev/resources/dataset.py:213 | The positions a slice selects are all in range, and fail only on a zero step |
| Common.Pick | YNet_dev/resources/dataset.py:689 | Fancy indexing: the k-th result is the element at the k-th position |
| Common.PySliceInRange | YNet_dev/resources/dataset.py:34 | A step-1 slice with bounds inside the sequence is the contiguous subsequence |
| Common.PySliceLength | YNet_dev/resources/dataset.py:34 | A slice with non-negative bounds clamps its stop to the length; its length is `min(hi, n) - lo`, or 0 past the end |
| Common.Dedup | YNet_dev/resources/dataset.py:118 | `list(dict.fromkeys(s))` holds each element of s once and nothing else |
| Common.DedupMembers | YNet_dev/resources/dataset.py:118 | `dict.fromkeys` keeps every element and adds none |
| Common.DedupFirstAppearance | YNet_dev/resources/dataset.py:118 | `dict.fromkeys` keeps first-appearance order |
| Common.DedupOfDistinct | YNet_dev/resources/dataset.py:118 | A list without repetitions is its own `dict.fromkeys` |
| Common.CountPositive | YNet_dev/resources/dataset.py:678 | A Counter's count is positive exactly for the elements present |
| Common.CountAppend | YNet_dev/resources/dataset.py:692 | The counts of a concatenation add up |
| Common.CountRepeat | YNet_dev/resources/dataset.py:690 | `[label] * delta` counts delta for label and 0 for anything else |
| Common.ZipPrefixFacts | YNet_dev/resources/dataset.py:121-122 | The dict `{label: idx for idx, label in enumerate(xs)}` has exactly the keys of xs and maps xs[k] to k, for distinct xs |
| Common.ZipPrefixKeys | YNet_dev/resources/dataset.py:121-122 | The dict written from the first n keys has exactly those keys, repeated or not |
| Common.StrLtTransitive | YNet_dev/resources/dataset.py:82 | Python's code-point string order is transitive |
| Common.StrLtTotal | YNet_dev/resources/dataset.py:82 | Python's string order is total on distinct strings |
| Common.SortBy | YNet_dev/resources/dataset.py:82 | `sorted` by name gives an ascending permutation of its input |
| Common.SortStrings | YNet_dev/resources/dataset.py:82 | `sorted` on distinct strings gives an ascending permutation |
| Common.SplitOn | YNet_dev/resources/dataset.py:117 | `str.split(sep)` gives one more part than there are separators, none containing the separator |
| Common.SplitThenJoin | YNet_dev/resources/dataset.py:117 | Joining the parts of `split` with the separator restores the string |
| Common.PathJoin | YNet_dev/resources/dataset.py:87 | `os.path.join(a, b)` ends with b, and starts with a unless b is absolute |
| Common.OccursIff | YNet_dev/resources/dataset.py:86 | Python's `x in s` on strings holds exactly when x occurs contiguously in s |
| Common.FilterMapExactly | YNet_dev/resources/dataset.py:85-88 | A filtered and mapped list holds exactly the images of the kept elements |
| Partition.ValCount | YNet_dev/resources/dataset.py:31 | `int(val_pct * n)`: for a non-negative val_pct, the largest integer not above the product, and at most n when val_pct <= 1; never positive when val_pct <= 0 |
| Partition.GetCvIdxs | YNet_dev/resources/dataset.py:18-34 | The validation indices are distinct and lie in [0, n) |
| Partition.CvIdxsWindow | YNet_dev/resources/dataset.py:31-34 | The result is `perm[s : s + n_val]` with `s = cv_idx * n_val`, of length `min(n_val, max(0, n - s))` |
| Partition.WindowAt | YNet_dev/resources/dataset.py:32-34 | The a-th validation index is `perm[cv_idx * n_val + a]` |
| Partition.CvIdxsFullWindow | YNet_dev/resources/dataset.py:31-34 | A fold whose window fits holds exactly n_val indices |
| Partition.CvFoldsDisjoint | YNet_dev/resources/dataset.py:32-34 | Different folds of the same permutation share no index |
| Partition.Invert | YNet_dev/resources/dataset.py:632 | `~mask` flips every entry |
| Partition.HitSnoc | YNet_dev/resources/dataset.py:631 | Taking one more index into account marks exactly the position it names |
| Partition.MaskOf | YNet_dev/resources/dataset.py:630-631 | One mask entry per element; with indices in range, an entry is set exactly when some index names its position |
| Partition.BuildMask | YNet_dev/resources/dataset.py:630-631 | The in-place mask fill succeeds exactly when every index is in range, and then yields `MaskOf(idxs, n)`, the mask of the positions the indices denote |
| Partition.Select | YNet_dev/resources/dataset.py:632 | Boolean-mask selection is never longer than the array |
| Partition.Positions | YNet_dev/resources/dataset.py:632 | The set positions of a mask, strictly ascending and exactly those set |
| Partition.SelectIsPick | YNet_dev/resources/dataset.py:632 | `o[mask]` is o at the mask's set positions, in ascending order |
| Partition.SelectComplement | YNet_dev/resources/dataset.py:632 | `o[mask]` and `o[~mask]` together hold every element of o exactly once |
| Partition.SelectedCount | YNet_dev/resources/dataset.py:631-632 | Duplicate indices select once: the selected half is as long as the set of positions named |
| Partition.TargetsOfDistinct | YNet_dev/resources/dataset.py:631 | Distinct in-range indices name as many positions as there are indices |
| Partition.SplitByIdx | YNet_dev/resources/dataset.py:619-632 | Fails exactly without arrays, on an out-of-range index or on an array of the wrong length; otherwise each array becomes (selected, remaining) under one mask |
| Partition.CvSplitSizes | YNet_dev/resources/dataset.py:630-632 | Splitting on a fold that fits gives a validation half of n_val elements and a training half of the rest |
| Folders.KeptFiles | YNet_dev/resources/dataset.py:85-88 | At most one kept name per file, each the join of folder, label and a file that is not skipped |
| Folders.AddEntry | YNet_dev/resources/dataset.py:82-88 | One entry of the listing: a hidden name changes nothing; a plain file is NotADirectory on its joined path; a directory keeps what came before as a prefix, adds as many labels as file names, and appends its name to `all_lbls` |
| Folders.Scan | YNet_dev/resources/dataset.py:82-88 | A scan gives one label per file name and at most one label folder per entry; its only error is NotADirectory |
| Folders.KeepFiles | YNet_dev/resources/dataset.py:85-88 | The inner loop computes `KeptFiles`, the files not skipped joined to folder and label |
| Folders.KeptFilesExactly | YNet_dev/resources/dataset.py:85-88 | The kept names are exactly the joined paths of the files that are not skipped |
| Folders.SkippedExamples | YNet_dev/resources/dataset.py:86 | The substring quirk: "Store" is skipped like ".DS_Store", "a.tif" is not |
| Folders.ScanEntries | YNet_dev/resources/dataset.py:82-88 | The loop over the sorted listing computes the specification `Scan` |
| Folders.ScanErrSticky | YNet_dev/resources/dataset.py:85 | Once listing a non-directory fails, the scan stays failed |
| Folders.ScanOk | YNet_dev/resources/dataset.py:83-85 | The scan succeeds exactly when every entry that is not hidden is a directory |
| Folders.ScanLabels | YNet_dev/resources/dataset.py:87-88 | One label per file name, and every file's label is one of `all_lbls` |
| Folders.ScanAllLblsIsShown | YNet_dev/resources/dataset.py:83-84 | `all_lbls` is the listing without the hidden names |
| Folders.ScanAllLbls | YNet_dev/resources/dataset.py:82-84 | `all_lbls` holds exactly the directories that are not hidden |
| Folders.ShownSorted | YNet_dev/resources/dataset.py:82 | Dropping hidden names keeps the listing sorted |
| Folders.SortedDistinct | YNet_dev/resources/dataset.py:82 | A strictly sorted list has no repetitions |
| Folders.ReadDirsSpec | YNet_dev/resources/dataset.py:76-89 | A missing folder is FileNotFound; otherwise the only error is NotADirectory, and a result has one label per file name and no more label folders than entries |
| Folders.ReadDirs | YNet_dev/resources/dataset.py:76-89 | `read_dirs` over a listing with distinct names computes `ReadDirsSpec`: FileNotFound without a listing, else the scan of the sorted listing |
| Folders.ReadDirsFacts | YNet_dev/resources/dataset.py:76-89 | `read_dirs` succeeds exactly when every visible entry is a directory; its output is consistent and `all_lbls` is exactly the visible directories |
| Folders.ClassOf | YNet_dev/resources/dataset.py:117 | `lbl.split('_')[1]` exists exactly when the label contains '_', and holds no '_' |
| Folders.ClassOfSegment | YNet_dev/resources/dataset.py:117 | The class is the text between the first and second '_' of the label |
| Folders.ClassesOf | YNet_dev/resources/dataset.py:117-118 | Succeeds exactly when every label has a class, giving each label's class in order |
| Folders.LookupAll | YNet_dev/resources/dataset.py:128-129 | Looking every image's label up succeeds exactly when all are in d; otherwise a KeyError for the first missing one |
| Folders.BuildTable | YNet_dev/resources/dataset.py:121-126 | The dict written by a first call has exactly the keys of `all_lbls` |
| Folders.LabelTable.constructor | YNet_dev/resources/dataset.py:120 | The shared label dict starts empty |
| Folders.Populate | YNet_dev/resources/dataset.py:120-126 | Filling the empty dict gives `BuildTable` of the labels and their classes |
| Folders.Resolve | YNet_dev/resources/dataset.py:115-137 | A `read_dirs` error passes through and leaves d as it was; a non-empty d is never changed, and an empty one written on success gets exactly the keys of `all_lbls`; a result passes fnames and `all_lbls` through, gives each image one source and one class index, and every image's label is a key of d; the only other errors are the IndexError of a label without '_' and a KeyError |
| Folders.FolderSource | YNet_dev/resources/dataset.py:101-137 | The result and the new dict are `Resolve` of the old dict and `read_dirs`' result |
| Folders.FirstCallTable | YNet_dev/resources/dataset.py:120-126 | With an empty d: the dict gets exactly the keys of `all_lbls`; `d[l][0]` is l's position in `all_lbls`, `d[l][2]` is `l.split('_')[1]` and `d[l][1]` is its position in `u_classes` |
| Folders.BuiltTableFacts | YNet_dev/resources/dataset.py:121-126 | The entries built from distinct labels: keys, source positions, class names and class positions |
| Folders.LookupBuilt | YNet_dev/resources/dataset.py:128-129 | Labels of the listing always resolve in a freshly built dict, to in-range indices |
| Folders.FirstCallResolvesAll | YNet_dev/resources/dataset.py:117-132 | A first call succeeds exactly when every label has a '_'; then every image gets in-range source and class indices |
| Folders.FirstCallClassOrder | YNet_dev/resources/dataset.py:118-121 | Class indices follow the first appearance of the classes among the sorted labels |
| Folders.LaterCallLooksUp | YNet_dev/resources/dataset.py:120-132 | With a non-empty d: d is unchanged, every image takes `d[lbl][0..1]`, and an unknown label is a KeyError |
| Folders.ResolveLooksUp | YNet_dev/resources/dataset.py:128-129 | On success every image's indices are its label's entry in the dict in force |
| Folders.SharedTableAgrees | YNet_dev/resources/dataset.py:120-132 | Train and val calls sharing d give the same indices to the same label |
| Manifest.NHotRow | YNet_dev/resources/dataset.py:92-98 | `n_hot` succeeds exactly when every id is in range, with a row of length c |
| Manifest.NHot | YNet_dev/resources/dataset.py:92-98 | The in-place fill computes `NHotRow` |
| Manifest.NHotRowEntries | YNet_dev/resources/dataset.py:96-97 | The row is 0/1, and entry k is 1 exactly when some id denotes k |
| Manifest.Find | YNet_dev/resources/dataset.py:168 | `csv_labels[f]`: present exactly when some entry has key f, with that entry's labels |
| Manifest.LabelIds | YNet_dev/resources/dataset.py:168 | `[label2idx[o] for o in v]`, or a KeyError for the first unknown label |
| Manifest.AllIdx | YNet_dev/resources/dataset.py:168-169 | The dict comprehension has a row for exactly the manifest's keys |
| Manifest.Rows | YNet_dev/resources/dataset.py:170 | `[all_idx[o] for o in fnames]` in fnames order, or a KeyError for the first missing name |
| Manifest.NhotLabels | YNet_dev/resources/dataset.py:167-170 | No file names is an error; a result means every manifest entry encoded, and has one row per requested file, in order, that file's encoded labels |
| Manifest.NhotLabelsRows | YNet_dev/resources/dataset.py:167-170 | `nhot_labels` fails for no file names (ValueError of `np.stack`) or a missing one (KeyError); otherwise one row per file name, in order |
| Manifest.Tokens | YNet_dev/resources/dataset.py:179 | The flattened label lists hold exactly the tokens that occur |
| Manifest.AllLabels | YNet_dev/resources/dataset.py:179 | `all_labels` is ascending and holds exactly the tokens of the label lists |
| Manifest.LabelIndex | YNet_dev/resources/dataset.py:185 | `label2idx` has exactly the labels as keys, each mapped to a position of `all_labels` that holds it |
| Manifest.AllLabelsFacts | YNet_dev/resources/dataset.py:179 | `all_labels` is sorted, without repetitions, and holds exactly the tokens that occur |
| Manifest.Argmax | YNet_dev/resources/dataset.py:188 | `np.argmax`: the first position of a largest entry |
| Manifest.FullNames | YNet_dev/resources/dataset.py:180 | One full name per file, ending with the file name followed by the suffix |
| Manifest.Collapse | YNet_dev/resources/dataset.py:186-188 | One entry per row; the array collapses exactly when every row sums to 1, each entry then the position of a largest entry of its row; otherwise the matrix is kept with its width |
| Manifest.Encode | YNet_dev/resources/dataset.py:185-188 | No file names is an error; a result has one entry per file, and a 2-D result one column per label |
| Manifest.RowOfIndicator | YNet_dev/resources/dataset.py:168 | Over a distinct label universe covering the file's labels, its row encodes, is 0/1, and has a 1 exactly in its labels' columns |
| Manifest.IdsInRange | YNet_dev/resources/dataset.py:168 | The ids of known labels are in range for `n_hot` |
| Manifest.IdsName | YNet_dev/resources/dataset.py:168 | The ids name exactly the columns of the file's labels |
| Manifest.SumBinary | YNet_dev/resources/dataset.py:187 | A 0/1 row sums to 1 exactly when it has a single 1 |
| Manifest.RowSingle | YNet_dev/resources/dataset.py:187-188 | A row sums to 1 exactly when the file has a single label, and then its argmax is that label |
| Manifest.SingleLabelRow | YNet_dev/resources/dataset.py:188 | The argmax of a single-label row names that label |
| Manifest.OneHotLabel | YNet_dev/resources/dataset.py:187 | A row with a single 1 comes from a single label |
| Manifest.EveryRowEncodes | YNet_dev/resources/dataset.py:185-186 | Over `all_labels`, every manifest entry encodes without a KeyError |
| Manifest.FindCovered | YNet_dev/resources/dataset.py:179 | A file's labels are all in `all_labels` |
| Manifest.EncodeRows | YNet_dev/resources/dataset.py:185-188 | The label array has one entry per file; it is collapsed exactly when every file has a single label, and otherwise 0/1 rows of width `len(all_labels)` marking each file's labels |
| Manifest.SingleRows | YNet_dev/resources/dataset.py:187 | With single labels every row sums to 1 and its maximum marks the label |
| Manifest.CollapseSingles | YNet_dev/resources/dataset.py:187-188 | Rows that all sum to 1 collapse to their argmax positions |
| Manifest.EncodeCollapses | YNet_dev/resources/dataset.py:187-188 | With single labels each entry of the collapsed array is the position of the file's label in `all_labels` |
| Manifest.DictSource | YNet_dev/resources/dataset.py:178-189 | No file names is an error; a result has one full name and one label entry per file, the names of `FullNames`, and `all_labels` |
| Manifest.DictSourceFacts | YNet_dev/resources/dataset.py:178-189 | `dict_source` fails exactly on no file names or a missing one; full names are `folder/fname+suffix`, `all_labels` is the sorted label set, the array is the encoding |
| Manifest.DictSourceCollapses | YNet_dev/resources/dataset.py:184-189 | With single labels, entry i of the label array indexes file i's label in `all_labels` |
| Weights.Bins | YNet_dev/resources/dataset.py:642 | The number of bins of `np.bincount` exceeds every label |
| Weights.Labels | YNet_dev/resources/dataset.py:641 | One label per bin of `np.bincount(y)`, each in [0, Bins(y)) |
| Weights.LabelsAreTheSet | YNet_dev/resources/dataset.py:641 | For labels 0..K-1 all present, `list(set(y))` is exactly the labels, ascending |
| Weights.Bincount | YNet_dev/resources/dataset.py:642 | Bin k of `np.bincount` is the number of samples with label k |
| Weights.Probs | YNet_dev/resources/dataset.py:643 | One percentage per bin |
| Weights.BincountFacts | YNet_dev/resources/dataset.py:642-643 | For labels 0..K-1 all present every bin is positive, the bins add up to n, and there is a bin exactly when there is a sample |
| Weights.MassOfConstant | YNet_dev/resources/dataset.py:646 | A weight constant on a class gives that class count times the weight |
| Weights.MassesTotal | YNet_dev/resources/dataset.py:640 | The total weight is the sum of the class masses |
| Weights.MassesOfEqual | YNet_dev/resources/dataset.py:663 | K equal class masses add up to K times the mass |
| Weights.TotalOfCounts | YNet_dev/resources/dataset.py:643 | `sum(occurrences)` counts every sample with a label in range |
| Weights.AssignWhere | YNet_dev/resources/dataset.py:646 | `weights[y == cls] = v` sets exactly the samples of class cls |
| Weights.AddWhere | YNet_dev/resources/dataset.py:668 | `weights[y == cls] += v` adds v to exactly the samples of class cls |
| Weights.SpreadShares | YNet_dev/resources/dataset.py:645-646 | After the loop every sample weighs its class's percentage over its class count |
| Weights.DefaultWeights | YNet_dev/resources/dataset.py:635-648 | Every sample gets `100 / n`, whatever its class |
| Weights.DefaultMasses | YNet_dev/resources/dataset.py:640-646 | Under default weights a class weighs its count times `100 / n`, and all weights add to 100 |
| Weights.ConstantMasses | YNet_dev/resources/dataset.py:646 | Constant weights give every class its count times the weight |
| Weights.Adjusted | YNet_dev/resources/dataset.py:656-668 | One adjusted weight per sample |
| Weights.ClassSize | YNet_dev/resources/dataset.py:658 | A sample's class count is positive |
| Weights.ClassShare | YNet_dev/resources/dataset.py:663-668 | A class whose samples each weigh `100 / (K c_k)` weighs `100 / K` in total |
| Weights.Correct | YNet_dev/resources/dataset.py:665-668 | The correction loop adds `(desired - p_k) / c_k` to every sample of class k |
| Weights.AdjustedWeights | YNet_dev/resources/dataset.py:651-670 | Fails with ZeroDivisionError exactly on no labels; otherwise returns the weights `Adjusted(y)` |
| Weights.CorrectedIsAdjusted | YNet_dev/resources/dataset.py:661-668 | The two loops together give every sample `100 / (K c_k)` |
| Weights.CorrectedEach | YNet_dev/resources/dataset.py:662-668 | Each sample's share plus correction is its balanced weight |
| Weights.AdjustedMasses | YNet_dev/resources/dataset.py:656-668 | Every class weighs `100 / K`, samples of one class weigh the same, and all weights add to 100 |
| Weights.SharesTotal | YNet_dev/resources/dataset.py:663 | K classes of `100 / K` each add to 100 |
| Weights.AdjustedClassMass | YNet_dev/resources/dataset.py:656-668 | Class k's adjusted weights add to `100 / K` |
| Balance.Names.constructor | YNet_dev/resources/dataset.py:673 | The training file-name list, which `balance_ds` extends in place (line 691), holds the given names |
| Balance.FirstMax | YNet_dev/resources/dataset.py:685 | `most_common(1)`: a label with the largest count, every label before it strictly less frequent |
| Balance.MostCommon | YNet_dev/resources/dataset.py:678-685 | The most common label occurs, its count is right, and no label is more frequent |
| Balance.MostCommonFirst | YNet_dev/resources/dataset.py:685 | Ties go to the label seen first |
| Balance.MostCommonBounds | YNet_dev/resources/dataset.py:685 | No label, present or not, counts more than `max_count` |
| Balance.RunOf | YNet_dev/resources/dataset.py:678-686 | The run of a non-empty label list is bounded by its most common count |
| Balance.Shortfall | YNet_dev/resources/dataset.py:688 | `delta` is at most `max_count`, equals it for a label absent from the list, and is 0 exactly for a label as frequent as the most common |
| Balance.Grow | YNet_dev/resources/dataset.py:686-692 | The first k steps either fail with a ValueError or leave the list at its predicted length |
| Balance.Step | YNet_dev/resources/dataset.py:687-692 | One visit: a failed run stays failed, the list only grows, and the only error is a ValueError |
| Balance.BalanceDs | YNet_dev/resources/dataset.py:673-699 | No labels is an IndexError with nothing changed; otherwise the caller's list and the result are those of `Grow` |
| Balance.Extend | YNet_dev/resources/dataset.py:686-692 | The loop leaves the list and the labels as `Grow` predicts, stopping at the first ValueError |
| Balance.StepFails | YNet_dev/resources/dataset.py:689 | Drawing more names than the list holds ends the run with a ValueError where it stood |
| Balance.StepDraws | YNet_dev/resources/dataset.py:688-692 | A drawing visit appends the names at its distinct positions and as many copies of the label |
| Balance.StepSkips | YNet_dev/resources/dataset.py:687 | The most common label's visit changes nothing |
| Balance.GrowKeepsPrefix | YNet_dev/resources/dataset.py:691-692 | The original names and, on success, the original labels stay an unchanged prefix |
| Balance.GrowCounts | YNet_dev/resources/dataset.py:686-692 | After k visits each visited label other than the most common counts `max_count`; every other count is unchanged |
| Balance.VisitedPrefix | YNet_dev/resources/dataset.py:686 | Each visit is to a label not visited before |
| Balance.AppendCopies | YNet_dev/resources/dataset.py:690-692 | Appending delta copies of a label adds delta to its count only |
| Balance.BalancedCounts | YNet_dev/resources/dataset.py:678-692 | On success every label occurs exactly `max_count` times, and no new label appears |
| Balance.RunBalances | YNet_dev/resources/dataset.py:686-692 | The same for any run that visits every label once |
| Balance.GrowDraws | YNet_dev/resources/dataset.py:689-691 | Each appended batch is the current list at distinct positions, as many as the label is short |
| Balance.GrowPrefixOfLater | YNet_dev/resources/dataset.py:691 | The list after k steps is a prefix of the list after any later successful step |
| Balance.GrowStaysFailed | YNet_dev/resources/dataset.py:689 | A run that failed stays as it stopped |
| Balance.NoValueError | YNet_dev/resources/dataset.py:689 | With at least as many names as labels no draw exceeds the list, and the list never shrinks |
| Balance.CountAtMostLength | YNet_dev/resources/dataset.py:688 | A label's count never exceeds the number of labels |
| Datasets.MaxOf | YNet_dev/resources/dataset.py:343 | `y.max()` on integers: an element no smaller than any other |
| Datasets.MaxReal | YNet_dev/resources/dataset.py:374 | `y.max()` on floats: an element no smaller than any other |
| Datasets.Entries | YNet_dev/resources/dataset.py:374 | A matrix's entries, exactly those of its rows |
| Datasets.ArrayClassCount | YNet_dev/resources/dataset.py:338-339 | 0 for a 1-D label array, otherwise the number of columns of every row |
| Datasets.NhotClassCount | YNet_dev/resources/dataset.py:380 | The number of columns of a 2-D array; `shape[1]` of a 1-D array is an IndexError |
| Datasets.IndexClassCount | YNet_dev/resources/dataset.py:343 | `int(y.max()) + 1` is the least bound above every (truncated) label; no entries is a ValueError |
| Datasets.IndexClassCountIsBins | YNet_dev/resources/dataset.py:343 | On non-negative labels it equals the number of bins of `np.bincount`, the K of the weights |
| Datasets.SrcAt | YNet_dev/resources/dataset.py:336 | `get_src_idx`: None without source indices, otherwise defined exactly for an index in range |
| Datasets.Get1Item | YNet_dev/resources/dataset.py:201-205 | `get1item` succeeds exactly when the index is in range for examples, labels and source indices; otherwise IndexError |
| Datasets.GetAll | YNet_dev/resources/dataset.py:213 | The comprehension succeeds exactly when every position does, giving each position's sample in order |
| Datasets.GetItem | YNet_dev/resources/dataset.py:207-215 | An integer gives `get1item` of it; a slice gives a batch |
| Datasets.GetItemAt | YNet_dev/resources/dataset.py:215 | On a consistent dataset an integer index succeeds exactly in [-n, n), and yields the parts at the position it denotes |
| Datasets.SliceIsIndexing | YNet_dev/resources/dataset.py:212-214 | A slice yields, in order, what indexing each of its positions yields; a zero step or an empty slice is a ValueError |
| Datasets.SliceIsPySlice | YNet_dev/resources/dataset.py:212-214 | Without a transform `ds[lo:hi]` is Python slicing of examples, labels and source indices; empty is a ValueError |
| Datasets.GetDs | YNet_dev/resources/dataset.py:457-509 | Six datasets: fix is the training data under the validation transform, aug the validation data under the training transform; source indices exactly for a 5-part training tuple; test and test_aug from a test tuple, None without one; missing parts are IndexErrors and a bare test list a TypeError |

## Left out

- Image loading (`open_image`), resizing (`resize_img`, `resize_imgs`, `ImageData.resize`), `parse_csv_labels`, `read_dir`, `DataLoader` construction, `ModelData`/`ImageData` accessors, `denorm` and printing: foreign libraries, I/O and concurrency. `get_x` is modelled as a given sequence of examples, so the OSError of a missing image is not modelled.
- `os.listdir` and `os.path` existence checks: a listing is a parameter; a missing folder is an `Option` that is None.
- `np.random.seed`, `permutation` and `choice`, and the order in which `balance_ds` iterates `set(labels)`: they are parameters (a permutation, per-step draw positions, a visiting order). The `list(set(y))` of the weight functions is fixed to ascending order instead (CPython's order for small non-negative integers).
- The continuous branch of `dict_source` (float32 casts of the manifest values): not modelled.
- Floating point: weights and n-hot rows are `real`, so rounding, and the bit-exact float32 comparison `sum == 1` of `dict_source`, are not modelled.
- Partition.ValCount: `val_pct * n` is exact real arithmetic, so the float rounding of the product before `int()` is not modelled. For val_pct = 0.29 and n = 100 Python computes 28.999999999999996 and `n_val` = 28, while the model gives 29 and so a fold window one longer and shifted.
- Manifest: the manifest is a list of (file name, labels) pairs standing for the dict `csv_labels`. Lookups take the last pair for a name, as a dict keeps the last value assigned. A dict cannot hold duplicate keys, but the list can, and then `Tokens` and `AllLabels` would also collect the labels of the shadowed pairs. Only manifests with distinct names stand for a dict.
- Balance.BalanceDs: `balance_ds` returns the whole `tuple(dataset)`. The parts after the names and labels (for a `folder_source` result: `u_classes`, `src_idx_arr`, `all_lbls`) pass through unchanged. The model carries only the names (in place) and the labels (the result).
- `split_by_idx` with an empty Python list as `idxs`: `np.array([])` is a float array, which numpy refuses as an index. The model treats `idxs` as integers.
- The transform passed to `get` is an arbitrary function on samples; the transforms themselves are not modelled.
- Weights.DefaultWeights: requires labels that are exactly 0..K-1 with every class present (`Dense`). With a gap in the labels the code pairs set positions with the wrong bins and divides by a zero count, and the model does not follow it there.
- Weights.AdjustedWeights: the same `Dense` precondition, for the same reason.
- Balance.BalanceDs: the visiting order is any sequence of labels with a draw per visit. That it is an enumeration of `set(labels)` is assumed only by `BalancedCounts`.
- Balance.BalanceDs: `np.random.choice` is modelled only where it can succeed. A draw that meets the length is given by `DrawsFit`, and a draw bigger than the list is the ValueError numpy raises.
- Datasets.GetDs: the non-tuple `test` branch calls `fn` without its positional source indices. Every dataset class in this file then raises a TypeError, and the model returns that TypeError instead of calling `fn`.
- Datasets.GetDs: `fn` itself, the dataset constructor, is not modelled; each dataset is given as the arguments `fn` is called with.
- Datasets.IndexClassCount: a 1-D label array holds integers, so `ArraysIndexDataset.get_c` on a 1-D float `y` (line 374) is not modelled. There `int(y.max())` would truncate the largest float.
- Dataset constructors run `get_c` at construction, which also happens for datasets built by `get_ds`. That `get_c` call is not chained into `GetDs`.
