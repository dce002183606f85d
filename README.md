# Cache sweep analysis: a Dafny model

`analyze.py` reads a directory of cache-simulator outputs. Each output is named
`<benchmark>_s<nsets>_a<assoc>.txt`. The script collects each run's first-level
instruction- and data-cache miss rates into a dictionary keyed by benchmark. It then
prepares one two-panel figure per benchmark, with miss rate against the number of sets
and one curve per associativity.

The project models the part of the script that runs before drawing, in six modules:

- `FileName` is the file-name pattern `([a-zA-Z0-9]+)_s(\d+)_a(\d+)\.txt`, applied with
  `re.search`. The search is unanchored and takes the leftmost match. It is proved equal to
  that leftmost match, and a name built by the convention decodes back to its parameters.
- `Text` holds substring containment (`"il1.miss_rate" in line`) and Python's
  argument-less `str.split()`.
- `Extract` is the line loop with its two last-write-wins slots `il1_miss` and `dl1_miss`.
  The method `ScanFile` is proved against the fold `ScanLines`, and the lemmas say what the
  fold keeps.
- `Ordering` holds the records and the stable sort behind `list.sort(key=...)`. It is an
  insertion sort, run in place on an array, and proved a stable sorting permutation. A
  uniqueness lemma shows every stable sort gives the same list.
- `Plot` holds the distinct associativities (`assocs`), the `subset` filter, and the x/y
  series of each curve.
- `Table` holds the dictionary `benchmarks_data` as the class `BenchmarkTable`. Its map of
  lists is updated in place by key registration and `append`, and it keeps its key insertion
  order, which `items()` follows. Around it sit the directory loop and the plotting loop.
  Functions `Ingest`/`IngestAll` and `ChartsOf` state what those loops compute. The lemmas
  relate these functions to independent file-by-file definitions.

`float(...)` is the parameter `parse: string -> Option<real>`. `None` stands for the
`ValueError` that abandons the file. A file's content is `None` when opening or reading it
raises.

## Model

| member | source | states |
|---|---|---|
| Text.Contains | analyze.py:43 | `pat in line`, as a left-to-right scan; its meaning is stated by `Text.ContainsIff` |
| Text.ContainsIff | analyze.py:43 | `pat in line` holds exactly when `pat` occurs at some position of the line |
| Text.ContainsFromIff | analyze.py:43 | the left-to-right scan from a position finds `pat` exactly when it occurs at that position or later |
| Text.RunSpec | analyze.py:14 | the run of one character class (`[a-zA-Z0-9]`, `\d`, non-space) at a position is made of characters of that class and stops at the end or at a character outside it |
| Text.RunIs | analyze.py:14 | any maximal stretch of class characters is the run |
| Text.Split | analyze.py:44 | argument-less `line.split()`: the maximal runs of non-whitespace characters, left to right; `Text.SplitWords` and `Text.SplitKeepsNonSpace` state what they are |
| Text.SplitWords | analyze.py:44 | `line.split()` yields non-empty words without whitespace |
| Text.SplitKeepsNonSpace | analyze.py:44 | the words of `line.split()`, joined, are exactly the line's non-whitespace characters, in order |
| FileName.Decode | analyze.py:23-27 | `re.search` of the pattern with the benchmark and the `int` values of the digit groups; `FileName.DecodeSound`, `FileName.DecodeLeftmost` and `FileName.NameRoundTrip` state its meaning |
| FileName.DecodeSomeIff | analyze.py:14 | a name yields a run exactly when the pattern matches some substring of it |
| FileName.DecodeSound | analyze.py:23-27 | a decoded name contains a match whose groups give the benchmark, and the `int` values of the two digit groups give nsets and assoc; no match starts further left |
| FileName.DecodeLeftmost | analyze.py:23-27 | the leftmost match of the pattern is what the name yields |
| FileName.SearchNone | analyze.py:23-24 | when the search from a position finds nothing, no match starts at or after it |
| FileName.SearchFindsLeftmost | analyze.py:23 | the search from any position up to the leftmost match finds that match |
| FileName.SearchSound | analyze.py:23 | what the search finds is a match with no match before it |
| FileName.MatchAtComplete | analyze.py:14 | a match at a position is recognised there, with the groups' values |
| FileName.MatchAtSound | analyze.py:14 | whatever is recognised at a position is a match of the pattern there |
| FileName.BenchmarkIsWholeWord | analyze.py:14 | the benchmark of the leftmost match is preceded by the start of the name or a non-alphanumeric character |
| FileName.Show | analyze.py:26-27 | the decimal rendering of a count is a digit string whose `int` value is the count |
| FileName.NameRoundTrip | analyze.py:12-14 | a name `<benchmark>_s<nsets>_a<assoc>.txt` with an alphanumeric benchmark decodes to exactly `(benchmark, nsets, assoc)` |
| FileName.LeftmostSample | analyze.py:23-25 | `foo_bar_s1_a2.txt` is filed under `bar` with nsets 1 and assoc 2 |
| FileName.SampleNoEarlierMatch | analyze.py:23 | no match of the pattern starts in `foo_` |
| FileName.SampleMatch | analyze.py:14 | the pattern matches `bar_s1_a2.txt` at its start with groups `bar`, 1 and 2 |
| FileName.MatchPrefixSound | analyze.py:14 | what the anchored matcher accepts is an alphanumeric name, `_s`, digits, `_a`, digits and `.txt`, with the digits' `int` values |
| Extract.Step | analyze.py:42-52 | one pass of the loop body over the two slots; `Extract.StepAborts` and `Extract.StepSlot` state its effect |
| Extract.ScanLines | analyze.py:41-52 | the whole line loop as a fold of `Step`; `Extract.ScanAbortsIff`, `Extract.SlotEmptyIff` and `Extract.LastWins` state what it ends in |
| Extract.ScanFile | analyze.py:41-52 | the line loop ends in the state the fold `ScanLines` gives, `Aborted` when a `float` raised |
| Extract.ScanLine | analyze.py:42-52 | one pass of the loop body does what one `Step` of the fold says |
| Extract.StepAborts | analyze.py:43-52 | a line ends the scan exactly when the scan was already over or `float` fails on a key/value line |
| Extract.AbortIsFinal | analyze.py:38-52 | once a `float` raised on a prefix of the lines, the scan of the whole file is abandoned |
| Extract.StepSlot | analyze.py:43-52 | a line that does not abandon the scan overwrites a slot exactly when it contains the marker and has at least two words, with `float` of the second word |
| Extract.ScanAbortsIff | analyze.py:38-52 | the scan is abandoned exactly when some key/value line has a second word `float` rejects |
| Extract.NoneQualifyIff | analyze.py:41-52 | the line-by-line statement that no line is a key/value line for a cache agrees with the statement over all indices |
| Extract.SlotEmptyNone | analyze.py:41-52 | after a completed scan, a slot is `None` exactly when no line, taken from the end, is a key/value line for it |
| Extract.SlotEmptyIff | analyze.py:41-52 | after a completed scan, a slot is still `None` exactly when no line contains its marker with at least two words |
| Extract.LastWins | analyze.py:41-52 | after a completed scan, a slot holds `float` of the second word of the last key/value line for it |
| Ordering.Sort | analyze.py:79 | `list.sort(key=...)` as insertion sort; `Ordering.SortPermutes`, `Ordering.SortSorts`, `Ordering.SortStable` and `Ordering.SortUnique` state that it is the stable sort |
| Ordering.SortInPlace | analyze.py:79 | the in-place sort leaves the array holding `Sort` of its old contents |
| Ordering.InsertNext | analyze.py:79 | one insertion step places the next element into the sorted prefix and leaves the rest alone |
| Ordering.SortPermutes | analyze.py:79 | the sorted list is a permutation of the list |
| Ordering.SortSorts | analyze.py:79 | the sorted list is non-decreasing in the key |
| Ordering.SortStable | analyze.py:79 | records with equal keys keep their relative order |
| Ordering.SortUnique | analyze.py:79 | any list sorted by the key that keeps each key's records in their original order equals `Sort`, so any stable sort gives the same result |
| Ordering.SortOfSorted | analyze.py:91 | sorting a list that is already sorted leaves it unchanged |
| Ordering.InsertAt | analyze.py:79 | inserting places the element after every element with a key not greater than its own |
| Ordering.InsertPermutes | analyze.py:79 | insertion adds exactly the element |
| Ordering.InsertSorted | analyze.py:79 | insertion into a sorted list gives a sorted list |
| Ordering.InsertStable | analyze.py:79 | insertion keeps the order of equal-key records and puts the new one after them |
| Plot.AddSorted | analyze.py:86 | adding an associativity to the list gives the old ones and the new one |
| Plot.AddSortedIncreasing | analyze.py:86 | adding keeps the list strictly increasing |
| Plot.Assocs | analyze.py:86 | `assocs` holds exactly the associativities that occur in the records |
| Plot.AssocsIncreasing | analyze.py:86 | `assocs` is strictly increasing, so each value occurs once |
| Plot.Subset | analyze.py:90 | every record of `subset` has the associativity `a` |
| Plot.SubsetCounts | analyze.py:90 | `subset` holds each record of associativity `a` as often as the list does, and nothing else |
| Plot.SortedSubset | analyze.py:90-91 | the subset is built and then sorted by `nsets` |
| Plot.SubsetOfSorted | analyze.py:79-91 | once the list is sorted by `(assoc, nsets)`, each subset is already in `nsets` order and its sort changes nothing |
| Plot.SubsetInOrder | analyze.py:79-90 | a subset of a list sorted by `(assoc, nsets)` is sorted by `nsets` |
| Plot.CurveFor | analyze.py:89-94 | the curve for one associativity: its subset sorted by `nsets`, projected; `Plot.CurveSortedAndComplete` and `Plot.CurvePoints` state what it draws |
| Plot.CurvesOver | analyze.py:89-94 | one curve per given associativity, in order, each the curve of that associativity's subset sorted by `nsets` |
| Plot.CurvesFor | analyze.py:86-94 | one curve per entry of `assocs`; `Plot.CurvesOver` and `Plot.CurvesCoverData` state what they draw |
| Plot.Curves | analyze.py:89-94 | the loop over `assocs` produces, for each one in turn, the projections of its subset sorted by `nsets` |
| Plot.CurveSortedAndComplete | analyze.py:90-94 | a curve's x values and both y series have one entry per record of that associativity, x is non-decreasing, and its points are exactly that associativity's records |
| Plot.CurvePoints | analyze.py:89-94 | a curve draws exactly the records of its sorted subset, each as the point (`nsets`, `il1`/`dl1`) at the curve's associativity |
| Plot.DrawnCount | analyze.py:86-94 | the curves over distinct associativities draw each record of those associativities exactly once |
| Plot.CurvesCoverData | analyze.py:86-94 | across a benchmark's curves every record is drawn exactly once, on the curve of its associativity |
| Table.FileRecord | analyze.py:32-61 | the record one directory entry yields, if any; `Table.FileRecordIff` and `Table.FileRecordValues` state when and with which values |
| Table.ReadRecord | analyze.py:32-61 | the body of the `try` gives the file's record, which is present only when the file was read, no `float` failed, and both slots were set |
| Table.NewBenchmarks | analyze.py:29-30 | the keys a run of the loop adds were not there before |
| Table.BenchmarkTable.constructor | analyze.py:7 | the dictionary starts empty, with no keys |
| Table.BenchmarkTable.Register | analyze.py:29-30 | a missing benchmark key is added with an empty list at the end of the key order; a present one is left alone |
| Table.BenchmarkTable.Append | analyze.py:56-61 | the record is appended to that benchmark's list and nothing else changes |
| Table.BenchmarkTable.AddFile | analyze.py:22-65 | one directory entry changes the dictionary as `Ingest` says and adds its benchmark to the key order if new |
| Table.BenchmarkTable.AddRun | analyze.py:25-65 | a matched file registers its benchmark and appends its record, if any |
| Table.BenchmarkTable.AddFiles | analyze.py:22-65 | the directory loop leaves the dictionary as `IngestAll` says, with new keys in order of first appearance |
| Table.BenchmarkTable.PreparePlots | analyze.py:68-94 | `None` exactly when the dictionary is empty; otherwise every list is sorted by `(assoc, nsets)` in place, and one figure is prepared per non-empty benchmark in key order |
| Table.PlotAll | analyze.py:72-94 | the loop over `items()` sorts each benchmark's list and builds the figures `ChartsOf` gives |
| Table.SortBenchmark | analyze.py:79 | `data.sort(key=(assoc, nsets))` replaces the list by its stable sort |
| Table.PlotBenchmark | analyze.py:72-94 | an empty list is skipped; otherwise it is sorted and its curves are built |
| Table.Analyze | analyze.py:7-94 | the whole script: `None` ("no matching files") exactly when no directory entry's name matches; otherwise the figures of the sorted lists, for benchmarks in order of first appearance |
| Table.FileRecordIff | analyze.py:38-65 | a file yields a record exactly when it was read, no key/value line made `float` fail, and each marker has a key/value line, so a file with only one of them yields none |
| Table.FileRecordValues | analyze.py:25-27 | the record's nsets and assoc are those of the name, and each rate is `float` of the last key/value line for that cache |
| Table.Ingest | analyze.py:22-65 | one iteration of the directory loop on the dictionary; `Table.IngestLookup` states its effect on each list |
| Table.IngestAll | analyze.py:22-65 | the whole directory loop; `Table.IngestAllCollects`, `Table.IngestAllKeys` and `Table.NoDataIff` state what it builds |
| Table.IngestLookup | analyze.py:22-65 | one directory entry appends its contribution to its benchmark's list and leaves other lists alone |
| Table.IngestAllCollects | analyze.py:22-65 | each benchmark's list becomes its old list followed by the contributions of the files, in directory order, so a failing file adds nothing and changes no other list |
| Table.IngestAllKeys | analyze.py:22-30 | a key exists exactly for the benchmarks already present and those named by a matching file, whether or not that file yields a record |
| Table.NoDataIff | analyze.py:68 | the dictionary stays empty exactly when no name matches |
| Table.NewBenchmarksIff | analyze.py:29-30 | the keys the loop adds are exactly the benchmarks named and not yet present |
| Table.NewBenchmarksDistinct | analyze.py:29-30 | each key is added once |
| Table.NewBenchmarksStep | analyze.py:22-30 | one more entry adds exactly the benchmarks new to everything seen so far |
| Table.NamedSnoc | analyze.py:22 | a benchmark is named by a list of files exactly when it is named by all but the last, or by the last |
| Table.PlottedList | analyze.py:79 | each plotted list is the benchmark's contributions sorted by `(assoc, nsets)`, as a permutation, with equal keys in directory order |
| Table.ChartsOf | analyze.py:72-94 | the figures the plotting loop prepares, one per non-empty benchmark in key order; `Table.ChartsDrawn` and `Table.ChartsCover` state which and how |
| Table.SortedLists | analyze.py:72-79 | every benchmark's list after the in-place sort; `Table.PlottedList` states what each list becomes |
| Table.PlottedIff | analyze.py:72-74 | a benchmark gets a figure exactly when it is a key and its list is non-empty |
| Table.ChartsDrawn | analyze.py:72-94 | the figures follow the plotted benchmarks in key order, and each figure's curves are built from that benchmark's list |
| Table.ChartsCover | analyze.py:72-74 | there is a figure exactly for each benchmark whose list is non-empty |
| Table.ChartsOfSnoc | analyze.py:72-74 | one more key adds its figure at the end, or nothing when its list is empty |
| Table.SortedOneMore | analyze.py:72-79 | after one more iteration, one more key has its sorted list |
| Table.AllListsSorted | analyze.py:72-79 | after every key has been visited, every list is sorted |

## Left out

- The check for the data directory and `exit(1)` (analyze.py:17-19) are process control, not modelled.
- `os.listdir` (analyze.py:22) is I/O. Its listing is the parameter `files`, in whatever order the system gives.
- `open`, UTF-8 decoding and `readlines` (analyze.py:35-40) are I/O. Any failure while opening or reading is `content == None`.
- Every `print` (analyze.py:18, 62, 65, 69, 76, 125) is console output and is not modelled.
- The `print` at analyze.py:62 sits inside the `try`. An exception raised while printing, after the record was appended, is not modelled.
- All `matplotlib` calls and `savefig` (analyze.py:82-124) are rendering, so the model stops at the series each panel draws.
  - The two panel loops (analyze.py:89-96 and 106-113) compute the same subsets, so one `Curve` carries the x values and both y series.
  - Every figure is saved to the same path `my_plot.png`. That file-system effect is not modelled.
- The numeric content of `float` is not modelled, because floating-point parsing is outside the model. Parsing is the parameter `parse`, values are opaque `real`s, and no arithmetic is done on them.
- Python's `\d` and `int` also accept non-ASCII decimal digits. The model accepts ASCII `0`-`9` only.
- Python's `list.sort` (Timsort) is modelled by an insertion sort. `Ordering.SortUnique` shows any stable sort by the same key gives the same list.
- The dictionary's lists are Python list objects, sorted in place through the alias `data`. In the model each map value is a sequence, so the sorted list is copied to an array buffer, sorted there, and stored back under its key.
- Text.SplitWords: neither it nor `Text.SplitKeepsNonSpace` states that consecutive words were separated by whitespace in the line. `Text.Split` takes maximal runs, so they are.
- A `float` failure abandons the whole file, like a read failure, and the file's benchmark key stays registered (analyze.py:29-30, 38-65). The model does the same.
- "No data" is reported only when no file name matched. Benchmarks whose files yielded no record are skipped silently (analyze.py:68-74). The model does the same.
