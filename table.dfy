/**
 * The dictionary `benchmarks_data` and the two loops over it: filling it from the data
 * directory, one entry at a time, and preparing one figure per benchmark.
 * The directory listing is the parameter `files`, in the order `os.listdir` returns.
 */
module Table {
  import opened Wrappers
  import opened FileName
  import opened Extract
  import opened Ordering
  import opened Plot
  import opened Seqs

  /** One entry of the data directory: its name, and its lines, or `None` when opening or reading it raised. */
  datatype FileEntry = FileEntry(name: string, content: Option<seq<string>>)

  /** One figure: its benchmark and the curves drawn in both panels. */
  datatype Chart = Chart(benchmark: string, curves: seq<Curve>)

  /** The benchmark a file name is filed under, if the name matches the pattern. */
  function BenchmarkOf(name: string): Option<string> {
    match Decode(name)
    case None => None
    case Some(id) => Some(id.benchmark)
  }

  /** The record a file of run `id` contributes: one only when it was read, no `float` failed, and both rates were seen. */
  function FileRecord(id: RunId, content: Option<seq<string>>, parse: string -> Option<real>): Option<Record> {
    if content.None? then None
    else
      match ScanLines(content.value, parse)
      case Scanning(Some(il1), Some(dl1)) => Some(Record(id.nsets, id.assoc, il1, dl1))
      case _ => None
  }

  function Records(r: Option<Record>): seq<Record> {
    if r.Some? then [r.value] else []
  }

  function Lookup(data: map<string, seq<Record>>, b: string): seq<Record> {
    if b in data then data[b] else []
  }

  /** The dictionary after one more directory entry: the key is created on any match, the record appended only when extracted. */
  function Ingest(data: map<string, seq<Record>>, f: FileEntry, parse: string -> Option<real>): map<string, seq<Record>> {
    match Decode(f.name)
    case None => data
    case Some(id) => File(data, id, f.content, parse)
  }

  /** The dictionary after a file of run `id` with contents `content`. */
  function File(data: map<string, seq<Record>>, id: RunId, content: Option<seq<string>>, parse: string -> Option<real>): map<string, seq<Record>> {
    data[id.benchmark := Lookup(data, id.benchmark) + Records(FileRecord(id, content, parse))]
  }

  /** The dictionary after the entries `files`, in order. */
  function IngestAll(data: map<string, seq<Record>>, files: seq<FileEntry>, parse: string -> Option<real>): map<string, seq<Record>> {
    if files == [] then data
    else Ingest(IngestAll(data, files[..|files| - 1], parse), files[|files| - 1], parse)
  }

  /** Reference definition, file by file: what entry `f` adds to the list of benchmark `b`. */
  function Contribution(f: FileEntry, b: string, parse: string -> Option<real>): seq<Record> {
    match Decode(f.name)
    case None => []
    case Some(id) => if id.benchmark == b then Records(FileRecord(id, f.content, parse)) else []
  }

  /** The contributions of `files` to benchmark `b`, in directory order. */
  function Collect(files: seq<FileEntry>, b: string, parse: string -> Option<real>): seq<Record> {
    if files == [] then []
    else Collect(files[..|files| - 1], b, parse) + Contribution(files[|files| - 1], b, parse)
  }

  /** Some entry of `files` has a name filed under `b`. */
  predicate Named(files: seq<FileEntry>, b: string) {
    exists k :: 0 <= k < |files| && BenchmarkOf(files[k].name) == Some(b)
  }

  /** The benchmarks first met in `files` that are not in `seen`, in order of first appearance. */
  function NewBenchmarks(seen: set<string>, files: seq<FileEntry>): (r: seq<string>)
    ensures forall b :: b in r ==> b !in seen
  {
    if files == [] then []
    else
      var p := NewBenchmarks(seen, files[..|files| - 1]);
      match BenchmarkOf(files[|files| - 1].name)
      case Some(b) => if b !in seen && b !in p then p + [b] else p
      case None => p
  }

  predicate Distinct(s: seq<string>) {
    forall i, j :: 0 <= i < j < |s| ==> s[i] != s[j]
  }

  /** The figures prepared for the benchmarks in `order`, skipping those with no records. */
  function ChartsOf(order: seq<string>, data: map<string, seq<Record>>): seq<Chart>
    requires forall b :: b in order ==> b in data
  {
    if order == [] then []
    else
      var b := order[|order| - 1];
      ChartsOf(order[..|order| - 1], data)
        + (if data[b] == [] then [] else [Chart(b, CurvesFor(data[b]))])
  }

  /** The body of the `try`: scan the lines if the file could be read, and build the record if both rates were found. */
  method ReadRecord(id: RunId, content: Option<seq<string>>, parse: string -> Option<real>) returns (r: Option<Record>)
    ensures r == FileRecord(id, content, parse)
  {
    if content.None? {
      return None;
    }
    var st := ScanFile(content.value, parse);
    if st.Scanning? && st.il1.Some? && st.dl1.Some? {
      r := Some(Record(id.nsets, id.assoc, st.il1.value, st.dl1.value));
    } else {
      r := None;
    }
  }

  /** `benchmarks_data` with its key insertion order, which `items()` follows. */
  class BenchmarkTable {
    var data: map<string, seq<Record>>
    var order: seq<string>

    ghost predicate Valid()
      reads this
    {
      Distinct(order) && forall b :: b in data <==> b in order
    }

    /** `benchmarks_data = {}` */
    constructor ()
      ensures Valid() && data == map[] && order == []
    {
      data, order := map[], [];
    }

    /** `if benchmark not in benchmarks_data: benchmarks_data[benchmark] = []` */
    method Register(b: string)
      requires Valid()
      modifies this
      ensures Valid()
      ensures data == if b in old(data) then old(data) else old(data)[b := []]
      ensures order == if b in old(data) then old(order) else old(order) + [b]
    {
      if b !in data {
        data := data[b := []];
        order := order + [b];
      }
    }

    /** `benchmarks_data[benchmark].append(record)` */
    method Append(b: string, r: Record)
      requires Valid() && b in data
      modifies this
      ensures Valid()
      ensures data == old(data)[b := old(data)[b] + [r]] && order == old(order)
    {
      data := data[b := data[b] + [r]];
    }

    /** One iteration of the directory loop: match the name, then file the run. */
    method AddFile(f: FileEntry, parse: string -> Option<real>)
      requires Valid()
      modifies this
      ensures Valid()
      ensures data == Ingest(old(data), f, parse)
      ensures order == old(order) + NewBenchmarks(old(data).Keys, [f])
    {
      assert [f][..0] == [];
      var m := Decode(f.name);
      if m.Some? {
        AddRun(m.value, f.content, parse);
      }
    }

    /** Register the key, scan the lines, append the record. */
    method AddRun(id: RunId, content: Option<seq<string>>, parse: string -> Option<real>)
      requires Valid()
      modifies this
      ensures Valid()
      ensures data == File(old(data), id, content, parse)
      ensures order == old(order) + if id.benchmark in old(data) then [] else [id.benchmark]
    {
      var b := id.benchmark;
      ghost var prior := Lookup(old(data), b);
      Register(b);
      assert b in data && data[b] == prior;
      var r := ReadRecord(id, content, parse);
      if r.Some? {
        Append(b, r.value);
        assert data == old(data)[b := prior + [r.value]];
      } else {
        assert prior + Records(r) == prior;
      }
    }

    /** `for filename in os.listdir(data_dir): ...` */
    method AddFiles(files: seq<FileEntry>, parse: string -> Option<real>)
      requires Valid()
      modifies this
      ensures Valid()
      ensures data == IngestAll(old(data), files, parse)
      ensures order == old(order) + NewBenchmarks(old(data).Keys, files)
    {
      for i := 0 to |files|
        invariant Valid()
        invariant data == IngestAll(old(data), files[..i], parse)
        invariant order == old(order) + NewBenchmarks(old(data).Keys, files[..i])
      {
        assert files[..i + 1][..i] == files[..i];
        NewBenchmarksStep(old(data).Keys, files, i, data.Keys);
        AddFile(files[i], parse);
      }
      assert files[..|files|] == files;
    }

    /**
     * The plotting phase: `None` for the "no matching files" message, otherwise one figure per
     * benchmark with records, in key order, each list sorted in place first.
     */
    method PreparePlots() returns (charts: Option<seq<Chart>>)
      requires Valid()
      modifies this
      ensures Valid() && order == old(order)
      ensures charts.None? <==> old(data) == map[]
      ensures charts.None? ==> data == old(data)
      ensures charts.Some? ==> data == SortedLists(old(data)) && charts.value == ChartsOf(order, data)
    {
      if data == map[] {
        return None;
      }
      var sorted, done := PlotAll(order, data);
      data := sorted;
      AllListsSorted(order, old(data), data);
      charts := Some(done);
    }
  }

  /** The loop over `benchmarks_data.items()`, in key order, sorting each list and building its figure. */
  method PlotAll(order: seq<string>, data: map<string, seq<Record>>) returns (sorted: map<string, seq<Record>>, charts: seq<Chart>)
    requires Distinct(order) && forall b :: b in order ==> b in data
    ensures sorted.Keys == data.Keys
    ensures forall j :: 0 <= j < |order| ==> sorted[order[j]] == SortedLists(data)[order[j]]
    ensures charts == ChartsOf(order, SortedLists(data))
  {
    ghost var target := SortedLists(data);
    sorted, charts := data, [];
    for i := 0 to |order|
      invariant sorted.Keys == data.Keys
      invariant forall j :: 0 <= j < i ==> sorted[order[j]] == target[order[j]]
      invariant forall j :: i <= j < |order| ==> sorted[order[j]] == data[order[j]]
      invariant charts == ChartsOf(order[..i], target)
    {
      var b := order[i];
      var list, chart := PlotBenchmark(b, sorted[b]);
      SortedOneMore(order, data, target, sorted, i, list);
      ChartsOfSnoc(order, i, target);
      sorted := sorted[b := list];
      charts := charts + chart;
    }
    assert order[..|order|] == order;
  }

  /** `data.sort(key=lambda x: (x['assoc'], x['nsets']))`, done in place on a buffer holding the list. */
  method SortBenchmark(list: seq<Record>) returns (sorted: seq<Record>)
    ensures sorted == Sort(ByAssocNsets, list)
  {
    var buf := new Record[|list|](i requires 0 <= i < |list| => list[i]);
    assert buf[..] == list;
    SortInPlace(ByAssocNsets, buf);
    sorted := buf[..];
  }

  /** One iteration of `for benchmark, data in benchmarks_data.items()`: skip an empty list, else sort it and build its curves. */
  method PlotBenchmark(b: string, list: seq<Record>) returns (sorted: seq<Record>, chart: seq<Chart>)
    ensures sorted == Sort(ByAssocNsets, list)
    ensures chart == if sorted == [] then [] else [Chart(b, CurvesFor(sorted))]
  {
    if list == [] {
      return [], [];
    }
    sorted := SortBenchmark(list);
    SortPermutes(ByAssocNsets, list);
    assert |sorted| == |multiset(sorted)| == |list|;
    var curves := Curves(sorted);
    chart := [Chart(b, curves)];
  }

  /** One more key of the loop has its sorted list. */
  lemma SortedOneMore(order: seq<string>, data: map<string, seq<Record>>, target: map<string, seq<Record>>,
                      prev: map<string, seq<Record>>, i: nat, list: seq<Record>)
    requires Distinct(order) && i < |order| && forall b :: b in order ==> b in prev && b in data && b in target
    requires forall j :: 0 <= j < i ==> prev[order[j]] == target[order[j]]
    requires forall j :: i <= j < |order| ==> prev[order[j]] == data[order[j]]
    ensures forall j :: 0 <= j < i + 1 ==> prev[order[i] := list][order[j]] == if j == i then list else target[order[j]]
    ensures forall j :: i + 1 <= j < |order| ==> prev[order[i] := list][order[j]] == data[order[j]]
  {
    forall j | 0 <= j < |order| && j != i
      ensures prev[order[i] := list][order[j]] == prev[order[j]]
    {
      assert order[j] != order[i];
    }
  }

  lemma ChartsOfSnoc(order: seq<string>, i: nat, data: map<string, seq<Record>>)
    requires i < |order| && forall c :: c in order ==> c in data
    ensures ChartsOf(order[..i + 1], data) == ChartsOf(order[..i], data)
      + if data[order[i]] == [] then [] else [Chart(order[i], CurvesFor(data[order[i]]))]
  {
    assert order[..i + 1][..i] == order[..i];
  }

  /** After the plotting loop has visited every key, every list has been sorted. */
  lemma AllListsSorted(order: seq<string>, before: map<string, seq<Record>>, after: map<string, seq<Record>>)
    requires forall b :: b in after <==> b in order
    requires after.Keys == before.Keys
    requires forall j :: 0 <= j < |order| ==> after[order[j]] == SortedLists(before)[order[j]]
    ensures after == SortedLists(before)
  {
    forall b | b in after ensures after[b] == SortedLists(before)[b] {
      var j :| 0 <= j < |order| && order[j] == b;
    }
  }

  /** Every list of `data` sorted by `(assoc, nsets)`. */
  function SortedLists(data: map<string, seq<Record>>): map<string, seq<Record>> {
    map b | b in data :: Sort(ByAssocNsets, data[b])
  }

  /**
   * The whole script over a directory listing: `None` when no name matched, otherwise one figure
   * per benchmark with records, in the order benchmarks were first met, from the sorted lists.
   */
  method Analyze(files: seq<FileEntry>, parse: string -> Option<real>) returns (charts: Option<seq<Chart>>)
    ensures charts.None? <==> forall k :: 0 <= k < |files| ==> Decode(files[k].name).None?
    ensures charts.Some? ==>
      && (forall b :: b in NewBenchmarks({}, files) ==> b in IngestAll(map[], files, parse))
      && charts.value == ChartsOf(NewBenchmarks({}, files), SortedLists(IngestAll(map[], files, parse)))
  {
    var table := new BenchmarkTable();
    ghost var empty: map<string, seq<Record>> := map[];
    assert empty.Keys == {};
    table.AddFiles(files, parse);
    assert table.order == NewBenchmarks({}, files);
    ghost var loaded := table.data;
    NoDataIff(files, parse);
    charts := table.PreparePlots();
    assert charts.None? <==> loaded == map[];
  }

  /** The rate a record holds for cache `c`. */
  function Rate(r: Record, c: Cache): real {
    match c
    case IL1 => r.il1
    case DL1 => r.dl1
  }

  /**
   * A file yields a record exactly when it was read, `float` failed on no key/value line,
   * and there is a key/value line for each cache; a file with only one of the two markers yields none.
   */
  lemma FileRecordIff(id: RunId, content: Option<seq<string>>, parse: string -> Option<real>)
    ensures FileRecord(id, content, parse).Some? <==>
      && content.Some?
      && (forall k :: 0 <= k < |content.value| ==> !Raises(content.value[k], IL1, parse) && !Raises(content.value[k], DL1, parse))
      && (exists k :: 0 <= k < |content.value| && Qualifies(content.value[k], IL1))
      && (exists k :: 0 <= k < |content.value| && Qualifies(content.value[k], DL1))
  {
    if content.Some? {
      var lines := content.value;
      ScanAbortsIff(lines, parse);
      if ScanLines(lines, parse).Scanning? {
        SlotEmptyIff(lines, IL1, parse);
        SlotEmptyIff(lines, DL1, parse);
      }
    }
  }

  /** The record carries the run's `nsets` and `assoc` from the name, and for each cache the value of its last key/value line. */
  lemma FileRecordValues(id: RunId, lines: seq<string>, parse: string -> Option<real>, c: Cache, k: nat)
    requires FileRecord(id, Some(lines), parse).Some?
    requires LastQualifying(lines, k, c)
    ensures var r := FileRecord(id, Some(lines), parse).value;
      r.nsets == id.nsets && r.assoc == id.assoc && parse(ValueToken(lines[k])) == Some(Rate(r, c))
  {
    LastWins(lines, k, c, parse);
  }

  /**
   * Filling the dictionary file by file appends to each benchmark's list exactly that
   * benchmark's contributions, in directory order: a failing file adds nothing and disturbs no other.
   */
  lemma {:induction false} IngestAllCollects(data: map<string, seq<Record>>, files: seq<FileEntry>, parse: string -> Option<real>, b: string)
    ensures Lookup(IngestAll(data, files, parse), b) == Lookup(data, b) + Collect(files, b, parse)
    decreases |files|
  {
    if files != [] {
      var init, last := files[..|files| - 1], files[|files| - 1];
      IngestAllCollects(data, init, parse, b);
      IngestLookup(IngestAll(data, init, parse), last, parse, b);
    }
  }

  /** One entry adds its contribution to the list of `b`. */
  lemma IngestLookup(data: map<string, seq<Record>>, f: FileEntry, parse: string -> Option<real>, b: string)
    ensures Lookup(Ingest(data, f, parse), b) == Lookup(data, b) + Contribution(f, b, parse)
  {
    match Decode(f.name)
    case None =>
    case Some(id) =>
      if id.benchmark != b {
        assert Ingest(data, f, parse) == data[id.benchmark := Lookup(data, id.benchmark) + Records(FileRecord(id, f.content, parse))];
      }
  }

  /** A key exists exactly for the benchmarks already present and those named by some matching file, read or not. */
  lemma {:induction false} IngestAllKeys(data: map<string, seq<Record>>, files: seq<FileEntry>, parse: string -> Option<real>, b: string)
    ensures b in IngestAll(data, files, parse) <==> b in data || Named(files, b)
    decreases |files|
  {
    if files != [] {
      var init := files[..|files| - 1];
      IngestAllKeys(data, init, parse, b);
      NamedSnoc(files, b);
    }
  }

  /** "No matching files" is reported exactly when no directory entry's name matches the pattern. */
  lemma NoDataIff(files: seq<FileEntry>, parse: string -> Option<real>)
    ensures IngestAll(map[], files, parse) == map[] <==> forall k :: 0 <= k < |files| ==> Decode(files[k].name).None?
  {
    var m := IngestAll(map[], files, parse);
    if m != map[] {
      var b :| b in m;
      IngestAllKeys(map[], files, parse, b);
      var k :| 0 <= k < |files| && BenchmarkOf(files[k].name) == Some(b);
    } else {
      forall k | 0 <= k < |files| ensures Decode(files[k].name).None? {
        if Decode(files[k].name).Some? {
          IngestAllKeys(map[], files, parse, Decode(files[k].name).value.benchmark);
        }
      }
    }
  }

  lemma NamedSnoc(files: seq<FileEntry>, b: string)
    requires files != []
    ensures Named(files, b) <==> Named(files[..|files| - 1], b) || BenchmarkOf(files[|files| - 1].name) == Some(b)
  {
    var init := files[..|files| - 1];
    var named := (f: FileEntry) => BenchmarkOf(f.name) == Some(b);
    assert Named(files, b) <==> exists k :: 0 <= k < |files| && named(files[k]);
    assert Named(init, b) <==> exists k :: 0 <= k < |init| && named(init[k]);
    SomeSnoc(files, init, named);
  }

  /** The keys added by a run of the directory loop are exactly the newly named benchmarks. */
  lemma {:induction false} NewBenchmarksIff(seen: set<string>, files: seq<FileEntry>, b: string)
    ensures b in NewBenchmarks(seen, files) <==> b !in seen && Named(files, b)
    decreases |files|
  {
    if files != [] {
      var init := files[..|files| - 1];
      NewBenchmarksIff(seen, init, b);
      NamedSnoc(files, b);
    }
  }

  /** One more entry: the keys it adds are those new to everything seen so far. */
  lemma NewBenchmarksStep(seen: set<string>, files: seq<FileEntry>, i: nat, keys: set<string>)
    requires i < |files|
    requires forall b :: b in keys <==> b in seen || b in NewBenchmarks(seen, files[..i])
    ensures NewBenchmarks(seen, files[..i + 1]) == NewBenchmarks(seen, files[..i]) + NewBenchmarks(keys, [files[i]])
  {
    assert files[..i + 1][..i] == files[..i];
    assert [files[i]][..0] == [];
  }

  /** Each new key is added once. */
  lemma {:induction false} NewBenchmarksDistinct(seen: set<string>, files: seq<FileEntry>)
    ensures Distinct(NewBenchmarks(seen, files))
    decreases |files|
  {
    if files != [] {
      NewBenchmarksDistinct(seen, files[..|files| - 1]);
    }
  }

  /**
   * Each list that is plotted is the benchmark's contributions sorted by `(assoc, nsets)`:
   * the same records, in order, and records with equal keys in directory order.
   */
  lemma PlottedList(files: seq<FileEntry>, parse: string -> Option<real>, b: string)
    requires b in IngestAll(map[], files, parse)
    ensures var list := SortedLists(IngestAll(map[], files, parse))[b];
      && SortedBy(ByAssocNsets, list)
      && multiset(list) == multiset(Collect(files, b, parse))
      && forall key :: WithKey(ByAssocNsets, list, key) == WithKey(ByAssocNsets, Collect(files, b, parse), key)
  {
    IngestAllCollects(map[], files, parse, b);
    var raw := IngestAll(map[], files, parse)[b];
    assert raw == Collect(files, b, parse);
    SortSorts(ByAssocNsets, raw);
    SortPermutes(ByAssocNsets, raw);
    forall key ensures WithKey(ByAssocNsets, Sort(ByAssocNsets, raw), key) == WithKey(ByAssocNsets, raw, key) {
      SortStable(ByAssocNsets, raw, key);
    }
  }

  /** The benchmarks of `order` that get a figure: those with a non-empty list. */
  function Plotted(order: seq<string>, data: map<string, seq<Record>>): seq<string>
    requires forall c :: c in order ==> c in data
  {
    if order == [] then []
    else
      var b := order[|order| - 1];
      Plotted(order[..|order| - 1], data) + if data[b] == [] then [] else [b]
  }

  lemma {:induction false} PlottedIff(order: seq<string>, data: map<string, seq<Record>>, b: string)
    requires forall c :: c in order ==> c in data
    ensures b in Plotted(order, data) <==> b in order && data[b] != []
    decreases |order|
  {
    if order != [] {
      var init, last := order[..|order| - 1], order[|order| - 1];
      assert forall c :: c in init ==> c in order;
      PlottedIff(init, data, b);
      assert order == init + [last];
    }
  }

  /** The figures follow `Plotted`, each drawn from the list of the benchmark it is for. */
  lemma {:induction false} ChartsDrawn(order: seq<string>, data: map<string, seq<Record>>)
    requires forall c :: c in order ==> c in data
    ensures |ChartsOf(order, data)| == |Plotted(order, data)|
    ensures forall i :: 0 <= i < |ChartsOf(order, data)| ==>
      && ChartsOf(order, data)[i].benchmark == Plotted(order, data)[i]
      && Plotted(order, data)[i] in data
      && ChartsOf(order, data)[i].curves == CurvesFor(data[Plotted(order, data)[i]])
    decreases |order|
  {
    if order != [] {
      var init, last := order[..|order| - 1], order[|order| - 1];
      assert forall c :: c in init ==> c in order;
      ChartsDrawn(init, data);
      var cs, ps := ChartsOf(init, data), Plotted(init, data);
      var tail: seq<Chart> := if data[last] == [] then [] else [Chart(last, CurvesFor(data[last]))];
      var ptail: seq<string> := if data[last] == [] then [] else [last];
      var r, p := cs + tail, ps + ptail;
      assert ChartsOf(order, data) == r && Plotted(order, data) == p;
      forall i | 0 <= i < |r| ensures r[i].benchmark == p[i] && p[i] in data && r[i].curves == CurvesFor(data[p[i]]) {
        if i < |cs| {
          assert r[i] == cs[i] && p[i] == ps[i];
        } else {
          assert r[i] == tail[0] && p[i] == ptail[0];
        }
      }
    }
  }

  /** There is a figure for a benchmark exactly when it is in `order` and its list is non-empty. */
  lemma ChartsCover(order: seq<string>, data: map<string, seq<Record>>, b: string)
    requires forall c :: c in order ==> c in data
    ensures (exists i :: 0 <= i < |ChartsOf(order, data)| && ChartsOf(order, data)[i].benchmark == b)
      <==> b in order && data[b] != []
  {
    ChartsDrawn(order, data);
    PlottedIff(order, data, b);
    var cs, ps := ChartsOf(order, data), Plotted(order, data);
    if exists i :: 0 <= i < |cs| && cs[i].benchmark == b {
      var i :| 0 <= i < |cs| && cs[i].benchmark == b;
      assert ps[i] == b;
    }
    if b in ps {
      var i :| 0 <= i < |ps| && ps[i] == b;
      assert cs[i].benchmark == b;
    }
  }
}
