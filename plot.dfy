/**
 * What the plotting loop computes for one benchmark before any drawing:
 * `assocs = sorted(list(set(d['assoc'] for d in data)))`, and for each `a` in it
 * the subset of records with that associativity, sorted by `nsets`, projected to the
 * x values (`nsets`) and the y values (`il1` for the left panel, `dl1` for the right).
 */
module Plot {
  import opened Ordering

  /** The series drawn for one associativity: x values and the two panels' y values. */
  datatype Curve = Curve(assoc: nat, nsets: seq<nat>, il1: seq<real>, dl1: seq<real>)

  predicate StrictlyIncreasing(xs: seq<nat>) {
    forall i, j :: 0 <= i < j < |xs| ==> xs[i] < xs[j]
  }

  /** The associativity occurs in `data`. */
  predicate HasAssoc(data: seq<Record>, a: nat) {
    exists i :: 0 <= i < |data| && data[i].assoc == a
  }

  /** `a` added to a list in its place, unless it is already there. */
  function AddSorted(xs: seq<nat>, a: nat): (r: seq<nat>)
    ensures forall y :: y in r <==> y in xs || y == a
  {
    if xs == [] then [a]
    else if a < xs[0] then [a] + xs
    else if a == xs[0] then xs
    else [xs[0]] + AddSorted(xs[1..], a)
  }

  lemma {:induction false} AddSortedIncreasing(xs: seq<nat>, a: nat)
    requires StrictlyIncreasing(xs)
    ensures StrictlyIncreasing(AddSorted(xs, a))
    decreases |xs|
  {
    if xs != [] && a > xs[0] {
      var tail := xs[1..];
      assert StrictlyIncreasing(tail);
      AddSortedIncreasing(tail, a);
      var rest := AddSorted(tail, a);
      forall j | 0 <= j < |rest| ensures xs[0] < rest[j] {
        assert rest[j] in rest;
        if rest[j] != a {
          var m :| 0 <= m < |tail| && tail[m] == rest[j];
          assert xs[m + 1] == tail[m];
        }
      }
      ConsIncreasing(xs[0], rest);
    } else if xs != [] && a < xs[0] {
      forall j | 0 <= j < |xs| ensures a < xs[j] {
        if j > 0 {
          assert xs[0] < xs[j];
        }
      }
      ConsIncreasing(a, xs);
    }
  }

  /** A value below every element of an increasing list can be put in front of it. */
  lemma ConsIncreasing(x: nat, xs: seq<nat>)
    requires StrictlyIncreasing(xs) && forall j :: 0 <= j < |xs| ==> x < xs[j]
    ensures StrictlyIncreasing([x] + xs)
  {
    var r := [x] + xs;
    forall i, j | 0 <= i < j < |r| ensures r[i] < r[j] {
      assert r[j] == xs[j - 1];
      if i > 0 {
        assert r[i] == xs[i - 1];
      }
    }
  }

  /** `sorted(set(d['assoc'] for d in data))`: exactly the associativities that occur in `data`. */
  function Assocs(data: seq<Record>): (r: seq<nat>)
    ensures forall a :: a in r <==> HasAssoc(data, a)
  {
    if data == [] then []
    else
      var init := data[..|data| - 1];
      var r := AddSorted(Assocs(init), data[|data| - 1].assoc);
      assert forall a :: HasAssoc(init, a) ==> HasAssoc(data, a) by {
        forall a | HasAssoc(init, a) ensures HasAssoc(data, a) {
          var i :| 0 <= i < |init| && init[i].assoc == a;
          assert data[i] == init[i];
        }
      }
      r
  }

  /** The associativities are listed in increasing order, each once. */
  lemma {:induction false} AssocsIncreasing(data: seq<Record>)
    ensures StrictlyIncreasing(Assocs(data))
    decreases |data|
  {
    if data != [] {
      AssocsIncreasing(data[..|data| - 1]);
      AddSortedIncreasing(Assocs(data[..|data| - 1]), data[|data| - 1].assoc);
    }
  }

  /** `[d for d in data if d['assoc'] == a]` */
  function Subset(data: seq<Record>, a: nat): (r: seq<Record>)
    ensures forall i :: 0 <= i < |r| ==> r[i].assoc == a
  {
    if data == [] then []
    else Subset(data[..|data| - 1], a) + (if data[|data| - 1].assoc == a then [data[|data| - 1]] else [])
  }

  /** The subset holds every record of associativity `a`, as often as `data` does, and nothing else. */
  lemma {:induction false} SubsetCounts(data: seq<Record>, a: nat)
    ensures forall x :: multiset(Subset(data, a))[x] == if x.assoc == a then multiset(data)[x] else 0
    decreases |data|
  {
    if data != [] {
      var init, last := data[..|data| - 1], data[|data| - 1];
      assert data == init + [last];
      SubsetCounts(init, a);
    }
  }

  /** The three series of a curve have one entry per point. */
  predicate Balanced(c: Curve) {
    |c.nsets| == |c.il1| == |c.dl1|
  }

  /** The records a curve draws: point `k` at the curve's associativity. */
  function Points(c: Curve): seq<Record>
    requires Balanced(c)
  {
    seq(|c.nsets|, k requires 0 <= k < |c.nsets| => Record(c.nsets[k], c.assoc, c.il1[k], c.dl1[k]))
  }

  /** The records drawn by a list of curves, one curve after another. */
  function Drawn(cs: seq<Curve>): seq<Record>
    requires forall i :: 0 <= i < |cs| ==> Balanced(cs[i])
  {
    if cs == [] then [] else Drawn(cs[..|cs| - 1]) + Points(cs[|cs| - 1])
  }

  /** The x and y values taken from a sorted subset. */
  function CurveOf(a: nat, subset: seq<Record>): (r: Curve)
    ensures r.assoc == a && Balanced(r) && |r.nsets| == |subset|
  {
    Curve(a, seq(|subset|, i requires 0 <= i < |subset| => subset[i].nsets),
             seq(|subset|, i requires 0 <= i < |subset| => subset[i].il1),
             seq(|subset|, i requires 0 <= i < |subset| => subset[i].dl1))
  }

  /** The curve for associativity `a`: its subset sorted by `nsets`, projected. */
  function CurveFor(data: seq<Record>, a: nat): Curve {
    CurveOf(a, Sort(ByNsets, Subset(data, a)))
  }

  /** The curves for the associativities `assocs`, in that order. */
  function CurvesOver(data: seq<Record>, assocs: seq<nat>): (r: seq<Curve>)
    ensures |r| == |assocs|
    ensures forall i :: 0 <= i < |r| ==> r[i] == CurveFor(data, assocs[i])
  {
    if assocs == [] then []
    else CurvesOver(data, assocs[..|assocs| - 1]) + [CurveFor(data, assocs[|assocs| - 1])]
  }

  /** One curve per distinct associativity of the benchmark, in increasing associativity. */
  function CurvesFor(data: seq<Record>): seq<Curve> {
    CurvesOver(data, Assocs(data))
  }

  /** The loop `for a in assocs:` building each subset, sorting it in place and projecting it. */
  method Curves(data: seq<Record>) returns (curves: seq<Curve>)
    ensures curves == CurvesFor(data)
  {
    var assocs := Assocs(data);
    curves := [];
    for n := 0 to |assocs|
      invariant curves == CurvesOver(data, assocs[..n])
    {
      assert assocs[..n + 1][..n] == assocs[..n];
      var sorted := SortedSubset(data, assocs[n]);
      curves := curves + [CurveOf(assocs[n], sorted)];
    }
    assert assocs[..|assocs|] == assocs;
  }

  /** `subset = [d for d in data if d['assoc'] == a]` followed by `subset.sort(key=lambda d: d['nsets'])`. */
  method SortedSubset(data: seq<Record>, a: nat) returns (sorted: seq<Record>)
    ensures sorted == Sort(ByNsets, Subset(data, a))
  {
    var subset := Subset(data, a);
    var buf := new Record[|subset|](i requires 0 <= i < |subset| => subset[i]);
    assert buf[..] == subset;
    SortInPlace(ByNsets, buf);
    sorted := buf[..];
  }

  /** Once `data` is in `(assoc, nsets)` order, each subset is already in `nsets` order. */
  lemma SubsetOfSorted(data: seq<Record>, a: nat)
    requires SortedBy(ByAssocNsets, data)
    ensures SortedBy(ByNsets, Subset(data, a))
    ensures Sort(ByNsets, Subset(data, a)) == Subset(data, a)
  {
    SubsetInOrder(data, a);
    SortOfSorted(ByNsets, Subset(data, a));
  }

  lemma {:induction false} SubsetInOrder(data: seq<Record>, a: nat)
    requires SortedBy(ByAssocNsets, data)
    ensures SortedBy(ByNsets, Subset(data, a))
    decreases |data|
  {
    if data != [] {
      var init, last := data[..|data| - 1], data[|data| - 1];
      SortedInit(ByAssocNsets, data);
      SubsetInOrder(init, a);
      if last.assoc == a {
        var s := Subset(init, a);
        SubsetCounts(init, a);
        forall i | 0 <= i < |s| ensures Le(ByNsets, s[i], last) {
          assert s[i] in multiset(s);
          var j :| 0 <= j < |init| && init[j] == s[i];
          assert Le(ByAssocNsets, data[j], data[|data| - 1]);
        }
        SortedSnoc(ByNsets, s, last);
        assert Subset(data, a) == s + [last];
      } else {
        assert Subset(data, a) == Subset(init, a);
      }
    }
  }

  /** Each curve lists the records of its associativity, one point each, in non-decreasing `nsets`. */
  lemma CurveSortedAndComplete(data: seq<Record>, a: nat)
    ensures var c := CurveFor(data, a);
      && |c.nsets| == |c.il1| == |c.dl1| == |Subset(data, a)|
      && (forall i, j :: 0 <= i < j < |c.nsets| ==> c.nsets[i] <= c.nsets[j])
      && (forall x :: multiset(Sort(ByNsets, Subset(data, a)))[x]
                      == if x.assoc == a then multiset(data)[x] else 0)
  {
    var s := Sort(ByNsets, Subset(data, a));
    SortSorts(ByNsets, Subset(data, a));
    SortPermutes(ByNsets, Subset(data, a));
    SubsetCounts(data, a);
    assert |s| == |multiset(s)| == |Subset(data, a)|;
    forall i, j | 0 <= i < j < |s| ensures s[i].nsets <= s[j].nsets {
      assert Le(ByNsets, s[i], s[j]);
    }
  }

  /** A curve draws exactly the records of its sorted subset, in that order. */
  lemma CurvePoints(data: seq<Record>, a: nat)
    ensures Points(CurveFor(data, a)) == Sort(ByNsets, Subset(data, a))
  {
    var sub := Subset(data, a);
    var s := Sort(ByNsets, sub);
    SortPermutes(ByNsets, sub);
    forall k | 0 <= k < |s| ensures s[k].assoc == a {
      assert s[k] in multiset(sub);
      var j :| 0 <= j < |sub| && sub[j] == s[k];
    }
  }

  /** The curves over the distinct associativities in `assocs` draw each record of those associativities exactly once. */
  lemma {:induction false} DrawnCount(data: seq<Record>, assocs: seq<nat>)
    requires StrictlyIncreasing(assocs)
    ensures forall x :: multiset(Drawn(CurvesOver(data, assocs)))[x]
                        == if x.assoc in assocs then multiset(data)[x] else 0
    decreases |assocs|
  {
    if assocs != [] {
      var init, last := assocs[..|assocs| - 1], assocs[|assocs| - 1];
      var cs := CurvesOver(data, assocs);
      assert cs[..|cs| - 1] == CurvesOver(data, init);
      assert StrictlyIncreasing(init);
      DrawnCount(data, init);
      CurvePoints(data, last);
      SortPermutes(ByNsets, Subset(data, last));
      SubsetCounts(data, last);
      forall x ensures multiset(Drawn(cs))[x] == if x.assoc in assocs then multiset(data)[x] else 0 {
        assert x.assoc in assocs <==> x.assoc in init || x.assoc == last;
        if x.assoc in init {
          var m :| 0 <= m < |init| && init[m] == x.assoc;
          assert assocs[m] < assocs[|assocs| - 1];
        }
      }
    }
  }

  /** Every record of a benchmark is drawn exactly once across its curves, on the curve of its associativity. */
  lemma CurvesCoverData(data: seq<Record>)
    ensures multiset(Drawn(CurvesFor(data))) == multiset(data)
  {
    var assocs := Assocs(data);
    AssocsIncreasing(data);
    DrawnCount(data, assocs);
    forall x ensures multiset(Drawn(CurvesFor(data)))[x] == multiset(data)[x] {
      if x in multiset(data) {
        var i :| 0 <= i < |data| && data[i] == x;
        assert HasAssoc(data, x.assoc);
      }
    }
  }
}
