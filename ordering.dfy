/**
 * The per-run record and the two sorts the script performs on lists of records:
 * `data.sort(key=lambda x: (x['assoc'], x['nsets']))` and `subset.sort(key=lambda x: x['nsets'])`.
 * Python's `list.sort` is stable; it is modelled by an in-place insertion sort, which is stable
 * too, and `SortUnique` shows that every stable sort produces the same list.
 */
module Ordering {

  /** One extracted run: `{'nsets': …, 'assoc': …, 'il1': …, 'dl1': …}`. */
  datatype Record = Record(nsets: nat, assoc: nat, il1: real, dl1: real)

  /** The two sort keys used: `(assoc, nsets)`, and `nsets` alone. */
  datatype SortKey = ByAssocNsets | ByNsets

  function Key(k: SortKey, r: Record): (nat, nat) {
    match k
    case ByAssocNsets => (r.assoc, r.nsets)
    case ByNsets => (r.nsets, 0)
  }

  /** Python's tuple comparison `<=`. */
  predicate KeyLe(x: (nat, nat), y: (nat, nat)) {
    x.0 < y.0 || (x.0 == y.0 && x.1 <= y.1)
  }

  predicate Le(k: SortKey, a: Record, b: Record) {
    KeyLe(Key(k, a), Key(k, b))
  }

  predicate SortedBy(k: SortKey, s: seq<Record>) {
    forall i, j :: 0 <= i < j < |s| ==> Le(k, s[i], s[j])
  }

  /** The records of `s` whose key is `key`, in their order in `s`. */
  function WithKey(k: SortKey, s: seq<Record>, key: (nat, nat)): seq<Record> {
    if s == [] then []
    else WithKey(k, s[..|s| - 1], key) + (if Key(k, s[|s| - 1]) == key then [s[|s| - 1]] else [])
  }

  /** `x` placed after every element of `t` whose key is not greater than its own. */
  function Insert(k: SortKey, t: seq<Record>, x: Record): seq<Record> {
    if t == [] then [x]
    else if Le(k, t[|t| - 1], x) then t + [x]
    else Insert(k, t[..|t| - 1], x) + [t[|t| - 1]]
  }

  /** The stable sort of `s` by key `k`. */
  function Sort(k: SortKey, s: seq<Record>): seq<Record> {
    if s == [] then [] else Insert(k, Sort(k, s[..|s| - 1]), s[|s| - 1])
  }

  lemma {:induction false} WithKeyAppend(k: SortKey, a: seq<Record>, b: seq<Record>, key: (nat, nat))
    ensures WithKey(k, a + b, key) == WithKey(k, a, key) + WithKey(k, b, key)
    decreases |b|
  {
    if b == [] {
      assert a + b == a;
    } else {
      assert (a + b)[..|a + b| - 1] == a + b[..|b| - 1];
      WithKeyAppend(k, a, b[..|b| - 1], key);
    }
  }

  lemma {:induction false} InsertPermutes(k: SortKey, t: seq<Record>, x: Record)
    ensures multiset(Insert(k, t, x)) == multiset(t) + multiset{x}
    decreases |t|
  {
    if t != [] && !Le(k, t[|t| - 1], x) {
      InsertPermutes(k, t[..|t| - 1], x);
      assert t == t[..|t| - 1] + [t[|t| - 1]];
    }
  }

  lemma {:induction false} InsertSorted(k: SortKey, t: seq<Record>, x: Record)
    requires SortedBy(k, t)
    ensures SortedBy(k, Insert(k, t, x))
    decreases |t|
  {
    if t != [] {
      var init, last := t[..|t| - 1], t[|t| - 1];
      if Le(k, last, x) {
        forall i | 0 <= i < |t| ensures Le(k, t[i], x) {
          if i < |t| - 1 {
            assert Le(k, t[i], last);
          }
        }
        SortedSnoc(k, t, x);
      } else {
        SortedInit(k, t);
        InsertSorted(k, init, x);
        InsertPermutes(k, init, x);
        var r := Insert(k, init, x);
        forall i | 0 <= i < |r| ensures Le(k, r[i], last) {
          var y := r[i];
          assert y in multiset(r);
          if y != x {
            assert y in multiset(init);
            var j :| 0 <= j < |init| && init[j] == y;
            assert Le(k, t[j], t[|t| - 1]);
          }
        }
        SortedSnoc(k, r, last);
      }
    }
  }

  /** A record no smaller than every record of a sorted list can follow it. */
  lemma SortedSnoc(k: SortKey, t: seq<Record>, x: Record)
    requires SortedBy(k, t) && forall i :: 0 <= i < |t| ==> Le(k, t[i], x)
    ensures SortedBy(k, t + [x])
  {
    var r := t + [x];
    forall i, j | 0 <= i < j < |r| ensures Le(k, r[i], r[j]) {
      assert r[i] == t[i];
      if j < |t| {
        assert r[j] == t[j];
      }
    }
  }

  lemma {:induction false} InsertStable(k: SortKey, t: seq<Record>, x: Record, key: (nat, nat))
    ensures WithKey(k, Insert(k, t, x), key) == WithKey(k, t, key) + WithKey(k, [x], key)
    decreases |t|
  {
    if t == [] {
    } else if Le(k, t[|t| - 1], x) {
      WithKeyAppend(k, t, [x], key);
    } else {
      var init, last := t[..|t| - 1], t[|t| - 1];
      InsertStable(k, init, x, key);
      assert t == init + [last];
      WithKeyAppend(k, Insert(k, init, x), [last], key);
      WithKeyAppend(k, init, [last], key);
    }
  }

  /** `Sort` returns a permutation of its input. */
  lemma {:induction false} SortPermutes(k: SortKey, s: seq<Record>)
    ensures multiset(Sort(k, s)) == multiset(s)
    decreases |s|
  {
    if s != [] {
      SortPermutes(k, s[..|s| - 1]);
      InsertPermutes(k, Sort(k, s[..|s| - 1]), s[|s| - 1]);
      assert s == s[..|s| - 1] + [s[|s| - 1]];
    }
  }

  /** `Sort` returns a list in non-decreasing key order. */
  lemma {:induction false} SortSorts(k: SortKey, s: seq<Record>)
    ensures SortedBy(k, Sort(k, s))
    decreases |s|
  {
    if s != [] {
      SortSorts(k, s[..|s| - 1]);
      InsertSorted(k, Sort(k, s[..|s| - 1]), s[|s| - 1]);
    }
  }

  /** `Sort` is stable: records with equal keys keep their relative order. */
  lemma {:induction false} SortStable(k: SortKey, s: seq<Record>, key: (nat, nat))
    ensures WithKey(k, Sort(k, s), key) == WithKey(k, s, key)
    decreases |s|
  {
    if s != [] {
      SortStable(k, s[..|s| - 1], key);
      InsertStable(k, Sort(k, s[..|s| - 1]), s[|s| - 1], key);
      WithKeyAppend(k, s[..|s| - 1], [s[|s| - 1]], key);
      assert s == s[..|s| - 1] + [s[|s| - 1]];
    }
  }

  lemma {:induction false} WithKeyMembers(k: SortKey, s: seq<Record>, key: (nat, nat))
    ensures forall y :: y in WithKey(k, s, key) <==> y in s && Key(k, y) == key
    decreases |s|
  {
    if s != [] {
      WithKeyMembers(k, s[..|s| - 1], key);
      assert s == s[..|s| - 1] + [s[|s| - 1]];
    }
  }

  /** In a sorted list, every key that occurs is at most the key of the last record. */
  lemma LastKeyIsMax(k: SortKey, t: seq<Record>, key: (nat, nat))
    requires SortedBy(k, t) && t != [] && WithKey(k, t, key) != []
    ensures KeyLe(key, Key(k, t[|t| - 1]))
  {
    WithKeyMembers(k, t, key);
    var y := WithKey(k, t, key)[0];
    assert y in WithKey(k, t, key);
    var j :| 0 <= j < |t| && t[j] == y;
    if j < |t| - 1 {
      assert Le(k, t[j], t[|t| - 1]);
    }
  }

  /** Two lists that agree on every key and end in records of the same key end in the same record. */
  lemma PeelLast(k: SortKey, init1: seq<Record>, l1: Record, init2: seq<Record>, l2: Record)
    requires Key(k, l1) == Key(k, l2)
    requires forall key :: WithKey(k, init1 + [l1], key) == WithKey(k, init2 + [l2], key)
    ensures l1 == l2
    ensures forall key :: WithKey(k, init1, key) == WithKey(k, init2, key)
  {
    var t1, t2 := init1 + [l1], init2 + [l2];
    assert t1[..|t1| - 1] == init1 && t2[..|t2| - 1] == init2;
    var key1 := Key(k, l1);
    var w := WithKey(k, t1, key1);
    assert w == WithKey(k, init1, key1) + [l1];
    assert w == WithKey(k, init2, key1) + [l2];
    assert l1 == w[|w| - 1] == l2;
    forall key ensures WithKey(k, init1, key) == WithKey(k, init2, key) {
      if key == key1 {
        assert WithKey(k, init1, key) == w[..|w| - 1] == WithKey(k, init2, key);
      } else {
        assert WithKey(k, init1, key) == WithKey(k, t1, key) == WithKey(k, t2, key) == WithKey(k, init2, key);
      }
    }
  }

  /** A list that agrees on every key with the empty list is empty. */
  lemma AgreesWithEmpty(k: SortKey, t: seq<Record>)
    requires forall key :: WithKey(k, t, key) == WithKey(k, [], key)
    ensures t == []
  {
    if t != [] {
      WithKeyMembers(k, t, Key(k, t[0]));
      assert false;
    }
  }

  /** Two sorted lists that agree on the records of every key, in order, are the same list. */
  lemma {:induction false} SortedAgreeing(k: SortKey, t1: seq<Record>, t2: seq<Record>)
    requires SortedBy(k, t1) && SortedBy(k, t2)
    requires forall key :: WithKey(k, t1, key) == WithKey(k, t2, key)
    ensures t1 == t2
    decreases |t1| + |t2|
  {
    if t1 == [] {
      AgreesWithEmpty(k, t2);
    } else if t2 == [] {
      AgreesWithEmpty(k, t1);
    } else {
      var init1, l1 := t1[..|t1| - 1], t1[|t1| - 1];
      var init2, l2 := t2[..|t2| - 1], t2[|t2| - 1];
      assert t1 == init1 + [l1] && t2 == init2 + [l2];
      assert WithKey(k, t1, Key(k, l1)) != [] by {
        WithKeyMembers(k, t1, Key(k, l1));
        assert l1 in t1;
      }
      assert WithKey(k, t2, Key(k, l2)) != [] by {
        WithKeyMembers(k, t2, Key(k, l2));
        assert l2 in t2;
      }
      LastKeyIsMax(k, t2, Key(k, l1));
      LastKeyIsMax(k, t1, Key(k, l2));
      assert Key(k, l1) == Key(k, l2);
      PeelLast(k, init1, l1, init2, l2);
      SortedInit(k, t1);
      SortedInit(k, t2);
      SortedAgreeing(k, init1, init2);
    }
  }

  lemma SortedInit(k: SortKey, t: seq<Record>)
    requires SortedBy(k, t) && t != []
    ensures SortedBy(k, t[..|t| - 1])
  {
  }

  /**
   * `Sort` is the only stable sort: any sorted list that keeps, for every key, the records of
   * `s` with that key in their order in `s` is `Sort(k, s)`.
   */
  lemma SortUnique(k: SortKey, s: seq<Record>, t: seq<Record>)
    requires SortedBy(k, t)
    requires forall key :: WithKey(k, t, key) == WithKey(k, s, key)
    ensures t == Sort(k, s)
  {
    SortSorts(k, s);
    forall key ensures WithKey(k, t, key) == WithKey(k, Sort(k, s), key) {
      SortStable(k, s, key);
    }
    SortedAgreeing(k, t, Sort(k, s));
  }

  /** Sorting a list already in key order leaves it unchanged. */
  lemma SortOfSorted(k: SortKey, s: seq<Record>)
    requires SortedBy(k, s)
    ensures Sort(k, s) == s
  {
    SortUnique(k, s, s);
  }

  /** Inserting `x` where the records after position `j` are exactly those with greater keys. */
  lemma {:induction false} InsertAt(k: SortKey, t: seq<Record>, x: Record, j: nat)
    requires j <= |t|
    requires j == 0 || Le(k, t[j - 1], x)
    requires forall m :: j <= m < |t| ==> !Le(k, t[m], x)
    ensures Insert(k, t, x) == t[..j] + [x] + t[j..]
    decreases |t|
  {
    if j == |t| {
      assert t[..j] == t && t[j..] == [];
    } else {
      var init := t[..|t| - 1];
      assert !Le(k, t[|t| - 1], x);
      InsertAt(k, init, x, j);
      assert init[..j] == t[..j] && init[j..] + [t[|t| - 1]] == t[j..];
    }
  }

  /** `list.sort(key=…)` on the records held in `a`: a stable insertion sort in place. */
  method SortInPlace(k: SortKey, a: array<Record>)
    modifies a
    ensures a[..] == Sort(k, old(a[..]))
  {
    ghost var s := a[..];
    var i := 0;
    while i < a.Length
      invariant 0 <= i <= a.Length
      invariant a[..i] == Sort(k, s[..i])
      invariant a[i..] == s[i..]
    {
      assert a[i] == s[i];
      InsertNext(k, a, i);
      assert s[..i + 1] == s[..i] + [s[i]];
      i := i + 1;
    }
    assert s[..i] == s;
  }

  /** One pass of the insertion sort: moves `a[i]` back past the records of `a[..i]` with greater keys. */
  method InsertNext(k: SortKey, a: array<Record>, i: nat)
    requires i < a.Length
    modifies a
    ensures a[..i + 1] == Insert(k, old(a[..i]), old(a[i]))
    ensures a[i + 1..] == old(a[i + 1..])
  {
    ghost var t := a[..i];
    var x := a[i];
    var j := i;
    while j > 0 && !Le(k, a[j - 1], x)
      invariant 0 <= j <= i
      invariant a[..j] == t[..j]
      invariant a[j + 1..i + 1] == t[j..]
      invariant forall m :: j <= m < i ==> !Le(k, t[m], x)
      invariant a[i + 1..] == old(a[i + 1..])
    {
      a[j] := a[j - 1];
      j := j - 1;
    }
    a[j] := x;
    InsertAt(k, t, x, j);
    assert a[..i + 1] == t[..j] + [x] + t[j..];
  }
}
