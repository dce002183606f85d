/**
 * The file-name decoder: `re.compile(r"([a-zA-Z0-9]+)_s(\d+)_a(\d+)\.txt").search(name)`
 * followed by `int(...)` on the two digit groups.  The search is unanchored and returns the
 * leftmost match, so a prefix before the pattern and a suffix after ".txt" are both accepted.
 */
module FileName {
  import opened Wrappers
  import opened Text

  /** The three capture groups, with the digit groups converted by `int`. */
  datatype RunId = RunId(benchmark: string, nsets: nat, assoc: nat)

  predicate IsAlnum(c: char) { InClass(c, Alnum) }

  predicate IsDigit(c: char) { InClass(c, Digit) }

  predicate IsAlnumWord(w: string) { w != [] && forall k :: 0 <= k < |w| ==> IsAlnum(w[k]) }

  predicate IsDigits(w: string) { w != [] && forall k :: 0 <= k < |w| ==> IsDigit(w[k]) }

  /** The value of a decimal digit; only ever applied to digits. */
  function DigitValue(c: char): nat {
    if IsDigit(c) then c as int - '0' as int else 0
  }

  /** Python's `int` on a string of decimal digits (leading zeros allowed). */
  function DecimalValue(d: string): nat {
    if d == [] then 0 else DecimalValue(d[..|d| - 1]) * 10 + DigitValue(d[|d| - 1])
  }

  /** The name a run with these parameters is given. */
  function NameOf(benchmark: string, nsets: string, assoc: string): string {
    benchmark + "_s" + nsets + "_a" + assoc + ".txt"
  }

  /** The pattern matches `s` at `i` with these three groups (the regular expression read literally). */
  ghost predicate MatchesAt(s: string, i: nat, b: string, d1: string, d2: string) {
    IsAlnumWord(b) && IsDigits(d1) && IsDigits(d2) && StartsAt(s, i, NameOf(b, d1, d2))
  }

  /** No match of the pattern starts before `i`. */
  ghost predicate NoMatchBefore(s: string, i: nat) {
    forall j: nat, b, d1, d2 :: j < i ==> !MatchesAt(s, j, b, d1, d2)
  }

  predicate StartsWith(t: string, lit: string) { |lit| <= |t| && t[..|lit|] == lit }

  /**
   * The matcher anchored at the start of `t`.  Every quantifier of the pattern is greedy and
   * is followed by a character its class excludes ('_' after the name and after the first
   * digits, '.' after the second), so backtracking never finds a shorter alternative: each
   * group is a maximal run.
   */
  function MatchPrefix(t: string): Option<RunId> {
    var n := Run(t, 0, Alnum);
    if n == 0 || !StartsWith(t[n..], "_s") then None
    else
      match MatchNumbers(t[n + 2..])
      case None => None
      case Some(v) => Some(RunId(t[..n], v.0, v.1))
  }

  /** The anchored matcher for the rest of the pattern, `(\d+)_a(\d+)\.txt`. */
  function MatchNumbers(t: string): Option<(nat, nat)> {
    var m := Run(t, 0, Digit);
    if m == 0 || !StartsWith(t[m..], "_a") then None
    else
      var u := t[m + 2..];
      var n := Run(u, 0, Digit);
      if n == 0 || !StartsWith(u[n..], ".txt") then None
      else Some((DecimalValue(t[..m]), DecimalValue(u[..n])))
  }

  /** `search`: try each start position from `i` on, leftmost first. */
  function Search(s: string, i: nat): Option<RunId>
    requires i <= |s|
    decreases |s| - i
  {
    match MatchPrefix(s[i..])
    case Some(id) => Some(id)
    case None => if i == |s| then None else Search(s, i + 1)
  }

  function Decode(name: string): Option<RunId> {
    Search(name, 0)
  }

  lemma WordThen(w: string, rest: string, cls: CharClass)
    requires forall k :: 0 <= k < |w| ==> InClass(w[k], cls)
    requires rest != [] && !InClass(rest[0], cls)
    ensures Run(w + rest, 0, cls) == |w| && (w + rest)[..|w|] == w && (w + rest)[|w|..] == rest
  {
    assert (w + rest)[|w|] == rest[0];
    RunIs(w + rest, 0, cls, |w|);
  }

  lemma LiteralThen(lit: string, rest: string)
    ensures StartsWith(lit + rest, lit) && (lit + rest)[|lit|..] == rest
  {
    assert (lit + rest)[..|lit|] == lit;
  }

  lemma MatchNumbersOf(d1: string, d2: string, rest: string)
    requires IsDigits(d1) && IsDigits(d2)
    ensures MatchNumbers(d1 + ("_a" + (d2 + (".txt" + rest)))) == Some((DecimalValue(d1), DecimalValue(d2)))
  {
    var t := d1 + ("_a" + (d2 + (".txt" + rest)));
    WordThen(d1, "_a" + (d2 + (".txt" + rest)), Digit);
    LiteralThen("_a", d2 + (".txt" + rest));
    assert t[|d1| + 2..] == d2 + (".txt" + rest);
    WordThen(d2, ".txt" + rest, Digit);
    LiteralThen(".txt", rest);
  }

  lemma MatchPrefixOf(b: string, d1: string, d2: string, rest: string)
    requires IsAlnumWord(b) && IsDigits(d1) && IsDigits(d2)
    ensures MatchPrefix(b + ("_s" + (d1 + ("_a" + (d2 + (".txt" + rest))))))
         == Some(RunId(b, DecimalValue(d1), DecimalValue(d2)))
  {
    var t := b + ("_s" + (d1 + ("_a" + (d2 + (".txt" + rest)))));
    WordThen(b, "_s" + (d1 + ("_a" + (d2 + (".txt" + rest)))), Alnum);
    LiteralThen("_s", d1 + ("_a" + (d2 + (".txt" + rest))));
    assert t[|b| + 2..] == d1 + ("_a" + (d2 + (".txt" + rest)));
    MatchNumbersOf(d1, d2, rest);
  }

  /** A match at `i` is the name followed by whatever comes after it. */
  lemma MatchSplits(s: string, i: nat, b: string, d1: string, d2: string)
    requires StartsAt(s, i, NameOf(b, d1, d2))
    ensures s[i..] == b + ("_s" + (d1 + ("_a" + (d2 + (".txt" + s[i + |NameOf(b, d1, d2)|..])))))
  {
    var n := |NameOf(b, d1, d2)|;
    assert s[i..] == s[i..i + n] + s[i + n..];
  }

  /** Whenever the pattern matches at `i`, the anchored matcher finds exactly those groups. */
  lemma MatchAtComplete(s: string, i: nat, b: string, d1: string, d2: string)
    requires MatchesAt(s, i, b, d1, d2)
    ensures i <= |s| && MatchPrefix(s[i..]) == Some(RunId(b, DecimalValue(d1), DecimalValue(d2)))
  {
    MatchSplits(s, i, b, d1, d2);
    MatchPrefixOf(b, d1, d2, s[i + |NameOf(b, d1, d2)|..]);
  }

  /** A string that starts with a literal is that literal followed by the rest. */
  lemma LiteralSplit(t: string, k: nat, lit: string)
    requires k <= |t| && StartsWith(t[k..], lit)
    ensures t == t[..k] + (lit + t[k + |lit|..])
  {
    assert t[k..][..|lit|] == t[k..k + |lit|];
    assert t == t[..k] + t[k..k + |lit|] + t[k + |lit|..];
  }

  lemma MatchNumbersSound(t: string) returns (d1: string, d2: string, rest: string)
    requires MatchNumbers(t).Some?
    ensures IsDigits(d1) && IsDigits(d2) && t == d1 + ("_a" + (d2 + (".txt" + rest)))
    ensures MatchNumbers(t) == Some((DecimalValue(d1), DecimalValue(d2)))
  {
    var m, n := MatchNumbersParts(t);
    var u := t[m + 2..];
    d1, d2, rest := t[..m], u[..n], u[n + 4..];
    DigitRun(t);
    DigitRun(u);
    LiteralSplit(u, n, ".txt");
    LiteralSplit(t, m, "_a");
    assert u == d2 + (".txt" + rest);
  }

  /** A successful match of the numbers splits at the end of each digit run. */
  lemma MatchNumbersParts(t: string) returns (m: nat, n: nat)
    requires MatchNumbers(t).Some?
    ensures m == Run(t, 0, Digit) && m != 0 && m + 2 <= |t| && StartsWith(t[m..], "_a")
    ensures n == Run(t[m + 2..], 0, Digit) && n != 0 && n + 4 <= |t[m + 2..]| && StartsWith(t[m + 2..][n..], ".txt")
    ensures MatchNumbers(t) == Some((DecimalValue(t[..m]), DecimalValue(t[m + 2..][..n])))
  {
    m := Run(t, 0, Digit);
    n := Run(t[m + 2..], 0, Digit);
  }

  /** A non-empty run of digits at the start of `t` is a digit string. */
  lemma DigitRun(t: string)
    requires Run(t, 0, Digit) != 0
    ensures IsDigits(t[..Run(t, 0, Digit)])
  {
    var n := Run(t, 0, Digit);
    RunSpec(t, 0, Digit);
    forall k | 0 <= k < n ensures IsDigit(t[..n][k]) {
      assert t[..n][k] == t[k];
    }
  }

  /** A non-empty alphanumeric run at the start of `t` is a name the pattern accepts. */
  lemma AlnumRun(t: string)
    requires Run(t, 0, Alnum) != 0
    ensures IsAlnumWord(t[..Run(t, 0, Alnum)])
  {
    var n := Run(t, 0, Alnum);
    RunSpec(t, 0, Alnum);
    forall k | 0 <= k < n ensures IsAlnum(t[..n][k]) {
      assert t[..n][k] == t[k];
    }
  }

  lemma MatchPrefixSound(t: string) returns (b: string, d1: string, d2: string, rest: string)
    requires MatchPrefix(t).Some?
    ensures MatchPrefix(t) == Some(RunId(b, DecimalValue(d1), DecimalValue(d2)))
    ensures IsAlnumWord(b) && IsDigits(d1) && IsDigits(d2)
    ensures t == b + ("_s" + (d1 + ("_a" + (d2 + (".txt" + rest)))))
  {
    var n := MatchPrefixParts(t);
    var u := t[n + 2..];
    d1, d2, rest := MatchNumbersSound(u);
    b := t[..n];
    AlnumRun(t);
    LiteralSplit(t, n, "_s");
  }

  /** A successful anchored match splits at the end of the name's run, before `_s`. */
  lemma MatchPrefixParts(t: string) returns (n: nat)
    requires MatchPrefix(t).Some?
    ensures n == Run(t, 0, Alnum) && n != 0 && n + 2 <= |t| && StartsWith(t[n..], "_s")
    ensures MatchNumbers(t[n + 2..]).Some?
    ensures MatchPrefix(t) == Some(RunId(t[..n], MatchNumbers(t[n + 2..]).value.0, MatchNumbers(t[n + 2..]).value.1))
  {
    n := Run(t, 0, Alnum);
  }

  lemma SuffixStartsAt(s: string, i: nat, name: string, rest: string)
    requires i <= |s| && s[i..] == name + rest
    ensures StartsAt(s, i, name)
  {
    assert s[i..i + |name|] == s[i..][..|name|];
  }

  lemma Reassociate(b: string, d1: string, d2: string, rest: string)
    ensures b + ("_s" + (d1 + ("_a" + (d2 + (".txt" + rest))))) == NameOf(b, d1, d2) + rest
  {
  }

  /** The anchored matcher at `i` returns a match of the pattern at `i`. */
  lemma MatchAtSound(s: string, i: nat) returns (d1: string, d2: string)
    requires i <= |s| && MatchPrefix(s[i..]).Some?
    ensures MatchesAt(s, i, MatchPrefix(s[i..]).value.benchmark, d1, d2)
    ensures MatchPrefix(s[i..]).value.nsets == DecimalValue(d1)
    ensures MatchPrefix(s[i..]).value.assoc == DecimalValue(d2)
  {
    var t := s[i..];
    var b, rest;
    b, d1, d2, rest := MatchPrefixSound(t);
    Reassociate(b, d1, d2, rest);
    SuffixStartsAt(s, i, NameOf(b, d1, d2), rest);
  }

  lemma {:induction false} SearchFindsLeftmost(s: string, j: nat, i: nat, b: string, d1: string, d2: string)
    requires j <= i && MatchesAt(s, i, b, d1, d2) && NoMatchBefore(s, i)
    ensures j <= |s| && Search(s, j) == Some(RunId(b, DecimalValue(d1), DecimalValue(d2)))
    decreases i - j
  {
    MatchAtComplete(s, i, b, d1, d2);
    if j < i {
      if MatchPrefix(s[j..]).Some? {
        var d1', d2' := MatchAtSound(s, j);
        assert false;
      }
      SearchFindsLeftmost(s, j + 1, i, b, d1, d2);
    }
  }

  lemma {:induction false} SearchSound(s: string, j: nat)
    requires j <= |s| && Search(s, j).Some? && NoMatchBefore(s, j)
    ensures exists i: nat, d1, d2 ::
      && MatchesAt(s, i, Search(s, j).value.benchmark, d1, d2)
      && Search(s, j).value.nsets == DecimalValue(d1) && Search(s, j).value.assoc == DecimalValue(d2)
      && NoMatchBefore(s, i)
    decreases |s| - j
  {
    if MatchPrefix(s[j..]).Some? {
      var d1, d2 := MatchAtSound(s, j);
    } else {
      forall b, d1, d2 | MatchesAt(s, j, b, d1, d2) ensures false {
        MatchAtComplete(s, j, b, d1, d2);
      }
      SearchSound(s, j + 1);
    }
  }

  /** A decoded name contains a match of the pattern with those groups, and none further left. */
  lemma DecodeSound(name: string)
    requires Decode(name).Some?
    ensures exists i: nat, d1, d2 ::
      && MatchesAt(name, i, Decode(name).value.benchmark, d1, d2)
      && Decode(name).value.nsets == DecimalValue(d1) && Decode(name).value.assoc == DecimalValue(d2)
      && NoMatchBefore(name, i)
  {
    SearchSound(name, 0);
  }

  /** The leftmost match of the pattern is what the decoder returns. */
  lemma DecodeLeftmost(name: string, i: nat, b: string, d1: string, d2: string)
    requires MatchesAt(name, i, b, d1, d2) && NoMatchBefore(name, i)
    ensures Decode(name) == Some(RunId(b, DecimalValue(d1), DecimalValue(d2)))
  {
    SearchFindsLeftmost(name, 0, i, b, d1, d2);
  }

  lemma {:induction false} SearchNone(s: string, j: nat)
    requires j <= |s| && Search(s, j).None?
    ensures forall i: nat, b, d1, d2 :: j <= i ==> !MatchesAt(s, i, b, d1, d2)
    decreases |s| - j
  {
    forall b, d1, d2 | MatchesAt(s, j, b, d1, d2) ensures false {
      MatchAtComplete(s, j, b, d1, d2);
    }
    if j < |s| {
      SearchNone(s, j + 1);
    } else {
      forall i: nat, b, d1, d2 | j < i ensures !MatchesAt(s, i, b, d1, d2) {
      }
    }
  }

  /** A name decodes exactly when the pattern matches somewhere in it. */
  lemma DecodeSomeIff(name: string)
    ensures Decode(name).Some? <==> exists i: nat, b, d1, d2 :: MatchesAt(name, i, b, d1, d2)
  {
    if Decode(name).Some? {
      DecodeSound(name);
    } else {
      SearchNone(name, 0);
    }
  }

  /** A decoded benchmark name is a whole alphanumeric word: no alphanumeric character precedes it. */
  lemma BenchmarkIsWholeWord(name: string, i: nat, b: string, d1: string, d2: string)
    requires MatchesAt(name, i, b, d1, d2) && NoMatchBefore(name, i)
    ensures i == 0 || !IsAlnum(name[i - 1])
  {
    if i > 0 && IsAlnum(name[i - 1]) {
      var b' := [name[i - 1]] + b;
      var n := NameOf(b, d1, d2);
      assert NameOf(b', d1, d2) == [name[i - 1]] + n;
      assert name[i - 1..i - 1 + |n| + 1] == [name[i - 1]] + name[i..i + |n|];
      assert MatchesAt(name, i - 1, b', d1, d2);
    }
  }

  /** The decimal rendering of a count, as the files are named. */
  function Show(n: nat): (d: string)
    ensures IsDigits(d) && DecimalValue(d) == n
  {
    if n < 10 then [('0' as int + n) as char]
    else
      var d := Show(n / 10) + [('0' as int + n % 10) as char];
      assert d[..|d| - 1] == Show(n / 10);
      d
  }

  /** A file named by the convention decodes back to the parameters it was named from. */
  lemma NameRoundTrip(benchmark: string, nsets: nat, assoc: nat)
    requires IsAlnumWord(benchmark)
    ensures Decode(NameOf(benchmark, Show(nsets), Show(assoc))) == Some(RunId(benchmark, nsets, assoc))
  {
    var name := NameOf(benchmark, Show(nsets), Show(assoc));
    assert StartsAt(name, 0, name);
    DecodeLeftmost(name, 0, benchmark, Show(nsets), Show(assoc));
  }

  /** A name in which an underscore-separated prefix precedes the pattern. */
  const Sample := "foo_bar_s1_a2.txt"

  lemma SampleMatch()
    ensures MatchPrefix(Sample[4..]) == Some(RunId("bar", 1, 2))
  {
    var b, d1, d2 := "bar", "1", "2";
    assert IsAlnumWord(b) && IsDigits(d1) && IsDigits(d2);
    assert DecimalValue(d1) == 1 by { assert d1[..0] == []; }
    assert DecimalValue(d2) == 2 by { assert d2[..0] == []; }
    var x := b + ("_s" + (d1 + ("_a" + (d2 + (".txt" + [])))));
    assert Sample[4..] == x;
    MatchPrefixOf(b, d1, d2, []);
  }

  /** Before position 4 the alphanumeric run ends at the `_` of `foo_`, which is not followed by `s`. */
  lemma SampleNoEarlierMatch(j: nat)
    requires j < 4
    ensures MatchPrefix(Sample[j..]) == None
  {
    var t := Sample[j..];
    assert t[3 - j] == '_' && t[4 - j] == 'b';
    assert forall k :: 0 <= k < 3 - j ==> t[k] == Sample[j + k] && InClass(t[k], Alnum);
    RunIs(t, 0, Alnum, 3 - j);
    assert t[3 - j..][1] == 'b';
    assert !StartsWith(t[3 - j..], "_s");
  }

  /** The search is unanchored and takes the leftmost match: `foo_bar_s1_a2.txt` is filed under `bar`. */
  lemma LeftmostSample()
    ensures Decode(Sample) == Some(RunId("bar", 1, 2))
  {
    SampleMatch();
    SampleNoEarlierMatch(0);
    SampleNoEarlierMatch(1);
    SampleNoEarlierMatch(2);
    SampleNoEarlierMatch(3);
    assert Search(Sample, 4) == Some(RunId("bar", 1, 2));
    assert Search(Sample, 2) == Search(Sample, 4);
    assert Search(Sample, 0) == Search(Sample, 2);
  }
}
