/**
 * String helpers the script relies on from Python's `str`: the substring test
 * `pat in line`, `line.split()` with no separator, and character runs.
 */
module Text {

  /** `pat` occurs in `s` starting at position `i`. */
  predicate StartsAt(s: string, i: nat, pat: string) {
    i + |pat| <= |s| && s[i..i + |pat|] == pat
  }

  /** `pat` occurs in `s` at position `i` or later: the left-to-right scan behind `pat in s`. */
  predicate ContainsFrom(s: string, pat: string, i: nat)
    decreases |s| - i
  {
    i + |pat| <= |s| && (StartsAt(s, i, pat) || (i < |s| && ContainsFrom(s, pat, i + 1)))
  }

  /** Python's `pat in s`. */
  predicate Contains(s: string, pat: string) {
    ContainsFrom(s, pat, 0)
  }

  lemma {:induction false} ContainsFromIff(s: string, pat: string, i: nat)
    ensures ContainsFrom(s, pat, i) <==> exists j: nat :: i <= j && StartsAt(s, j, pat)
    decreases |s| - i
  {
    if i + |pat| <= |s| && i < |s| {
      ContainsFromIff(s, pat, i + 1);
      if exists j: nat :: i <= j && StartsAt(s, j, pat) {
        var j: nat :| i <= j && StartsAt(s, j, pat);
        if j != i {
          assert i + 1 <= j;
        }
      }
    }
  }

  /** `pat in s` holds exactly when `pat` occurs at some position of `s`. */
  lemma ContainsIff(s: string, pat: string)
    ensures Contains(s, pat) <==> exists j: nat :: StartsAt(s, j, pat)
  {
    ContainsFromIff(s, pat, 0);
  }

  /** The characters for which Python's `str.isspace()` holds. */
  predicate IsSpace(c: char) {
    var u := c as int;
    || u == 0x20 || (0x09 <= u <= 0x0D) || (0x1C <= u <= 0x1F)
    || u == 0x85 || u == 0xA0 || u == 0x1680 || (0x2000 <= u <= 0x200A)
    || u == 0x2028 || u == 0x2029 || u == 0x202F || u == 0x205F || u == 0x3000
  }

  /** The character classes the script's pattern and `split` work with. */
  datatype CharClass = Alnum | Digit | NonSpace

  /** `[a-zA-Z0-9]`, `\d` restricted to ASCII decimal digits, and `\S`. */
  predicate InClass(c: char, cls: CharClass) {
    match cls
    case Alnum => 'a' <= c <= 'z' || 'A' <= c <= 'Z' || '0' <= c <= '9'
    case Digit => '0' <= c <= '9'
    case NonSpace => !IsSpace(c)
  }

  /** Length of the longest run of characters of class `cls` that starts at `i`. */
  function Run(s: string, i: nat, cls: CharClass): (n: nat)
    requires i <= |s|
    ensures i + n <= |s|
    decreases |s| - i
  {
    if i < |s| && InClass(s[i], cls) then 1 + Run(s, i + 1, cls) else 0
  }

  /** The run is made of characters of its class and stops at the end or at a character outside it. */
  lemma {:induction false} RunSpec(s: string, i: nat, cls: CharClass)
    requires i <= |s|
    ensures forall k :: i <= k < i + Run(s, i, cls) ==> InClass(s[k], cls)
    ensures i + Run(s, i, cls) == |s| || !InClass(s[i + Run(s, i, cls)], cls)
    decreases |s| - i
  {
    if i < |s| && InClass(s[i], cls) {
      RunSpec(s, i + 1, cls);
    }
  }

  /** A run is determined by where it stops: any maximal stretch of `cls` characters is the run. */
  lemma {:induction false} RunIs(s: string, i: nat, cls: CharClass, n: nat)
    requires i + n <= |s|
    requires forall k :: i <= k < i + n ==> InClass(s[k], cls)
    requires i + n == |s| || !InClass(s[i + n], cls)
    ensures Run(s, i, cls) == n
    decreases n
  {
    if n > 0 {
      RunIs(s, i + 1, cls, n - 1);
    }
  }

  /** Python's `s.split()`: the maximal runs of non-whitespace characters, in order. */
  function Split(s: string): seq<string>
    decreases |s|
  {
    if s == [] then []
    else if IsSpace(s[0]) then Split(s[1..])
    else
      var n := Run(s, 0, NonSpace);
      [s[..n]] + Split(s[n..])
  }

  predicate NoSpace(w: string) {
    forall k :: 0 <= k < |w| ==> !IsSpace(w[k])
  }

  /** The characters of `s` that are not whitespace, in order. */
  function NonSpaceChars(s: string): string {
    if s == [] then [] else (if IsSpace(s[0]) then [] else [s[0]]) + NonSpaceChars(s[1..])
  }

  function Concat(words: seq<string>): string {
    if words == [] then [] else words[0] + Concat(words[1..])
  }

  lemma {:induction false} NonSpaceAppend(a: string, b: string)
    ensures NonSpaceChars(a + b) == NonSpaceChars(a) + NonSpaceChars(b)
    decreases |a|
  {
    if a != [] {
      assert (a + b)[1..] == a[1..] + b;
      NonSpaceAppend(a[1..], b);
    } else {
      assert a + b == b;
    }
  }

  lemma {:induction false} NonSpaceOfWord(w: string)
    requires NoSpace(w)
    ensures NonSpaceChars(w) == w
    decreases |w|
  {
    if w != [] {
      NonSpaceOfWord(w[1..]);
    }
  }

  /** Every word of a split is non-empty and free of whitespace. */
  lemma {:induction false} SplitWords(s: string)
    ensures forall k :: 0 <= k < |Split(s)| ==> Split(s)[k] != [] && NoSpace(Split(s)[k])
    decreases |s|
  {
    if s != [] {
      if IsSpace(s[0]) {
        SplitWords(s[1..]);
      } else {
        var n := Run(s, 0, NonSpace);
        RunSpec(s, 0, NonSpace);
        SplitWords(s[n..]);
        assert Split(s) == [s[..n]] + Split(s[n..]);
      }
    }
  }

  /** Splitting loses exactly the whitespace: the words, put back together, are the other characters. */
  lemma {:induction false} SplitKeepsNonSpace(s: string)
    ensures Concat(Split(s)) == NonSpaceChars(s)
    decreases |s|
  {
    if s == [] {
    } else if IsSpace(s[0]) {
      SplitKeepsNonSpace(s[1..]);
    } else {
      var n := Run(s, 0, NonSpace);
      RunSpec(s, 0, NonSpace);
      assert s == s[..n] + s[n..];
      SplitKeepsNonSpace(s[n..]);
      NonSpaceAppend(s[..n], s[n..]);
      NonSpaceOfWord(s[..n]);
      assert Split(s) == [s[..n]] + Split(s[n..]);
      assert Split(s)[1..] == Split(s[n..]);
    }
  }
}
