/**
 * The metric extractor: the loop over one file's lines that keeps the last `il1.miss_rate`
 * and `dl1.miss_rate` values seen.  `float` is the parameter `parse`; `None` stands for the
 * `ValueError` it raises, which ends the scan of the file.
 */
module Extract {
  import opened Wrappers
  import opened Text
  import opened Seqs

  /** The two first-level caches whose miss rates are extracted. */
  datatype Cache = IL1 | DL1

  function Marker(c: Cache): string {
    match c
    case IL1 => "il1.miss_rate"
    case DL1 => "dl1.miss_rate"
  }

  /** A key/value line for `c`: it contains the marker and splits into at least two words. */
  predicate Qualifies(line: string, c: Cache) {
    Contains(line, Marker(c)) && |Split(line)| >= 2
  }

  /** The word `float` is applied to: the second whitespace-separated word. */
  function ValueToken(line: string): string
    requires |Split(line)| >= 2
  {
    Split(line)[1]
  }

  /** `float` raises on a key/value line for `c`. */
  ghost predicate Raises(line: string, c: Cache, parse: string -> Option<real>) {
    Qualifies(line, c) && parse(ValueToken(line)).None?
  }

  /** The last key/value line for `c` is line `k`. */
  ghost predicate LastQualifying(lines: seq<string>, k: int, c: Cache) {
    && 0 <= k < |lines| && Qualifies(lines[k], c)
    && forall j :: k < j < |lines| ==> !Qualifies(lines[j], c)
  }

  /** What one line does to the slot for `c`. */
  datatype Effect = Keep | Overwrite(value: real) | Raise

  function EffectOn(line: string, c: Cache, parse: string -> Option<real>): Effect {
    if !Qualifies(line, c) then Keep
    else
      match parse(ValueToken(line))
      case Some(v) => Overwrite(v)
      case None => Raise
  }

  /** The state of the scan: the two slots `il1_miss` and `dl1_miss`, or the exception that ended it. */
  datatype Scan = Aborted | Scanning(il1: Option<real>, dl1: Option<real>) {
    function Slot(c: Cache): Option<real>
      requires Scanning?
    {
      match c
      case IL1 => il1
      case DL1 => dl1
    }
  }

  function Apply(slot: Option<real>, e: Effect): Option<real> {
    if e.Overwrite? then Some(e.value) else slot
  }

  /** One iteration of the loop: the `il1` check, then the `dl1` check, on the same line. */
  function Step(st: Scan, line: string, parse: string -> Option<real>): Scan {
    match st
    case Aborted => Aborted
    case Scanning(il1, dl1) =>
      var ei, ed := EffectOn(line, IL1, parse), EffectOn(line, DL1, parse);
      if ei.Raise? || ed.Raise? then Aborted
      else Scanning(Apply(il1, ei), Apply(dl1, ed))
  }

  /** The state after scanning `lines`, both slots starting at `None`. */
  function ScanLines(lines: seq<string>, parse: string -> Option<real>): Scan {
    if lines == [] then Scanning(None, None)
    else Step(ScanLines(lines[..|lines| - 1], parse), lines[|lines| - 1], parse)
  }

  /** The line loop.  An exception from `float` leaves it at once. */
  method ScanFile(lines: seq<string>, parse: string -> Option<real>) returns (st: Scan)
    ensures st == ScanLines(lines, parse)
  {
    var il1: Option<real> := None;
    var dl1: Option<real> := None;
    var k := 0;
    while k < |lines|
      invariant 0 <= k <= |lines|
      invariant ScanLines(lines[..k], parse) == Scanning(il1, dl1)
    {
      ScanOneMore(lines, k, parse);
      var next := ScanLine(lines[k], il1, dl1, parse);
      if next.Aborted? {
        AbortIsFinal(lines, k + 1, parse);
        return Aborted;
      }
      il1, dl1 := next.il1, next.dl1;
      k := k + 1;
    }
    assert lines[..k] == lines;
    return Scanning(il1, dl1);
  }

  /** The body of the line loop: the `il1` check, then the `dl1` check; `Aborted` when `float` raises. */
  method ScanLine(line: string, il1: Option<real>, dl1: Option<real>, parse: string -> Option<real>) returns (st: Scan)
    ensures st == Step(Scanning(il1, dl1), line, parse)
  {
    var i, d := il1, dl1;
    if Contains(line, Marker(IL1)) {
      var parts := Split(line);
      if |parts| >= 2 {
        var v := parse(parts[1]);
        if v.None? {
          return Aborted;
        }
        i := v;
      }
    }
    if Contains(line, Marker(DL1)) {
      var parts := Split(line);
      if |parts| >= 2 {
        var v := parse(parts[1]);
        if v.None? {
          return Aborted;
        }
        d := v;
      }
    }
    return Scanning(i, d);
  }

  /** The scan of one more line is one more step. */
  lemma ScanOneMore(lines: seq<string>, k: nat, parse: string -> Option<real>)
    requires k < |lines|
    ensures ScanLines(lines[..k + 1], parse) == Step(ScanLines(lines[..k], parse), lines[k], parse)
  {
    assert lines[..k + 1][..k] == lines[..k];
  }

  /** Once `float` has raised, no later line resumes the scan. */
  lemma {:induction false} AbortIsFinal(lines: seq<string>, m: nat, parse: string -> Option<real>)
    requires m <= |lines| && ScanLines(lines[..m], parse).Aborted?
    ensures ScanLines(lines, parse).Aborted?
    decreases |lines|
  {
    if m < |lines| {
      var init := lines[..|lines| - 1];
      assert init[..m] == lines[..m];
      AbortIsFinal(init, m, parse);
    } else {
      assert lines[..m] == lines;
    }
  }

  /** A scan that survives a line keeps the slot unless the line is a key/value line for `c`. */
  lemma StepSlot(st: Scan, line: string, c: Cache, parse: string -> Option<real>)
    requires Step(st, line, parse).Scanning?
    ensures st.Scanning? && !Raises(line, c, parse)
    ensures Step(st, line, parse).Slot(c) == if Qualifies(line, c) then parse(ValueToken(line)) else st.Slot(c)
  {
  }

  /** The scan of a file is abandoned exactly when `float` fails on some key/value line. */
  lemma {:induction false} ScanAbortsIff(lines: seq<string>, parse: string -> Option<real>)
    ensures ScanLines(lines, parse).Aborted? <==>
      exists k :: 0 <= k < |lines| && (Raises(lines[k], IL1, parse) || Raises(lines[k], DL1, parse))
    decreases |lines|
  {
    if lines != [] {
      var init, last := lines[..|lines| - 1], lines[|lines| - 1];
      ScanAbortsIff(init, parse);
      StepAborts(ScanLines(init, parse), last, parse);
      var raises := (line: string) => Raises(line, IL1, parse) || Raises(line, DL1, parse);
      assert forall k :: 0 <= k < |lines| ==> raises(lines[k]) == (Raises(lines[k], IL1, parse) || Raises(lines[k], DL1, parse));
      assert forall k :: 0 <= k < |init| ==> raises(init[k]) == (Raises(init[k], IL1, parse) || Raises(init[k], DL1, parse));
      SomeSnoc(lines, init, raises);
    }
  }

  /** One line ends the scan exactly when it was already over or `float` fails on the line. */
  lemma StepAborts(st: Scan, line: string, parse: string -> Option<real>)
    ensures Step(st, line, parse).Aborted? <==> st.Aborted? || Raises(line, IL1, parse) || Raises(line, DL1, parse)
  {
  }

  /** No line is a key/value line for `c`, stated line by line from the end. */
  ghost predicate NoneQualify(lines: seq<string>, c: Cache) {
    lines == [] || (NoneQualify(lines[..|lines| - 1], c) && !Qualifies(lines[|lines| - 1], c))
  }

  lemma {:induction false} NoneQualifyIff(lines: seq<string>, c: Cache)
    ensures NoneQualify(lines, c) <==> forall k :: 0 <= k < |lines| ==> !Qualifies(lines[k], c)
    decreases |lines|
  {
    if lines != [] {
      var init := lines[..|lines| - 1];
      NoneQualifyIff(init, c);
      assert forall k :: 0 <= k < |init| ==> init[k] == lines[k];
    }
  }

  lemma {:induction false} SlotEmptyNone(lines: seq<string>, c: Cache, parse: string -> Option<real>)
    requires ScanLines(lines, parse).Scanning?
    ensures ScanLines(lines, parse).Slot(c).None? <==> NoneQualify(lines, c)
    decreases |lines|
  {
    if lines != [] {
      var init, last := lines[..|lines| - 1], lines[|lines| - 1];
      StepSlot(ScanLines(init, parse), last, c, parse);
      SlotEmptyNone(init, c, parse);
    }
  }

  /** When the scan completes, the slot for `c` is empty exactly when no line is a key/value line for `c`. */
  lemma SlotEmptyIff(lines: seq<string>, c: Cache, parse: string -> Option<real>)
    requires ScanLines(lines, parse).Scanning?
    ensures ScanLines(lines, parse).Slot(c).None? <==> forall k :: 0 <= k < |lines| ==> !Qualifies(lines[k], c)
  {
    SlotEmptyNone(lines, c, parse);
    NoneQualifyIff(lines, c);
  }

  /** Last write wins: when the scan completes, the slot for `c` holds the value of the last key/value line for `c`. */
  lemma {:induction false} LastWins(lines: seq<string>, k: nat, c: Cache, parse: string -> Option<real>)
    requires ScanLines(lines, parse).Scanning? && LastQualifying(lines, k, c)
    ensures ScanLines(lines, parse).Slot(c) == parse(ValueToken(lines[k]))
    decreases |lines|
  {
    var init, last := lines[..|lines| - 1], lines[|lines| - 1];
    StepSlot(ScanLines(init, parse), last, c, parse);
    if k < |lines| - 1 {
      assert !Qualifies(last, c);
      assert LastQualifying(init, k, c) by {
        assert forall j :: k < j < |init| ==> init[j] == lines[j];
      }
      LastWins(init, k, c, parse);
    }
  }
}
