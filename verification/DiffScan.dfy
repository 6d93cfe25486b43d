/** The scan of `git diff --unified=0` output in `getChangedLines`
    (main.py): which lines of which files a diff adds or changes.

    The scan keeps one piece of state, the file the current hunks belong to
    (or none), and a map from absolute path to the list of changed line
    numbers in the new version of the file. It reads three kinds of lines,
    each recognised by a regular expression applied at the start of the line
    (Python's `re.match`):
      `+++ b/<path>`                 the new-side name of the next file,
      `+++ /dev/null`                a deleted file (no new side),
      `@@ -a[,b] +c[,d] @@`          a hunk: d new lines from line c
                                     (d omitted means 1, as in the unified
                                     format of GNU diff),
    and ignores every other line. */
module DiffScan {
  import opened Wrappers
  import opened Text

  /** `os.path.abspath(os.path.join(folder, relativePath))`: depends on the
      working directory, so it is a parameter of the model. */
  type Resolver = (string, string) -> string

  /** What `(.*)` captures: the text up to the first line feed. */
  function UpToNewline(s: string): (r: string)
    ensures |r| <= |s| && r == s[..|r|]
    ensures '\n' !in r
    ensures |r| == |s| || s[|r|] == '\n'
  {
    if s == [] || s[0] == '\n' then [] else [s[0]] + UpToNewline(s[1..])
  }

  /** `re.match(r"\+{3} b/(.*)", line)`: the captured path, if it matches. */
  function MatchNewFile(line: string): (r: Option<string>)
    ensures r.Some? <==> StartsWith(line, "+++ b/")
    ensures r.Some? ==> StartsWith(line, "+++ b/" + r.value) && '\n' !in r.value
  {
    if StartsWith(line, "+++ b/") then Some(UpToNewline(line[6..])) else None
  }

  /** `re.match(r"\+{3} /dev/null", line) is not None` */
  predicate MatchDevNull(line: string) {
    StartsWith(line, "+++ /dev/null")
  }

  /** The length of the run of decimal digits that `s` starts with. */
  function DigitRun(s: string): (j: nat)
    ensures j <= |s|
    ensures forall k :: 0 <= k < j ==> IsDigit(s[k])
    ensures j == |s| || !IsDigit(s[j])
  {
    if s != [] && IsDigit(s[0]) then 1 + DigitRun(s[1..]) else 0
  }

  /** `\d+` at the start of `s`: its value and the text after it. The run is
      taken whole: in the hunk pattern every `\d+` is followed by ',' or ' ',
      so a shorter run never leads to a match. */
  function Number(s: string): Option<(nat, string)> {
    var j := DigitRun(s);
    if j == 0 then None else Some((DigitsValue(s[..j]), s[j..]))
  }

  /** `(?:,(\d+))?` followed by the literal `suffix`, at the start of `s`: the
      optional count, and the text after the suffix. As the regular
      expression does, the group is tried first and skipped if what follows
      does not match. */
  function OptionalCount(s: string, suffix: string): Option<(Option<nat>, string)> {
    var withCount :=
      if s != [] && s[0] == ',' then
        match Number(s[1..])
        case Some((v, r)) => if StartsWith(r, suffix) then Some((Some(v), r[|suffix|..])) else None
        case None => None
      else None;
    if withCount.Some? then withCount
    else if StartsWith(s, suffix) then Some((None, s[|suffix|..]))
    else None
  }

  /** `re.match(r"@@ -\d+(?:,\d+)? \+(\d+)(?:,(\d+))? @@", line)`: the new
      start line and the new line count (`int(group(2)) if group(2) else 1`). */
  function MatchHunk(line: string): (r: Option<(nat, nat)>)
    ensures r.Some? ==> StartsWith(line, "@@ -")
  {
    if !StartsWith(line, "@@ -") then None
    else match Number(line[4..])
      case None => None
      case Some((_, r1)) =>
        match OptionalCount(r1, " +")
        case None => None
        case Some((_, r2)) => MatchNewSide(r2)
  }

  /** `(\d+)(?:,(\d+))? @@` at the start of `s`: the new side of a hunk
      header. */
  function MatchNewSide(s: string): Option<(nat, nat)> {
    match Number(s)
    case None => None
    case Some((start, r)) =>
      match OptionalCount(r, " @@")
      case None => None
      case Some((count, _)) => Some((start, count.GetOr(1)))
  }

  // ---------------------------------------------------------------------
  // The hunk header as diff writes it, and the parser's round trip.

  function CountSuffix(count: Option<nat>): string {
    match count
    case None => ""
    case Some(n) => "," + NatToDecimal(n)
  }

  /** `+++ b/<path>`, the new-side file header. */
  function NewFileHeader(path: string): string {
    "+++ b/" + path
  }

  /** `@@ -a[,b] +c[,d] @@`, with a count written only when given. */
  function HunkHeader(oldStart: nat, oldCount: Option<nat>, newStart: nat, newCount: Option<nat>): string {
    "@@ -" + NatToDecimal(oldStart) + CountSuffix(oldCount)
      + " +" + NatToDecimal(newStart) + CountSuffix(newCount) + " @@"
  }

  /** A digit run stops where the digits do. */
  lemma {:induction false} DigitRunOf(d: string, q: string)
    requires AllDigits(d)
    requires q == [] || !IsDigit(q[0])
    ensures DigitRun(d + q) == |d|
    decreases |d|
  {
    if d != [] {
      assert (d + q)[1..] == d[1..] + q;
      DigitRunOf(d[1..], q);
    } else {
      assert d + q == q;
    }
  }

  /** A numeral as `"%d"` writes it, followed by a non-digit, reads back. */
  lemma NumberOf(n: nat, q: string)
    requires q == [] || !IsDigit(q[0])
    ensures Number(NatToDecimal(n) + q) == Some((n, q))
  {
    var d := NatToDecimal(n);
    DigitRunOf(d, q);
    assert (d + q)[..|d|] == d;
    assert (d + q)[|d|..] == q;
    DecimalRoundTrip(n);
  }

  /** A count as diff writes it (or none), followed by `suffix`, reads back. */
  lemma CountOf(count: Option<nat>, suffix: string, q: string)
    requires |suffix| > 0 && suffix[0] == ' '
    ensures OptionalCount(CountSuffix(count) + suffix + q, suffix) == Some((count, q))
  {
    var s := CountSuffix(count) + suffix + q;
    match count
    case None =>
      assert s == suffix + q;
      PrefixThen(s, suffix, q);
    case Some(n) =>
      var d := NatToDecimal(n);
      assert s[1..] == d + (suffix + q);
      NumberOf(n, suffix + q);
      PrefixThen(suffix + q, suffix, q);
  }

  /** What follows a number in a hunk header does not start with a digit. */
  lemma CountSuffixHead(count: Option<nat>, suffix: string, q: string)
    requires |suffix| > 0 && suffix[0] == ' '
    ensures var t := CountSuffix(count) + suffix + q; |t| > 0 && !IsDigit(t[0])
  {
  }

  /** A literal prefix, and what follows it. */
  lemma PrefixThen(s: string, p: string, q: string)
    requires s == p + q
    ensures StartsWith(s, p) && s[|p|..] == q
  {
    assert s[..|p|] == p;
  }

  /** Reading back a hunk header that diff wrote (followed by anything) gives
      its new start line and its new line count, 1 when the count is omitted. */
  lemma HunkHeaderRoundTrip(oldStart: nat, oldCount: Option<nat>,
                            newStart: nat, newCount: Option<nat>, rest: string)
    ensures MatchHunk(HunkHeader(oldStart, oldCount, newStart, newCount) + rest)
            == Some((newStart, newCount.GetOr(1)))
  {
    var r3 := CountSuffix(newCount) + " @@" + rest;
    var r2 := NatToDecimal(newStart) + r3;
    var r1 := CountSuffix(oldCount) + " +" + r2;
    HeaderSplit(NatToDecimal(oldStart), CountSuffix(oldCount), NatToDecimal(newStart), CountSuffix(newCount), rest);
    OldSideOf(oldStart, oldCount, r2);
    NewSideOf(newStart, newCount, rest);
  }

  /** The header and what follows it, regrouped as the parser reads them. */
  lemma HeaderSplit(a: string, b: string, c: string, d: string, rest: string)
    ensures "@@ -" + a + b + " +" + c + d + " @@" + rest
            == "@@ -" + (a + (b + " +" + (c + (d + " @@" + rest))))
  {
    var r3 := d + " @@" + rest;
    var r2 := c + r3;
    var r1 := b + " +" + r2;
    calc {
      "@@ -" + a + b + " +" + c + d + " @@" + rest;
      "@@ -" + a + b + " +" + c + (d + " @@" + rest);
      "@@ -" + a + b + " +" + (c + r3);
      "@@ -" + a + (b + " +" + r2);
      "@@ -" + (a + r1);
    }
  }

  /** The old side of a hunk header is skipped, up to the new start line. */
  lemma OldSideOf(oldStart: nat, oldCount: Option<nat>, r2: string)
    ensures MatchHunk("@@ -" + (NatToDecimal(oldStart) + (CountSuffix(oldCount) + " +" + r2)))
            == MatchNewSide(r2)
  {
    var r1 := CountSuffix(oldCount) + " +" + r2;
    var line := "@@ -" + (NatToDecimal(oldStart) + r1);
    PrefixThen(line, "@@ -", NatToDecimal(oldStart) + r1);
    CountSuffixHead(oldCount, " +", r2);
    NumberOf(oldStart, r1);
    CountOf(oldCount, " +", r2);
  }

  /** The new side of a hunk header gives its start and its count. */
  lemma NewSideOf(newStart: nat, newCount: Option<nat>, rest: string)
    ensures MatchNewSide(NatToDecimal(newStart) + (CountSuffix(newCount) + " @@" + rest))
            == Some((newStart, newCount.GetOr(1)))
  {
    CountSuffixHead(newCount, " @@", rest);
    NumberOf(newStart, CountSuffix(newCount) + " @@" + rest);
    CountOf(newCount, " @@", rest);
  }

  /** A hunk header is neither kind of `+++` line. */
  lemma HunkIsNotFileHeader(line: string)
    requires MatchHunk(line).Some?
    ensures MatchNewFile(line).None? && !MatchDevNull(line)
  {
    HunkStartsWithAt(line);
    AtIsNotPlus(line);
  }

  lemma HunkStartsWithAt(line: string)
    requires MatchHunk(line).Some?
    ensures StartsWith(line, "@@ -")
  {
  }

  lemma AtIsNotPlus(line: string)
    requires StartsWith(line, "@@ -")
    ensures MatchNewFile(line).None? && !MatchDevNull(line)
  {
    assert line[0] == '@';
  }

  // ---------------------------------------------------------------------
  // The scan.

  /** `list(range(start, start + count))` */
  function Range(start: int, count: nat): (r: seq<int>)
    ensures |r| == count
    ensures forall k :: 0 <= k < count ==> r[k] == start + k
    decreases count
  {
    if count == 0 then [] else [start] + Range(start + 1, count - 1)
  }

  /** `changed.setdefault(file, []).extend(lines)` */
  function Extend(changed: map<string, seq<int>>, file: string, lines: seq<int>): map<string, seq<int>> {
    changed[file := (if file in changed then changed[file] else []) + lines]
  }

  /** `sCurrentFile` and `dChangedLines` between two lines of the diff. */
  datatype ScanState = ScanState(current: Option<string>, changed: map<string, seq<int>>)

  /** One iteration of the scan loop, main.py:262-274. */
  function Step(folder: string, resolve: Resolver, st: ScanState, line: string): (r: ScanState)
    ensures forall f :: f in st.changed ==> f in r.changed && st.changed[f] <= r.changed[f]
    ensures forall f :: f in r.changed && (st.current.None? || f != st.current.value)
              ==> f in st.changed && r.changed[f] == st.changed[f]
    ensures forall f :: f in r.changed && f !in st.changed ==> |r.changed[f]| > 0
  {
    match MatchNewFile(line)
    case Some(path) => st.(current := Some(resolve(folder, Strip(path))))
    case None =>
      if MatchDevNull(line) then st.(current := None)
      else if st.current.None? then st
      else match MatchHunk(line)
        case None => st
        case Some((start, count)) =>
          if count > 0 then st.(changed := Extend(st.changed, st.current.value, Range(start, count)))
          else st
  }

  /** The state after scanning `lines` from `st`. */
  function Scan(folder: string, resolve: Resolver, st: ScanState, lines: seq<string>): ScanState
    decreases |lines|
  {
    if lines == [] then st else Scan(folder, resolve, Step(folder, resolve, st, lines[0]), lines[1..])
  }

  /** The scan of one folder's diff output, main.py:260-274: starts with no
      current file and extends `changed` in place. */
  method ScanFolderDiff(folder: string, resolve: Resolver, output: seq<string>, changed: map<string, seq<int>>)
    returns (result: map<string, seq<int>>)
    ensures result == Scan(folder, resolve, ScanState(None, changed), output).changed
  {
    var current: Option<string> := None;
    result := changed;
    var i := 0;
    while i < |output|
      invariant 0 <= i <= |output|
      invariant Scan(folder, resolve, ScanState(current, result), output[i..])
                == Scan(folder, resolve, ScanState(None, changed), output)
    {
      var line := output[i];
      assert output[i..][1..] == output[i + 1..];
      var fileMatch := MatchNewFile(line);
      if fileMatch.Some? {
        current := Some(resolve(folder, Strip(fileMatch.value)));
      } else if MatchDevNull(line) {
        current := None;
      } else if current.Some? {
        var hunk := MatchHunk(line);
        if hunk.Some? {
          var (start, count) := hunk.value;
          if count > 0 {
            result := Extend(result, current.value, Range(start, count));
          }
        }
      }
      i := i + 1;
    }
    assert output[i..] == [];
  }

  /** The output of the diff command run in one folder, already split into
      lines; `None` when git failed there and the folder is skipped. */
  datatype FolderDiff = FolderDiff(folder: string, output: Option<seq<string>>)

  /** `getChangedLines` over the folders in order, from the given map. */
  function ChangedLinesFrom(changed: map<string, seq<int>>, diffs: seq<FolderDiff>, resolve: Resolver)
    : map<string, seq<int>>
    decreases |diffs|
  {
    if diffs == [] then changed
    else
      var d := diffs[0];
      var next := if d.output.None? then changed
                  else Scan(d.folder, resolve, ScanState(None, changed), d.output.value).changed;
      ChangedLinesFrom(next, diffs[1..], resolve)
  }

  /** `getChangedLines`, main.py:248-276, with each folder's git output given. */
  method GetChangedLines(diffs: seq<FolderDiff>, resolve: Resolver) returns (changed: map<string, seq<int>>)
    ensures changed == ChangedLinesFrom(map[], diffs, resolve)
    ensures forall f :: f in changed ==> |changed[f]| > 0
  {
    ChangedListsNonEmpty(map[], diffs, resolve);
    changed := map[];
    var i := 0;
    while i < |diffs|
      invariant 0 <= i <= |diffs|
      invariant ChangedLinesFrom(changed, diffs[i..], resolve) == ChangedLinesFrom(map[], diffs, resolve)
    {
      assert diffs[i..][1..] == diffs[i + 1..];
      var d := diffs[i];
      if d.output.Some? {
        changed := ScanFolderDiff(d.folder, resolve, d.output.value, changed);
      }
      i := i + 1;
    }
    assert diffs[i..] == [];
  }

  /** Over several folders, a file keeps its key once it has one, and no
      file's list is ever empty: a key is only made by a hunk that adds
      lines, and lists only grow. */
  lemma {:induction false} ChangedListsNonEmpty(changed: map<string, seq<int>>, diffs: seq<FolderDiff>, resolve: Resolver)
    requires forall f :: f in changed ==> |changed[f]| > 0
    ensures var r := ChangedLinesFrom(changed, diffs, resolve);
      changed.Keys <= r.Keys && forall f :: f in r ==> |r[f]| > 0
    decreases |diffs|
  {
    if diffs != [] {
      var d := diffs[0];
      if d.output.Some? {
        var st := ScanState(None, changed);
        ScanOnlyAppends(d.folder, resolve, st, d.output.value);
        ScanNewKeysNonEmpty(d.folder, resolve, st, d.output.value);
        var next := Scan(d.folder, resolve, st, d.output.value).changed;
        forall f | f in next ensures |next[f]| > 0 {
          if f in changed {
            assert changed[f] <= next[f];
          }
        }
        ChangedListsNonEmpty(next, diffs[1..], resolve);
      } else {
        ChangedListsNonEmpty(changed, diffs[1..], resolve);
      }
    }
  }

  // ---------------------------------------------------------------------
  // What one line does.

  /** In a tracked file, a hunk header with a positive new count appends
      exactly start, start + 1, ..., start + count - 1 to that file's list,
      and changes nothing else. */
  lemma HunkAppendsRange(folder: string, resolve: Resolver, st: ScanState, line: string, start: nat, count: nat)
    requires st.current.Some? && MatchHunk(line) == Some((start, count)) && count > 0
    ensures var st' := Step(folder, resolve, st, line);
      var f := st.current.value;
      && st'.current == st.current
      && st'.changed.Keys == st.changed.Keys + {f}
      && st'.changed[f] == (if f in st.changed then st.changed[f] else []) + Range(start, count)
      && (forall g :: g in st.changed && g != f ==> st'.changed[g] == st.changed[g])
      && |Range(start, count)| == count
      && (forall k :: 0 <= k < count ==> Range(start, count)[k] == start + k)
  {
    HunkIsNotFileHeader(line);
  }

  /** A hunk that adds no line (`+c,0`) changes nothing. */
  lemma ZeroCountHunkIgnored(folder: string, resolve: Resolver, st: ScanState, line: string, start: nat)
    requires MatchHunk(line) == Some((start, 0))
    ensures Step(folder, resolve, st, line) == st
  {
    HunkIsNotFileHeader(line);
  }

  /** `+++ /dev/null` detaches the scan from any file and changes no list. */
  lemma DevNullDetaches(folder: string, resolve: Resolver, st: ScanState, line: string)
    requires MatchDevNull(line)
    ensures Step(folder, resolve, st, line) == st.(current := None)
  {
    assert line[4] == '/';
  }

  /** A line that starts with neither '+' nor '@' (a `---` header, a
      removed line, a `diff --git` line) changes nothing. */
  lemma OtherLineIgnored(folder: string, resolve: Resolver, st: ScanState, line: string)
    requires |line| > 0 && line[0] != '+' && line[0] != '@'
    ensures Step(folder, resolve, st, line) == st
  {
    assert !StartsWith(line, "+++ b/") by {
      if |line| >= 6 { assert line[..6][0] == line[0]; }
    }
    assert !StartsWith(line, "+++ /dev/null") by {
      if |line| >= 13 { assert line[..13][0] == line[0]; }
    }
    assert !StartsWith(line, "@@ -") by {
      if |line| >= 4 { assert line[..4][0] == line[0]; }
    }
  }

  /** Only a hunk header adds lines: any other line, an added or removed
      line of a hunk body included, leaves the map as it is. It may still
      move the current file: an added line whose text is `++ b/x` reads as a
      file header. */
  lemma NonHunkLineKeepsMap(folder: string, resolve: Resolver, st: ScanState, line: string)
    requires !StartsWith(line, "@@ -")
    ensures Step(folder, resolve, st, line).changed == st.changed
  {
  }

  /** A run of lines none of which is a hunk header leaves the map as it is. */
  lemma {:induction false} NonHunkLinesKeepMap(folder: string, resolve: Resolver, st: ScanState, lines: seq<string>)
    requires forall i :: 0 <= i < |lines| ==> !StartsWith(lines[i], "@@ -")
    ensures Scan(folder, resolve, st, lines).changed == st.changed
    decreases |lines|
  {
    if lines != [] {
      NonHunkLineKeepsMap(folder, resolve, st, lines[0]);
      NonHunkLinesKeepMap(folder, resolve, Step(folder, resolve, st, lines[0]), lines[1..]);
    }
  }

  /** `+++ b/<path>` makes the resolved, stripped path the current file. */
  lemma NewFileTracks(folder: string, resolve: Resolver, st: ScanState, path: string)
    requires '\n' !in path
    ensures Step(folder, resolve, st, NewFileHeader(path)).current == Some(resolve(folder, Strip(path)))
    ensures Step(folder, resolve, st, NewFileHeader(path)).changed == st.changed
  {
    var line := NewFileHeader(path);
    assert StartsWith(line, "+++ b/");
    assert line[6..] == path;
    NoNewlineWhole(path);
  }

  lemma NoNewlineWhole(s: string)
    requires '\n' !in s
    ensures UpToNewline(s) == s
  {
  }

  /** A `+++ b/<path>` header for a path without surrounding blanks makes
      that file current and changes no list. */
  lemma FileHeaderStep(folder: string, resolve: Resolver, st: ScanState, path: string)
    requires PlainPath(path)
    ensures Step(folder, resolve, st, NewFileHeader(path)) == st.(current := Some(resolve(folder, path)))
  {
    NewFileTracks(folder, resolve, st, path);
    StripUnchanged(path);
  }

  /** What the rendered hunk header `@@ -a[,b] +c[,d] @@` does to a scan
      attached to a file: appends c .. c+d-1 (d defaulting to 1) to that
      file's list, or nothing when d is 0. */
  lemma HunkHeaderStep(folder: string, resolve: Resolver, st: ScanState,
                       oldStart: nat, oldCount: Option<nat>, newStart: nat, newCount: Option<nat>)
    requires st.current.Some?
    ensures var n := newCount.GetOr(1);
      Step(folder, resolve, st, HunkHeader(oldStart, oldCount, newStart, newCount))
      == if n > 0 then st.(changed := Extend(st.changed, st.current.value, Range(newStart, n))) else st
  {
    var h := HunkHeader(oldStart, oldCount, newStart, newCount);
    HunkHeaderRoundTrip(oldStart, oldCount, newStart, newCount, "");
    assert h + "" == h;
    HunkIsNotFileHeader(h);
  }

  /** The numbers of a hunk header `@@ -a[,b] +c[,d] @@`. */
  datatype Hunk = Hunk(oldStart: nat, oldCount: Option<nat>, newStart: nat, newCount: Option<nat>)

  /** The rendered headers of the hunks, in order. */
  function Headers(hs: seq<Hunk>): seq<string> {
    if hs == [] then []
    else [HunkHeader(hs[0].oldStart, hs[0].oldCount, hs[0].newStart, hs[0].newCount)] + Headers(hs[1..])
  }

  /** The new-side lines the hunks add, in order. */
  function Added(hs: seq<Hunk>): seq<int> {
    if hs == [] then [] else Range(hs[0].newStart, hs[0].newCount.GetOr(1)) + Added(hs[1..])
  }

  /** `extend` twice is `extend` with both lists. */
  lemma ExtendTwice(changed: map<string, seq<int>>, file: string, a: seq<int>, b: seq<int>)
    ensures Extend(Extend(changed, file, a), file, b) == Extend(changed, file, a + b)
  {
    var old_ := if file in changed then changed[file] else [];
    assert (old_ + a) + b == old_ + (a + b);
  }

  // ---------------------------------------------------------------------
  // What a whole diff does.

  /** The hunk headers of one file's part of a diff, in a scan attached to
      that file: together they append the lines each adds, in diff order,
      and a file that gains no line gains no key. */
  lemma {:induction false} HunksAppend(folder: string, resolve: Resolver, st: ScanState, hs: seq<Hunk>)
    requires st.current.Some?
    ensures Scan(folder, resolve, st, Headers(hs))
      == if Added(hs) == [] then st else st.(changed := Extend(st.changed, st.current.value, Added(hs)))
    decreases |hs|
  {
    if hs != [] {
      var h := hs[0];
      var f := st.current.value;
      var n := h.newCount.GetOr(1);
      var line := HunkHeader(h.oldStart, h.oldCount, h.newStart, h.newCount);
      var lines := Headers(hs);
      assert lines == [line] + Headers(hs[1..]);
      assert lines[0] == line && lines[1..] == Headers(hs[1..]);
      HunkHeaderStep(folder, resolve, st, h.oldStart, h.oldCount, h.newStart, h.newCount);
      var st' := Step(folder, resolve, st, line);
      HunksAppend(folder, resolve, st', hs[1..]);
      var rest := Added(hs[1..]);
      assert Added(hs) == Range(h.newStart, n) + rest;
      if n > 0 && rest != [] {
        ExtendTwice(st.changed, f, Range(h.newStart, n), rest);
      } else if n == 0 {
        assert Range(h.newStart, n) + rest == rest;
      } else {
        assert Range(h.newStart, n) + rest == Range(h.newStart, n);
      }
    }
  }

  /** Scanning is a left fold: scanning `a + b` is scanning `a`, then `b`. */
  lemma {:induction false} ScanSplit(folder: string, resolve: Resolver, st: ScanState, a: seq<string>, b: seq<string>)
    ensures Scan(folder, resolve, st, a + b) == Scan(folder, resolve, Scan(folder, resolve, st, a), b)
    decreases |a|
  {
    if a != [] {
      assert (a + b)[0] == a[0] && (a + b)[1..] == a[1..] + b;
      ScanSplit(folder, resolve, Step(folder, resolve, st, a[0]), a[1..], b);
    } else {
      assert a + b == b;
    }
  }

  /** With no current file, lines up to the next `+++ b/` line change no
      list: hunk headers before the first file header, and after
      `+++ /dev/null`, are attributed to no file. */
  lemma {:induction false} UnattributedLinesIgnored(folder: string, resolve: Resolver, st: ScanState, lines: seq<string>)
    requires st.current.None?
    requires forall i :: 0 <= i < |lines| ==> MatchNewFile(lines[i]).None?
    ensures Scan(folder, resolve, st, lines) == st
    decreases |lines|
  {
    if lines != [] {
      assert Step(folder, resolve, st, lines[0]) == st;
      UnattributedLinesIgnored(folder, resolve, st, lines[1..]);
    }
  }

  /** The scan only appends: every list already in the map survives as a
      prefix of the final one. Ranges are thus kept in diff order, never
      sorted nor deduplicated. */
  lemma {:induction false} ScanOnlyAppends(folder: string, resolve: Resolver, st: ScanState, lines: seq<string>)
    ensures var r := Scan(folder, resolve, st, lines).changed;
      st.changed.Keys <= r.Keys && forall f :: f in st.changed ==> st.changed[f] <= r[f]
    decreases |lines|
  {
    if lines != [] {
      ScanOnlyAppends(folder, resolve, Step(folder, resolve, st, lines[0]), lines[1..]);
    }
  }

  /** A file becomes a key only through a hunk that adds lines: a key the
      scan creates never holds an empty list. */
  lemma {:induction false} ScanNewKeysNonEmpty(folder: string, resolve: Resolver, st: ScanState, lines: seq<string>)
    ensures var r := Scan(folder, resolve, st, lines).changed;
      forall f :: f in r && f !in st.changed ==> |r[f]| > 0
    decreases |lines|
  {
    if lines != [] {
      var st' := Step(folder, resolve, st, lines[0]);
      ScanNewKeysNonEmpty(folder, resolve, st', lines[1..]);
      ScanOnlyAppends(folder, resolve, st', lines[1..]);
    }
  }

  /** A path as `git diff` prints it: one line, no blanks at either end. */
  predicate PlainPath(path: string) {
    '\n' !in path && (path == [] || (!IsSpace(path[0]) && !IsSpace(path[|path| - 1])))
  }

  /** A commit-mode diff built to give the three lists that
      tests/test_misc.py:39-43 expects; the hunks of the commit that test
      reads are not known here, so these are chosen to produce those lists.
      Over four paths: one changed line in the first file, a new 16-line
      second file, a deleted third file whose hunk is attributed to nothing,
      and hunks in the fourth file giving [1, 3, 5, 6] in diff order (one of
      them, a pure deletion, adds nothing). */
  lemma {:induction false} FixtureDiff(folder: string, resolve: Resolver, test: string, bar: string, deleted: string, config: string)
    requires PlainPath(test) && PlainPath(bar) && PlainPath(config)
    requires resolve(folder, test) != resolve(folder, bar)
    requires resolve(folder, test) != resolve(folder, config)
    requires resolve(folder, bar) != resolve(folder, config)
    ensures Scan(folder, resolve, ScanState(None, map[]),
                 FixtureTest(test) + FixtureBar(bar) + FixtureDeleted(deleted) + FixtureConfig(config)).changed
      == map[resolve(folder, test) := [1], resolve(folder, bar) := Range(1, 16), resolve(folder, config) := [1, 3, 5, 6]]
  {
    var st0 := ScanState(None, map[]);
    var p1, p2, p3, p4 := FixtureTest(test), FixtureBar(bar), FixtureDeleted(deleted), FixtureConfig(config);
    assert p1 + p2 + p3 + p4 == (p1 + p2) + (p3 + p4);
    ScanSplit(folder, resolve, st0, p1 + p2, p3 + p4);
    FixtureHead(folder, resolve, test, bar);
    var b := resolve(folder, bar);
    FixtureTail(folder, resolve, ScanState(Some(b), map[resolve(folder, test) := [1], b := Range(1, 16)]), deleted, config);
  }

  /** The first two files of the fixture: [1] for the first, 1 to 16 for
      the new one, which stays the current file. */
  lemma FixtureHead(folder: string, resolve: Resolver, test: string, bar: string)
    requires PlainPath(test) && PlainPath(bar) && resolve(folder, test) != resolve(folder, bar)
    ensures var t, b := resolve(folder, test), resolve(folder, bar);
      Scan(folder, resolve, ScanState(None, map[]), FixtureTest(test) + FixtureBar(bar))
      == ScanState(Some(b), map[t := [1], b := Range(1, 16)])
  {
    var t, b := resolve(folder, test), resolve(folder, bar);
    ScanSplit(folder, resolve, ScanState(None, map[]), FixtureTest(test), FixtureBar(bar));
    FixtureTestScan(folder, resolve, test);
    BarAdded();
    var m1 := map[t := [1]];
    FilePartScan(folder, resolve, ScanState(Some(t), m1), bar, BarHunks());
    assert [] + Range(1, 16) == Range(1, 16);
    assert Extend(m1, b, Range(1, 16)) == m1[b := Range(1, 16)];
  }

  /** The last two files of the fixture: the deleted one adds nothing, the
      last one gets [1, 3, 5, 6]. */
  lemma FixtureTail(folder: string, resolve: Resolver, st: ScanState, deleted: string, config: string)
    requires PlainPath(config) && resolve(folder, config) !in st.changed
    ensures Scan(folder, resolve, st, FixtureDeleted(deleted) + FixtureConfig(config)).changed
      == st.changed[resolve(folder, config) := [1, 3, 5, 6]]
  {
    var st' := st.(current := None);
    ScanSplit(folder, resolve, st, FixtureDeleted(deleted), FixtureConfig(config));
    FixtureDeletedScan(folder, resolve, st, deleted);
    AddedRanges(ConfigHunks());
    FilePartScan(folder, resolve, st', config, ConfigHunks());
    assert [] + [1, 3, 5, 6] == [1, 3, 5, 6];
  }

  function FixtureTest(path: string): seq<string> {
    ["--- a/" + path, NewFileHeader(path), HunkHeader(1, None, 1, None)]
  }

  function FixtureDeleted(path: string): seq<string> {
    ["--- a/" + path, "+++ /dev/null", HunkHeader(1, None, 0, Some(0))]
  }

  function FixtureBar(path: string): seq<string> {
    FileHeaderLines(path) + Headers(BarHunks())
  }

  function FixtureConfig(path: string): seq<string> {
    FileHeaderLines(path) + Headers(ConfigHunks())
  }

  /** `@@ -0,0 +1,16 @@`: a new file of 16 lines. */
  function BarHunks(): seq<Hunk> {
    [Hunk(0, Some(0), 1, Some(16))]
  }

  function ConfigHunks(): seq<Hunk> {
    [Hunk(1, None, 1, None), Hunk(2, Some(0), 3, None), Hunk(4, None, 5, Some(2)), Hunk(9, Some(1), 8, Some(0))]
  }

  lemma FixtureTestScan(folder: string, resolve: Resolver, path: string)
    requires PlainPath(path)
    ensures var f := resolve(folder, path);
      Scan(folder, resolve, ScanState(None, map[]), FixtureTest(path)) == ScanState(Some(f), map[f := [1]])
  {
    var f := resolve(folder, path);
    var lines := FixtureTest(path);
    var st0 := ScanState(None, map[]);
    OtherLineIgnored(folder, resolve, st0, lines[0]);
    var st2 := st0.(current := Some(f));
    FileHeaderStep(folder, resolve, st0, path);
    HunkHeaderStep(folder, resolve, st2, 1, None, 1, None);
    var st3 := ScanState(Some(f), map[f := [1]]);
    assert Range(1, 1) == [1] && [] + [1] == [1];
    assert Extend(map[], f, Range(1, 1)) == map[f := [1]];
    assert Step(folder, resolve, st0, lines[1]) == st2;
    assert Step(folder, resolve, st2, lines[2]) == st3;
    ScanUnrolled(folder, resolve, lines, [st0, st0, st2, st3]);
  }

  lemma FixtureDeletedScan(folder: string, resolve: Resolver, st: ScanState, path: string)
    ensures Scan(folder, resolve, st, FixtureDeleted(path)) == st.(current := None)
  {
    var lines := FixtureDeleted(path);
    OtherLineIgnored(folder, resolve, st, lines[0]);
    var st2 := st.(current := None);
    DevNullDetaches(folder, resolve, st, lines[1]);
    var h2 := HunkHeader(1, None, 0, Some(0));
    HunkHeaderRoundTrip(1, None, 0, Some(0), "");
    assert h2 + "" == h2;
    ZeroCountHunkIgnored(folder, resolve, st2, h2, 0);
    ScanUnrolled(folder, resolve, lines, [st, st, st2, st2]);
  }

  /** One file's part of a diff, its header pair and then its hunks: from
      any state it makes the file current and appends the lines the hunks
      add. */
  lemma FilePartScan(folder: string, resolve: Resolver, st: ScanState, path: string, hs: seq<Hunk>)
    requires PlainPath(path) && Added(hs) != []
    ensures var f := resolve(folder, path);
      Scan(folder, resolve, st, FileHeaderLines(path) + Headers(hs)) == ScanState(Some(f), Extend(st.changed, f, Added(hs)))
  {
    var f := resolve(folder, path);
    FileHeaderLinesScan(folder, resolve, st, path);
    HunksAppend(folder, resolve, st.(current := Some(f)), hs);
    ScanSplit(folder, resolve, st, FileHeaderLines(path), Headers(hs));
  }

  lemma BarAdded()
    ensures Added(BarHunks()) == Range(1, 16)
  {
    var hs := BarHunks();
    assert hs[1..] == [];
    assert Range(1, 16) + [] == Range(1, 16);
  }

  lemma AddedRanges(hs: seq<Hunk>)
    requires hs == ConfigHunks()
    ensures Added(hs) == [1, 3, 5, 6]
  {
    assert Range(1, 1) == [1] && Range(3, 1) == [3] && Range(5, 2) == [5, 6] && Range(8, 0) == [];
    assert hs[1..][1..][1..][1..] == [];
  }

  /** The `---`/`+++` pair that opens a file's part of the diff. */
  function FileHeaderLines(path: string): seq<string> {
    ["--- a/" + path, NewFileHeader(path)]
  }

  lemma FileHeaderLinesScan(folder: string, resolve: Resolver, st: ScanState, path: string)
    requires PlainPath(path)
    ensures Scan(folder, resolve, st, FileHeaderLines(path)) == st.(current := Some(resolve(folder, path)))
  {
    var lines := FileHeaderLines(path);
    var st1 := st.(current := Some(resolve(folder, path)));
    OtherLineIgnored(folder, resolve, st, lines[0]);
    FileHeaderStep(folder, resolve, st, path);
    assert lines[1..] == [NewFileHeader(path)] && lines[1..][1..] == [];
    assert Scan(folder, resolve, st1, lines[1..][1..]) == st1;
    assert Scan(folder, resolve, st, lines[1..]) == st1;
  }

  /** A scan is the last of the states that each line steps to from the previous. */
  lemma {:induction false} ScanUnrolled(folder: string, resolve: Resolver, lines: seq<string>, states: seq<ScanState>)
    requires |states| == |lines| + 1
    requires forall i :: 0 <= i < |lines| ==> states[i + 1] == Step(folder, resolve, states[i], lines[i])
    ensures Scan(folder, resolve, states[0], lines) == states[|lines|]
    decreases |lines|
  {
    if lines != [] {
      ScanUnrolled(folder, resolve, lines[1..], states[1..]);
    }
  }
}
