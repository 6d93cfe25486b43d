/** From a Checkstyle run to the findings in scope (main.py): the mapping of
    the XML report onto findings (`checkstyleErrorsFromXml`), the filter that
    keeps the findings on changed lines (`runCheckstyle`), the exit code of
    batch mode, and the assembly of the files to analyse (`getFilesList`). */
module Analysis {
  import opened Wrappers
  import opened Text
  import opened Seqs
  import opened Diagnostics

  // ---------------------------------------------------------------------
  // The report.

  /** The attributes of one XML element, as ElementTree parsed them. */
  type Attributes = map<string, string>

  /** One `<file>` element of the report: its attributes and its `<error>`
      children, in document order. */
  datatype FileNode = FileNode(attributes: Attributes, errors: seq<Attributes>)

  /** Why a report or a run gives no list of findings: an attribute that is
      absent where the code reads it unconditionally (Python raises
      `TypeError`/`AttributeError`), a number `int()` refuses (`ValueError`),
      a failed run without a report (`CalledProcessError` re-raised), or a
      finding in a file that is not in scope (`KeyError`). */
  datatype Fault =
    | MissingAttribute(name: string)
    | NotAnInteger(name: string, text: string)
    | NoReport
    | OutOfScopeFile(path: string)

  /** `source.split(".")[-1]`: the text after the last dot, or all of
      `source` when it has none. */
  function LastSegment(source: string): (r: string)
    ensures '.' !in r
    ensures |r| <= |source| && r == source[|source| - |r|..]
    ensures |r| < |source| ==> source[|source| - |r| - 1] == '.'
  {
    if source == [] || source[|source| - 1] == '.' then []
    else LastSegment(source[..|source| - 1]) + [source[|source| - 1]]
  }

  /** The category of a check named by its fully qualified class name is the
      simple class name. */
  lemma {:induction false} LastSegmentOfQualified(package: string, name: string)
    requires '.' !in name
    ensures LastSegment(package + "." + name) == name
    ensures LastSegment(name) == name
    decreases |name|
  {
    var s := package + "." + name;
    if name == [] {
      assert s[|s| - 1] == '.';
    } else {
      var n', c := name[..|name| - 1], name[|name| - 1];
      assert s[..|s| - 1] == package + "." + n';
      assert name[..|name| - 1] == n';
      LastSegmentOfQualified(package, n');
    }
  }

  /** `int(e.get(key))`: a missing attribute makes `int(None)` raise, a
      malformed number makes `int` raise. */
  function ReadInt(attrs: Attributes, key: string): (r: Result<int, Fault>)
    ensures r.Success? <==> key in attrs && ParseInt(attrs[key]).Some?
    ensures r.Success? ==> ParseInt(attrs[key]) == Some(r.value)
  {
    if key !in attrs then Failure(MissingAttribute(key))
    else match ParseInt(attrs[key])
      case None => Failure(NotAnInteger(key, attrs[key]))
      case Some(v) => Success(v)
  }

  /** A finding as the generator `checkstyleErrorsFromXml` yields it. The
      severity is `None` when the element has no such attribute: the code
      stores `None` and raises only where a caller lowers it. */
  datatype Yielded = Yielded(file: string, line: int, column: int, severity: Option<string>,
                             category: string, message: string)

  /** An `<error>` element the generator reads without raising. */
  predicate Readable(fileName: Option<string>, attrs: Attributes) {
    && fileName.Some?
    && "line" in attrs && ParseInt(attrs["line"]).Some?
    && ("column" in attrs ==> ParseInt(attrs["column"]).Some?)
    && "source" in attrs && "message" in attrs
  }

  /** An `<error>` element that is readable and has a severity. */
  predicate WellFormed(fileName: Option<string>, attrs: Attributes) {
    Readable(fileName, attrs) && "severity" in attrs
  }

  /** One step of the generator: what the `<error>` element `attrs`, inside a
      `<file>` element whose `name` attribute is `fileName`, yields. The
      attributes are read in the order of main.py:170-175, so the first one
      missing or malformed is the one reported; a missing severity is kept
      as `None`. `abspath` and `html.unescape` are parameters. */
  function ReadError(fileName: Option<string>, attrs: Attributes,
                     abspath: string -> string, unescape: string -> string): (r: Result<Yielded, Fault>)
    ensures r.Success? <==> Readable(fileName, attrs)
    ensures r.Success? ==> r.value.file == abspath(fileName.value) && Some(r.value.line) == ParseInt(attrs["line"])
    ensures r.Success? ==> r.value.severity == (if "severity" in attrs then Some(attrs["severity"]) else None)
  {
    if fileName.None? then Failure(MissingAttribute("name"))
    else match ReadInt(attrs, "line")
      case Failure(f) => Failure(f)
      case Success(line) =>
        match (if "column" in attrs then ReadInt(attrs, "column") else Success(0))
        case Failure(f) => Failure(f)
        case Success(column) =>
          if "source" !in attrs then Failure(MissingAttribute("source"))
          else if "message" !in attrs then Failure(MissingAttribute("message"))
          else
            Success(Yielded(abspath(fileName.value), line, column,
                            if "severity" in attrs then Some(attrs["severity"]) else None,
                            LastSegment(attrs["source"]), unescape(attrs["message"])))
  }

  /** A yielded finding once a caller has read its severity: `.lower()` on a
      missing one raises (main.py:49, application.py:83). */
  function Complete(y: Yielded): (r: Result<Diagnostic, Fault>)
    ensures r.Success? <==> y.severity.Some?
    ensures r.Failure? ==> r.error == MissingAttribute("severity")
    ensures r.Success? ==> r.value.file == y.file && r.value.line == y.line && !r.value.ignored
  {
    match y.severity
    case None => Failure(MissingAttribute("severity"))
    case Some(severity) => Success(Diagnostic(y.file, y.line, y.column, severity, y.category, y.message, false))
  }

  /** The finding one `<error>` element stands for, severity included. */
  function ErrorFromAttributes(fileName: Option<string>, attrs: Attributes,
                               abspath: string -> string, unescape: string -> string): (r: Result<Diagnostic, Fault>)
    ensures r.Success? <==> WellFormed(fileName, attrs)
  {
    match ReadError(fileName, attrs, abspath, unescape)
    case Failure(f) => Failure(f)
    case Success(y) => Complete(y)
  }

  /** Extraction succeeds exactly on well-formed elements, and then gives a
      finding that is not ignored, whose column is 0 when the attribute is
      absent and whose numbers are those `int()` reads. */
  lemma ErrorFromAttributesSpec(fileName: Option<string>, attrs: Attributes,
                                abspath: string -> string, unescape: string -> string)
    ensures var r := ErrorFromAttributes(fileName, attrs, abspath, unescape);
      && (r.Success? <==> WellFormed(fileName, attrs))
      && (r.Success? ==>
            && !r.value.ignored
            && r.value.file == abspath(fileName.value)
            && Some(r.value.line) == ParseInt(attrs["line"])
            && ("column" !in attrs ==> r.value.column == 0)
            && ("column" in attrs ==> Some(r.value.column) == ParseInt(attrs["column"]))
            && r.value.severity == attrs["severity"]
            && '.' !in r.value.category
            && r.value.message == unescape(attrs["message"]))
  {
  }

  /** The converse of the specification above: attributes that read as the
      fields of `d` give exactly `d`. */
  lemma ErrorFromAttributesExact(name: string, attrs: Attributes, d: Diagnostic,
                                 abspath: string -> string, unescape: string -> string)
    requires abspath(name) == d.file && !d.ignored
    requires "line" in attrs && ParseInt(attrs["line"]) == Some(d.line)
    requires "column" in attrs ==> ParseInt(attrs["column"]) == Some(d.column)
    requires "column" !in attrs ==> d.column == 0
    requires "severity" in attrs && attrs["severity"] == d.severity
    requires "source" in attrs && LastSegment(attrs["source"]) == d.category
    requires "message" in attrs && unescape(attrs["message"]) == d.message
    ensures ErrorFromAttributes(Some(name), attrs, abspath, unescape) == Success(d)
  {
  }

  /** Reading back what Checkstyle wrote gives the finding: the round trip of
      the attribute mapping, when the path is already absolute, the message
      unescapes to the original and the category is a simple name. Without a
      `column` attribute the finding is at column 0. */
  lemma AttributesRoundTrip(d: Diagnostic, name: string, package: string, escaped: string, attrs: Attributes,
                            abspath: string -> string, unescape: string -> string)
    requires abspath(name) == d.file && unescape(escaped) == d.message
    requires '.' !in d.category && !d.ignored
    requires "line" in attrs && attrs["line"] == IntToDecimal(d.line)
    requires "column" in attrs ==> attrs["column"] == IntToDecimal(d.column)
    requires "severity" in attrs && attrs["severity"] == d.severity
    requires "source" in attrs && attrs["source"] == package + "." + d.category
    requires "message" in attrs && attrs["message"] == escaped
    ensures ErrorFromAttributes(Some(name), attrs, abspath, unescape)
      == Success(if "column" in attrs then d else d.(column := 0))
  {
    IntRoundTrip(d.line);
    IntRoundTrip(d.column);
    LastSegmentOfQualified(package, d.category);
    ErrorFromAttributesExact(name, attrs, if "column" in attrs then d else d.(column := 0), abspath, unescape);
  }

  // ---------------------------------------------------------------------
  // Reading all or nothing: a Python loop that appends to a list and lets
  // the first exception escape.

  /** `[f(x) for x in xs]` where `f` may raise: the first fault in order
      ends the loop. */
  function MapAll<A, B>(xs: seq<A>, f: A -> Result<B, Fault>): Result<seq<B>, Fault> {
    if xs == [] then Success([])
    else
      match f(xs[0])
      case Failure(e) => Failure(e)
      case Success(y) =>
        match MapAll(xs[1..], f)
        case Failure(e) => Failure(e)
        case Success(ys) => Success([y] + ys)
  }

  /** The loop succeeds exactly when every call does, with one result per
      element in order; otherwise it reports the fault of the first call
      that failed. */
  lemma {:induction false} MapAllSpec<A, B>(xs: seq<A>, f: A -> Result<B, Fault>)
    ensures var r := MapAll(xs, f);
      && (r.Success? <==> forall i :: 0 <= i < |xs| ==> f(xs[i]).Success?)
      && (r.Success? ==> |r.value| == |xs| && forall i :: 0 <= i < |xs| ==> r.value[i] == f(xs[i]).value)
      && (r.Failure? ==> exists i :: 0 <= i < |xs| && f(xs[i]) == Failure(r.error)
                                  && forall j :: 0 <= j < i ==> f(xs[j]).Success?)
    decreases |xs|
  {
    if xs != [] {
      MapAllSpec(xs[1..], f);
      var r := MapAll(xs, f);
      var t := MapAll(xs[1..], f);
      if f(xs[0]).Success? && t.Failure? {
        var i :| 0 <= i < |xs[1..]| && f(xs[1..][i]) == Failure(t.error)
                 && forall j :: 0 <= j < i ==> f(xs[1..][j]).Success?;
        assert f(xs[i + 1]) == Failure(r.error);
        forall j | 0 <= j < i + 1 ensures f(xs[j]).Success? {
          if j > 0 { assert xs[j] == xs[1..][j - 1]; }
        }
      }
      if f(xs[0]).Success? && t.Success? {
        forall i | 0 <= i < |xs| ensures f(xs[i]).Success? && r.value[i] == f(xs[i]).value {
          if i > 0 { assert xs[i] == xs[1..][i - 1]; }
        }
      }
      if forall i :: 0 <= i < |xs| ==> f(xs[i]).Success? {
        forall i | 0 <= i < |xs[1..]| ensures f(xs[1..][i]).Success? {
          assert xs[1..][i] == xs[i + 1];
        }
      }
    }
  }

  /** `for x in xs: out.extend(f(x))` where `f` may raise. */
  function ConcatAll<A, B>(xs: seq<A>, f: A -> Result<seq<B>, Fault>): Result<seq<B>, Fault> {
    if xs == [] then Success([])
    else
      match f(xs[0])
      case Failure(e) => Failure(e)
      case Success(ys) =>
        match ConcatAll(xs[1..], f)
        case Failure(e) => Failure(e)
        case Success(rest) => Success(ys + rest)
  }

  /** Each result comes from the call on some element. */
  lemma {:induction false} ConcatAllFrom<A, B>(xs: seq<A>, f: A -> Result<seq<B>, Fault>, y: B)
    requires ConcatAll(xs, f).Success? && y in ConcatAll(xs, f).value
    ensures exists i :: 0 <= i < |xs| && f(xs[i]).Success? && y in f(xs[i]).value
    decreases |xs|
  {
    if y !in f(xs[0]).value {
      ConcatAllFrom(xs[1..], f, y);
      var i :| 0 <= i < |xs[1..]| && f(xs[1..][i]).Success? && y in f(xs[1..][i]).value;
      assert xs[1..][i] == xs[i + 1];
    }
  }

  /** Reading two lists one after the other is reading them together. */
  lemma {:induction false} ConcatAllAppend<A, B>(a: seq<A>, b: seq<A>, f: A -> Result<seq<B>, Fault>)
    requires ConcatAll(a, f).Success? && ConcatAll(b, f).Success?
    ensures ConcatAll(a + b, f) == Success(ConcatAll(a, f).value + ConcatAll(b, f).value)
    decreases |a|
  {
    if a == [] {
      assert a + b == b;
      assert ConcatAll(a, f).value + ConcatAll(b, f).value == ConcatAll(b, f).value;
    } else {
      assert (a + b)[0] == a[0] && (a + b)[1..] == a[1..] + b;
      ConcatAllAppend(a[1..], b, f);
      assert f(a[0]).value + (ConcatAll(a[1..], f).value + ConcatAll(b, f).value)
          == (f(a[0]).value + ConcatAll(a[1..], f).value) + ConcatAll(b, f).value;
    }
  }

  /** The `name` attribute of a `<file>` element, when present. */
  function FileName(node: FileNode): Option<string> {
    if "name" in node.attributes then Some(node.attributes["name"]) else None
  }

  /** The findings of the `<error>` children of one `<file>` element, in
      order. The file's `name` is read only when there is an error to build,
      so a file without errors needs none. */
  function ErrorsFromFile(node: FileNode, abspath: string -> string, unescape: string -> string): Result<seq<Diagnostic>, Fault> {
    var name := FileName(node);
    MapAll(node.errors, a => ErrorFromAttributes(name, a, abspath, unescape))
  }

  /** `checkstyleErrorsFromXml`: the findings of every `<file>` element, in
      document order. */
  function ErrorsFromReport(files: seq<FileNode>, abspath: string -> string, unescape: string -> string): Result<seq<Diagnostic>, Fault> {
    ConcatAll(files, node => ErrorsFromFile(node, abspath, unescape))
  }

  /** A `<file>` element the code reads without raising. */
  predicate FileWellFormed(node: FileNode) {
    forall i :: 0 <= i < |node.errors| ==> WellFormed(FileName(node), node.errors[i])
  }

  /** One finding per `<error>` element, in order, none ignored; and the
      extraction fails exactly when some element is malformed. */
  lemma ErrorsFromFileSpec(node: FileNode, abspath: string -> string, unescape: string -> string)
    ensures var r := ErrorsFromFile(node, abspath, unescape);
      && (r.Success? <==> FileWellFormed(node))
      && (r.Success? ==> |r.value| == |node.errors| && forall i :: 0 <= i < |r.value| ==> !r.value[i].ignored)
  {
    var name := FileName(node);
    var f := a => ErrorFromAttributes(name, a, abspath, unescape);
    MapAllSpec(node.errors, f);
    forall i | 0 <= i < |node.errors|
      ensures f(node.errors[i]).Success? <==> WellFormed(name, node.errors[i])
      ensures f(node.errors[i]).Success? ==> !f(node.errors[i]).value.ignored
    {
      ErrorFromAttributesSpec(name, node.errors[i], abspath, unescape);
    }
  }

  /** The report's findings are the concatenation of its files' findings:
      reading two reports one after the other is reading them together. */
  lemma ErrorsFromReportAppend(a: seq<FileNode>, b: seq<FileNode>, abspath: string -> string, unescape: string -> string)
    requires ErrorsFromReport(a, abspath, unescape).Success? && ErrorsFromReport(b, abspath, unescape).Success?
    ensures ErrorsFromReport(a + b, abspath, unescape)
      == Success(ErrorsFromReport(a, abspath, unescape).value + ErrorsFromReport(b, abspath, unescape).value)
  {
    ConcatAllAppend(a, b, node => ErrorsFromFile(node, abspath, unescape));
  }

  // ---------------------------------------------------------------------
  // The scope filter.

  /** The files to analyse, each with the lines to report (`None`: all). */
  type Scope = map<string, Option<seq<int>>>

  /** main.py:159: a finding at `line` of `file` is reported when the whole
      file is in scope or the line is one of the file's changed lines. */
  predicate Covers(scope: Scope, file: string, line: int) {
    file in scope && (scope[file].None? || line in scope[file].value)
  }

  predicate InScope(scope: Scope, d: Diagnostic) {
    Covers(scope, d.file, d.line)
  }

  /** The first finding whose file has no entry in the scope, if any. */
  function FirstUnknownFile(errors: seq<Diagnostic>, scope: Scope): (r: Option<nat>)
    ensures r.Some? ==>
      && r.value < |errors| && errors[r.value].file !in scope
      && forall j :: 0 <= j < r.value ==> errors[j].file in scope
    ensures r.None? ==> forall j :: 0 <= j < |errors| ==> errors[j].file in scope
  {
    if errors == [] then None
    else if errors[0].file !in scope then Some(0)
    else match FirstUnknownFile(errors[1..], scope)
      case None => None
      case Some(k) => Some(k + 1)
  }

  /** The findings in scope, in report order, or the fault of the first
      finding whose file is not in scope. */
  function KeepInScope(errors: seq<Diagnostic>, scope: Scope): (r: Result<seq<Diagnostic>, Fault>)
    ensures r.Failure? <==> exists j :: 0 <= j < |errors| && errors[j].file !in scope
    ensures r.Failure? ==> r.error.OutOfScopeFile? && r.error.path !in scope
    ensures r.Success? ==> forall i :: 0 <= i < |r.value| ==> InScope(scope, r.value[i])
  {
    match FirstUnknownFile(errors, scope)
    case Some(k) => Failure(OutOfScopeFile(errors[k].file))
    case None => Success(Filter(errors, d => InScope(scope, d)))
  }

  /** The findings the filter keeps are exactly those in scope, in order:
      each kept finding is in scope, and each in-scope finding is kept. */
  lemma FilterToScopeExact(errors: seq<Diagnostic>, scope: Scope, i: nat)
    requires i < |errors|
    ensures InScope(scope, errors[i]) <==> errors[i] in Filter(errors, d => InScope(scope, d))
  {
    if InScope(scope, errors[i]) {
      FilterKeeps(errors, d => InScope(scope, d), i);
    }
  }

  /** Files given whole (with `-f`, `-d`, or without `-l`) keep every finding. */
  lemma WholeFilesKeepEverything(errors: seq<Diagnostic>, scope: Scope)
    requires forall j :: 0 <= j < |errors| ==> errors[j].file in scope && scope[errors[j].file].None?
    ensures Filter(errors, d => InScope(scope, d)) == errors
  {
    FilterAll(errors, d => InScope(scope, d));
  }

  // ---------------------------------------------------------------------
  // The loop of `runCheckstyle`, drawing from the generator.

  /** What each `<error>` element of one `<file>` element yields or raises,
      in order. The file's `name` is read for each element. */
  function FileYields(node: FileNode, abspath: string -> string, unescape: string -> string): (r: seq<Result<Yielded, Fault>>)
    ensures |r| == |node.errors|
  {
    seq(|node.errors|, i requires 0 <= i < |node.errors| => ReadError(FileName(node), node.errors[i], abspath, unescape))
  }

  /** The generator `checkstyleErrorsFromXml` (main.py:165-176) step by
      step: what each `<error>` element of the report yields or raises, in
      document order. A loop over the generator sees these one at a time
      and stops at the first that raises. */
  function Generated(files: seq<FileNode>, abspath: string -> string, unescape: string -> string): seq<Result<Yielded, Fault>> {
    if files == [] then []
    else FileYields(files[0], abspath, unescape) + Generated(files[1..], abspath, unescape)
  }

  /** `kept` in front of what the rest of a loop gives, unless it raised. */
  function Prepend(kept: seq<Yielded>, r: Result<seq<Yielded>, Fault>): Result<seq<Yielded>, Fault> {
    match r
    case Failure(f) => Failure(f)
    case Success(rest) => Success(kept + rest)
  }

  lemma PrependNothing(r: Result<seq<Yielded>, Fault>)
    ensures Prepend([], r) == r
  {
    if r.Success? {
      assert [] + r.value == r.value;
    }
  }

  lemma PrependPrepend(a: seq<Yielded>, b: seq<Yielded>, r: Result<seq<Yielded>, Fault>)
    ensures Prepend(a, Prepend(b, r)) == Prepend(a + b, r)
  {
    if r.Success? {
      assert a + (b + r.value) == (a + b) + r.value;
    }
  }

  /** The fault that stops the loop at a draw: the generator's own, or the
      `KeyError` of a file that is not in scope. */
  function FaultAt(y: Result<Yielded, Fault>): Fault {
    match y
    case Failure(f) => f
    case Success(e) => OutOfScopeFile(e.file)
  }

  /** A draw the loop gets past: the generator yielded, and the file is a
      key of the scope. */
  predicate Passes(scope: Scope, y: Result<Yielded, Fault>) {
    y.Success? && y.value.file in scope
  }

  /** The loop of main.py:157-160 over the draws `ys`: it stops at the first
      draw that raises or whose file is not a key of `dFiles`, and
      otherwise keeps the findings in scope, in order. */
  function ScanReport(ys: seq<Result<Yielded, Fault>>, scope: Scope): (r: Result<seq<Yielded>, Fault>)
    ensures r.Success? <==> forall i :: 0 <= i < |ys| ==> Passes(scope, ys[i])
    ensures r.Success? ==> forall i :: 0 <= i < |r.value| ==> Covers(scope, r.value[i].file, r.value[i].line)
  {
    if ys == [] then Success([])
    else if !Passes(scope, ys[0]) then Failure(FaultAt(ys[0]))
    else
      var y := ys[0].value;
      assert forall i :: 0 < i < |ys| ==> ys[i] == ys[1..][i - 1];
      Prepend(if Covers(scope, y.file, y.line) then [y] else [], ScanReport(ys[1..], scope))
  }

  /** The loop stops with the fault of the first draw it cannot get past. */
  lemma {:induction false} ScanReportFirstFault(ys: seq<Result<Yielded, Fault>>, scope: Scope, i: nat)
    requires i < |ys| && !Passes(scope, ys[i])
    requires forall j :: 0 <= j < i ==> Passes(scope, ys[j])
    ensures ScanReport(ys, scope) == Failure(FaultAt(ys[i]))
  {
    if i > 0 {
      ScanReportFirstFault(ys[1..], scope, i - 1);
    }
  }

  /** The loop of main.py:157-160: `lErrors` collects the findings in scope
      as they are drawn; a draw that raises, or a lookup in `dFiles` that
      raises `KeyError`, ends it. */
  method FilterToScope(ys: seq<Result<Yielded, Fault>>, scope: Scope) returns (kept: Result<seq<Yielded>, Fault>)
    ensures kept == ScanReport(ys, scope)
  {
    var lErrors: seq<Yielded> := [];
    var i := 0;
    assert ys[i..] == ys;
    PrependNothing(ScanReport(ys, scope));
    while i < |ys|
      invariant 0 <= i <= |ys|
      invariant ScanReport(ys, scope) == Prepend(lErrors, ScanReport(ys[i..], scope))
    {
      assert ys[i..][0] == ys[i];
      if ys[i].Failure? {
        return Failure(ys[i].error);
      }
      var e := ys[i].value;
      if e.file !in scope {
        return Failure(OutOfScopeFile(e.file));
      }
      var lines := scope[e.file];
      var add := if lines.None? || e.line in lines.value then [e] else [];
      assert ys[i..][1..] == ys[i + 1..];
      assert ScanReport(ys[i..], scope) == Prepend(add, ScanReport(ys[i + 1..], scope));
      PrependPrepend(lErrors, add, ScanReport(ys[i + 1..], scope));
      lErrors := lErrors + add;
      i := i + 1;
    }
    assert lErrors + [] == lErrors;
    kept := Success(lErrors);
  }

  /** What running Checkstyle gave: success (exit code 0, report not read),
      failure with a report, or failure without one. */
  datatype CheckstyleRun = Passed | Reported(files: seq<FileNode>) | Crashed

  /** `runCheckstyle` after the command has run, followed by the caller's
      reading of every severity: nothing to report when there was nothing
      to analyse or Checkstyle succeeded; otherwise the loop over the
      report's findings, then the first kept finding without a severity
      makes its caller's `.lower()` raise. */
  function RunCheckstyle(scope: Scope, run: CheckstyleRun, abspath: string -> string, unescape: string -> string): Result<seq<Diagnostic>, Fault>
  {
    if scope == map[] then Success([])
    else match run
      case Passed => Success([])
      case Crashed => Failure(NoReport)
      case Reported(files) =>
        match ScanReport(Generated(files, abspath, unescape), scope)
        case Failure(f) => Failure(f)
        case Success(kept) => MapAll(kept, Complete)
  }

  /** What `runCheckstyle` returns is in scope and never ignored. */
  lemma RunCheckstyleInScope(scope: Scope, run: CheckstyleRun, abspath: string -> string, unescape: string -> string)
    ensures var r := RunCheckstyle(scope, run, abspath, unescape);
      r.Success? ==> forall i :: 0 <= i < |r.value| ==> InScope(scope, r.value[i]) && !r.value[i].ignored
  {
    var r := RunCheckstyle(scope, run, abspath, unescape);
    if r.Success? && scope != map[] && run.Reported? {
      var kept := ScanReport(Generated(run.files, abspath, unescape), scope).value;
      MapAllSpec(kept, Complete);
    }
  }

  /** Draws that all yield complete findings, the findings `ds`. */
  predicate Agree(ys: seq<Result<Yielded, Fault>>, ds: seq<Diagnostic>) {
    |ys| == |ds| && forall i :: 0 <= i < |ys| ==> ys[i].Success? && Complete(ys[i].value) == Success(ds[i])
  }

  lemma AgreeAppend(ys1: seq<Result<Yielded, Fault>>, ds1: seq<Diagnostic>, ys2: seq<Result<Yielded, Fault>>, ds2: seq<Diagnostic>)
    requires Agree(ys1, ds1) && Agree(ys2, ds2)
    ensures Agree(ys1 + ys2, ds1 + ds2)
  {
    forall i | 0 <= i < |ys1| + |ys2|
      ensures (ys1 + ys2)[i].Success? && Complete((ys1 + ys2)[i].value) == Success((ds1 + ds2)[i])
    {
      if i >= |ys1| {
        assert (ys1 + ys2)[i] == ys2[i - |ys1|] && (ds1 + ds2)[i] == ds2[i - |ds1|];
      }
    }
  }

  /** Filtering after the first finding, as a step. */
  lemma KeepInScopeFirst(ds: seq<Diagnostic>, scope: Scope)
    requires ds != [] && ds[0].file in scope
    ensures KeepInScope(ds, scope) == match KeepInScope(ds[1..], scope)
      case Failure(f) => Failure(f)
      case Success(v) => Success((if InScope(scope, ds[0]) then [ds[0]] else []) + v)
  {
    var p := d => InScope(scope, d);
    match FirstUnknownFile(ds[1..], scope)
    case Some(k) =>
      assert FirstUnknownFile(ds, scope) == Some(k + 1);
      assert ds[k + 1] == ds[1..][k];
      assert KeepInScope(ds[1..], scope) == Failure(OutOfScopeFile(ds[1..][k].file));
      assert KeepInScope(ds, scope) == Failure(OutOfScopeFile(ds[k + 1].file));
    case None =>
      assert FirstUnknownFile(ds, scope) == None;
      assert ds == [ds[0]] + ds[1..];
      FilterAppend([ds[0]], ds[1..], p);
      assert [ds[0]][..0] == [];
      assert Filter([ds[0]], p) == if p(ds[0]) then [ds[0]] else [];
      assert KeepInScope(ds[1..], scope) == Success(Filter(ds[1..], p));
      assert KeepInScope(ds, scope) == Success(Filter(ds, p));
  }

  /** Reading the severity of each kept finding, as a step. */
  lemma MapCompleteFirst(y: Yielded, kept: seq<Yielded>, ds: seq<Diagnostic>)
    requires y.severity.Some? && MapAll(kept, Complete) == Success(ds)
    ensures MapAll([y] + kept, Complete) == Success([Complete(y).value] + ds)
  {
    assert ([y] + kept)[1..] == kept;
  }

  /** On draws that all yield complete findings, the loop agrees with
      reading the whole list first and filtering it afterwards: the same
      fault, or the same findings. */
  lemma {:induction false} ScanAgrees(ys: seq<Result<Yielded, Fault>>, ds: seq<Diagnostic>, scope: Scope)
    requires Agree(ys, ds)
    ensures var r := ScanReport(ys, scope);
      && (r.Failure? ==> KeepInScope(ds, scope) == Failure(r.error))
      && (r.Success? ==> MapAll(r.value, Complete) == KeepInScope(ds, scope))
    decreases |ys|
  {
    if ys != [] {
      var y, d := ys[0].value, ds[0];
      assert Complete(y) == Success(d);
      if y.file in scope {
        var ys', ds' := ys[1..], ds[1..];
        assert Agree(ys', ds') by {
          forall i | 0 <= i < |ys'| ensures ys'[i].Success? && Complete(ys'[i].value) == Success(ds'[i]) {
            assert ys'[i] == ys[i + 1];
          }
        }
        ScanAgrees(ys', ds', scope);
        KeepInScopeFirst(ds, scope);
        var r' := ScanReport(ys', scope);
        if r'.Success? {
          if Covers(scope, y.file, y.line) {
            MapCompleteFirst(y, r'.value, KeepInScope(ds', scope).value);
          } else {
            assert !InScope(scope, d);
            assert ScanReport(ys, scope) == Prepend([], r');
            PrependNothing(r');
            var e' := KeepInScope(ds', scope);
            if e'.Success? {
              assert [] + e'.value == e'.value;
            }
          }
        }
      }
    }
  }

  /** On a `<file>` element with no malformed child, the draws are the
      findings read all at once. */
  lemma FileYieldsWellFormed(node: FileNode, abspath: string -> string, unescape: string -> string)
    requires ErrorsFromFile(node, abspath, unescape).Success?
    ensures Agree(FileYields(node, abspath, unescape), ErrorsFromFile(node, abspath, unescape).value)
  {
    var f := a => ErrorFromAttributes(FileName(node), a, abspath, unescape);
    MapAllSpec(node.errors, f);
    var ys := FileYields(node, abspath, unescape);
    var ds := ErrorsFromFile(node, abspath, unescape).value;
    forall i | 0 <= i < |ys| ensures ys[i].Success? && Complete(ys[i].value) == Success(ds[i]) {
      ReadThenComplete(FileName(node), node.errors[i], abspath, unescape);
      assert ys[i] == ReadError(FileName(node), node.errors[i], abspath, unescape);
      assert f(node.errors[i]) == Success(ds[i]);
    }
  }

  /** A finding is its generator step completed. */
  lemma ReadThenComplete(fileName: Option<string>, attrs: Attributes, abspath: string -> string, unescape: string -> string)
    requires ErrorFromAttributes(fileName, attrs, abspath, unescape).Success?
    ensures ReadError(fileName, attrs, abspath, unescape).Success?
    ensures Complete(ReadError(fileName, attrs, abspath, unescape).value) == ErrorFromAttributes(fileName, attrs, abspath, unescape)
  {
  }

  /** A report of one `<file>` element, read step by step. */
  lemma GeneratedOne(node: FileNode, abspath: string -> string, unescape: string -> string)
    ensures Generated([node], abspath, unescape) == FileYields(node, abspath, unescape)
  {
    assert [node][1..] == [];
    assert FileYields(node, abspath, unescape) + [] == FileYields(node, abspath, unescape);
  }

  /** A report of one `<file>` element, read all at once. */
  lemma ErrorsFromReportOne(node: FileNode, abspath: string -> string, unescape: string -> string)
    ensures ErrorsFromReport([node], abspath, unescape) == ErrorsFromFile(node, abspath, unescape)
  {
    assert [node][1..] == [];
    assert ErrorsFromReport([], abspath, unescape) == Success([]);
    var r := ErrorsFromFile(node, abspath, unescape);
    if r.Success? {
      assert r.value + [] == r.value;
      assert ErrorsFromReport([node], abspath, unescape) == Success(r.value + []);
    }
  }

  /** Reading the report all at once, as a step over its first file. */
  lemma ErrorsFromReportFirst(files: seq<FileNode>, abspath: string -> string, unescape: string -> string)
    requires files != [] && ErrorsFromReport(files, abspath, unescape).Success?
    ensures ErrorsFromFile(files[0], abspath, unescape).Success?
    ensures ErrorsFromReport(files[1..], abspath, unescape).Success?
    ensures ErrorsFromReport(files, abspath, unescape).value
         == ErrorsFromFile(files[0], abspath, unescape).value + ErrorsFromReport(files[1..], abspath, unescape).value
  {
  }

  /** On a report with no malformed element, the generator's draws are
      exactly the findings read all at once, each complete. */
  lemma {:induction false} GeneratedWellFormed(files: seq<FileNode>, abspath: string -> string, unescape: string -> string)
    requires ErrorsFromReport(files, abspath, unescape).Success?
    ensures Agree(Generated(files, abspath, unescape), ErrorsFromReport(files, abspath, unescape).value)
    decreases |files|
  {
    if files != [] {
      ErrorsFromReportFirst(files, abspath, unescape);
      FileYieldsWellFormed(files[0], abspath, unescape);
      GeneratedWellFormed(files[1..], abspath, unescape);
      AgreeAppend(FileYields(files[0], abspath, unescape), ErrorsFromFile(files[0], abspath, unescape).value,
                  Generated(files[1..], abspath, unescape), ErrorsFromReport(files[1..], abspath, unescape).value);
    }
  }

  /** When no element of the report is malformed, the lazy loop of
      `runCheckstyle` gives what reading the whole report and then keeping
      the findings in scope gives. */
  lemma RunCheckstyleEager(scope: Scope, files: seq<FileNode>, abspath: string -> string, unescape: string -> string)
    requires scope != map[] && ErrorsFromReport(files, abspath, unescape).Success?
    ensures RunCheckstyle(scope, Reported(files), abspath, unescape)
         == KeepInScope(ErrorsFromReport(files, abspath, unescape).value, scope)
  {
    GeneratedWellFormed(files, abspath, unescape);
    ScanAgrees(Generated(files, abspath, unescape), ErrorsFromReport(files, abspath, unescape).value, scope);
  }

  /** A finding in a file out of scope raises `KeyError` before a later
      malformed element is read, although reading the whole report first
      would fail on that element. */
  lemma OutOfScopeBeforeMalformed(scope: Scope, name: string, good: Attributes, bad: Attributes,
                                  abspath: string -> string, unescape: string -> string)
    requires scope != map[] && WellFormed(Some(name), good) && abspath(name) !in scope
    requires "line" in bad && ParseInt(bad["line"]).None?
    ensures var files := [FileNode(map["name" := name], [good, bad])];
      && RunCheckstyle(scope, Reported(files), abspath, unescape) == Failure(OutOfScopeFile(abspath(name)))
      && ErrorsFromReport(files, abspath, unescape) == Failure(NotAnInteger("line", bad["line"]))
  {
    var node := FileNode(map["name" := name], [good, bad]);
    assert FileName(node) == Some(name);
    GeneratedOne(node, abspath, unescape);
    ErrorsFromReportOne(node, abspath, unescape);
    var ys := Generated([node], abspath, unescape);
    assert ys[0] == ReadError(Some(name), good, abspath, unescape);
    ScanReportFirstFault(ys, scope, 0);
    var f := a => ErrorFromAttributes(FileName(node), a, abspath, unescape);
    MapAllSpec(node.errors, f);
    assert f(node.errors[1]) == Failure(NotAnInteger("line", bad["line"]));
  }

  /** A finding without a severity on a line outside the changed lines is
      dropped without its severity ever being read, although reading the
      whole report first would fail on it. */
  lemma DroppedFindingNeedsNoSeverity(scope: Scope, name: string, attrs: Attributes,
                                      abspath: string -> string, unescape: string -> string)
    requires Readable(Some(name), attrs) && "severity" !in attrs
    requires !Covers(scope, abspath(name), ParseInt(attrs["line"]).value) && abspath(name) in scope
    ensures var files := [FileNode(map["name" := name], [attrs])];
      && RunCheckstyle(scope, Reported(files), abspath, unescape) == Success([])
      && ErrorsFromReport(files, abspath, unescape) == Failure(MissingAttribute("severity"))
  {
    var node := FileNode(map["name" := name], [attrs]);
    assert FileName(node) == Some(name);
    var y := ReadError(Some(name), attrs, abspath, unescape);
    GeneratedOne(node, abspath, unescape);
    ErrorsFromReportOne(node, abspath, unescape);
    var ys := Generated([node], abspath, unescape);
    assert ys == [y];
    assert ys[1..] == [];
    assert ScanReport(ys, scope) == Prepend([], ScanReport([], scope));
    var f := a => ErrorFromAttributes(FileName(node), a, abspath, unescape);
    MapAllSpec(node.errors, f);
    assert f(node.errors[0]) == Failure(MissingAttribute("severity"));
  }

  /** No finding read from a report is ignored. */
  lemma ErrorsFromReportNotIgnored(files: seq<FileNode>, abspath: string -> string, unescape: string -> string)
    ensures var r := ErrorsFromReport(files, abspath, unescape);
      r.Success? ==> forall d :: d in r.value ==> !d.ignored
  {
    var f := node => ErrorsFromFile(node, abspath, unescape);
    var r := ErrorsFromReport(files, abspath, unescape);
    if r.Success? {
      forall d | d in r.value ensures !d.ignored {
        ConcatAllFrom(files, f, d);
        var i :| 0 <= i < |files| && f(files[i]).Success? && d in f(files[i]).value;
        ErrorsFromFileSpec(files[i], abspath, unescape);
      }
    }
  }

  // ---------------------------------------------------------------------
  // Batch mode.

  /** main.py:49-50: exit code 1 when some finding's severity is "error" in
      any case, 0 otherwise. */
  function BatchExitCode(errors: seq<Diagnostic>): (code: int)
    ensures code == 0 || code == 1
  {
    if |Filter(errors, IsError)| > 0 then 1 else 0
  }

  lemma BatchExitCodeSpec(errors: seq<Diagnostic>)
    ensures BatchExitCode(errors) == 1 <==> exists i :: 0 <= i < |errors| && IsError(errors[i])
  {
    var f := Filter(errors, IsError);
    if |f| > 0 {
      FilterFrom(errors, IsError, f[0]);
      var i :| 0 <= i < |errors| && errors[i] == f[0];
    } else if i :| 0 <= i < |errors| && IsError(errors[i]) {
      FilterKeeps(errors, IsError, i);
    }
  }

  /** Warnings alone never fail a batch run. */
  lemma WarningsDoNotFail(errors: seq<Diagnostic>)
    requires forall i :: 0 <= i < |errors| ==> IsWarning(errors[i])
    ensures BatchExitCode(errors) == 0
  {
    BatchExitCodeSpec(errors);
  }

  // ---------------------------------------------------------------------
  // The files to analyse.

  /** The file system as `getFilesList` sees it: `abspath`, `isfile`,
      `isdir`, the files `os.walk` lists under a folder (all of them, or
      those directly in it), and `isJavaFile`. */
  datatype FileSystem = FileSystem(
    abspath: string -> string,
    isFile: string -> bool,
    isDir: string -> bool,
    walk: (string, bool) -> seq<string>,
    isJavaFile: string -> bool)

  /** The command-line options `getFilesList` reads. */
  datatype Options = Options(files: seq<string>, directories: seq<string>, recursive: bool, linesOnly: bool)

  /** Every path of `paths` that satisfies `keep` enters the scope whole. */
  function AddWhole(scope: Scope, keep: string -> bool, paths: seq<string>): Scope {
    if paths == [] then scope
    else
      var s := AddWhole(scope, keep, paths[..|paths| - 1]);
      var p := paths[|paths| - 1];
      if keep(p) then s[p := None] else s
  }

  /** The absolute form of each path. */
  function AbsPaths(fs: FileSystem, paths: seq<string>): (r: seq<string>)
    ensures |r| == |paths| && forall i :: 0 <= i < |r| ==> r[i] == fs.abspath(paths[i])
  {
    seq(|paths|, i requires 0 <= i < |paths| => fs.abspath(paths[i]))
  }

  /** The Java files under the folders that exist, whole. */
  function AddWalked(scope: Scope, fs: FileSystem, dirs: seq<string>, recursive: bool): Scope {
    if dirs == [] then scope
    else
      var s := AddWalked(scope, fs, dirs[..|dirs| - 1], recursive);
      var folder := fs.abspath(dirs[|dirs| - 1]);
      if fs.isDir(folder) then AddWhole(s, fs.isJavaFile, fs.walk(folder, recursive)) else s
  }

  /** The changed Java files with their changed lines, replacing any entry. */
  function AddChangedLines(scope: Scope, isJava: string -> bool, changed: map<string, seq<int>>): Scope {
    map k | k in scope.Keys + changed.Keys && (k in scope || isJava(k)) ::
      if k in changed && isJava(k) then Some(changed[k]) else scope[k]
  }

  /** `getFilesList`: explicit files, then the Java files of the folders,
      then the files git reports, with their changed lines in lines-only
      mode and whole otherwise. */
  function FilesList(opts: Options, fs: FileSystem, changed: map<string, seq<int>>, changedFiles: seq<string>): Scope {
    var explicit := AddWhole(map[], fs.isFile, AbsPaths(fs, opts.files));
    var walked := AddWalked(explicit, fs, opts.directories, opts.recursive);
    if opts.linesOnly then AddChangedLines(walked, fs.isJavaFile, changed)
    else AddWhole(walked, fs.isJavaFile, changedFiles)
  }

  /** A scope where every file is to be analysed whole. */
  predicate AllWhole(scope: Scope) {
    forall k :: k in scope ==> scope[k].None?
  }

  lemma {:induction false} AddWholeSpec(scope: Scope, keep: string -> bool, paths: seq<string>, k: string)
    ensures var r := AddWhole(scope, keep, paths);
      && (k in r <==> k in scope || (k in paths && keep(k)))
      && (k in r ==> r[k] == if k in paths && keep(k) then None else scope[k])
    decreases |paths|
  {
    if paths != [] {
      var init := paths[..|paths| - 1];
      AddWholeSpec(scope, keep, init, k);
      assert paths == init + [paths[|paths| - 1]];
    }
  }

  /** A folder contributes the Java files its walk lists, when it exists. */
  predicate Walked(fs: FileSystem, dirs: seq<string>, recursive: bool, k: string) {
    fs.isJavaFile(k) &&
    exists i :: 0 <= i < |dirs| && fs.isDir(fs.abspath(dirs[i])) && k in fs.walk(fs.abspath(dirs[i]), recursive)
  }

  lemma {:induction false} AddWalkedSpec(scope: Scope, fs: FileSystem, dirs: seq<string>, recursive: bool, k: string)
    ensures var r := AddWalked(scope, fs, dirs, recursive);
      && (k in r <==> k in scope || Walked(fs, dirs, recursive, k))
      && (k in r ==> r[k] == if Walked(fs, dirs, recursive, k) then None else scope[k])
    decreases |dirs|
  {
    if dirs != [] {
      var init := dirs[..|dirs| - 1];
      var folder := fs.abspath(dirs[|dirs| - 1]);
      var s := AddWalked(scope, fs, init, recursive);
      AddWalkedSpec(scope, fs, init, recursive, k);
      if fs.isDir(folder) {
        AddWholeSpec(s, fs.isJavaFile, fs.walk(folder, recursive), k);
      }
      if Walked(fs, dirs, recursive, k) {
        var i :| 0 <= i < |dirs| && fs.isDir(fs.abspath(dirs[i])) && k in fs.walk(fs.abspath(dirs[i]), recursive);
        if i < |init| {
          assert init[i] == dirs[i];
        }
      }
      if Walked(fs, init, recursive, k) {
        var i :| 0 <= i < |init| && fs.isDir(fs.abspath(init[i])) && k in fs.walk(fs.abspath(init[i]), recursive);
        assert dirs[i] == init[i];
      }
    }
  }

  /** Which files are analysed and how: a file is in scope when it is an
      explicit file that exists, a Java file found in a given folder, or a
      Java file git reports; git's changed lines replace the entry in
      lines-only mode, and every other entry is the whole file. */
  lemma FilesListSpec(opts: Options, fs: FileSystem, changed: map<string, seq<int>>, changedFiles: seq<string>, k: string)
    ensures var r := FilesList(opts, fs, changed, changedFiles);
      var explicit := fs.isFile(k) && exists i :: 0 <= i < |opts.files| && fs.abspath(opts.files[i]) == k;
      var fromGit := fs.isJavaFile(k) && (if opts.linesOnly then k in changed else k in changedFiles);
      && (k in r <==> explicit || Walked(fs, opts.directories, opts.recursive, k) || fromGit)
      && (k in r ==> r[k] == if opts.linesOnly && fromGit then Some(changed[k]) else None)
  {
    var abs := AbsPaths(fs, opts.files);
    var explicit := AddWhole(map[], fs.isFile, abs);
    var walked := AddWalked(explicit, fs, opts.directories, opts.recursive);
    AddWholeSpec(map[], fs.isFile, abs, k);
    AddWalkedSpec(explicit, fs, opts.directories, opts.recursive, k);
    if k in abs {
      var i :| 0 <= i < |abs| && abs[i] == k;
    }
    if !opts.linesOnly {
      AddWholeSpec(walked, fs.isJavaFile, changedFiles, k);
    }
  }

  /** In lines-only mode a file git changed replaces the whole-file entry an
      explicit file or a folder gave it: its findings are then filtered by
      line. */
  lemma ChangedLinesOverride(opts: Options, fs: FileSystem, changed: map<string, seq<int>>, changedFiles: seq<string>, k: string)
    requires opts.linesOnly && k in changed && fs.isJavaFile(k)
    ensures var r := FilesList(opts, fs, changed, changedFiles);
      k in r && r[k] == Some(changed[k])
  {
    FilesListSpec(opts, fs, changed, changedFiles, k);
  }

  /** The loops of `getFilesList` (main.py:189-218). */
  method GetFilesList(opts: Options, fs: FileSystem, changed: map<string, seq<int>>, changedFiles: seq<string>)
    returns (dFiles: Scope)
    ensures dFiles == FilesList(opts, fs, changed, changedFiles)
  {
    dFiles := AddExplicitFiles(fs, opts.files);
    dFiles := AddFolders(dFiles, fs, opts.directories, opts.recursive);
    if opts.linesOnly {
      dFiles := AddChanged(dFiles, fs.isJavaFile, changed);
    } else {
      dFiles := AddJavaFiles(dFiles, fs.isJavaFile, changedFiles);
    }
  }

  /** The loop over the explicit files: each one that exists enters the
      scope whole. */
  method AddExplicitFiles(fs: FileSystem, files: seq<string>) returns (r: Scope)
    ensures r == AddWhole(map[], fs.isFile, AbsPaths(fs, files))
  {
    r := map[];
    var abs := AbsPaths(fs, files);
    var i := 0;
    while i < |files|
      invariant 0 <= i <= |files|
      invariant r == AddWhole(map[], fs.isFile, abs[..i])
    {
      var path := fs.abspath(files[i]);
      if fs.isFile(path) {
        r := r[path := None];
      }
      assert abs[..i + 1][..i] == abs[..i];
      i := i + 1;
    }
    assert abs[..i] == abs;
  }

  /** The loop over the folders: the Java files of each one that exists
      enter the scope whole. */
  method AddFolders(scope: Scope, fs: FileSystem, dirs: seq<string>, recursive: bool) returns (r: Scope)
    ensures r == AddWalked(scope, fs, dirs, recursive)
  {
    r := scope;
    var j := 0;
    while j < |dirs|
      invariant 0 <= j <= |dirs|
      invariant r == AddWalked(scope, fs, dirs[..j], recursive)
    {
      var folder := fs.abspath(dirs[j]);
      if fs.isDir(folder) {
        r := AddJavaFiles(r, fs.isJavaFile, fs.walk(folder, recursive));
      }
      assert dirs[..j + 1][..j] == dirs[..j];
      j := j + 1;
    }
    assert dirs[..j] == dirs;
  }

  /** The loop over git's changed lines: each changed Java file enters the
      scope with its lines, replacing any entry. */
  method AddChanged(scope: Scope, isJava: string -> bool, changed: map<string, seq<int>>) returns (r: Scope)
    ensures r == AddChangedLines(scope, isJava, changed)
  {
    r := scope;
    var todo := changed.Keys;
    while todo != {}
      invariant todo <= changed.Keys
      invariant r == AddChangedLines(scope, isJava, changed - todo)
      decreases todo
    {
      var path :| path in todo;
      AddChangedStep(scope, isJava, changed, todo, path);
      if isJava(path) {
        r := r[path := Some(changed[path])];
      }
      todo := todo - {path};
    }
    assert changed - {} == changed;
  }

  /** One more changed file taken into the scope. */
  lemma AddChangedStep(scope: Scope, isJava: string -> bool, changed: map<string, seq<int>>, todo: set<string>, path: string)
    requires path in todo && todo <= changed.Keys
    ensures var before := AddChangedLines(scope, isJava, changed - todo);
      AddChangedLines(scope, isJava, changed - (todo - {path}))
      == if isJava(path) then before[path := Some(changed[path])] else before
  {
    var done := changed - todo;
    assert changed - (todo - {path}) == done[path := changed[path]];
  }

  /** The inner loop over paths: each Java file enters the scope whole. */
  method AddJavaFiles(scope: Scope, isJava: string -> bool, paths: seq<string>) returns (r: Scope)
    ensures r == AddWhole(scope, isJava, paths)
  {
    r := scope;
    var i := 0;
    while i < |paths|
      invariant 0 <= i <= |paths|
      invariant r == AddWhole(scope, isJava, paths[..i])
    {
      if isJava(paths[i]) {
        r := r[paths[i] := None];
      }
      assert paths[..i + 1][..i] == paths[..i];
      i := i + 1;
    }
    assert paths[..i] == paths;
  }
}
