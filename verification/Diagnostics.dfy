/** One Checkstyle finding (`CheckstyleError` in application.py): the values
    parsed from the report, plus the one flag the user changes, `ignored`. */
module Diagnostics {
  import opened Wrappers
  import opened Text

  datatype Diagnostic = Diagnostic(
    file: string,       // absolute path of the analysed file
    line: int,
    column: int,
    severity: string,   // free text as reported: "error", "warning", "info", in any case
    category: string,   // last dotted segment of the check's class name
    message: string,
    ignored: bool)      // `bIgnored`: set by the user, carried over on refresh

  /** `os.path.normcase(os.path.abspath(p))`, which depends on the platform
      and the working directory and is therefore a parameter of the model. */
  type PathNorm = string -> string

  /** `CheckstyleError.__eq__`: content identity of two findings. The flag is
      not compared; paths are compared after normalisation, the severity
      ignoring case, everything else exactly. */
  predicate SameContent(a: Diagnostic, b: Diagnostic, norm: PathNorm) {
    && norm(a.file) == norm(b.file)
    && a.line == b.line
    && a.column == b.column
    && Lower(a.severity) == Lower(b.severity)
    && a.category == b.category
    && a.message == b.message
  }

  /** The record with its flag reset: what content identity looks at, up to
      path normalisation and severity case. */
  function Content(d: Diagnostic): Diagnostic {
    d.(ignored := false)
  }

  /** Content identity is an equivalence relation and does not look at the flag. */
  lemma SameContentIsEquivalence(a: Diagnostic, b: Diagnostic, c: Diagnostic, norm: PathNorm)
    ensures SameContent(a, a, norm)
    ensures SameContent(a, b, norm) ==> SameContent(b, a, norm)
    ensures SameContent(a, b, norm) && SameContent(b, c, norm) ==> SameContent(a, c, norm)
    ensures Content(a) == Content(b) ==> SameContent(a, b, norm)
  {
  }

  /** Two records that differ only in path spelling (same normal form),
      severity case and flag are the same finding. */
  lemma SameContentUpToSpelling(a: Diagnostic, file: string, severity: string, flag: bool, norm: PathNorm)
    requires norm(file) == norm(a.file) && Lower(severity) == Lower(a.severity)
    ensures SameContent(a, a.(file := file, severity := severity, ignored := flag), norm)
  {
  }

  /** `e.sSeverity.lower() == sev` */
  predicate HasSeverity(d: Diagnostic, sev: string) {
    Lower(d.severity) == sev
  }

  predicate IsError(d: Diagnostic) { HasSeverity(d, "error") }

  predicate IsWarning(d: Diagnostic) { HasSeverity(d, "warning") }

  /** The four cells a finding shows in the list, `getItemValuesFromError`:
      severity (title-cased, wrapped in "Ignored (...)" when ignored),
      category, "file at line:column" and message. */
  function ItemValues(d: Diagnostic): (string, string, string, string) {
    var severity := Title(d.severity);
    (if !d.ignored then severity else "Ignored (" + severity + ")",
     d.category,
     d.file + " at " + IntToDecimal(d.line) + ":" + IntToDecimal(d.column),
     d.message)
  }

  /** The cells show the record faithfully: read ignoring case, the severity
      cell is the record's severity, inside "ignored (...)" exactly when the
      record is ignored; the numbers in the location cell read back as the
      record's line and column. */
  lemma ItemValuesShowRecord(d: Diagnostic)
    ensures var cells := ItemValues(d);
      && Lower(cells.0) == (if d.ignored then "ignored (" + Lower(d.severity) + ")" else Lower(d.severity))
      && cells.1 == d.category && cells.3 == d.message
      && ParseInt(IntToDecimal(d.line)) == Some(d.line)
      && ParseInt(IntToDecimal(d.column)) == Some(d.column)
      && cells.2 == d.file + " at " + IntToDecimal(d.line) + ":" + IntToDecimal(d.column)
  {
    IntRoundTrip(d.line);
    IntRoundTrip(d.column);
    SeverityCell(d.severity, d.ignored);
  }

  lemma SeverityCell(severity: string, ignored: bool)
    ensures var t := Title(severity);
      Lower(if !ignored then t else "Ignored (" + t + ")")
        == (if ignored then "ignored (" + Lower(severity) + ")" else Lower(severity))
  {
    var t := Title(severity);
    LowerTitle(severity);
    if ignored {
      LowerAppend("Ignored (", t);
      LowerAppend("Ignored (" + t, ")");
      IgnoredPrefix();
      assert Lower(")") == ")";
    }
  }

  lemma IgnoredPrefix()
    ensures Lower("Ignored (") == "ignored ("
  {
    var l := Lower("Ignored (");
    assert l[0] == 'i';
  }

  lemma LowerAppend(a: string, b: string)
    ensures Lower(a + b) == Lower(a) + Lower(b)
  {
  }
}
