/** The logic behind the review window of application.py that does not touch
    a widget: which findings are listed and which are hidden, the counters of
    the status labels, the state of the buttons, the confirmation asked on
    Continue, the flag changes of the ignore buttons, and the carrying over
    of flags when the findings are refreshed. */
module Review {
  import opened Wrappers
  import opened Text
  import opened Seqs
  import opened Diagnostics

  // ---------------------------------------------------------------------
  // Listed and hidden findings (`populateView`).

  /** `bShowIgnored or not e.bIgnored` */
  predicate Listable(d: Diagnostic, showIgnored: bool) {
    showIgnored || !d.ignored
  }

  /** The findings listed in the view, in order. */
  function Listed(ds: seq<Diagnostic>, showIgnored: bool): seq<Diagnostic> {
    Filter(ds, d => Listable(d, showIgnored))
  }

  /** The findings kept out of the view but still held, in order. */
  function Hidden(ds: seq<Diagnostic>, showIgnored: bool): seq<Diagnostic> {
    Filter(ds, d => !Listable(d, showIgnored))
  }

  /** Listed and hidden findings split the input: a finding is listed exactly
      when it is shown or the ignored ones are, hidden exactly otherwise, and
      together the two parts hold every finding as often as the input. */
  lemma ListedHiddenPartition(ds: seq<Diagnostic>, showIgnored: bool, d: Diagnostic)
    ensures d in Listed(ds, showIgnored) <==> d in ds && (showIgnored || !d.ignored)
    ensures d in Hidden(ds, showIgnored) <==> d in ds && !showIgnored && d.ignored
    ensures multiset(Listed(ds, showIgnored)) + multiset(Hidden(ds, showIgnored)) == multiset(ds)
  {
    FilterMember(ds, d => Listable(d, showIgnored), d);
    FilterMember(ds, d => !Listable(d, showIgnored), d);
    FilterComplement(ds, d => Listable(d, showIgnored), d => !Listable(d, showIgnored));
  }

  /** With "Show ignored" checked every finding is listed, none hidden. */
  lemma ShowIgnoredListsAll(ds: seq<Diagnostic>)
    ensures Listed(ds, true) == ds && Hidden(ds, true) == []
  {
    FilterAll(ds, d => Listable(d, true));
    FilterNone(ds, d => !Listable(d, true));
  }

  /** Rebuilding the view from what it holds, listed findings first, changes
      nothing: `repopulateView` without a flag change is idempotent. */
  lemma RepopulateIsStable(ds: seq<Diagnostic>, showIgnored: bool)
    ensures var all := Listed(ds, showIgnored) + Hidden(ds, showIgnored);
      Listed(all, showIgnored) == Listed(ds, showIgnored) && Hidden(all, showIgnored) == Hidden(ds, showIgnored)
  {
    ListingOfPartition(Listed(ds, showIgnored), Hidden(ds, showIgnored), showIgnored);
  }

  /** A collection already split into listed and hidden findings is its own
      listing: what the view holds is what it would list and hide. */
  lemma ListingOfPartition(l: seq<Diagnostic>, h: seq<Diagnostic>, showIgnored: bool)
    requires forall k :: 0 <= k < |l| ==> Listable(l[k], showIgnored)
    requires forall k :: 0 <= k < |h| ==> !Listable(h[k], showIgnored)
    ensures Listed(l + h, showIgnored) == l && Hidden(l + h, showIgnored) == h
  {
    var p := d => Listable(d, showIgnored);
    var q := d => !Listable(d, showIgnored);
    FilterAppend(l, h, p);
    FilterAppend(l, h, q);
    FilterAll(l, p);
    FilterNone(h, p);
    FilterNone(l, q);
    FilterAll(h, q);
    assert l + [] == l && [] + h == h;
  }

  // ---------------------------------------------------------------------
  // Status labels (`updateLabels`).

  /** The two numbers of a label for one severity: findings of that
      severity not ignored, and ignored. */
  function SeverityCounts(ds: seq<Diagnostic>, severity: string): (counts: (nat, nat))
    ensures counts.0 + counts.1 <= |ds|
  {
    var all := Filter(ds, d => HasSeverity(d, severity));
    var ignored := |Filter(all, (d: Diagnostic) => d.ignored)|;
    (|all| - ignored, ignored)
  }

  /** The counts are those of the findings of that severity that are not
      ignored and that are ignored, and they add up to all of them. */
  lemma SeverityCountsSpec(ds: seq<Diagnostic>, severity: string)
    ensures var counts := SeverityCounts(ds, severity);
      && counts.0 == |Filter(ds, d => HasSeverity(d, severity) && !d.ignored)|
      && counts.1 == |Filter(ds, d => HasSeverity(d, severity) && d.ignored)|
      && counts.0 + counts.1 == |Filter(ds, d => HasSeverity(d, severity))|
  {
    var sev := d => HasSeverity(d, severity);
    var all := Filter(ds, sev);
    FilterComplement(all, (d: Diagnostic) => d.ignored, (d: Diagnostic) => !d.ignored);
    FilterFilter(ds, sev, (d: Diagnostic) => d.ignored, d => HasSeverity(d, severity) && d.ignored);
    FilterFilter(ds, sev, (d: Diagnostic) => !d.ignored, d => HasSeverity(d, severity) && !d.ignored);
  }

  /** "Errors: 3 (and 1 ignored)" */
  function LabelText(title: string, ds: seq<Diagnostic>, severity: string): string {
    var counts := SeverityCounts(ds, severity);
    title + ": " + IntToDecimal(counts.0) + " (and " + IntToDecimal(counts.1) + " ignored)"
  }

  /** The label reads back as the two counts. */
  lemma LabelTextReadsBack(title: string, ds: seq<Diagnostic>, severity: string)
    ensures var counts := SeverityCounts(ds, severity);
      var shown, ignored := IntToDecimal(counts.0), IntToDecimal(counts.1);
      && LabelText(title, ds, severity) == title + ": " + shown + " (and " + ignored + " ignored)"
      && ParseInt(shown) == Some(counts.0 as int) && ParseInt(ignored) == Some(counts.1 as int)
  {
    var counts := SeverityCounts(ds, severity);
    IntRoundTrip(counts.0);
    IntRoundTrip(counts.1);
  }

  // ---------------------------------------------------------------------
  // Confirmation on Continue (`onOkButtonClicked`).

  /** Some finding that is not ignored has severity "error" in any case: the
      generator of application.py:177 yields a first element. */
  predicate NeedsConfirmation(ds: seq<Diagnostic>) {
    Filter(ds, (d: Diagnostic) => !d.ignored && IsError(d)) != []
  }

  lemma NeedsConfirmationSpec(ds: seq<Diagnostic>)
    ensures NeedsConfirmation(ds) <==> exists i :: 0 <= i < |ds| && !ds[i].ignored && IsError(ds[i])
  {
    var p := (d: Diagnostic) => !d.ignored && IsError(d);
    var f := Filter(ds, p);
    if f != [] {
      FilterFrom(ds, p, f[0]);
    } else if i :| 0 <= i < |ds| && !ds[i].ignored && IsError(ds[i]) {
      FilterKeeps(ds, p, i);
    }
  }

  /** Continue asks for confirmation exactly when the errors label counts a
      shown error. */
  lemma NeedsConfirmationMatchesLabel(ds: seq<Diagnostic>)
    ensures NeedsConfirmation(ds) <==> SeverityCounts(ds, "error").0 > 0
  {
    SeverityCountsSpec(ds, "error");
    FilterCongruent(ds, (d: Diagnostic) => !d.ignored && IsError(d), d => HasSeverity(d, "error") && !d.ignored);
  }

  // ---------------------------------------------------------------------
  // Button states (`configureIgnoreButtons`).

  /** `{e.bIgnored: e for e in values}`: for each flag, the last finding
      carrying it. */
  function ByFlag(ds: seq<Diagnostic>): map<bool, Diagnostic> {
    if ds == [] then map[]
    else ByFlag(ds[..|ds| - 1])[ds[|ds| - 1].ignored := ds[|ds| - 1]]
  }

  lemma {:induction false} ByFlagSpec(ds: seq<Diagnostic>, flag: bool)
    ensures flag in ByFlag(ds) <==> exists i :: 0 <= i < |ds| && ds[i].ignored == flag
    ensures flag in ByFlag(ds) ==> ByFlag(ds)[flag] in ds && ByFlag(ds)[flag].ignored == flag
  {
    if ds != [] {
      var init := ds[..|ds| - 1];
      ByFlagSpec(init, flag);
      if i :| 0 <= i < |init| && init[i].ignored == flag {
        assert ds[i] == init[i];
      }
      if i :| 0 <= i < |ds| && ds[i].ignored == flag {
        if i < |init| { assert init[i] == ds[i]; }
      }
    }
  }

  /** "Ignore all" is enabled when some finding is not ignored. */
  predicate IgnoreAllEnabled(ds: seq<Diagnostic>) { false in ByFlag(ds) }

  /** "Unignore all" is enabled when some finding is ignored. */
  predicate UnignoreAllEnabled(ds: seq<Diagnostic>) { true in ByFlag(ds) }

  lemma AllButtonsSpec(ds: seq<Diagnostic>)
    ensures IgnoreAllEnabled(ds) <==> exists i :: 0 <= i < |ds| && !ds[i].ignored
    ensures UnignoreAllEnabled(ds) <==> exists i :: 0 <= i < |ds| && ds[i].ignored
  {
    ByFlagSpec(ds, false);
    ByFlagSpec(ds, true);
  }

  /** With no finding held, both "all" buttons are disabled and both labels
      show zeros. */
  lemma NothingHeld()
    ensures !IgnoreAllEnabled([]) && !UnignoreAllEnabled([])
    ensures SeverityCounts([], "error") == (0, 0) && SeverityCounts([], "warning") == (0, 0)
  {
    AllButtonsSpec([]);
  }

  // ---------------------------------------------------------------------
  // Flag changes (`onIgnore*ButtonClicked`, `onUnignoreAllButtonClicked`).

  /** Two collections hold the same findings at the same places, flags
      aside. */
  predicate SameFindings(a: seq<Diagnostic>, b: seq<Diagnostic>) {
    |a| == |b| && forall i :: 0 <= i < |a| ==> Content(a[i]) == Content(b[i])
  }

  /** Every finding with its flag set to `flag`. */
  function SetEvery(ds: seq<Diagnostic>, flag: bool): (r: seq<Diagnostic>)
    ensures SameFindings(ds, r)
    ensures forall i :: 0 <= i < |r| ==> r[i].ignored == flag
  {
    seq(|ds|, i requires 0 <= i < |ds| => ds[i].(ignored := flag))
  }

  /** The findings at the positions in `at` with their flag set to `flag`. */
  function SetAt(ds: seq<Diagnostic>, at: set<nat>, flag: bool): (r: seq<Diagnostic>)
    ensures SameFindings(ds, r)
    ensures forall i :: 0 <= i < |r| ==> r[i].ignored == if i in at then flag else ds[i].ignored
  {
    seq(|ds|, i requires 0 <= i < |ds| => if i in at then ds[i].(ignored := flag) else ds[i])
  }

  /** The categories of the findings at the positions in `at`. */
  function CategoriesAt(ds: seq<Diagnostic>, at: set<nat>): set<string> {
    set i | i in at && i < |ds| :: ds[i].category
  }

  /** The findings whose category is in `categories` with their flag set. */
  function SetInCategories(ds: seq<Diagnostic>, categories: set<string>, flag: bool): (r: seq<Diagnostic>)
    ensures SameFindings(ds, r)
    ensures forall i :: 0 <= i < |r| ==> r[i].ignored == if ds[i].category in categories then flag else ds[i].ignored
  {
    seq(|ds|, i requires 0 <= i < |ds| => if ds[i].category in categories then ds[i].(ignored := flag) else ds[i])
  }

  /** After "Ignore all" nothing asks for confirmation and "Ignore all" is
      disabled. */
  lemma IgnoreAllEffects(ds: seq<Diagnostic>)
    ensures !NeedsConfirmation(SetEvery(ds, true)) && !IgnoreAllEnabled(SetEvery(ds, true))
  {
    var on := SetEvery(ds, true);
    NeedsConfirmationSpec(on);
    AllButtonsSpec(on);
  }

  /** After "Ignore all" every finding of each severity counts as ignored. */
  lemma IgnoreAllCounts(ds: seq<Diagnostic>, severity: string)
    ensures SeverityCounts(SetEvery(ds, true), severity) == (0, |Filter(ds, d => HasSeverity(d, severity))|)
  {
    var on := SetEvery(ds, true);
    SameFindingsSeverity(ds, on, severity);
    var all := Filter(on, d => HasSeverity(d, severity));
    assert forall d :: d in all ==> d in on by {
      forall d | d in all ensures d in on {
        FilterFrom(on, d => HasSeverity(d, severity), d);
      }
    }
    FilterAll(all, (d: Diagnostic) => d.ignored);
  }

  /** After "Unignore all" Continue asks exactly when some finding is an
      error, and "Unignore all" is disabled. */
  lemma UnignoreAllEffects(ds: seq<Diagnostic>)
    ensures NeedsConfirmation(SetEvery(ds, false)) <==> exists i :: 0 <= i < |ds| && IsError(ds[i])
    ensures !UnignoreAllEnabled(SetEvery(ds, false))
  {
    var off := SetEvery(ds, false);
    NeedsConfirmationSpec(off);
    AllButtonsSpec(off);
    assert forall i :: 0 <= i < |ds| ==> (IsError(ds[i]) <==> IsError(off[i]));
  }

  /** Flags aside, the same findings have the same severities. */
  lemma {:induction false} SameFindingsSeverity(a: seq<Diagnostic>, b: seq<Diagnostic>, severity: string)
    requires SameFindings(a, b)
    ensures |Filter(a, d => HasSeverity(d, severity))| == |Filter(b, d => HasSeverity(d, severity))|
  {
    if a != [] {
      var a', b' := a[..|a| - 1], b[..|b| - 1];
      assert Content(a[|a| - 1]) == Content(b[|b| - 1]);
      SameFindingsSeverity(a', b', severity);
    }
  }

  /** Ignoring a category covers ignoring the selection it was taken from. */
  lemma CategoryCoversSelection(ds: seq<Diagnostic>, at: set<nat>, flag: bool)
    ensures forall i :: i in at && i < |ds| ==> SetInCategories(ds, CategoriesAt(ds, at), flag)[i] == SetAt(ds, at, flag)[i]
  {
    forall i | i in at && i < |ds| ensures ds[i].category in CategoriesAt(ds, at) {
    }
  }

  /** Unignoring what was just ignored restores the findings, when none of
      them was ignored before. */
  lemma UnignoreUndoesIgnore(ds: seq<Diagnostic>, at: set<nat>)
    requires forall i :: i in at && i < |ds| ==> !ds[i].ignored
    ensures SetAt(SetAt(ds, at, true), at, false) == ds
  {
    var r := SetAt(SetAt(ds, at, true), at, false);
    forall i | 0 <= i < |ds| ensures r[i] == ds[i] {
    }
  }

  /** The loop over `dCheckstyleErrors.values()` of "Ignore all" and
      "Unignore all". */
  method SetEveryFlag(ds: seq<Diagnostic>, flag: bool) returns (r: seq<Diagnostic>)
    ensures r == SetEvery(ds, flag)
  {
    r := ds;
    for i := 0 to |ds|
      invariant |r| == |ds|
      invariant forall j :: 0 <= j < i ==> r[j] == ds[j].(ignored := flag)
      invariant forall j :: i <= j < |ds| ==> r[j] == ds[j]
    {
      r := r[i := r[i].(ignored := flag)];
    }
  }

  /** The loop over `dCheckstyleErrors.values()` of "Ignore category". */
  method SetCategoryFlags(ds: seq<Diagnostic>, categories: set<string>, flag: bool) returns (r: seq<Diagnostic>)
    ensures r == SetInCategories(ds, categories, flag)
  {
    r := ds;
    for i := 0 to |ds|
      invariant |r| == |ds|
      invariant forall j :: 0 <= j < i ==> r[j] == if ds[j].category in categories then ds[j].(ignored := flag) else ds[j]
      invariant forall j :: i <= j < |ds| ==> r[j] == ds[j]
    {
      if r[i].category in categories {
        r := r[i := r[i].(ignored := flag)];
      }
    }
  }

  // ---------------------------------------------------------------------
  // Refresh (`onRefreshButtonClicked`).

  /** `olds.index(d)`: the position of the first old finding with the same
      content, or none (`ValueError`). */
  function FirstMatch(olds: seq<Diagnostic>, d: Diagnostic, norm: PathNorm): (r: Option<nat>)
    ensures r.Some? ==> r.value < |olds| && SameContent(olds[r.value], d, norm)
    ensures r.Some? ==> forall j :: 0 <= j < r.value ==> !SameContent(olds[j], d, norm)
    ensures r.None? <==> forall j :: 0 <= j < |olds| ==> !SameContent(olds[j], d, norm)
  {
    if olds == [] then None
    else if SameContent(olds[0], d, norm) then Some(0)
    else match FirstMatch(olds[1..], d, norm)
      case None => None
      case Some(k) => Some(k + 1)
  }

  /** A new finding takes the flag of the first old finding with the same
      content, if there is one. */
  function CarryOver(olds: seq<Diagnostic>, d: Diagnostic, norm: PathNorm): (r: Diagnostic)
    ensures Content(r) == Content(d)
    ensures forall j :: 0 <= j < |olds| && SameContent(olds[j], d, norm)
              && (forall k :: 0 <= k < j ==> !SameContent(olds[k], d, norm))
              ==> r.ignored == olds[j].ignored
    ensures (forall j :: 0 <= j < |olds| ==> !SameContent(olds[j], d, norm)) ==> r == d
  {
    match FirstMatch(olds, d, norm)
    case Some(j) => d.(ignored := olds[j].ignored)
    case None => d
  }

  /** The new findings, in their order, with the flags carried over. */
  function Reconciled(olds: seq<Diagnostic>, news: seq<Diagnostic>, norm: PathNorm): (r: seq<Diagnostic>)
    ensures SameFindings(news, r)
  {
    seq(|news|, i requires 0 <= i < |news| => CarryOver(olds, news[i], norm))
  }

  /** Refresh keeps the new findings in their order and with their content;
      a new finding that matches old ones takes the flag of the first of
      them; one that matches none keeps its own flag. */
  lemma ReconciledSpec(olds: seq<Diagnostic>, news: seq<Diagnostic>, norm: PathNorm, i: nat, j: nat)
    requires i < |news|
    ensures var r := Reconciled(olds, news, norm);
      && SameFindings(news, r)
      && (j < |olds| && SameContent(olds[j], news[i], norm)
          && (forall k :: 0 <= k < j ==> !SameContent(olds[k], news[i], norm))
          ==> r[i].ignored == olds[j].ignored)
      && ((forall k :: 0 <= k < |olds| ==> !SameContent(olds[k], news[i], norm)) ==> r[i] == news[i])
  {
    var r := Reconciled(olds, news, norm);
    forall k | 0 <= k < |news| ensures Content(news[k]) == Content(r[k]) {
    }
    if j < |olds| && SameContent(olds[j], news[i], norm)
       && (forall k :: 0 <= k < j ==> !SameContent(olds[k], news[i], norm)) {
      var m := FirstMatch(olds, news[i], norm);
      assert m.Some?;
    }
  }

  /** An old finding that matches no new finding is gone after the refresh. */
  lemma RefreshDropsVanished(olds: seq<Diagnostic>, news: seq<Diagnostic>, norm: PathNorm, o: Diagnostic)
    requires forall i :: 0 <= i < |news| ==> !SameContent(o, news[i], norm)
    ensures forall i :: 0 <= i < |news| ==> !SameContent(o, Reconciled(olds, news, norm)[i], norm)
  {
    var r := Reconciled(olds, news, norm);
    forall i | 0 <= i < |news| ensures !SameContent(o, r[i], norm) {
      assert Content(r[i]) == Content(news[i]);
    }
  }

  /** Refreshing twice against the same old findings gives the same result:
      the match looks at content only, not at the flag. */
  lemma ReconciledIdempotent(olds: seq<Diagnostic>, news: seq<Diagnostic>, norm: PathNorm)
    ensures Reconciled(olds, Reconciled(olds, news, norm), norm) == Reconciled(olds, news, norm)
  {
    var r := Reconciled(olds, news, norm);
    forall i | 0 <= i < |news| ensures CarryOver(olds, r[i], norm) == r[i] {
      FirstMatchIgnoresFlag(olds, news[i], r[i], norm);
    }
  }

  lemma {:induction false} FirstMatchIgnoresFlag(olds: seq<Diagnostic>, a: Diagnostic, b: Diagnostic, norm: PathNorm)
    requires Content(a) == Content(b)
    ensures FirstMatch(olds, a, norm) == FirstMatch(olds, b, norm)
  {
    if olds != [] {
      FirstMatchIgnoresFlag(olds[1..], a, b, norm);
    }
  }

  /** The findings as a fresh report gives them: same content, no flag. */
  function Unflagged(ds: seq<Diagnostic>): (r: seq<Diagnostic>)
    ensures SameFindings(ds, r) && forall i :: 0 <= i < |r| ==> !r[i].ignored
  {
    seq(|ds|, i requires 0 <= i < |ds| => Content(ds[i]))
  }

  /** No two findings with the same content carry different flags. */
  predicate ConsistentFlags(ds: seq<Diagnostic>, norm: PathNorm) {
    forall i, j :: 0 <= i < |ds| && 0 <= j < |ds| && SameContent(ds[i], ds[j], norm) ==> ds[i].ignored == ds[j].ignored
  }

  /** Refreshing with an unchanged report gives back the findings with their
      flags, when no two of them with the same content disagree. */
  lemma RefreshUnchangedKeepsFlags(olds: seq<Diagnostic>, norm: PathNorm)
    requires ConsistentFlags(olds, norm)
    ensures Reconciled(olds, Unflagged(olds), norm) == olds
  {
    var news := Unflagged(olds);
    var r := Reconciled(olds, news, norm);
    forall i | 0 <= i < |olds| ensures r[i] == olds[i] {
      assert Content(news[i]) == Content(olds[i]);
      SameContentIsEquivalence(olds[i], news[i], news[i], norm);
      var m := FirstMatch(olds, news[i], norm);
      assert m.Some?;
      SameContentIsEquivalence(olds[m.value], news[i], olds[i], norm);
      SameContentIsEquivalence(olds[i], news[i], olds[m.value], norm);
      assert SameContent(olds[m.value], olds[i], norm);
      assert r[i] == olds[i] by {
        assert r[i] == CarryOver(olds, news[i], norm);
        assert r[i] == news[i].(ignored := olds[m.value].ignored);
      }
    }
  }

  /** Without that condition the refresh is not neutral: of two findings
      with the same content, the second takes the flag of the first. */
  lemma RefreshMergesDuplicateFlags(d: Diagnostic, norm: PathNorm)
    ensures var olds := [d.(ignored := true), d.(ignored := false)];
      Reconciled(olds, Unflagged(olds), norm) == [d.(ignored := true), d.(ignored := true)]
  {
    var olds := [d.(ignored := true), d.(ignored := false)];
    var news := Unflagged(olds);
    assert SameContent(olds[0], news[0], norm) && SameContent(olds[0], news[1], norm);
    assert FirstMatch(olds, news[0], norm) == Some(0);
    assert FirstMatch(olds, news[1], norm) == Some(0);
    assert CarryOver(olds, news[0], norm) == d.(ignored := true);
    assert CarryOver(olds, news[1], norm) == d.(ignored := true);
  }

  /** `lOldCheckstyleErrors.index(oError)`: the loop of `list.index`. */
  method IndexOf(olds: seq<Diagnostic>, d: Diagnostic, norm: PathNorm) returns (r: Option<nat>)
    ensures r == FirstMatch(olds, d, norm)
  {
    var j := 0;
    while j < |olds|
      invariant 0 <= j <= |olds|
      invariant forall k :: 0 <= k < j ==> !SameContent(olds[k], d, norm)
    {
      if SameContent(olds[j], d, norm) {
        FirstMatchAt(olds, d, norm, j);
        return Some(j);
      }
      j := j + 1;
    }
    r := None;
  }

  lemma {:induction false} FirstMatchAt(olds: seq<Diagnostic>, d: Diagnostic, norm: PathNorm, j: nat)
    requires j < |olds| && SameContent(olds[j], d, norm)
    requires forall k :: 0 <= k < j ==> !SameContent(olds[k], d, norm)
    ensures FirstMatch(olds, d, norm) == Some(j)
  {
    var m := FirstMatch(olds, d, norm);
  }

  /** The loop of application.py:228-233 over the new findings. */
  method CarryOverFlags(olds: seq<Diagnostic>, news: seq<Diagnostic>, norm: PathNorm) returns (r: seq<Diagnostic>)
    ensures r == Reconciled(olds, news, norm)
  {
    r := news;
    for i := 0 to |news|
      invariant |r| == |news|
      invariant forall j :: 0 <= j < i ==> r[j] == CarryOver(olds, news[j], norm)
      invariant forall j :: i <= j < |news| ==> r[j] == news[j]
    {
      var idx := IndexOf(olds, r[i], norm);
      if idx.Some? {
        r := r[i := r[i].(ignored := olds[idx.value].ignored)];
      }
    }
  }
}
