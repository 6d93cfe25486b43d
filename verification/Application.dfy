/** The review window of application.py (`Application`) without its widgets:
    the findings it holds in `dCheckstyleErrors`, the rows of the list, the
    selection, the "Show ignored" box, the button states and labels, and the
    value `mainloop` returns. Each event handler is a method. */
module App {
  import opened Wrappers
  import opened Text
  import opened Seqs
  import opened Diagnostics
  import opened Review
  import Analysis

  /** A key of `dCheckstyleErrors`: the tree item of the k-th listed row, or
      the key "__hidden_k" of the k-th hidden finding. */
  datatype ItemId = Row(k: nat) | HiddenSlot(k: nat)

  /** What a row of the list shows: its four cells and its colour tag. */
  datatype RowView = RowView(cells: (string, string, string, string), tag: string)

  /** The tag of application.py:239-241: the severity in lower case, with
      ".ignored" appended when the finding is ignored. */
  function Tag(d: Diagnostic): string {
    var tag := Lower(d.severity);
    if d.ignored then tag + ".ignored" else tag
  }

  function RowOf(d: Diagnostic): RowView {
    RowView(ItemValues(d), Tag(d))
  }

  /** The rows that show the findings `ds`, in order. */
  function RowsOf(ds: seq<Diagnostic>): (r: seq<RowView>)
    ensures |r| == |ds|
  {
    seq(|ds|, k requires 0 <= k < |ds| => RowOf(ds[k]))
  }

  /** The positions of the selected rows. */
  function SelectedRows(selection: set<ItemId>): set<nat> {
    set id | id in selection && id.Row? :: id.k
  }

  /** The loop of `onIgnoreButtonClicked` over the selected items. */
  method SetSelectedFlags(listed: seq<Diagnostic>, selection: set<ItemId>, flag: bool) returns (r: seq<Diagnostic>)
    requires forall id :: id in selection ==> id.Row? && id.k < |listed|
    ensures r == SetAt(listed, SelectedRows(selection), flag)
  {
    r := listed;
    var todo := selection;
    while todo != {}
      invariant todo <= selection
      invariant r == SetAt(listed, SelectedRows(selection - todo), flag)
      decreases todo
    {
      var id :| id in todo;
      r := r[id.k := r[id.k].(ignored := flag)];
      todo := todo - {id};
      assert SelectedRows(selection - todo) == SelectedRows(selection - (todo + {id})) + {id.k};
    }
    assert selection - {} == selection;
  }

  class Application {
    /** `os.path.normcase(os.path.abspath(...))` on this platform. */
    const norm: PathNorm
    /** The findings of the listed rows, row k being item `Row(k)`. */
    var listed: seq<Diagnostic>
    /** The findings held under the keys "__hidden_0", "__hidden_1", ... */
    var hidden: seq<Diagnostic>
    /** The rows of the tree view, as last drawn. */
    var rows: seq<RowView>
    var selection: set<ItemId>
    /** The "Show ignored" box, and the value its change detector last saw. */
    var showIgnored: bool
    /** `bUnignore`: the ignore buttons unignore instead. */
    var unignore: bool
    /** "Ignore" and "Ignore category" are enabled. */
    var ignoreEnabled: bool
    var ignoreAllEnabled: bool
    var unignoreAllEnabled: bool
    /** The two numbers of the "Errors: %d (and %d ignored)" label. */
    var errorCounts: (nat, nat)
    /** The two numbers of the "Warnings: %d (and %d ignored)" label. */
    var warningCounts: (nat, nat)
    /** `iRetVal` */
    var retVal: int
    /** The window exists and has not been destroyed. */
    var open: bool

    /** `dCheckstyleErrors.values()`, in insertion order. */
    function Values(): seq<Diagnostic>
      reads this`listed, this`hidden
    {
      listed + hidden
    }

    /** What survives a change of flags: one row per listed finding, a
        selection of listed rows, nothing hidden while ignored findings are
        shown. */
    predicate Structure()
      reads this`rows, this`listed, this`hidden, this`selection, this`showIgnored
    {
      && |rows| == |listed|
      && (forall id :: id in selection ==> id.Row? && id.k < |listed|)
      && (showIgnored ==> hidden == [])
    }

    /** The findings are listed or hidden as the box says. */
    predicate Partitioned()
      reads this`listed, this`hidden, this`showIgnored
    {
      && (forall k :: 0 <= k < |listed| ==> Listable(listed[k], showIgnored))
      && (forall k :: 0 <= k < |hidden| ==> !Listable(hidden[k], showIgnored))
    }

    /** The widgets show the findings: each row shows its finding, the
        buttons and labels agree with the findings and the selection. */
    predicate Shown()
      reads this`listed, this`hidden, this`selection, this`rows, this`ignoreEnabled, this`unignore, this`ignoreAllEnabled, this`unignoreAllEnabled,
               this`errorCounts, this`warningCounts
    {
      && rows == RowsOf(listed)
      && ignoreEnabled == (selection != {})
      && (forall id :: id in selection && selection == {id} && id.Row? && id.k < |listed| ==> unignore == listed[id.k].ignored)
      && ignoreAllEnabled == IgnoreAllEnabled(Values())
      && unignoreAllEnabled == UnignoreAllEnabled(Values())
      && errorCounts == SeverityCounts(Values(), "error")
      && warningCounts == SeverityCounts(Values(), "warning")
    }

    /** The invariant every event handler keeps. The exit code and whether
        the window is open are not part of it. */
    predicate Valid()
      reads this`listed, this`hidden, this`selection, this`showIgnored, this`rows, this`ignoreEnabled, this`unignore, this`ignoreAllEnabled, this`unignoreAllEnabled,
               this`errorCounts, this`warningCounts
    {
      Structure() && Partitioned() && Shown()
    }

    /** `Application.__init__` with the findings the provider gave: the
        window opens, with exit code 1, when some finding is an error, and
        stays closed with exit code 0 otherwise. */
    constructor(errors: seq<Diagnostic>, norm: PathNorm)
      ensures Valid() && this.norm == norm
      ensures retVal == Analysis.BatchExitCode(errors)
      ensures open <==> exists i :: 0 <= i < |errors| && IsError(errors[i])
      ensures !showIgnored && selection == {}
      ensures open ==> listed == Listed(errors, false) && hidden == Hidden(errors, false)
      ensures !open ==> Values() == []
    {
      var code := Analysis.BatchExitCode(errors);
      Analysis.BatchExitCodeSpec(errors);
      this.norm := norm;
      listed, hidden, rows, selection := [], [], [], {};
      showIgnored, unignore := false, false;
      ignoreEnabled, ignoreAllEnabled, unignoreAllEnabled := false, false, false;
      errorCounts, warningCounts := (0, 0), (0, 0);
      retVal, open := code, code == 1;
      new;
      if code == 1 {
        PopulateView(errors);
      } else {
        NothingShownValid();
      }
    }

    /** A window that holds nothing and shows nothing is in a valid state. */
    lemma NothingShownValid()
      requires listed == [] && hidden == [] && rows == [] && selection == {} && !showIgnored
      requires !ignoreEnabled && !ignoreAllEnabled && !unignoreAllEnabled
      requires errorCounts == (0, 0) && warningCounts == (0, 0)
      ensures Valid()
    {
      NothingHeld();
      assert Values() == [];
    }

    /** `populateView`: list the findings the box lets through, hide the
        others, clear the selection and redraw. */
    method PopulateView(errors: seq<Diagnostic>)
      modifies this`listed, this`hidden, this`selection,
               this`rows, this`ignoreEnabled, this`unignore, this`ignoreAllEnabled, this`unignoreAllEnabled,
               this`errorCounts, this`warningCounts
      ensures listed == Listed(errors, showIgnored) && hidden == Hidden(errors, showIgnored)
      ensures selection == {} && unignore == old(unignore) && Valid()
    {
      var l := Listed(errors, showIgnored);
      listed := l;
      rows := seq(|l|, k requires 0 <= k < |l| => RowView(ItemValues(l[k]), ""));
      selection := {};
      hidden := Hidden(errors, showIgnored);
      if showIgnored {
        ShowIgnoredListsAll(errors);
      }
      DoUpdateView();
    }

    /** `repopulateView`: rebuild the view from what it holds. */
    method Repopulate()
      modifies this`listed, this`hidden, this`selection,
               this`rows, this`ignoreEnabled, this`unignore, this`ignoreAllEnabled, this`unignoreAllEnabled,
               this`errorCounts, this`warningCounts
      ensures listed == Listed(old(Values()), showIgnored) && hidden == Hidden(old(Values()), showIgnored)
      ensures selection == {} && unignore == old(unignore) && Valid()
    {
      PopulateView(Values());
    }

    /** `doUpdateView`: redraw every listed row, then the buttons and the
        labels. */
    method DoUpdateView()
      requires Structure() && Partitioned()
      modifies this`rows, this`ignoreEnabled, this`unignore, this`ignoreAllEnabled, this`unignoreAllEnabled,
               this`errorCounts, this`warningCounts
      ensures Valid()
      ensures |selection| != 1 ==> unignore == old(unignore)
    {
      DrawRows();
      UpdateControls();
    }

    /** The end of `doUpdateView`: the buttons, then the labels. */
    method UpdateControls()
      requires Structure()
      modifies this`ignoreEnabled, this`unignore, this`ignoreAllEnabled, this`unignoreAllEnabled,
               this`errorCounts, this`warningCounts
      ensures ignoreEnabled == (selection != {})
      ensures forall id :: id in selection && selection == {id} ==> unignore == listed[id.k].ignored
      ensures |selection| != 1 ==> unignore == old(unignore)
      ensures ignoreAllEnabled == IgnoreAllEnabled(Values())
      ensures unignoreAllEnabled == UnignoreAllEnabled(Values())
      ensures errorCounts == SeverityCounts(Values(), "error")
      ensures warningCounts == SeverityCounts(Values(), "warning")
    {
      ConfigureIgnoreButtons();
      UpdateLabels();
    }

    /** The loop of `doUpdateView` over the listed rows: each shows the
        cells and the tag of its finding. */
    method DrawRows()
      requires |rows| == |listed|
      modifies this`rows
      ensures rows == RowsOf(listed)
    {
      var drawn := rows;
      for k := 0 to |listed|
        invariant |drawn| == |listed|
        invariant forall j :: 0 <= j < k ==> drawn[j] == RowOf(listed[j])
      {
        drawn := drawn[k := RowOf(listed[k])];
      }
      rows := drawn;
    }

    /** `configureIgnoreButtons` */
    method ConfigureIgnoreButtons()
      requires Structure()
      modifies this`ignoreEnabled, this`unignore, this`ignoreAllEnabled, this`unignoreAllEnabled
      ensures ignoreEnabled == (selection != {})
      ensures forall id :: id in selection && selection == {id} ==> unignore == listed[id.k].ignored
      ensures |selection| != 1 ==> unignore == old(unignore)
      ensures ignoreAllEnabled == IgnoreAllEnabled(Values())
      ensures unignoreAllEnabled == UnignoreAllEnabled(Values())
    {
      if selection == {} {
        ignoreEnabled := false;
      } else {
        ignoreEnabled := true;
        if |selection| == 1 {
          var id :| id in selection;
          assert selection == {id} by {
            assert |selection - {id}| == 0;
          }
          unignore := listed[id.k].ignored;
        }
      }
      ignoreAllEnabled := IgnoreAllEnabled(Values());
      unignoreAllEnabled := UnignoreAllEnabled(Values());
    }

    /** `updateLabels` */
    method UpdateLabels()
      modifies this`errorCounts, this`warningCounts
      ensures errorCounts == SeverityCounts(Values(), "error")
      ensures warningCounts == SeverityCounts(Values(), "warning")
    {
      errorCounts := SeverityCounts(Values(), "error");
      warningCounts := SeverityCounts(Values(), "warning");
    }

    /** `updateView` after a change of flags: with ignored findings hidden the
        view is rebuilt (and the selection cleared), otherwise only redrawn. */
    method UpdateView()
      requires Structure()
      modifies this`listed, this`hidden, this`selection,
               this`rows, this`ignoreEnabled, this`unignore, this`ignoreAllEnabled, this`unignoreAllEnabled,
               this`errorCounts, this`warningCounts
      ensures Valid()
      ensures listed == Listed(old(Values()), showIgnored) && hidden == Hidden(old(Values()), showIgnored)
      ensures selection == if showIgnored then old(selection) else {}
      ensures |selection| != 1 ==> unignore == old(unignore)
    {
      if !showIgnored {
        Repopulate();
      } else {
        assert Values() == listed;
        ShowIgnoredListsAll(listed);
        DoUpdateView();
      }
    }

    /** The held findings, in order, replaced by `values` (the same findings
        with some flags changed), then `updateView`. */
    method Reflag(values: seq<Diagnostic>)
      requires Structure() && |values| == |listed| + |hidden|
      modifies this`listed, this`hidden, this`selection,
               this`rows, this`ignoreEnabled, this`unignore, this`ignoreAllEnabled, this`unignoreAllEnabled,
               this`errorCounts, this`warningCounts
      ensures Valid()
      ensures listed == Listed(values, showIgnored) && hidden == Hidden(values, showIgnored)
      ensures selection == if showIgnored then old(selection) else {}
      ensures |selection| != 1 ==> unignore == old(unignore)
    {
      var n := |listed|;
      assert values[..n] + values[n..] == values;
      listed, hidden := values[..n], values[n..];
      UpdateView();
    }

    /** `onViewClicked` after the user changed the selection to `chosen`. */
    method OnViewClicked(chosen: set<ItemId>)
      requires Valid()
      requires forall id :: id in chosen ==> id.Row? && id.k < |listed|
      modifies this`selection, this`ignoreEnabled, this`unignore, this`ignoreAllEnabled, this`unignoreAllEnabled
      ensures Valid() && selection == chosen
      ensures |chosen| != 1 ==> unignore == old(unignore)
    {
      selection := chosen;
      assert Structure() && Partitioned() && rows == RowsOf(listed);
      ConfigureIgnoreButtons();
    }

    /** `onIgnoreButtonClicked`: the selected findings become ignored, or
        unignored when the button says "Unignore". */
    method OnIgnore()
      requires Valid()
      modifies this`listed, this`hidden, this`selection,
               this`rows, this`ignoreEnabled, this`unignore, this`ignoreAllEnabled, this`unignoreAllEnabled,
               this`errorCounts, this`warningCounts
      ensures Valid()
      ensures var changed := SetAt(old(listed), SelectedRows(old(selection)), !old(unignore)) + old(hidden);
        listed == Listed(changed, showIgnored) && hidden == Hidden(changed, showIgnored)
      ensures selection == if showIgnored then old(selection) else {}
      ensures |selection| != 1 ==> unignore == old(unignore)
    {
      listed := SetSelectedFlags(listed, selection, !unignore);
      UpdateView();
    }

    /** `onIgnoreCategoryButtonClicked`: every finding, listed or hidden,
        whose category is that of a selected finding becomes ignored, or
        unignored when the button says "Unignore category". */
    method OnIgnoreCategory()
      requires Valid()
      modifies this`listed, this`hidden, this`selection,
               this`rows, this`ignoreEnabled, this`unignore, this`ignoreAllEnabled, this`unignoreAllEnabled,
               this`errorCounts, this`warningCounts
      ensures Valid()
      ensures var changed := SetInCategories(old(Values()), CategoriesAt(old(listed), SelectedRows(old(selection))), !old(unignore));
        listed == Listed(changed, showIgnored) && hidden == Hidden(changed, showIgnored)
      ensures selection == if showIgnored then old(selection) else {}
      ensures |selection| != 1 ==> unignore == old(unignore)
    {
      var categories := set id | id in selection :: listed[id.k].category;
      assert categories == CategoriesAt(listed, SelectedRows(selection));
      var values := SetCategoryFlags(Values(), categories, !unignore);
      Reflag(values);
    }

    /** `onIgnoreAllButtonClicked` */
    method OnIgnoreAll()
      requires Valid()
      modifies this`listed, this`hidden, this`selection,
               this`rows, this`ignoreEnabled, this`unignore, this`ignoreAllEnabled, this`unignoreAllEnabled,
               this`errorCounts, this`warningCounts
      ensures Valid()
      ensures var changed := SetEvery(old(Values()), true);
        listed == Listed(changed, showIgnored) && hidden == Hidden(changed, showIgnored)
      ensures selection == if showIgnored then old(selection) else {}
      ensures |selection| != 1 ==> unignore == old(unignore)
    {
      var values := SetEveryFlag(Values(), true);
      Reflag(values);
    }

    /** `onUnignoreAllButtonClicked` */
    method OnUnignoreAll()
      requires Valid()
      modifies this`listed, this`hidden, this`selection,
               this`rows, this`ignoreEnabled, this`unignore, this`ignoreAllEnabled, this`unignoreAllEnabled,
               this`errorCounts, this`warningCounts
      ensures Valid()
      ensures var changed := SetEvery(old(Values()), false);
        listed == Listed(changed, showIgnored) && hidden == Hidden(changed, showIgnored)
      ensures selection == if showIgnored then old(selection) else {}
      ensures |selection| != 1 ==> unignore == old(unignore)
    {
      var values := SetEveryFlag(Values(), false);
      Reflag(values);
    }

    /** `onRefreshButtonClicked` with what the provider gave now. Findings
        replace the held ones, each taking the flag of the first held
        finding with the same content. A provider that raised leaves the
        window as it was: Tk reports the exception of the callback and the
        main loop goes on. */
    method OnRefresh(provided: Result<seq<Diagnostic>, Analysis.Fault>)
      requires Valid()
      modifies this`listed, this`hidden, this`selection,
               this`rows, this`ignoreEnabled, this`unignore, this`ignoreAllEnabled, this`unignoreAllEnabled,
               this`errorCounts, this`warningCounts
      ensures Valid()
      ensures provided.Failure? ==> unchanged(this)
      ensures provided.Success? ==> selection == {}
      ensures provided.Success? ==> var refreshed := Reconciled(old(Values()), provided.value, norm);
        listed == Listed(refreshed, showIgnored) && hidden == Hidden(refreshed, showIgnored)
      ensures unignore == old(unignore)
    {
      if provided.Failure? {
        return;
      }
      var refreshed := CarryOverFlags(Values(), provided.value, norm);
      PopulateView(refreshed);
    }

    /** The "Show ignored" box set to `checked`: its change detector rebuilds
        the view only when the value differs from the last one it saw. */
    method SetShowIgnored(checked: bool)
      requires Valid()
      modifies this`showIgnored, this`listed, this`hidden, this`selection,
               this`rows, this`ignoreEnabled, this`unignore, this`ignoreAllEnabled, this`unignoreAllEnabled,
               this`errorCounts, this`warningCounts
      ensures Valid() && showIgnored == checked && unignore == old(unignore)
      ensures checked != old(showIgnored) ==>
        listed == Listed(old(Values()), checked) && hidden == Hidden(old(Values()), checked) && selection == {}
      ensures checked == old(showIgnored) ==>
        listed == old(listed) && hidden == old(hidden) && selection == old(selection)
    {
      if checked != showIgnored {
        showIgnored := checked;
        Repopulate();
      }
    }

    /** `onOkButtonClicked` (also run when the window is closed), with the
        user's answer to the confirmation: when an error is still shown and
        the user does not confirm, nothing happens; otherwise the window
        closes with exit code 0. */
    method OnOk(confirmed: bool)
      requires Valid()
      modifies this`retVal, this`open
      ensures NeedsConfirmation(Values()) && !confirmed ==> retVal == old(retVal) && open == old(open)
      ensures !NeedsConfirmation(Values()) || confirmed ==> retVal == 0 && !open
    {
      if NeedsConfirmation(Values()) && !confirmed {
        return;
      }
      retVal, open := 0, false;
    }

    /** `onCancelButtonClicked`: the window closes, the exit code stays. */
    method OnCancel()
      modifies this`open
      ensures !open
    {
      open := false;
    }
  }
}
