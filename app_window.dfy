/**
  The main window with its widgets replaced by plain state: the loaded DSNs, the DSN combo box, the
  settings list behind the table, the filter text, the rows the table shows and the sort arrows of the
  first three columns.
*/
module MainWindow {
  import opened Errors
  import opened Registry
  import opened DuckDbSettings
  import opened SettingsTable
  import opened SettingsSort
  import LoadDsns
  import LoadDsnsResults

  /** A column header's sort arrow. */
  datatype Arrow = Up | Down

  /**
    on_settings_view_sort's toggle: the arrow flips, and the new arrow pointing up means a descending
    sort.
  */
  function Toggle(current: Arrow): (r: (Arrow, bool))
    ensures r.0 != current
    ensures r.1 <==> r.0 == Up
    ensures r.1 <==> current == Down
  {
    match current
    case Up => (Down, false)
    case Down => (Up, true)
  }

  /** The DSN the combo's text names: `dsns.iter().find` by name, so the first of that name. */
  function FindDsn(dsns: seq<RegistryDsn>, name: string): (r: Option<RegistryDsn>)
    ensures r.Some? ==> exists i :: 0 <= i < |dsns| && dsns[i] == r.value && r.value.name == name
                                    && forall j :: 0 <= j < i ==> dsns[j].name != name
    ensures r.None? <==> forall i :: 0 <= i < |dsns| ==> dsns[i].name != name
  {
    if dsns == [] then None
    else if dsns[0].name == name then Some(dsns[0])
    else
      var r := FindDsn(dsns[1..], name);
      if r.Some? then
        var i :| 0 <= i < |dsns[1..]| && dsns[1..][i] == r.value && r.value.name == name
                 && forall j :: 0 <= j < i ==> dsns[1..][j].name != name;
        assert dsns[i + 1] == r.value;
        assert forall j :: 1 <= j < i + 1 ==> dsns[j] == dsns[1..][j - 1];
        r
      else r
  }

  /** The list the table shows for a combo selection: the catalog, merged with the named DSN if any, sorted by name. */
  function DisplayedSettings(catalog: seq<DuckDbSetting>, dsns: seq<RegistryDsn>, selected: Option<string>): seq<DuckDbSetting> {
    var merged :=
      if selected.Some? && FindDsn(dsns, selected.value).Some?
      then MergeAll(catalog, FindDsn(dsns, selected.value).value.settings)
      else catalog;
    SortSettings(merged, 0, false)
  }

  /**
    The table's list is the merge, in ascending order of lower-cased name, holding exactly the merged
    entries; without a DSN of the selected name it is the catalog itself, sorted.
  */
  lemma DisplayedSettingsProperties(catalog: seq<DuckDbSetting>, dsns: seq<RegistryDsn>, selected: Option<string>)
    ensures var r := DisplayedSettings(catalog, dsns, selected);
            && Sorted(0, false, r)
            && (selected.Some? && FindDsn(dsns, selected.value).Some? ==>
                  multiset(r) == multiset(MergeAll(catalog, FindDsn(dsns, selected.value).value.settings)))
            && (selected.None? || FindDsn(dsns, selected.value).None? ==> multiset(r) == multiset(catalog))
  {
    var merged :=
      if selected.Some? && FindDsn(dsns, selected.value).Some?
      then MergeAll(catalog, FindDsn(dsns, selected.value).value.settings)
      else catalog;
    SortPermutes(0, false, merged);
    SortIsSorted(0, false, merged);
  }

  class AppWindow {
    /** The static settings catalog all_settings() returns. */
    const catalog: seq<DuckDbSetting>
    var dsns: seq<RegistryDsn>
    var settings: seq<DuckDbSetting>
    var combo: seq<string>
    var selection: Option<nat>
    var filter: string
    var rows: seq<Row>
    var arrows: seq<Arrow>

    /** Every sortable column has an arrow. */
    predicate Valid()
      reads this
    {
      |arrows| == 3
    }

    /** The window as built: nothing loaded, an empty filter, every sort arrow pointing down. */
    constructor (catalog: seq<DuckDbSetting>)
      ensures Valid()
      ensures this.catalog == catalog
      ensures dsns == [] && settings == [] && combo == [] && selection == None && filter == [] && rows == []
      ensures arrows == [Down, Down, Down]
    {
      this.catalog := catalog;
      dsns := [];
      settings := [];
      combo := [];
      selection := None;
      filter := "";
      rows := [];
      arrows := [Down, Down, Down];
    }

    /** The combo's selected text, if an entry is selected. */
    function SelectionString(): (r: Option<string>)
      reads this
      ensures r.Some? <==> selection.Some? && selection.value < |combo|
      ensures r.Some? ==> r.value == combo[selection.value]
    {
      if selection.Some? && selection.value < |combo| then Some(combo[selection.value]) else None
    }

    /** `settings.iter_mut().find` by name. */
    method FindSettingIndex(name: string) returns (r: Option<nat>)
      ensures r == FindSetting(settings, name)
    {
      var i := 0;
      while i < |settings|
        invariant 0 <= i <= |settings|
        invariant forall j :: 0 <= j < i ==> settings[j].name != name
        decreases |settings| - i
      {
        if settings[i].name == name {
          return Some(i);
        }
        i := i + 1;
      }
      return None;
    }

    /** on_dsn_changed: the catalog, merged with the selected DSN's values, sorted by name and shown. */
    method OnDsnChanged()
      requires Valid()
      modifies this
      ensures Valid()
      ensures settings == DisplayedSettings(catalog, dsns, old(SelectionString()))
      ensures rows == Rows(settings, filter)
      ensures dsns == old(dsns) && combo == old(combo) && selection == old(selection)
      ensures filter == old(filter) && arrows == old(arrows)
    {
      settings := catalog;
      var selected := SelectionString();
      if selected.Some? {
        var found := FindDsn(dsns, selected.value);
        if found.Some? {
          var rss := found.value.settings;
          for k := 0 to |rss|
            invariant dsns == old(dsns) && combo == old(combo) && selection == old(selection)
            invariant filter == old(filter) && arrows == old(arrows)
            invariant settings == MergeAll(catalog, rss[..k])
          {
            var rs := rss[k];
            MergeAllStep(catalog, rss, k);
            var idx := FindSettingIndex(rs.name);
            if idx.Some? {
              MergeOneFound(settings, rs, idx.value);
              settings := settings[idx.value := settings[idx.value].(dsn_value := rs.value)];
            } else {
              MergeOneMissing(settings, rs);
              if DRIVER_SETTING_NAME != rs.name {
                settings := settings + [AppendedSetting(rs)];
              }
            }
          }
          assert rss[..|rss|] == rss;
        }
      }
      SortSettingsBy(0, false);
      ReloadSettingsView();
    }

    /** sort_settings: the list sorted by column 0, 1 or 2, descending when asked; other columns leave it. */
    method SortSettingsBy(col: nat, desc: bool)
      modifies this
      ensures settings == SortSettings(old(settings), col, desc)
      ensures dsns == old(dsns) && combo == old(combo) && selection == old(selection)
      ensures filter == old(filter) && rows == old(rows) && arrows == old(arrows)
    {
      if col <= 2 {
        settings := InsertionSort(col, desc, settings);
      }
    }

    /**
      on_settings_view_sort: a click on a column past the third changes nothing; otherwise that column's
      arrow flips, the list is sorted by it (descending when the arrow now points up) and shown again.
    */
    method OnSettingsViewSort(col: nat)
      requires Valid()
      modifies this
      ensures Valid()
      ensures col > 2 ==> settings == old(settings) && rows == old(rows) && arrows == old(arrows)
      ensures col <= 2 ==> && arrows == old(arrows)[col := Toggle(old(arrows)[col]).0]
                           && settings == SortSettings(old(settings), col, arrows[col] == Up)
                           && rows == Rows(settings, filter)
      ensures dsns == old(dsns) && combo == old(combo) && selection == old(selection) && filter == old(filter)
    {
      if col > 2 {
        return;
      }
      var (arrow, desc) := Toggle(arrows[col]);
      SortSettingsBy(col, desc);
      arrows := arrows[col := arrow];
      ReloadSettingsView();
    }

    /**
      Typing into the filter input. No handler is attached to that input, so only its text changes and
      the table keeps the rows it shows until the filter button (or Enter) reloads it.
    */
    method TypeFilter(text: string)
      modifies this
      ensures filter == text && rows == old(rows)
      ensures dsns == old(dsns) && settings == old(settings) && combo == old(combo)
      ensures selection == old(selection) && arrows == old(arrows)
    {
      filter := text;
    }

    /** on_filter_button, also bound to Enter: the table is shown again under the text now in the filter input. */
    method OnFilterButton()
      modifies this
      ensures rows == Rows(settings, filter)
      ensures dsns == old(dsns) && settings == old(settings) && combo == old(combo)
      ensures selection == old(selection) && filter == old(filter) && arrows == old(arrows)
    {
      ReloadSettingsView();
    }

    /** Typing a filter and pressing the filter button shows exactly the settings that pass it. */
    method FilterBy(text: string)
      modifies this
      ensures filter == text && rows == Rows(settings, text)
      ensures dsns == old(dsns) && settings == old(settings) && combo == old(combo)
      ensures selection == old(selection) && arrows == old(arrows)
    {
      TypeFilter(text);
      OnFilterButton();
    }

    /**
      reload_settings_view: every row is removed, then each setting passing the filter is inserted at
      the next row index, in list order.
    */
    method ReloadSettingsView()
      modifies this
      ensures rows == Rows(settings, filter)
      ensures dsns == old(dsns) && settings == old(settings) && combo == old(combo)
      ensures selection == old(selection) && filter == old(filter) && arrows == old(arrows)
    {
      while |rows| > 0
        invariant dsns == old(dsns) && settings == old(settings) && combo == old(combo)
        invariant selection == old(selection) && filter == old(filter) && arrows == old(arrows)
        decreases |rows|
      {
        rows := rows[1..];
      }
      var idx := 0;
      for i := 0 to |settings|
        invariant dsns == old(dsns) && settings == old(settings) && combo == old(combo)
        invariant selection == old(selection) && filter == old(filter) && arrows == old(arrows)
        invariant idx == |rows|
        invariant rows == Rows(settings[..i], filter)
      {
        assert settings[..i + 1][..i] == settings[..i];
        if MatchesFilter(filter, settings[i].name) {
          rows := rows[..idx] + [RowOf(settings[i])] + rows[idx..];
          idx := idx + 1;
        }
      }
      assert settings[..|settings|] == settings;
    }

    /**
      reload_dsns_combo: the combo is emptied and refilled with the DSN names in order; the first entry
      is selected when there is one.
    */
    method ReloadDsnsCombo()
      modifies this
      ensures combo == LoadDsns.Names(dsns)
      ensures |dsns| > 0 ==> selection == Some(0)
      ensures SelectionString() == if |dsns| > 0 then Some(dsns[0].name) else None
      ensures dsns == old(dsns) && settings == old(settings) && rows == old(rows)
      ensures filter == old(filter) && arrows == old(arrows)
    {
      while |combo| > 0
        invariant dsns == old(dsns) && settings == old(settings) && rows == old(rows)
        invariant selection == old(selection) && filter == old(filter) && arrows == old(arrows)
        decreases |combo|
      {
        combo := combo[1..];
      }
      for i := 0 to |dsns|
        invariant dsns == old(dsns) && settings == old(settings) && rows == old(rows)
        invariant selection == old(selection) && filter == old(filter) && arrows == old(arrows)
        invariant combo == LoadDsns.Names(dsns[..i])
      {
        combo := combo + [dsns[i].name];
      }
      assert dsns[..|dsns|] == dsns;
      if |dsns| > 0 {
        selection := Some(0);
      }
    }

    /** open_load_dialog: the loaded DSNs are dropped before the load dialog runs. */
    method OpenLoadDialog()
      modifies this
      ensures dsns == []
      ensures settings == old(settings) && combo == old(combo) && selection == old(selection)
      ensures rows == old(rows) && filter == old(filter) && arrows == old(arrows)
    {
      dsns := [];
    }

    /**
      await_load_dialog: the window takes the dialog's DSNs, refills the combo and shows the first DSN's
      settings merged into the catalog, sorted by name.
    */
    method AwaitLoadDialog(res: LoadDsnsResults.LoadDsnsDialogResult)
      requires Valid()
      modifies this
      ensures Valid()
      ensures dsns == res.dsns && combo == LoadDsns.Names(res.dsns)
      ensures |res.dsns| > 0 ==> settings == SortSettings(MergeAll(catalog, res.dsns[0].settings), 0, false)
      ensures |res.dsns| == 0 ==> settings == SortSettings(catalog, 0, false)
      ensures rows == Rows(settings, filter)
      ensures filter == old(filter) && arrows == old(arrows)
    {
      dsns := res.dsns;
      settings := [];
      ReloadDsnsCombo();
      OnDsnChanged();
    }
  }
}
