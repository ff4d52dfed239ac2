/**
  The main window's settings table: the catalog merged with the selected DSN's values, the column sort
  and the name filter that decides which rows are shown.
*/
module SettingsTable {
  import opened Errors
  import opened Registry
  import opened DuckDbSettings
  import opened Text
  import opened WildMatch

  const DATABASE_DESCRIPTION: string := "Path to the database file"

  predicate UniqueNames(st: seq<DuckDbSetting>) {
    forall i, j :: 0 <= i < j < |st| ==> st[i].name != st[j].name
  }

  predicate UniqueSettingNames(rss: seq<RegistrySetting>) {
    forall i, j :: 0 <= i < j < |rss| ==> rss[i].name != rss[j].name
  }

  // ---------------------------------------------------------------------------------------------
  // Merging a DSN's values into the catalog

  /** The position of the first entry of that name. */
  function FindSetting(st: seq<DuckDbSetting>, name: string): (r: Option<nat>)
    ensures r.Some? ==> r.value < |st| && st[r.value].name == name && forall j :: 0 <= j < r.value ==> st[j].name != name
    ensures r.None? <==> forall j :: 0 <= j < |st| ==> st[j].name != name
  {
    if st == [] then None
    else if st[0].name == name then Some(0)
    else match FindSetting(st[1..], name)
         case None => None
         case Some(i) => Some(i + 1)
  }

  /**
    The row added for a DSN value the catalog does not know: name and value from the registry, the
    database path's description for `database`, every other field empty.
  */
  function AppendedSetting(rs: RegistrySetting): (r: DuckDbSetting)
    ensures r.name == rs.name && r.dsn_value == rs.value
    ensures r.description == DATABASE_DESCRIPTION <==> rs.name == DATABASE_SETTING_NAME
    ensures r.description == [] <==> rs.name != DATABASE_SETTING_NAME
    ensures r.default_value == [] && r.input_type == [] && r.scope == []
  {
    DefaultSetting().(name := rs.name, dsn_value := rs.value,
                      description := if rs.name == DATABASE_SETTING_NAME then DATABASE_DESCRIPTION else "")
  }

  /**
    One step of on_dsn_changed: the first entry of that name takes the value; otherwise a row is appended,
    except for `Driver`.
  */
  function MergeOne(st: seq<DuckDbSetting>, rs: RegistrySetting): seq<DuckDbSetting> {
    match FindSetting(st, rs.name)
    case Some(i) => st[i := st[i].(dsn_value := rs.value)]
    case None => if rs.name != DRIVER_SETTING_NAME then st + [AppendedSetting(rs)] else st
  }

  /** The DSN's values merged one after the other, as the loop of on_dsn_changed does. */
  function MergeAll(st: seq<DuckDbSetting>, rss: seq<RegistrySetting>): seq<DuckDbSetting>
    decreases |rss|
  {
    if rss == [] then st else MergeOne(MergeAll(st, rss[..|rss| - 1]), rss[|rss| - 1])
  }

  /** Merging one more DSN value is one more merge step. */
  lemma MergeAllStep(st: seq<DuckDbSetting>, rss: seq<RegistrySetting>, k: nat)
    requires k < |rss|
    ensures MergeAll(st, rss[..k + 1]) == MergeOne(MergeAll(st, rss[..k]), rss[k])
  {
    assert rss[..k + 1][..k] == rss[..k];
  }

  /** The DSN's value of that name, if it has one (the last one, should there be several). */
  function ValueFor(rss: seq<RegistrySetting>, name: string): (r: Option<string>)
    ensures r.Some? ==> RegistrySetting(name, r.value) in rss
    ensures r.None? <==> forall k :: 0 <= k < |rss| ==> rss[k].name != name
    decreases |rss|
  {
    if rss == [] then None
    else if rss[|rss| - 1].name == name then Some(rss[|rss| - 1].value)
    else ValueFor(rss[..|rss| - 1], name)
  }

  /** Reference: the catalog with each entry's DSN value taken from the DSN when the DSN has that name. */
  function Updated(catalog: seq<DuckDbSetting>, rss: seq<RegistrySetting>): (r: seq<DuckDbSetting>)
    ensures |r| == |catalog|
  {
    seq(|catalog|, i requires 0 <= i < |catalog| =>
      match ValueFor(rss, catalog[i].name)
      case Some(v) => catalog[i].(dsn_value := v)
      case None => catalog[i])
  }

  /** Reference: the rows appended for the DSN's values that the catalog does not name, `Driver` excepted, in DSN order. */
  function Extras(catalog: seq<DuckDbSetting>, rss: seq<RegistrySetting>): seq<DuckDbSetting>
    decreases |rss|
  {
    if rss == [] then []
    else
      var rs := rss[|rss| - 1];
      Extras(catalog, rss[..|rss| - 1]) +
        if FindSetting(catalog, rs.name).None? && rs.name != DRIVER_SETTING_NAME then [AppendedSetting(rs)] else []
  }

  lemma {:induction false} ExtrasFacts(catalog: seq<DuckDbSetting>, rss: seq<RegistrySetting>)
    ensures forall e :: e in Extras(catalog, rss) ==>
              exists rs :: rs in rss && e == AppendedSetting(rs) && rs.name != DRIVER_SETTING_NAME
                           && FindSetting(catalog, rs.name).None?
    ensures forall rs :: rs in rss && FindSetting(catalog, rs.name).None? && rs.name != DRIVER_SETTING_NAME ==>
              AppendedSetting(rs) in Extras(catalog, rss)
    decreases |rss|
  {
    if rss != [] {
      ExtrasFacts(catalog, rss[..|rss| - 1]);
      assert rss == rss[..|rss| - 1] + [rss[|rss| - 1]];
    }
  }

  /** No appended row names a value the DSN does not have, so its names are the DSN's and distinct. */
  lemma {:induction false} ExtrasNames(catalog: seq<DuckDbSetting>, rss: seq<RegistrySetting>)
    requires UniqueSettingNames(rss)
    ensures UniqueNames(Extras(catalog, rss))
    ensures forall e :: e in Extras(catalog, rss) ==> exists k :: 0 <= k < |rss| && rss[k].name == e.name
    decreases |rss|
  {
    if rss != [] {
      var m := |rss| - 1;
      var pre := rss[..m];
      assert UniqueSettingNames(pre) by {
        forall i, j | 0 <= i < j < |pre| ensures pre[i].name != pre[j].name {
          assert pre[i] == rss[i] && pre[j] == rss[j];
        }
      }
      ExtrasNames(catalog, pre);
      var e0 := Extras(catalog, pre);
      var e := Extras(catalog, rss);
      forall x | x in e ensures exists k :: 0 <= k < |rss| && rss[k].name == x.name {
        if x in e0 {
          var k :| 0 <= k < |pre| && pre[k].name == x.name;
          assert rss[k] == pre[k];
        } else {
          assert rss[m].name == x.name;
        }
      }
      forall i, j | 0 <= i < j < |e| ensures e[i].name != e[j].name {
        if j >= |e0| {
          assert e[j] == AppendedSetting(rss[m]);
          assert e[i] in e0;
          var k :| 0 <= k < |pre| && pre[k].name == e[i].name;
          assert rss[k] == pre[k];
        } else {
          assert e[i] == e0[i] && e[j] == e0[j];
        }
      }
    }
  }

  /** Taking one more DSN value into account changes exactly the catalog entries of that name. */
  lemma UpdatedStep(catalog: seq<DuckDbSetting>, rss: seq<RegistrySetting>)
    requires rss != []
    ensures var rs := rss[|rss| - 1];
            forall i :: 0 <= i < |catalog| ==>
              Updated(catalog, rss)[i] ==
                if catalog[i].name == rs.name then catalog[i].(dsn_value := rs.value)
                else Updated(catalog, rss[..|rss| - 1])[i]
  {
  }

  lemma PrefixUnique(rss: seq<RegistrySetting>)
    requires rss != [] && UniqueSettingNames(rss)
    ensures UniqueSettingNames(rss[..|rss| - 1])
    ensures ValueFor(rss[..|rss| - 1], rss[|rss| - 1].name).None?
  {
    var pre := rss[..|rss| - 1];
    forall i, j | 0 <= i < j < |pre| ensures pre[i].name != pre[j].name {
      assert pre[i] == rss[i] && pre[j] == rss[j];
    }
    forall k | 0 <= k < |pre| ensures pre[k].name != rss[|rss| - 1].name {
      assert pre[k] == rss[k];
    }
  }

  /** The entries of the reference keep the catalog's names. */
  lemma UpdatedNames(catalog: seq<DuckDbSetting>, rss: seq<RegistrySetting>)
    ensures forall j :: 0 <= j < |catalog| ==> Updated(catalog, rss)[j].name == catalog[j].name
  {
  }

  /** Finding a name in a concatenation whose first part has it finds it there. */
  lemma FindSettingInFront(a: seq<DuckDbSetting>, b: seq<DuckDbSetting>, name: string, i: nat)
    requires FindSetting(a, name) == Some(i)
    ensures FindSetting(a + b, name) == Some(i)
  {
    forall j | 0 <= j < i ensures (a + b)[j].name != name {
      assert (a + b)[j] == a[j];
    }
    assert (a + b)[i] == a[i];
  }

  lemma UpdatedStepKnown(catalog: seq<DuckDbSetting>, rss: seq<RegistrySetting>, i: nat)
    requires UniqueNames(catalog) && rss != []
    requires i < |catalog| && catalog[i].name == rss[|rss| - 1].name
    ensures Updated(catalog, rss) == Updated(catalog, rss[..|rss| - 1])[i := catalog[i].(dsn_value := rss[|rss| - 1].value)]
  {
    UpdatedStep(catalog, rss);
    forall j | 0 <= j < |catalog| && j != i ensures catalog[j].name != catalog[i].name {
      if i < j { } else { }
    }
  }

  /** One more DSN value appends at most its own row to the reference's extra rows. */
  lemma ExtrasStep(catalog: seq<DuckDbSetting>, rss: seq<RegistrySetting>)
    requires rss != []
    ensures var rs := rss[|rss| - 1];
            Extras(catalog, rss) == Extras(catalog, rss[..|rss| - 1]) +
              if FindSetting(catalog, rs.name).None? && rs.name != DRIVER_SETTING_NAME then [AppendedSetting(rs)] else []
  {
  }

  lemma MergeOneFound(st: seq<DuckDbSetting>, rs: RegistrySetting, i: nat)
    requires FindSetting(st, rs.name) == Some(i)
    ensures MergeOne(st, rs) == st[i := st[i].(dsn_value := rs.value)]
  {
  }

  lemma MergeOneMissing(st: seq<DuckDbSetting>, rs: RegistrySetting)
    requires FindSetting(st, rs.name).None?
    ensures MergeOne(st, rs) == if rs.name != DRIVER_SETTING_NAME then st + [AppendedSetting(rs)] else st
  {
  }

  lemma UpdateInFront(u: seq<DuckDbSetting>, e: seq<DuckDbSetting>, i: nat, v: DuckDbSetting)
    requires i < |u|
    ensures (u + e)[i := v] == u[i := v] + e
  {
    var a, b := (u + e)[i := v], u[i := v] + e;
    forall j | 0 <= j < |a| ensures a[j] == b[j] { }
    assert a == b;
  }

  /** A DSN value the catalog does not name leaves the reference's catalog part as it was. */
  lemma UpdatedSkips(catalog: seq<DuckDbSetting>, rss: seq<RegistrySetting>)
    requires rss != [] && FindSetting(catalog, rss[|rss| - 1].name).None?
    ensures Updated(catalog, rss) == Updated(catalog, rss[..|rss| - 1])
  {
    UpdatedStep(catalog, rss);
    forall i | 0 <= i < |catalog| ensures Updated(catalog, rss)[i] == Updated(catalog, rss[..|rss| - 1])[i] { }
  }

  /** Rows named after earlier DSN values do not carry the name of a value those lack. */
  lemma ExtrasLackName(e: seq<DuckDbSetting>, pre: seq<RegistrySetting>, name: string)
    requires forall x :: x in e ==> exists k :: 0 <= k < |pre| && pre[k].name == x.name
    requires forall k :: 0 <= k < |pre| ==> pre[k].name != name
    ensures forall j :: 0 <= j < |e| ==> e[j].name != name
  {
    forall j | 0 <= j < |e| ensures e[j].name != name {
      assert e[j] in e;
    }
  }

  /** The merge step for a DSN value the catalog names: that entry takes the value in place. */
  lemma MergeStepKnown(catalog: seq<DuckDbSetting>, rss: seq<RegistrySetting>, i: nat)
    requires UniqueNames(catalog) && rss != []
    requires var pre := rss[..|rss| - 1];
             ValueFor(pre, rss[|rss| - 1].name).None?
             && FindSetting(catalog, rss[|rss| - 1].name) == Some(i)
    ensures var pre, rs := rss[..|rss| - 1], rss[|rss| - 1];
            MergeOne(Updated(catalog, pre) + Extras(catalog, pre), rs) == Updated(catalog, rss) + Extras(catalog, rss)
  {
    var pre, rs := rss[..|rss| - 1], rss[|rss| - 1];
    var u: seq<DuckDbSetting>, e: seq<DuckDbSetting> := Updated(catalog, pre), Extras(catalog, pre);
    UpdatedNames(catalog, pre);
    assert FindSetting(u, rs.name) == Some(i) by {
      forall j | 0 <= j < i ensures u[j].name != rs.name { }
    }
    FindSettingInFront(u, e, rs.name, i);
    assert u[i] == catalog[i];
    var v := catalog[i].(dsn_value := rs.value);
    assert (u + e)[i] == u[i];
    MergeOneFound(u + e, rs, i);
    UpdatedStepKnown(catalog, rss, i);
    ExtrasStep(catalog, rss);
    UpdateInFront(u, e, i, v);
    assert e + [] == e;
  }

  /** The merge step for a DSN value the catalog does not name: a row is appended unless it is `Driver`. */
  lemma MergeStepUnknown(catalog: seq<DuckDbSetting>, rss: seq<RegistrySetting>)
    requires rss != []
    requires var pre := rss[..|rss| - 1];
             && ValueFor(pre, rss[|rss| - 1].name).None?
             && FindSetting(catalog, rss[|rss| - 1].name).None?
             && forall x :: x in Extras(catalog, pre) ==> exists k :: 0 <= k < |pre| && pre[k].name == x.name
    ensures var pre, rs := rss[..|rss| - 1], rss[|rss| - 1];
            MergeOne(Updated(catalog, pre) + Extras(catalog, pre), rs) == Updated(catalog, rss) + Extras(catalog, rss)
  {
    var pre, rs := rss[..|rss| - 1], rss[|rss| - 1];
    var u: seq<DuckDbSetting>, e: seq<DuckDbSetting> := Updated(catalog, pre), Extras(catalog, pre);
    UpdatedNames(catalog, pre);
    ExtrasLackName(e, pre, rs.name);
    forall j | 0 <= j < |u + e| ensures (u + e)[j].name != rs.name {
      if j < |u| {
        assert (u + e)[j] == u[j];
      } else {
        assert (u + e)[j] == e[j - |u|];
      }
    }
    MergeOneMissing(u + e, rs);
    UpdatedSkips(catalog, rss);
    ExtrasStep(catalog, rss);
    assert e + [] == e;
  }

  /**
    With distinct names in the catalog and in the DSN, merging gives the catalog with the DSN's values
    filled in, followed by a row for each DSN value the catalog lacks, `Driver` excepted, in DSN order.
  */
  lemma {:induction false} MergeAllIsUpdatedPlusExtras(catalog: seq<DuckDbSetting>, rss: seq<RegistrySetting>)
    requires UniqueNames(catalog) && UniqueSettingNames(rss)
    ensures MergeAll(catalog, rss) == Updated(catalog, rss) + Extras(catalog, rss)
    decreases |rss|
  {
    if rss == [] {
      assert Updated(catalog, rss) == catalog;
    } else {
      var pre, rs := rss[..|rss| - 1], rss[|rss| - 1];
      PrefixUnique(rss);
      MergeAllIsUpdatedPlusExtras(catalog, pre);
      match FindSetting(catalog, rs.name)
      case Some(i) => MergeStepKnown(catalog, rss, i);
      case None =>
        ExtrasNames(catalog, pre);
        MergeStepUnknown(catalog, rss);
    }
  }

  /**
    What the merge promises: each catalog entry keeps its place and takes the DSN's value when the DSN has
    that name, keeping its own value otherwise; the rows after the catalog are exactly the appended rows
    for the DSN values the catalog lacks, and none of them is `Driver`.
  */
  lemma MergeProperties(catalog: seq<DuckDbSetting>, rss: seq<RegistrySetting>)
    requires UniqueNames(catalog) && UniqueSettingNames(rss)
    ensures var r := MergeAll(catalog, rss);
            && |r| >= |catalog|
            && (forall i, k :: 0 <= i < |catalog| && 0 <= k < |rss| && rss[k].name == catalog[i].name ==>
                  r[i] == catalog[i].(dsn_value := rss[k].value))
            && (forall i :: 0 <= i < |catalog| && (forall k :: 0 <= k < |rss| ==> rss[k].name != catalog[i].name) ==>
                  r[i] == catalog[i])
            && (forall j :: |catalog| <= j < |r| ==>
                  && r[j].name != DRIVER_SETTING_NAME
                  && exists rs :: rs in rss && r[j] == AppendedSetting(rs) && FindSetting(catalog, rs.name).None?)
            && (forall rs :: rs in rss && FindSetting(catalog, rs.name).None? && rs.name != DRIVER_SETTING_NAME ==>
                  AppendedSetting(rs) in r[|catalog|..])
  {
    MergeAllIsUpdatedPlusExtras(catalog, rss);
    ExtrasFacts(catalog, rss);
    var r := MergeAll(catalog, rss);
    var u, e := Updated(catalog, rss), Extras(catalog, rss);
    assert r[|catalog|..] == e;
    forall i, k | 0 <= i < |catalog| && 0 <= k < |rss| && rss[k].name == catalog[i].name
      ensures r[i] == catalog[i].(dsn_value := rss[k].value)
    {
      var v := ValueFor(rss, catalog[i].name);
      var j :| 0 <= j < |rss| && rss[j] == RegistrySetting(catalog[i].name, v.value);
      if j < k { } else if k < j { }
      assert r[i] == u[i];
    }
    forall j | |catalog| <= j < |r|
      ensures r[j].name != DRIVER_SETTING_NAME
      ensures exists rs :: rs in rss && r[j] == AppendedSetting(rs) && FindSetting(catalog, rs.name).None?
    {
      assert r[j] == e[j - |catalog|] && r[j] in e;
    }
  }

  // ---------------------------------------------------------------------------------------------
  // The rows the table shows

  /** One line of the table: name, DSN value, default value and description, in column order. */
  datatype Row = Row(name: string, dsnValue: string, defaultValue: string, description: string)

  function RowOf(st: DuckDbSetting): (r: Row)
    ensures r.name == st.name && r.dsnValue == st.dsn_value
    ensures r.defaultValue == st.default_value && r.description == st.description
  {
    Row(st.name, st.dsn_value, st.default_value, st.description)
  }

  /** setting_matches_filters: an empty filter, a prefix of the name, or a glob matching the whole name. */
  predicate MatchesFilter(filter: string, name: string) {
    |filter| == 0 || StartsWith(name, filter) || GlobMatch(filter, name)
  }

  /** The rows reload_settings_view inserts: one per setting whose name passes the filter, in list order. */
  function Rows(st: seq<DuckDbSetting>, filter: string): seq<Row> {
    if st == [] then []
    else Rows(st[..|st| - 1], filter)
         + (if MatchesFilter(filter, st[|st| - 1].name) then [RowOf(st[|st| - 1])] else [])
  }

  /** A row is shown exactly when some setting of that content passes the filter. */
  lemma {:induction false} RowsMembership(st: seq<DuckDbSetting>, filter: string, row: Row)
    ensures row in Rows(st, filter) <==> exists i :: 0 <= i < |st| && MatchesFilter(filter, st[i].name) && row == RowOf(st[i])
    decreases |st|
  {
    if st != [] {
      var init := st[..|st| - 1];
      RowsMembership(init, filter, row);
      if exists i :: 0 <= i < |init| && MatchesFilter(filter, init[i].name) && row == RowOf(init[i]) {
        var i :| 0 <= i < |init| && MatchesFilter(filter, init[i].name) && row == RowOf(init[i]);
        assert st[i] == init[i];
      }
      if exists i :: 0 <= i < |st| && MatchesFilter(filter, st[i].name) && row == RowOf(st[i]) {
        var i :| 0 <= i < |st| && MatchesFilter(filter, st[i].name) && row == RowOf(st[i]);
        if i < |init| { assert init[i] == st[i]; }
      }
    }
  }

  /** With an empty filter every setting is shown, in list order. */
  lemma {:induction false} RowsWithoutFilter(st: seq<DuckDbSetting>)
    ensures Rows(st, []) == seq(|st|, i requires 0 <= i < |st| => RowOf(st[i]))
    decreases |st|
  {
    if st != [] {
      RowsWithoutFilter(st[..|st| - 1]);
    }
  }

  /** The table never shows more rows than there are settings. */
  lemma {:induction false} RowsBound(st: seq<DuckDbSetting>, filter: string)
    ensures |Rows(st, filter)| <= |st|
    decreases |st|
  {
    if st != [] {
      RowsBound(st[..|st| - 1], filter);
    }
  }

  /** A filter without `*` or `?` shows exactly the settings whose name starts with it. */
  lemma LiteralFilterIsPrefix(filter: string, name: string)
    requires IsLiteral(filter)
    ensures MatchesFilter(filter, name) <==> StartsWith(name, filter)
  {
    LiteralMatchesItself(filter, name);
  }

  /** A lone `*` shows every setting. */
  lemma StarFilterShowsAll(name: string)
    ensures MatchesFilter("*", name)
  {
    StarMatchesAll(name);
  }
}
