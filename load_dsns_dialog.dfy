/**
  DSN discovery: the DSNs of both roots whose `Driver` value is the installed driver's path, SYSTEM
  first, and the load dialog that receives the outcome.
*/
module LoadDsns {
  import opened Errors
  import opened Registry
  import opened LoadDsnsResults

  /** A listing belongs to this driver when one of its entries is `Driver` = the driver path. */
  predicate UsesDriver(settings: seq<RegistrySetting>, driverPath: string) {
    exists i :: 0 <= i < |settings| && settings[i].name == DRIVER_SETTING_NAME && settings[i].value == driverPath
  }

  function Names(ds: seq<RegistryDsn>): (r: seq<string>)
    ensures |r| == |ds| && forall i :: 0 <= i < |ds| ==> r[i] == ds[i].name
  {
    seq(|ds|, i requires 0 <= i < |ds| => ds[i].name)
  }

  /** `a` is `b` with some elements left out, the rest kept in order. */
  predicate IsSubsequence(a: seq<string>, b: seq<string>)
    decreases |b|
  {
    if a == [] then true
    else if b == [] then false
    else (a[|a| - 1] == b[|b| - 1] && IsSubsequence(a[..|a| - 1], b[..|b| - 1])) || IsSubsequence(a, b[..|b| - 1])
  }

  function DsnPath(name: string): Path {
    ODBC_INI_SUBPATH + [name]
  }

  /**
    The records found for the subkey names of one root, in the order given: each name's values are
    listed and the name yields a record when they use the driver. The walk succeeds exactly when every
    name's values can be listed; the first that cannot aborts it with that error.
  */
  function Collect(s: State, root: Root, names: seq<string>, driverPath: string): (r: Result<seq<RegistryDsn>>)
    ensures r.Ok? <==> forall n :: n in names ==> ListValues(s, root, DsnPath(n)).Ok?
    decreases |names|
  {
    if names == [] then Ok([])
    else
      var name := names[|names| - 1];
      var prev :- Collect(s, root, names[..|names| - 1], driverPath);
      var settings :- ListValues(s, root, DsnPath(name));
      assert names == names[..|names| - 1] + [name];
      Ok(prev + if UsesDriver(settings, driverPath) then [RegistryDsn(name, TypeOf(root), settings)] else [])
  }

  /** Every record is typed by the root, lists its key's values as settings, uses the driver and comes from a given name. */
  lemma {:induction false} CollectSound(s: State, root: Root, names: seq<string>, driverPath: string)
    requires Collect(s, root, names, driverPath).Ok?
    ensures forall d :: d in Collect(s, root, names, driverPath).value ==>
              && d.name in names
              && d.dsn_type == TypeOf(root)
              && ListValues(s, root, DsnPath(d.name)) == Ok(d.settings)
              && UsesDriver(d.settings, driverPath)
    decreases |names|
  {
    if names != [] {
      var m := |names| - 1;
      CollectSound(s, root, names[..m], driverPath);
      assert names == names[..m] + [names[m]];
    }
  }

  /** Every given name whose values use the driver yields a record. */
  lemma {:induction false} CollectComplete(s: State, root: Root, names: seq<string>, driverPath: string)
    requires Collect(s, root, names, driverPath).Ok?
    ensures forall n :: n in names && UsesDriver(ListValues(s, root, DsnPath(n)).value, driverPath) ==>
              exists d :: d in Collect(s, root, names, driverPath).value && d.name == n && d.dsn_type == TypeOf(root)
    decreases |names|
  {
    if names != [] {
      var m := |names| - 1;
      CollectComplete(s, root, names[..m], driverPath);
      assert names == names[..m] + [names[m]];
    }
  }

  /** The records keep the order of the names they come from. */
  lemma {:induction false} CollectOrder(s: State, root: Root, names: seq<string>, driverPath: string)
    requires Collect(s, root, names, driverPath).Ok?
    ensures IsSubsequence(Names(Collect(s, root, names, driverPath).value), names)
    decreases |names|
  {
    if names != [] {
      var m := |names| - 1;
      var prev := Collect(s, root, names[..m], driverPath).value;
      CollectOrder(s, root, names[..m], driverPath);
      var r := Collect(s, root, names, driverPath).value;
      if r == prev {
        SubsequenceExtend(Names(prev), names[..m], names[m]);
        assert names[..m] + [names[m]] == names;
      } else {
        var a := Names(r);
        assert a[..|a| - 1] == Names(prev);
        assert names[..m] == names[..|names| - 1];
      }
    }
  }

  /** No name occurs twice. */
  predicate Distinct(xs: seq<string>) {
    forall i, j :: 0 <= i < j < |xs| ==> xs[i] != xs[j]
  }

  /** A key whose subkey names are unique enumerates each readable name once. */
  lemma {:induction false} ReadableNamesDistinct(ks: seq<Subkey>)
    requires UniqueSubkeyNames(ks)
    ensures Distinct(ReadableNames(ks))
    decreases |ks|
  {
    if ks != [] {
      var rest := ks[1..];
      forall i, j | 0 <= i < j < |rest| ensures rest[i].name != rest[j].name {
        assert rest[i] == ks[i + 1] && rest[j] == ks[j + 1];
      }
      ReadableNamesDistinct(rest);
      var tl := ReadableNames(rest);
      if ks[0].readable {
        var r := [ks[0].name] + tl;
        assert ReadableNames(ks) == r;
        forall i, j | 0 <= i < j < |r| ensures r[i] != r[j] {
          assert r[j] == tl[j - 1] && tl[j - 1] in tl;
          if i > 0 {
            assert r[i] == tl[i - 1];
          }
        }
      } else {
        assert ReadableNames(ks) == tl;
      }
    }
  }

  /** Distinct names yield records with distinct names. */
  lemma {:induction false} CollectNamesDistinct(s: State, root: Root, names: seq<string>, driverPath: string)
    requires Collect(s, root, names, driverPath).Ok?
    requires Distinct(names)
    ensures Distinct(Names(Collect(s, root, names, driverPath).value))
    decreases |names|
  {
    if names != [] {
      var m := |names| - 1;
      var pre, name := names[..m], names[m];
      forall i, j | 0 <= i < j < |pre| ensures pre[i] != pre[j] {
        assert pre[i] == names[i] && pre[j] == names[j];
      }
      CollectNamesDistinct(s, root, pre, driverPath);
      CollectSound(s, root, pre, driverPath);
      var prev := Collect(s, root, pre, driverPath).value;
      var settings := ListValues(s, root, DsnPath(name)).value;
      var added := if UsesDriver(settings, driverPath) then [RegistryDsn(name, TypeOf(root), settings)] else [];
      var r := prev + added;
      assert Collect(s, root, names, driverPath).value == r;
      var a, b := Names(r), Names(prev);
      forall i, j | 0 <= i < j < |a| ensures a[i] != a[j] {
        assert r[i] == prev[i] || i == |prev|;
        if j < |prev| {
          assert a[i] == b[i] && a[j] == b[j];
        } else {
          assert r[j] == RegistryDsn(name, TypeOf(root), settings);
          assert r[i] == prev[i] && prev[i] in prev;
        }
      }
    }
  }

  lemma SubsequenceExtend(a: seq<string>, b: seq<string>, x: string)
    requires IsSubsequence(a, b)
    ensures IsSubsequence(a, b + [x])
  {
    assert (b + [x])[..|b|] == b;
  }

  /**
    load_dsns_from_registry: resolve the driver path, enumerate ODBC.INI under HKLM and under HKCU, then
    collect the SYSTEM records followed by the USER records. Any failing step aborts the whole load.
  */
  function Discover(s: State): Result<seq<RegistryDsn>> {
    var driverPath :- DuckdbDriverPath(s);
    var systemDsns :- ListSubkeys(s, HKLM, ODBC_INI_SUBPATH);
    var userDsns :- ListSubkeys(s, HKCU, ODBC_INI_SUBPATH);
    var system :- Collect(s, HKLM, systemDsns, driverPath);
    var user :- Collect(s, HKCU, userDsns, driverPath);
    Ok(system + user)
  }

  /** Once a prefix of the names fails, walking more of them reports the same error. */
  lemma {:induction false} CollectFailureSticks(s: State, root: Root, names: seq<string>, k: nat, driverPath: string)
    requires k <= |names|
    requires Collect(s, root, names[..k], driverPath).Err?
    ensures Collect(s, root, names, driverPath) == Collect(s, root, names[..k], driverPath)
    decreases |names|
  {
    if k < |names| {
      var m := |names| - 1;
      assert names[..m][..k] == names[..k];
      CollectFailureSticks(s, root, names[..m], k, driverPath);
    } else {
      assert names[..k] == names;
    }
  }

  /** Walking one more name appends that name's record, if it uses the driver, or stops at its error. */
  lemma CollectSnoc(s: State, root: Root, names: seq<string>, name: string, driverPath: string)
    requires Collect(s, root, names, driverPath).Ok?
    ensures var settings := ListValues(s, root, DsnPath(name));
            Collect(s, root, names + [name], driverPath) ==
              if settings.Err? then Err(settings.error)
              else Ok(Collect(s, root, names, driverPath).value +
                      if UsesDriver(settings.value, driverPath) then [RegistryDsn(name, TypeOf(root), settings.value)] else [])
  {
    var walked := names + [name];
    assert walked[..|walked| - 1] == names && walked[|walked| - 1] == name;
  }

  /** The walk over one root, as the source's loop: list each key's values and keep the ones that use the driver. */
  method CollectRoot(reg: RegistryStore, root: Root, names: seq<string>, driverPath: string)
      returns (r: Result<seq<RegistryDsn>>)
    ensures r == Collect(reg.keys, root, names, driverPath)
  {
    var res: seq<RegistryDsn> := [];
    var i := 0;
    while i < |names|
      invariant 0 <= i <= |names|
      invariant Collect(reg.keys, root, names[..i], driverPath) == Ok(res)
    {
      var name := names[i];
      assert names[..i + 1] == names[..i] + [name];
      CollectSnoc(reg.keys, root, names[..i], name, driverPath);
      var settings := ListValues(reg.keys, root, DsnPath(name));
      if settings.Err? {
        CollectFailureSticks(reg.keys, root, names, i + 1, driverPath);
        return Err(settings.error);
      }
      if UsesDriver(settings.value, driverPath) {
        res := res + [RegistryDsn(name, TypeOf(root), settings.value)];
      } else {
        assert res + [] == res;
      }
      i := i + 1;
    }
    assert names[..i] == names;
    return Ok(res);
  }

  /** load_dsns_from_registry over the store: the outcome is exactly Discover of the store's contents. */
  method LoadDsnsFromRegistry(reg: RegistryStore) returns (r: Result<seq<RegistryDsn>>)
    ensures r == Discover(reg.keys)
  {
    var driverPath :- DuckdbDriverPath(reg.keys);
    var systemDsns :- ListSubkeys(reg.keys, HKLM, ODBC_INI_SUBPATH);
    var userDsns :- ListSubkeys(reg.keys, HKCU, ODBC_INI_SUBPATH);
    var system :- CollectRoot(reg, HKLM, systemDsns, driverPath);
    var user :- CollectRoot(reg, HKCU, userDsns, driverPath);
    return Ok(system + user);
  }

  /** The worker thread's outcome: the records on success, the error's message otherwise. */
  function LoadOutcome(d: Result<seq<RegistryDsn>>): (r: LoadDsnsResult)
    ensures r.success <==> d.Ok?
    ensures d.Ok? ==> r == Success(d.value)
    ensures d.Err? ==> r == Failure(d.error.message)
  {
    match d
    case Ok(dsns) => Success(dsns)
    case Err(e) => Failure(e.message)
  }

  /** The load dialog's state as far as it matters to its caller and to the user. */
  class LoadDsnsDialog {
    var loadedDsns: LoadDsnsDialogResult
    var statusText: string
    var details: string
    var copyEnabled: bool
    var closeEnabled: bool
    var progressError: bool
    var closed: bool

    /** The dialog is built from defaults: no DSNs loaded, nothing shown, nothing enabled. */
    constructor ()
      ensures loadedDsns == DefaultDialogResult()
      ensures statusText == [] && details == [] && !copyEnabled && !closeEnabled && !progressError && !closed
    {
      loadedDsns := DefaultDialogResult();
      statusText := "";
      details := "";
      copyEnabled := false;
      closeEnabled := false;
      progressError := false;
      closed := false;
    }

    /**
      on_load_complete: on success keep the loaded DSNs and close; on failure show the message, turn the
      progress bar to its error state and enable the copy and close buttons, keeping the previous result.
    */
    method OnLoadComplete(res: LoadDsnsResult)
      modifies this
      ensures progressError == !res.success
      ensures res.success ==> loadedDsns == NewDialogResult(res.dsns) && closed
                              && statusText == old(statusText) && details == old(details)
                              && copyEnabled == old(copyEnabled) && closeEnabled == old(closeEnabled)
      ensures !res.success ==> loadedDsns == old(loadedDsns) && closed == old(closed)
                               && statusText == "Load settings failed" && details == res.message
                               && copyEnabled && closeEnabled
    {
      StopProgressBar(res.success);
      if res.success {
        loadedDsns := NewDialogResult(res.dsns);
        closed := true;
        return;
      }
      statusText := "Load settings failed";
      details := res.message;
      copyEnabled := true;
      closeEnabled := true;
    }

    method StopProgressBar(success: bool)
      modifies this
      ensures progressError == !success
      ensures loadedDsns == old(loadedDsns) && statusText == old(statusText) && details == old(details)
      ensures copyEnabled == old(copyEnabled) && closeEnabled == old(closeEnabled) && closed == old(closed)
    {
      progressError := !success;
    }

    /** The value the dialog returns to the main window. */
    function Result(): (r: LoadDsnsDialogResult)
      reads this
      ensures r == loadedDsns
    {
      loadedDsns
    }
  }

  /**
    A whole load, from a freshly built dialog: its result is the discovered DSNs when discovery
    succeeds and stays empty otherwise.
  */
  method LoadDialogSession(reg: RegistryStore) returns (dialog: LoadDsnsDialog)
    ensures fresh(dialog)
    ensures Discover(reg.keys).Ok? ==> dialog.Result().dsns == Discover(reg.keys).value && dialog.closed
    ensures Discover(reg.keys).Err? ==> dialog.Result().dsns == [] && !dialog.closed
                                        && dialog.details == Discover(reg.keys).error.message
  {
    dialog := new LoadDsnsDialog();
    var d := LoadDsnsFromRegistry(reg);
    dialog.OnLoadComplete(LoadOutcome(d));
  }
}
