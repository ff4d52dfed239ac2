/** What discovery promises: soundness, completeness, grouping and order, typing, and when it aborts. */
module DiscoveryProperties {
  import opened Errors
  import opened Registry
  import opened LoadDsns
  import opened RegistryProperties

  /** The pieces a successful discovery is made of. */
  lemma DiscoverParts(s: State)
    requires Discover(s).Ok?
    ensures DuckdbDriverPath(s).Ok?
    ensures ListSubkeys(s, HKLM, ODBC_INI_SUBPATH).Ok? && ListSubkeys(s, HKCU, ODBC_INI_SUBPATH).Ok?
    ensures var p := DuckdbDriverPath(s).value;
            var system := Collect(s, HKLM, ListSubkeys(s, HKLM, ODBC_INI_SUBPATH).value, p);
            var user := Collect(s, HKCU, ListSubkeys(s, HKCU, ODBC_INI_SUBPATH).value, p);
            system.Ok? && user.Ok? && Discover(s).value == system.value + user.value
  {
  }

  /**
    Every discovered record has a `Driver` setting equal to the driver path, is typed by the root it was
    found under, names a subkey listed under that root's ODBC.INI, and carries exactly the values listed
    for that subkey.
  */
  lemma DiscoverSound(s: State)
    requires Discover(s).Ok?
    ensures DuckdbDriverPath(s).Ok?
    ensures forall d :: d in Discover(s).value ==>
              && RegistrySetting(DRIVER_SETTING_NAME, DuckdbDriverPath(s).value) in d.settings
              && ListSubkeys(s, RootOf(d.dsn_type), ODBC_INI_SUBPATH).Ok?
              && d.name in ListSubkeys(s, RootOf(d.dsn_type), ODBC_INI_SUBPATH).value
              && ListValues(s, RootOf(d.dsn_type), DsnPath(d.name)) == Ok(d.settings)
  {
    DiscoverParts(s);
    var p := DuckdbDriverPath(s).value;
    CollectSound(s, HKLM, ListSubkeys(s, HKLM, ODBC_INI_SUBPATH).value, p);
    CollectSound(s, HKCU, ListSubkeys(s, HKCU, ODBC_INI_SUBPATH).value, p);
    forall d | d in Discover(s).value
      ensures RegistrySetting(DRIVER_SETTING_NAME, p) in d.settings
    {
      var i :| 0 <= i < |d.settings| && d.settings[i].name == DRIVER_SETTING_NAME && d.settings[i].value == p;
      assert d.settings[i] == RegistrySetting(DRIVER_SETTING_NAME, p);
    }
  }

  /** The facts of soundness for one record. */
  lemma DiscoverSoundAt(s: State, d: RegistryDsn)
    requires Discover(s).Ok? && d in Discover(s).value
    ensures var root := RootOf(d.dsn_type);
            && ListSubkeys(s, root, ODBC_INI_SUBPATH).Ok?
            && Location(root, ODBC_INI_SUBPATH) in s
            && (exists k :: k in s[Location(root, ODBC_INI_SUBPATH)].subkeys && k.readable && k.name == d.name)
            && Location(root, DsnPath(d.name)) in s
  {
    DiscoverSound(s);
  }

  /** Every subkey of either root whose listed values include `Driver` = the driver path is discovered, with that root's type. */
  lemma DiscoverComplete(s: State)
    requires Discover(s).Ok?
    ensures DuckdbDriverPath(s).Ok?
    ensures forall root, n ::
              && ListSubkeys(s, root, ODBC_INI_SUBPATH).Ok?
              && n in ListSubkeys(s, root, ODBC_INI_SUBPATH).value
              && ListValues(s, root, DsnPath(n)).Ok?
              && RegistrySetting(DRIVER_SETTING_NAME, DuckdbDriverPath(s).value) in ListValues(s, root, DsnPath(n)).value
              ==> exists d :: d in Discover(s).value && d.name == n && d.dsn_type == TypeOf(root)
  {
    DiscoverParts(s);
    forall root, n |
      && ListSubkeys(s, root, ODBC_INI_SUBPATH).Ok?
      && n in ListSubkeys(s, root, ODBC_INI_SUBPATH).value
      && ListValues(s, root, DsnPath(n)).Ok?
      && RegistrySetting(DRIVER_SETTING_NAME, DuckdbDriverPath(s).value) in ListValues(s, root, DsnPath(n)).value
      ensures exists d :: d in Discover(s).value && d.name == n && d.dsn_type == TypeOf(root)
    {
      DiscoverCompleteAt(s, root, n);
    }
  }

  lemma DiscoverCompleteAt(s: State, root: Root, n: string)
    requires Discover(s).Ok?
    requires DuckdbDriverPath(s).Ok?
    requires ListSubkeys(s, root, ODBC_INI_SUBPATH).Ok? && n in ListSubkeys(s, root, ODBC_INI_SUBPATH).value
    requires ListValues(s, root, DsnPath(n)).Ok?
    requires RegistrySetting(DRIVER_SETTING_NAME, DuckdbDriverPath(s).value) in ListValues(s, root, DsnPath(n)).value
    ensures exists d :: d in Discover(s).value && d.name == n && d.dsn_type == TypeOf(root)
  {
    DiscoverParts(s);
    var p := DuckdbDriverPath(s).value;
    var names := ListSubkeys(s, root, ODBC_INI_SUBPATH).value;
    CollectComplete(s, root, names, p);
    var ls := ListValues(s, root, DsnPath(n)).value;
    var i :| 0 <= i < |ls| && ls[i] == RegistrySetting(DRIVER_SETTING_NAME, p);
    assert UsesDriver(ls, p);
    var d :| d in Collect(s, root, names, p).value && d.name == n && d.dsn_type == TypeOf(root);
    assert d in Discover(s).value by {
      if root == HKLM { } else { }
    }
  }

  /**
    The SYSTEM records come first and the USER records after them, and within each group the records keep
    the enumeration order of their root's subkeys.
  */
  lemma DiscoverGroups(s: State)
    requires Discover(s).Ok?
    ensures ListSubkeys(s, HKLM, ODBC_INI_SUBPATH).Ok? && ListSubkeys(s, HKCU, ODBC_INI_SUBPATH).Ok?
    ensures var r := Discover(s).value;
            exists k :: 0 <= k <= |r|
              && (forall i :: 0 <= i < k ==> r[i].dsn_type == SYSTEM)
              && (forall i :: k <= i < |r| ==> r[i].dsn_type == USER)
              && IsSubsequence(Names(r[..k]), ListSubkeys(s, HKLM, ODBC_INI_SUBPATH).value)
              && IsSubsequence(Names(r[k..]), ListSubkeys(s, HKCU, ODBC_INI_SUBPATH).value)
  {
    DiscoverParts(s);
    var p := DuckdbDriverPath(s).value;
    var sysNames, usrNames := ListSubkeys(s, HKLM, ODBC_INI_SUBPATH).value, ListSubkeys(s, HKCU, ODBC_INI_SUBPATH).value;
    var system, user := Collect(s, HKLM, sysNames, p).value, Collect(s, HKCU, usrNames, p).value;
    CollectTyped(s, HKLM, sysNames, p);
    CollectTyped(s, HKCU, usrNames, p);
    CollectOrder(s, HKLM, sysNames, p);
    CollectOrder(s, HKCU, usrNames, p);
    var r := Discover(s).value;
    var k := |system|;
    assert r[..k] == system && r[k..] == user;
    forall i | k <= i < |r| ensures r[i].dsn_type == USER {
      assert r[i] == user[i - k];
    }
  }

  lemma CollectTyped(s: State, root: Root, names: seq<string>, driverPath: string)
    requires Collect(s, root, names, driverPath).Ok?
    ensures var r := Collect(s, root, names, driverPath).value;
            forall i :: 0 <= i < |r| ==> r[i].dsn_type == TypeOf(root)
  {
    CollectSound(s, root, names, driverPath);
    var r := Collect(s, root, names, driverPath).value;
    forall i | 0 <= i < |r| ensures r[i].dsn_type == TypeOf(root) {
      assert r[i] in r;
    }
  }

  /**
    Discovery succeeds exactly when the driver path resolves, both roots' ODBC.INI keys can be listed and
    every listed subkey's values can be listed: one failing DSN aborts the whole load.
  */
  lemma DiscoverSucceedsIff(s: State)
    ensures Discover(s).Ok? <==>
              && DuckdbDriverPath(s).Ok?
              && ListSubkeys(s, HKLM, ODBC_INI_SUBPATH).Ok?
              && ListSubkeys(s, HKCU, ODBC_INI_SUBPATH).Ok?
              && forall root, n :: ListSubkeys(s, root, ODBC_INI_SUBPATH).Ok? && n in ListSubkeys(s, root, ODBC_INI_SUBPATH).value
                                   ==> ListValues(s, root, DsnPath(n)).Ok?
  {
    if DuckdbDriverPath(s).Ok? && ListSubkeys(s, HKLM, ODBC_INI_SUBPATH).Ok? && ListSubkeys(s, HKCU, ODBC_INI_SUBPATH).Ok? {
      var p := DuckdbDriverPath(s).value;
      var sys := Collect(s, HKLM, ListSubkeys(s, HKLM, ODBC_INI_SUBPATH).value, p);
      var usr := Collect(s, HKCU, ListSubkeys(s, HKCU, ODBC_INI_SUBPATH).value, p);
      if sys.Ok? && usr.Ok? {
        forall root, n | ListSubkeys(s, root, ODBC_INI_SUBPATH).Ok? && n in ListSubkeys(s, root, ODBC_INI_SUBPATH).value
          ensures ListValues(s, root, DsnPath(n)).Ok?
        {
          if root == HKLM { } else { }
        }
      }
    }
  }

  /** The errors that abort discovery, in the order the steps run. */
  lemma DiscoverAbortReasons(s: State)
    ensures DuckdbDriverPath(s).Err? ==> Discover(s) == Err(DuckdbDriverPath(s).error)
    ensures DuckdbDriverPath(s).Ok? && Location(HKLM, ODBC_INI_SUBPATH) !in s ==>
              Discover(s) == Err(OpenError(Location(HKLM, ODBC_INI_SUBPATH)))
    ensures DuckdbDriverPath(s).Ok? && Location(HKLM, ODBC_INI_SUBPATH) in s && Location(HKCU, ODBC_INI_SUBPATH) !in s ==>
              Discover(s) == Err(OpenError(Location(HKCU, ODBC_INI_SUBPATH)))
  {
  }

  /**
    In a well-formed store every listed subkey exists, so discovery fails only when the driver path does
    not resolve or an ODBC.INI key is missing.
  */
  lemma DiscoverWellFormed(s: State)
    requires WellFormed(s)
    ensures Discover(s).Ok? <==>
              DuckdbDriverPath(s).Ok? && Location(HKLM, ODBC_INI_SUBPATH) in s && Location(HKCU, ODBC_INI_SUBPATH) in s
  {
    DiscoverSucceedsIff(s);
    if Location(HKLM, ODBC_INI_SUBPATH) in s && Location(HKCU, ODBC_INI_SUBPATH) in s {
      forall root, n | ListSubkeys(s, root, ODBC_INI_SUBPATH).Ok? && n in ListSubkeys(s, root, ODBC_INI_SUBPATH).value
        ensures ListValues(s, root, DsnPath(n)).Ok?
      {
        var l := Location(root, ODBC_INI_SUBPATH);
        var k :| k in s[l].subkeys && k.readable && k.name == n;
        assert Child(l, n) in s;
      }
    }
  }

  // ---------------------------------------------------------------------------------------------
  // Discovery after the store's mutations

  /** A record survives into another store that lists its key under the same root with the same values and the same driver path. */
  lemma RecordSurvives(s: State, s': State, d: RegistryDsn)
    requires Discover(s).Ok? && Discover(s').Ok? && d in Discover(s).value
    requires DuckdbDriverPath(s') == DuckdbDriverPath(s)
    requires ListSubkeys(s', RootOf(d.dsn_type), ODBC_INI_SUBPATH).Ok?
    requires d.name in ListSubkeys(s', RootOf(d.dsn_type), ODBC_INI_SUBPATH).value
    requires ListValues(s', RootOf(d.dsn_type), DsnPath(d.name)) == ListValues(s, RootOf(d.dsn_type), DsnPath(d.name))
    ensures d in Discover(s').value
  {
    var root := RootOf(d.dsn_type);
    DiscoverSound(s);
    DiscoverSound(s');
    DiscoverCompleteAt(s', root, d.name);
    var d' :| d' in Discover(s').value && d'.name == d.name && d'.dsn_type == TypeOf(root);
    assert d' == d;
  }

  /** The listing of the first two readable entries when both are readable. */
  lemma ReadableSettingsOfTwo(a: Value, b: Value, rest: seq<Value>)
    requires a.readable && b.readable
    ensures ReadableSettings([a, b] + rest)
              == [RegistrySetting(a.name, a.data), RegistrySetting(b.name, b.data)] + ReadableSettings(rest)
  {
    var vs := [a, b] + rest;
    assert vs[1..] == [b] + rest;
    assert ([b] + rest)[1..] == rest;
  }

  /** Two well-formed stores with the same driver path and the same ODBC.INI keys present are discovered alike. */
  lemma SameDiscoverability(s: State, s': State)
    requires WellFormed(s) && WellFormed(s')
    requires DuckdbDriverPath(s') == DuckdbDriverPath(s)
    requires Location(HKLM, ODBC_INI_SUBPATH) in s' <==> Location(HKLM, ODBC_INI_SUBPATH) in s
    requires Location(HKCU, ODBC_INI_SUBPATH) in s' <==> Location(HKCU, ODBC_INI_SUBPATH) in s
    ensures Discover(s').Ok? <==> Discover(s).Ok?
  {
    DiscoverWellFormed(s);
    DiscoverWellFormed(s');
  }

  /** A record of a DSN whose key did not change, and whose name is still listed, survives a change of the store. */
  lemma RecordSurvivesFrame(s: State, s': State, changed: set<Location>, d: RegistryDsn)
    requires Discover(s).Ok? && Discover(s').Ok? && d in Discover(s).value
    requires DuckdbDriverPath(s') == DuckdbDriverPath(s)
    requires SameExcept(s, s', changed)
    requires Location(RootOf(d.dsn_type), DsnPath(d.name)) !in changed
    requires var odbc := Location(RootOf(d.dsn_type), ODBC_INI_SUBPATH);
             odbc !in changed || (odbc in s' && exists k :: k in s'[odbc].subkeys && k.readable && k.name == d.name)
    ensures d in Discover(s').value
  {
    DiscoverSound(s);
    var root := RootOf(d.dsn_type);
    var key := Location(root, DsnPath(d.name));
    assert key in s;
    RecordSurvives(s, s', d);
  }

  /**
    A new key listed as a readable subkey of ODBC.INI, whose first two values are `Driver` = the driver
    path and `database`, is discovered, and every record of that name and root starts with those two.
  */
  lemma NewKeyDiscovered(s': State, root: Root, name: string, p: string, database: string)
    requires Discover(s').Ok? && DuckdbDriverPath(s') == Ok(p)
    requires Location(root, ODBC_INI_SUBPATH) in s' && Subkey(name, true) in s'[Location(root, ODBC_INI_SUBPATH)].subkeys
    requires var key := Location(root, DsnPath(name));
             key in s' && |s'[key].values| >= 2
             && s'[key].values[0] == Value(DRIVER_SETTING_NAME, p, true)
             && s'[key].values[1] == Value(DATABASE_SETTING_NAME, database, true)
    ensures var r := Discover(s').value;
            && (exists d :: d in r && d.name == name && d.dsn_type == TypeOf(root))
            && forall d :: d in r && d.name == name && d.dsn_type == TypeOf(root) ==>
                 && |d.settings| >= 2
                 && d.settings[0] == RegistrySetting(DRIVER_SETTING_NAME, p)
                 && d.settings[1] == RegistrySetting(DATABASE_SETTING_NAME, database)
  {
    var key := Location(root, DsnPath(name));
    var vals := s'[key].values;
    assert vals == [vals[0], vals[1]] + vals[2..];
    ReadableSettingsOfTwo(vals[0], vals[1], vals[2..]);
    var ls := ListValues(s', root, DsnPath(name)).value;
    assert ls[0] in ls;
    DiscoverCompleteAt(s', root, name);
    DiscoverSound(s');
  }

  /**
    A record survives an edit that touches only one scope's ODBC.INI, one DSN key and the listing key, keeps
    the driver path, and keeps every other subkey entry of that ODBC.INI.
  */
  lemma RecordSurvivesEdit(s: State, s': State, t: DsnType, name: string, d: RegistryDsn)
    requires Discover(s).Ok? && Discover(s').Ok? && d in Discover(s).value
    requires DuckdbDriverPath(s') == DuckdbDriverPath(s)
    requires SameExcept(s, s', {OdbcIni(t), DsnKey(t, name), ListingKey(t)})
    requires OdbcIni(t) in s && OdbcIni(t) in s'
    requires forall k :: k in s[OdbcIni(t)].subkeys && k.name != name ==> k in s'[OdbcIni(t)].subkeys
    requires d.dsn_type == t ==> d.name != name && d.name != DS_LISTING_SUBPATH
    ensures d in Discover(s').value
  {
    DiscoverSoundAt(s, d);
    KeysOutsideEdit(t, name, d.dsn_type, d.name);
    ListedAfterEdit(s, s', t, name, d.dsn_type, d.name);
    RecordSurvivesFrame(s, s', {OdbcIni(t), DsnKey(t, name), ListingKey(t)}, d);
  }

  /** A readable subkey entry other than the edited one is still listed under its ODBC.INI after the edit. */
  lemma ListedAfterEdit(s: State, s': State, t: DsnType, name: string, t': DsnType, name': string)
    requires OdbcIni(t) in s && OdbcIni(t) in s'
    requires forall k :: k in s[OdbcIni(t)].subkeys && k.name != name ==> k in s'[OdbcIni(t)].subkeys
    requires t' == t ==> name' != name
    requires var odbc := Location(RootOf(t'), ODBC_INI_SUBPATH);
             odbc in s && exists k :: k in s[odbc].subkeys && k.readable && k.name == name'
    ensures var odbc := Location(RootOf(t'), ODBC_INI_SUBPATH);
            odbc !in {OdbcIni(t), DsnKey(t, name), ListingKey(t)}
            || (odbc in s' && exists k :: k in s'[odbc].subkeys && k.readable && k.name == name')
  {
    var odbc := Location(RootOf(t'), ODBC_INI_SUBPATH);
    if t' == t {
      var k :| k in s[odbc].subkeys && k.readable && k.name == name';
      assert k in s'[OdbcIni(t)].subkeys;
    } else {
      assert RootOf(t') != RootOf(t);
      assert odbc != OdbcIni(t) && odbc.root != DsnKey(t, name).root && odbc.root != ListingKey(t).root;
    }
  }

  /**
    An edit of one scope's ODBC.INI, one DSN key and the listing key leaves every other DSN key alone, and
    the other scope's ODBC.INI too.
  */
  lemma KeysOutsideEdit(t: DsnType, name: string, t': DsnType, name': string)
    requires t' == t ==> name' != name && name' != DS_LISTING_SUBPATH
    ensures Location(RootOf(t'), DsnPath(name')) !in {OdbcIni(t), DsnKey(t, name), ListingKey(t)}
    ensures t' != t ==> Location(RootOf(t'), ODBC_INI_SUBPATH) !in {OdbcIni(t), DsnKey(t, name), ListingKey(t)}
  {
    var key := Location(RootOf(t'), DsnPath(name'));
    assert key != OdbcIni(t) by { assert |key.path| != |ODBC_INI_SUBPATH|; }
    if t' == t {
      ChildDistinct(OdbcIni(t), name', DS_LISTING_SUBPATH);
      ChildDistinct(OdbcIni(t), name', name);
      assert key == DsnKey(t, name');
    } else {
      assert RootOf(t') != RootOf(t);
      assert Location(RootOf(t'), ODBC_INI_SUBPATH) != OdbcIni(t);
      assert |Location(RootOf(t'), ODBC_INI_SUBPATH).path| != |DsnKey(t, name).path|;
      assert |Location(RootOf(t'), ODBC_INI_SUBPATH).path| != |ListingKey(t).path|;
    }
  }

  /** Two stores that agree outside some locations agree at any location outside them. */
  lemma SameExceptAt(s: State, s': State, changed: set<Location>, l: Location)
    requires SameExcept(s, s', changed) && l !in changed
    ensures (l in s <==> l in s') && (l in s ==> s[l] == s'[l])
  {
  }

  /** A successful create_dsn leaves the driver path and both ODBC.INI keys' presence as they were. */
  lemma CreateDsnKeepsDriverAndRoots(s: State, t: DsnType, name: string, database: string)
    requires CreateDsnEffect(s, t, name, database).result.Ok?
    ensures var s' := CreateDsnEffect(s, t, name, database).state;
            && DuckdbDriverPath(s') == DuckdbDriverPath(s)
            && (Location(HKLM, ODBC_INI_SUBPATH) in s' <==> Location(HKLM, ODBC_INI_SUBPATH) in s)
            && (Location(HKCU, ODBC_INI_SUBPATH) in s' <==> Location(HKCU, ODBC_INI_SUBPATH) in s)
  {
    CreateDsnSuccessFrame(s, t, name, database);
    CreateDsnListsName(s, t, name, database);
    EditKeepsDriverAndRoots(s, CreateDsnEffect(s, t, name, database).state, t, name);
  }

  /** An edit of one scope's ODBC.INI, one DSN key and the listing key keeps the driver path and both ODBC.INI keys' presence. */
  lemma EditKeepsDriverAndRoots(s: State, s': State, t: DsnType, name: string)
    requires SameExcept(s, s', {OdbcIni(t), DsnKey(t, name), ListingKey(t)})
    requires OdbcIni(t) in s && OdbcIni(t) in s'
    ensures DuckdbDriverPath(s') == DuckdbDriverPath(s)
    ensures Location(HKLM, ODBC_INI_SUBPATH) in s' <==> Location(HKLM, ODBC_INI_SUBPATH) in s
    ensures Location(HKCU, ODBC_INI_SUBPATH) in s' <==> Location(HKCU, ODBC_INI_SUBPATH) in s
  {
    var changed := {OdbcIni(t), DsnKey(t, name), ListingKey(t)};
    DriverKeyOutsideEdit(t, name);
    SameExceptAt(s, s', changed, Location(HKLM, DRIVER_KEY_PATH));
    DriverPathDependsOnDriverKey(s, s');
    var other := OtherRoot(RootOf(t));
    OtherOdbcIniOutsideEdit(t, name);
    SameExceptAt(s, s', changed, Location(other, ODBC_INI_SUBPATH));
  }

  function OtherRoot(root: Root): (r: Root)
    ensures r != root
  {
    if root == HKLM then HKCU else HKLM
  }

  lemma DriverKeyOutsideEdit(t: DsnType, name: string)
    ensures Location(HKLM, DRIVER_KEY_PATH) !in {OdbcIni(t), DsnKey(t, name), ListingKey(t)}
  {
    DriverKeyIsNotUnderOdbcIni(RootOf(t), name);
    DriverKeyIsNotUnderOdbcIni(RootOf(t), DS_LISTING_SUBPATH);
  }

  lemma OtherOdbcIniOutsideEdit(t: DsnType, name: string)
    ensures Location(OtherRoot(RootOf(t)), ODBC_INI_SUBPATH) !in {OdbcIni(t), DsnKey(t, name), ListingKey(t)}
  {
    var l := Location(OtherRoot(RootOf(t)), ODBC_INI_SUBPATH);
    assert l.root != OdbcIni(t).root && l.root != DsnKey(t, name).root && l.root != ListingKey(t).root;
  }

  /** In a well-formed store a successful create_dsn does not change whether discovery succeeds. */
  lemma CreateDsnKeepsDiscoverable(s: State, t: DsnType, name: string, database: string)
    requires WellFormed(s)
    requires CreateDsnEffect(s, t, name, database).result.Ok?
    ensures Discover(CreateDsnEffect(s, t, name, database).state).Ok? <==> Discover(s).Ok?
  {
    CreateDsnKeepsDriverAndRoots(s, t, name, database);
    CreateDsnKeepsWellFormed(s, t, name, database);
    SameDiscoverability(s, CreateDsnEffect(s, t, name, database).state);
  }

  /**
    After a successful create_dsn the new DSN is discovered under its scope, and every record of that name
    and scope starts with `Driver` = the driver path and `database` = the given string.
  */
  lemma CreateDsnDiscovered(s: State, t: DsnType, name: string, database: string)
    requires CreateDsnEffect(s, t, name, database).result.Ok?
    requires Discover(CreateDsnEffect(s, t, name, database).state).Ok?
    ensures DuckdbDriverPath(s).Ok?
    ensures var r := Discover(CreateDsnEffect(s, t, name, database).state).value;
            && (exists d :: d in r && d.name == name && d.dsn_type == t)
            && forall d :: d in r && d.name == name && d.dsn_type == t ==>
                 && |d.settings| >= 2
                 && d.settings[0] == RegistrySetting(DRIVER_SETTING_NAME, DuckdbDriverPath(s).value)
                 && d.settings[1] == RegistrySetting(DATABASE_SETTING_NAME, database)
  {
    CreateDsnKeepsDriverAndRoots(s, t, name, database);
    CreateDsnSuccess(s, t, name, database);
    CreateDsnListsName(s, t, name, database);
    NewKeyDiscovered(CreateDsnEffect(s, t, name, database).state, RootOf(t), name, DuckdbDriverPath(s).value, database);
  }

  /**
    In a store that is a tree, discovery yields at most one record per name and scope: subkey names are
    unique under each ODBC.INI key, and each scope's records come from one key.
  */
  lemma DiscoverUnique(s: State)
    requires WellFormed(s) && Discover(s).Ok?
    ensures var r := Discover(s).value;
            forall i, j :: 0 <= i < j < |r| && r[i].dsn_type == r[j].dsn_type ==> r[i].name != r[j].name
  {
    DiscoverParts(s);
    var p := DuckdbDriverPath(s).value;
    var sysNames, userNames := ListSubkeys(s, HKLM, ODBC_INI_SUBPATH).value, ListSubkeys(s, HKCU, ODBC_INI_SUBPATH).value;
    var system, user := Collect(s, HKLM, sysNames, p).value, Collect(s, HKCU, userNames, p).value;
    ReadableNamesDistinct(s[Location(HKLM, ODBC_INI_SUBPATH)].subkeys);
    ReadableNamesDistinct(s[Location(HKCU, ODBC_INI_SUBPATH)].subkeys);
    CollectNamesDistinct(s, HKLM, sysNames, p);
    CollectNamesDistinct(s, HKCU, userNames, p);
    CollectTyped(s, HKLM, sysNames, p);
    CollectTyped(s, HKCU, userNames, p);
    var r, k := system + user, |system|;
    var a, b := Names(system), Names(user);
    forall i, j | 0 <= i < j < |r| && r[i].dsn_type == r[j].dsn_type ensures r[i].name != r[j].name {
      if j < k {
        assert r[i] == system[i] && r[j] == system[j];
        assert a[i] != a[j];
      } else if i >= k {
        assert r[i] == user[i - k] && r[j] == user[j - k];
        assert b[i - k] != b[j - k];
      }
    }
  }

  /**
    After a successful create_dsn on a store that is a tree, discovery yields exactly one record of that
    name and scope.
  */
  lemma CreateDsnDiscoveredOnce(s: State, t: DsnType, name: string, database: string)
    requires WellFormed(s)
    requires CreateDsnEffect(s, t, name, database).result.Ok?
    requires Discover(CreateDsnEffect(s, t, name, database).state).Ok?
    ensures var r := Discover(CreateDsnEffect(s, t, name, database).state).value;
            exists i :: && 0 <= i < |r| && r[i].name == name && r[i].dsn_type == t
                        && forall j :: 0 <= j < |r| && r[j].name == name && r[j].dsn_type == t ==> j == i
  {
    var s' := CreateDsnEffect(s, t, name, database).state;
    CreateDsnDiscovered(s, t, name, database);
    CreateDsnKeepsWellFormed(s, t, name, database);
    DiscoverUnique(s');
    var r := Discover(s').value;
    var d :| d in r && d.name == name && d.dsn_type == t;
    var i :| 0 <= i < |r| && r[i] == d;
  }

  /**
    create_dsn leaves every other discovered record as it was; only a DSN of the same scope that is named
    like the listing key itself can change, because its key is the listing key.
  */
  lemma CreateDsnKeepsOthers(s: State, t: DsnType, name: string, database: string)
    requires CreateDsnEffect(s, t, name, database).result.Ok?
    requires Discover(s).Ok? && Discover(CreateDsnEffect(s, t, name, database).state).Ok?
    ensures forall d :: d in Discover(s).value && !(d.dsn_type == t && d.name == DS_LISTING_SUBPATH) ==>
              d in Discover(CreateDsnEffect(s, t, name, database).state).value
  {
    forall d | d in Discover(s).value && !(d.dsn_type == t && d.name == DS_LISTING_SUBPATH)
      ensures d in Discover(CreateDsnEffect(s, t, name, database).state).value
    {
      CreateDsnKeepsRecord(s, t, name, database, d);
    }
  }

  lemma CreateDsnKeepsRecord(s: State, t: DsnType, name: string, database: string, d: RegistryDsn)
    requires CreateDsnEffect(s, t, name, database).result.Ok?
    requires Discover(s).Ok? && Discover(CreateDsnEffect(s, t, name, database).state).Ok?
    requires d in Discover(s).value && !(d.dsn_type == t && d.name == DS_LISTING_SUBPATH)
    ensures d in Discover(CreateDsnEffect(s, t, name, database).state).value
  {
    CreateDsnKeepsDriverAndRoots(s, t, name, database);
    CreateDsnSuccessFrame(s, t, name, database);
    CreateDsnListsName(s, t, name, database);
    DiscoverSoundAt(s, d);
    RecordSurvivesEdit(s, CreateDsnEffect(s, t, name, database).state, t, name, d);
  }

  /** After a successful delete_dsn no record of that name and scope is discovered any more. */
  lemma DeleteDsnForgotten(s: State, t: DsnType, name: string)
    requires WellFormed(s)
    requires DeleteDsnEffect(s, t, name).result.Ok?
    requires Discover(DeleteDsnEffect(s, t, name).state).Ok?
    ensures forall d :: d in Discover(DeleteDsnEffect(s, t, name).state).value ==> !(d.name == name && d.dsn_type == t)
  {
    var s' := DeleteDsnEffect(s, t, name).state;
    DeleteDsnSuccess(s, t, name);
    DiscoverSound(s');
  }

  /** delete_dsn leaves every other discovered record as it was, except one of that scope named like the listing key. */
  lemma DeleteDsnKeepsOthers(s: State, t: DsnType, name: string)
    requires WellFormed(s)
    requires DeleteDsnEffect(s, t, name).result.Ok?
    requires Discover(s).Ok? && Discover(DeleteDsnEffect(s, t, name).state).Ok?
    ensures forall d :: d in Discover(s).value && !(d.dsn_type == t && (d.name == name || d.name == DS_LISTING_SUBPATH)) ==>
              d in Discover(DeleteDsnEffect(s, t, name).state).value
  {
    forall d | d in Discover(s).value && !(d.dsn_type == t && (d.name == name || d.name == DS_LISTING_SUBPATH))
      ensures d in Discover(DeleteDsnEffect(s, t, name).state).value
    {
      DeleteDsnKeepsRecord(s, t, name, d);
    }
  }

  /** A successful delete_dsn leaves the driver path as it was. */
  lemma DeleteDsnKeepsDriver(s: State, t: DsnType, name: string)
    requires DeleteDsnEffect(s, t, name).result.Ok?
    ensures DuckdbDriverPath(DeleteDsnEffect(s, t, name).state) == DuckdbDriverPath(s)
  {
    DeleteDsnSuccessFrame(s, t, name);
    DriverKeyIsNotUnderOdbcIni(RootOf(t), name);
    DriverKeyIsNotUnderOdbcIni(RootOf(t), DS_LISTING_SUBPATH);
    DriverPathDependsOnDriverKey(s, DeleteDsnEffect(s, t, name).state);
  }

  lemma DeleteDsnKeepsRecord(s: State, t: DsnType, name: string, d: RegistryDsn)
    requires DeleteDsnEffect(s, t, name).result.Ok?
    requires Discover(s).Ok? && Discover(DeleteDsnEffect(s, t, name).state).Ok?
    requires d in Discover(s).value && !(d.dsn_type == t && (d.name == name || d.name == DS_LISTING_SUBPATH))
    ensures d in Discover(DeleteDsnEffect(s, t, name).state).value
  {
    DeleteDsnSuccessFrame(s, t, name);
    DeleteDsnKeepsDriver(s, t, name);
    RecordSurvivesEdit(s, DeleteDsnEffect(s, t, name).state, t, name, d);
  }
}
