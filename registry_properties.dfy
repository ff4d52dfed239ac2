/** What the DSN operations of the store promise, stated over their effect functions. */
module RegistryProperties {
  import opened Errors
  import opened Registry

  function OdbcIni(t: DsnType): Location {
    Location(RootOf(t), ODBC_INI_SUBPATH)
  }

  function DsnKey(t: DsnType, name: string): Location {
    Child(OdbcIni(t), name)
  }

  function ListingKey(t: DsnType): Location {
    Child(OdbcIni(t), DS_LISTING_SUBPATH)
  }

  /** Two stores agree everywhere except at the given locations. */
  ghost predicate SameExcept(s: State, s': State, changed: set<Location>) {
    forall l {:trigger l in s'} :: l !in changed ==> (l in s <==> l in s') && (l in s ==> s[l] == s'[l])
  }

  // ---------------------------------------------------------------------------------------------
  // Small facts about the fixed paths

  lemma DriverKeyIsNotUnderOdbcIni(root: Root, name: string)
    ensures Location(HKLM, DRIVER_KEY_PATH) != Location(root, ODBC_INI_SUBPATH)
    ensures Location(HKLM, DRIVER_KEY_PATH) != Location(root, ODBC_INI_SUBPATH + [name])
  {
    assert DRIVER_KEY_PATH[2] != ODBC_INI_SUBPATH[2];
    assert (ODBC_INI_SUBPATH + [name])[2] == ODBC_INI_SUBPATH[2];
  }

  /** The driver path only depends on the driver registration key. */
  lemma DriverPathDependsOnDriverKey(s: State, s': State)
    requires Location(HKLM, DRIVER_KEY_PATH) in s <==> Location(HKLM, DRIVER_KEY_PATH) in s'
    requires Location(HKLM, DRIVER_KEY_PATH) in s ==> s[Location(HKLM, DRIVER_KEY_PATH)] == s'[Location(HKLM, DRIVER_KEY_PATH)]
    ensures DuckdbDriverPath(s) == DuckdbDriverPath(s')
  {
  }

  lemma AddSubkeyKeepsDriverPath(s: State, t: DsnType, name: string)
    requires OdbcIni(t) in s
    ensures DuckdbDriverPath(AddSubkey(s, OdbcIni(t), name)) == DuckdbDriverPath(s)
  {
    DriverKeyIsNotUnderOdbcIni(RootOf(t), name);
    DriverPathDependsOnDriverKey(s, AddSubkey(s, OdbcIni(t), name));
  }

  // ---------------------------------------------------------------------------------------------
  // create_dsn

  /** Writing `Driver` and then `database` into a fresh, empty key leaves exactly those two values, in that order. */
  lemma InitialValues(s1: State, dsn: Location, p: string, database: string)
    requires dsn in s1 && s1[dsn] == EMPTY_KEY
    ensures var s2 := SetValueAt(SetValueAt(s1, dsn, DRIVER_SETTING_NAME, p), dsn, DATABASE_SETTING_NAME, database);
            dsn in s2 && s2[dsn] == KeyData([Value(DRIVER_SETTING_NAME, p, true), Value(DATABASE_SETTING_NAME, database, true)], [])
  {
    var d := Value(DRIVER_SETTING_NAME, p, true);
    assert Upsert([], DRIVER_SETTING_NAME, p) == [d];
    assert [d][1..] == [];
    assert Upsert([d], DATABASE_SETTING_NAME, database) == [d] + Upsert([], DATABASE_SETTING_NAME, database);
  }

  /** A name that already exists under ODBC.INI is rejected, whatever driver it belongs to, and nothing changes. */
  lemma CreateDsnRejectsExisting(s: State, t: DsnType, name: string, database: string)
    requires OdbcIni(t) in s && DsnKey(t, name) in s
    ensures CreateDsnEffect(s, t, name, database) == Effect(Err(AlreadyExist(name)), s)
  {
  }

  /** create_dsn succeeds exactly when ODBC.INI opens, the name is new, the driver is registered and the listing key opens. */
  lemma CreateDsnSucceedsIff(s: State, t: DsnType, name: string, database: string)
    ensures CreateDsnEffect(s, t, name, database).result.Ok? <==>
              && OdbcIni(t) in s
              && DsnKey(t, name) !in s
              && DuckdbDriverPath(s).Ok?
              && (ListingKey(t) in s || name == DS_LISTING_SUBPATH)
  {
    if OdbcIni(t) in s && DsnKey(t, name) !in s {
      AddSubkeyKeepsDriverPath(s, t, name);
      var s1 := AddSubkey(s, OdbcIni(t), name);
      assert s1.Keys == s.Keys + {DsnKey(t, name)};
      if name != DS_LISTING_SUBPATH {
        ChildDistinct(OdbcIni(t), name, DS_LISTING_SUBPATH);
      }
    }
  }

  /** The store after a successful create_dsn, step by step as the effect function builds it. */
  lemma CreateDsnSuccessState(s: State, t: DsnType, name: string, database: string)
    requires CreateDsnEffect(s, t, name, database).result.Ok?
    ensures OdbcIni(t) in s && DsnKey(t, name) !in s && DuckdbDriverPath(s).Ok?
    ensures var s1 := AddSubkey(s, OdbcIni(t), name);
            var p := DuckdbDriverPath(s).value;
            var s2 := SetValueAt(SetValueAt(s1, DsnKey(t, name), DRIVER_SETTING_NAME, p), DsnKey(t, name), DATABASE_SETTING_NAME, database);
            && DsnKey(t, name) in s1 && s1[DsnKey(t, name)] == EMPTY_KEY
            && ListingKey(t) in s2
            && CreateDsnEffect(s, t, name, database).state == SetValueAt(s2, ListingKey(t), name, DRIVER_LISTING_LABEL)
  {
    AddSubkeyKeepsDriverPath(s, t, name);
    ChildOfChild(OdbcIni(t), name);
  }

  /**
    After a successful create_dsn the new key `ODBC.INI\<name>` holds `Driver` = the driver path and
    `database` = the given string (and, only when the name is that of the listing key itself, the listing
    value) and has no subkeys.
  */
  lemma CreateDsnSuccess(s: State, t: DsnType, name: string, database: string)
    requires CreateDsnEffect(s, t, name, database).result.Ok?
    ensures var s' := CreateDsnEffect(s, t, name, database).state;
            && DuckdbDriverPath(s).Ok?
            && DsnKey(t, name) !in s && DsnKey(t, name) in s'
            && s'[DsnKey(t, name)].values ==
                 [Value(DRIVER_SETTING_NAME, DuckdbDriverPath(s).value, true), Value(DATABASE_SETTING_NAME, database, true)]
                 + (if name == DS_LISTING_SUBPATH then [Value(name, DRIVER_LISTING_LABEL, true)] else [])
            && s'[DsnKey(t, name)].subkeys == []
  {
    CreateDsnSuccessState(s, t, name, database);
    var odbc := OdbcIni(t);
    var s1 := AddSubkey(s, odbc, name);
    if name != DS_LISTING_SUBPATH {
      ChildDistinct(odbc, name, DS_LISTING_SUBPATH);
    }
    NewKeyAfterWrites(s1, odbc, name, DuckdbDriverPath(s).value, database);
  }

  /** The writes of create_dsn into a fresh, empty key, followed by the listing write beside it. */
  lemma NewKeyAfterWrites(s1: State, odbc: Location, name: string, p: string, database: string)
    requires Child(odbc, name) in s1 && s1[Child(odbc, name)] == EMPTY_KEY
    requires name != DS_LISTING_SUBPATH ==> Child(odbc, name) != Child(odbc, DS_LISTING_SUBPATH)
    requires var dsn := Child(odbc, name);
             Child(odbc, DS_LISTING_SUBPATH) in SetValueAt(SetValueAt(s1, dsn, DRIVER_SETTING_NAME, p), dsn, DATABASE_SETTING_NAME, database)
    ensures var dsn, listing := Child(odbc, name), Child(odbc, DS_LISTING_SUBPATH);
            var s2 := SetValueAt(SetValueAt(s1, dsn, DRIVER_SETTING_NAME, p), dsn, DATABASE_SETTING_NAME, database);
            var s' := SetValueAt(s2, listing, name, DRIVER_LISTING_LABEL);
            && dsn in s'
            && s'[dsn].values ==
                 [Value(DRIVER_SETTING_NAME, p, true), Value(DATABASE_SETTING_NAME, database, true)]
                 + (if name == DS_LISTING_SUBPATH then [Value(name, DRIVER_LISTING_LABEL, true)] else [])
            && s'[dsn].subkeys == []
  {
    var dsn, listing := Child(odbc, name), Child(odbc, DS_LISTING_SUBPATH);
    var s2 := SetValueAt(SetValueAt(s1, dsn, DRIVER_SETTING_NAME, p), dsn, DATABASE_SETTING_NAME, database);
    InitialValues(s1, dsn, p, database);
    var s' := SetValueAt(s2, listing, name, DRIVER_LISTING_LABEL);
    if name == DS_LISTING_SUBPATH {
      UpsertAfterInitial(p, database, name);
      assert s'[dsn] == s2[dsn].(values := Upsert(s2[dsn].values, name, DRIVER_LISTING_LABEL));
    } else {
      assert s'[dsn] == s2[dsn];
    }
  }

  /** Setting a third name after the two initial values appends it. */
  lemma UpsertAfterInitial(p: string, database: string, name: string)
    requires name != DRIVER_SETTING_NAME && name != DATABASE_SETTING_NAME
    ensures var d, db := Value(DRIVER_SETTING_NAME, p, true), Value(DATABASE_SETTING_NAME, database, true);
            Upsert([d, db], name, DRIVER_LISTING_LABEL) == [d, db, Value(name, DRIVER_LISTING_LABEL, true)]
  {
    var d, db := Value(DRIVER_SETTING_NAME, p, true), Value(DATABASE_SETTING_NAME, database, true);
    assert [d, db][1..] == [db] && [db][1..] == [];
    assert Upsert([db], name, DRIVER_LISTING_LABEL) == [db] + Upsert([], name, DRIVER_LISTING_LABEL);
    assert Upsert([d, db], name, DRIVER_LISTING_LABEL) == [d] + Upsert([db], name, DRIVER_LISTING_LABEL);
  }

  /**
    After a successful create_dsn the name is listed last among ODBC.INI's subkeys, whose values stay as
    they were, and mapped to the driver label in the listing key, whose other entries stay.
  */
  lemma CreateDsnListsName(s: State, t: DsnType, name: string, database: string)
    requires CreateDsnEffect(s, t, name, database).result.Ok?
    ensures var s' := CreateDsnEffect(s, t, name, database).state;
            && OdbcIni(t) in s && OdbcIni(t) in s'
            && s'[OdbcIni(t)].subkeys == s[OdbcIni(t)].subkeys + [Subkey(name, true)]
            && s'[OdbcIni(t)].values == s[OdbcIni(t)].values
            && ListingKey(t) in s'
            && FindValue(s'[ListingKey(t)].values, name) == Some(Value(name, DRIVER_LISTING_LABEL, true))
    ensures var s' := CreateDsnEffect(s, t, name, database).state;
            name != DS_LISTING_SUBPATH ==>
              && ListingKey(t) in s
              && (forall v :: v in s[ListingKey(t)].values && v.name != name ==> v in s'[ListingKey(t)].values)
              && (forall v :: v in s'[ListingKey(t)].values ==>
                               v == Value(name, DRIVER_LISTING_LABEL, true) || v in s[ListingKey(t)].values)
  {
    CreateDsnSuccessState(s, t, name, database);
    var odbc, dsn, listing := OdbcIni(t), DsnKey(t, name), ListingKey(t);
    var p := DuckdbDriverPath(s).value;
    var s1 := AddSubkey(s, odbc, name);
    var s2 := SetValueAt(SetValueAt(s1, dsn, DRIVER_SETTING_NAME, p), dsn, DATABASE_SETTING_NAME, database);
    assert odbc != dsn by { ChildOfChild(odbc, name); }
    assert odbc != listing by { ChildOfChild(odbc, DS_LISTING_SUBPATH); }
    assert s2[odbc] == s1[odbc];
    UpsertFindsNew(s2[listing].values, name, DRIVER_LISTING_LABEL);
    if name != DS_LISTING_SUBPATH {
      CreateDsnListingUpsert(s, t, name, database);
    }
  }

  /**
    A successful create_dsn touches only ODBC.INI, the new key and the listing key: ODBC.INI gains the
    subkey entry, and the listing key (when it is not the new key itself) gains the name as by `Upsert`.
  */
  lemma CreateDsnSuccessFrame(s: State, t: DsnType, name: string, database: string)
    requires CreateDsnEffect(s, t, name, database).result.Ok?
    ensures SameExcept(s, CreateDsnEffect(s, t, name, database).state, {OdbcIni(t), DsnKey(t, name), ListingKey(t)})
    ensures var s' := CreateDsnEffect(s, t, name, database).state;
            && OdbcIni(t) in s && OdbcIni(t) in s'
            && s'[OdbcIni(t)] == s[OdbcIni(t)].(subkeys := s[OdbcIni(t)].subkeys + [Subkey(name, true)])
    ensures var s' := CreateDsnEffect(s, t, name, database).state;
            name != DS_LISTING_SUBPATH ==>
              && ListingKey(t) in s && ListingKey(t) in s'
              && s'[ListingKey(t)] == s[ListingKey(t)].(values := Upsert(s[ListingKey(t)].values, name, DRIVER_LISTING_LABEL))
  {
    CreateDsnSuccessState(s, t, name, database);
    var odbc := OdbcIni(t);
    assert odbc != DsnKey(t, name) by { ChildOfChild(odbc, name); }
    assert odbc != ListingKey(t) by { ChildOfChild(odbc, DS_LISTING_SUBPATH); }
    if name != DS_LISTING_SUBPATH {
      CreateDsnListingUpsert(s, t, name, database);
    }
  }

  /** When the new key is not the listing key, the listing key existed before and only gains the name. */
  lemma CreateDsnListingUpsert(s: State, t: DsnType, name: string, database: string)
    requires CreateDsnEffect(s, t, name, database).result.Ok?
    requires name != DS_LISTING_SUBPATH
    ensures var s' := CreateDsnEffect(s, t, name, database).state;
            && ListingKey(t) in s && ListingKey(t) in s'
            && s'[ListingKey(t)] == s[ListingKey(t)].(values := Upsert(s[ListingKey(t)].values, name, DRIVER_LISTING_LABEL))
  {
    CreateDsnSuccessState(s, t, name, database);
    var odbc, dsn, listing := OdbcIni(t), DsnKey(t, name), ListingKey(t);
    ChildDistinct(odbc, name, DS_LISTING_SUBPATH);
    assert odbc != listing by { ChildOfChild(odbc, DS_LISTING_SUBPATH); }
    var p := DuckdbDriverPath(s).value;
    var s1 := AddSubkey(s, odbc, name);
    var s2 := SetValueAt(SetValueAt(s1, dsn, DRIVER_SETTING_NAME, p), dsn, DATABASE_SETTING_NAME, database);
    assert s2[listing] == s1[listing] == s[listing];
  }

  /** Whatever its outcome, create_dsn leaves the store a tree. */
  lemma CreateDsnKeepsWellFormed(s: State, t: DsnType, name: string, database: string)
    requires WellFormed(s)
    ensures WellFormed(CreateDsnEffect(s, t, name, database).state)
  {
    var odbc, dsn, listing := OdbcIni(t), DsnKey(t, name), ListingKey(t);
    if odbc in s && dsn !in s {
      var s1 := AddSubkey(s, odbc, name);
      AddSubkeyKeepsWellFormed(s, odbc, name);
      ChildOfChild(odbc, name);
      assert dsn in s1;
      if DuckdbDriverPath(s1).Ok? {
        var p := DuckdbDriverPath(s1).value;
        var s15 := SetValueAt(s1, dsn, DRIVER_SETTING_NAME, p);
        SetValueKeepsWellFormed(s1, dsn, DRIVER_SETTING_NAME, p);
        var s2 := SetValueAt(s15, dsn, DATABASE_SETTING_NAME, database);
        SetValueKeepsWellFormed(s15, dsn, DATABASE_SETTING_NAME, database);
        if listing in s2 {
          SetValueKeepsWellFormed(s2, listing, name, DRIVER_LISTING_LABEL);
        }
      }
    }
  }

  /**
    create_dsn does not roll back: when the driver is not registered the freshly created, empty subkey
    stays; when the listing key cannot be opened the subkey stays with both values written.
  */
  lemma CreateDsnNoRollback(s: State, t: DsnType, name: string, database: string)
    requires OdbcIni(t) in s && DsnKey(t, name) !in s
    ensures var e := CreateDsnEffect(s, t, name, database);
            && (DuckdbDriverPath(s).Err? ==>
                  e.result == Err(DuckdbDriverPath(s).error) && e.state == AddSubkey(s, OdbcIni(t), name)
                  && DsnKey(t, name) in e.state && e.state[DsnKey(t, name)] == EMPTY_KEY)
            && (DuckdbDriverPath(s).Ok? && ListingKey(t) !in s && name != DS_LISTING_SUBPATH ==>
                  e.result == Err(OpenError(ListingKey(t)))
                  && DsnKey(t, name) in e.state
                  && e.state[DsnKey(t, name)].values ==
                       [Value(DRIVER_SETTING_NAME, DuckdbDriverPath(s).value, true), Value(DATABASE_SETTING_NAME, database, true)])
  {
    AddSubkeyKeepsDriverPath(s, t, name);
    ChildOfChild(OdbcIni(t), name);
    if DuckdbDriverPath(s).Ok? && ListingKey(t) !in s && name != DS_LISTING_SUBPATH {
      ChildDistinct(OdbcIni(t), name, DS_LISTING_SUBPATH);
      InitialValues(AddSubkey(s, OdbcIni(t), name), DsnKey(t, name), DuckdbDriverPath(s).value, database);
    }
  }

  // ---------------------------------------------------------------------------------------------
  // delete_dsn

  /** delete_dsn fails, changing nothing, when ODBC.INI does not open or the DSN key is absent or has subkeys. */
  lemma DeleteDsnFailsOnMissingKey(s: State, t: DsnType, name: string)
    requires OdbcIni(t) !in s || DsnKey(t, name) !in s || s[DsnKey(t, name)].subkeys != []
    ensures DeleteDsnEffect(s, t, name).result.Err? && DeleteDsnEffect(s, t, name).state == s
  {
  }

  /**
    A successful delete_dsn removes the DSN key from ODBC.INI's subkeys and touches only ODBC.INI, that key
    and the listing key: ODBC.INI loses the subkey entries of that name, the listing key (which the DSN
    key cannot be) loses the name as by `RemoveValue`, and their other contents stay.
  */
  lemma DeleteDsnSuccessFrame(s: State, t: DsnType, name: string)
    requires DeleteDsnEffect(s, t, name).result.Ok?
    ensures var s' := DeleteDsnEffect(s, t, name).state;
            && OdbcIni(t) in s && OdbcIni(t) in s' && DsnKey(t, name) in s && DsnKey(t, name) !in s'
            && s'[OdbcIni(t)].subkeys == WithoutSubkey(s[OdbcIni(t)].subkeys, name)
            && SameExcept(s, s', {OdbcIni(t), DsnKey(t, name), ListingKey(t)})
    ensures var s' := DeleteDsnEffect(s, t, name).state;
            && OdbcIni(t) in s && OdbcIni(t) in s'
            && s'[OdbcIni(t)] == s[OdbcIni(t)].(subkeys := WithoutSubkey(s[OdbcIni(t)].subkeys, name))
            && name != DS_LISTING_SUBPATH
            && ListingKey(t) in s && ListingKey(t) in s'
            && s'[ListingKey(t)] == s[ListingKey(t)].(values := RemoveValue(s[ListingKey(t)].values, name))
  {
    ChildOfChild(OdbcIni(t), name);
    ChildOfChild(OdbcIni(t), DS_LISTING_SUBPATH);
  }

  /**
    After a successful delete_dsn the DSN key is gone and no longer listed under ODBC.INI, its listing
    value is gone, the store is still a tree and nothing else changed.
  */
  lemma DeleteDsnSuccess(s: State, t: DsnType, name: string)
    requires WellFormed(s)
    requires DeleteDsnEffect(s, t, name).result.Ok?
    ensures var s' := DeleteDsnEffect(s, t, name).state;
            && DsnKey(t, name) in s && DsnKey(t, name) !in s'
            && name != DS_LISTING_SUBPATH
            && s'[OdbcIni(t)].subkeys == WithoutSubkey(s[OdbcIni(t)].subkeys, name)
            && !HasSubkey(s'[OdbcIni(t)].subkeys, name)
            && ListingKey(t) in s' && FindValue(s'[ListingKey(t)].values, name).None?
            && SameExcept(s, s', {OdbcIni(t), DsnKey(t, name), ListingKey(t)})
            && WellFormed(s')
    ensures var s' := DeleteDsnEffect(s, t, name).state;
            && ListingKey(t) in s && ListingKey(t) in s'
            && forall v :: v in s'[ListingKey(t)].values <==> v in s[ListingKey(t)].values && v.name != name
  {
    var odbc, dsn, listing := OdbcIni(t), DsnKey(t, name), ListingKey(t);
    ChildOfChild(odbc, name);
    var s1 := RemoveSubkey(s, odbc, name);
    ChildDistinct(odbc, name, DS_LISTING_SUBPATH);
    RemoveSubkeyKeepsWellFormed(s, odbc, name);
    DeleteValueKeepsWellFormed(s1, listing, name);
    assert UniqueValueNames(s1[listing].values);
  }

  // ---------------------------------------------------------------------------------------------
  // set_dsn_value and delete_dsn_value

  lemma UpsertFindsNew(vs: seq<Value>, name: string, data: string)
    ensures FindValue(Upsert(vs, name, data), name) == Some(Value(name, data, true))
  {
    if vs != [] && vs[0].name != name {
      UpsertFindsNew(vs[1..], name, data);
    }
  }

  /** Setting a value twice overwrites in place: the second call's result is as if only it had been made. */
  lemma {:induction false} UpsertOverwrites(vs: seq<Value>, name: string, a: string, b: string)
    ensures Upsert(Upsert(vs, name, a), name, b) == Upsert(vs, name, b)
  {
    if vs != [] && vs[0].name != name {
      UpsertOverwrites(vs[1..], name, a, b);
    }
  }

  lemma {:induction false} ReadableSettingsUnique(vs: seq<Value>)
    requires UniqueValueNames(vs)
    ensures forall i, j :: 0 <= i < j < |ReadableSettings(vs)| ==> ReadableSettings(vs)[i].name != ReadableSettings(vs)[j].name
  {
    if vs != [] {
      UniqueValueTail(vs);
      ReadableSettingsUnique(vs[1..]);
      var rest := ReadableSettings(vs[1..]);
      if vs[0].readable {
        var h := RegistrySetting(vs[0].name, vs[0].data);
        assert ReadableSettings(vs) == [h] + rest;
        forall x | x in rest ensures x.name != h.name {
          assert Value(x.name, x.value, true) in vs[1..];
        }
        UniqueSettingCons(h, rest);
      } else {
        assert ReadableSettings(vs) == rest;
      }
    }
  }

  lemma UniqueSettingCons(h: RegistrySetting, rest: seq<RegistrySetting>)
    requires forall i, j :: 0 <= i < j < |rest| ==> rest[i].name != rest[j].name
    requires forall x :: x in rest ==> x.name != h.name
    ensures var r := [h] + rest;
            forall i, j :: 0 <= i < j < |r| ==> r[i].name != r[j].name
  {
    var r := [h] + rest;
    forall i, j | 0 <= i < j < |r| ensures r[i].name != r[j].name {
      assert r[j] == rest[j - 1];
      if i > 0 {
        assert r[i] == rest[i - 1];
      }
    }
  }

  /**
    set_dsn_value succeeds exactly when the DSN key opens; afterwards a listing of that key shows exactly
    one entry of that name, carrying the new value, every other readable value is still listed and
    nothing else is. On failure the store is unchanged.
  */
  lemma SetDsnValueThenList(s: State, t: DsnType, dsnName: string, stName: string, value: string)
    requires DsnKey(t, dsnName) in s ==> UniqueValueNames(s[DsnKey(t, dsnName)].values)
    ensures SetDsnValueEffect(s, t, dsnName, stName, value).result.Ok? <==> DsnKey(t, dsnName) in s
    ensures var e := SetDsnValueEffect(s, t, dsnName, stName, value);
            e.result.Ok? ==>
              && SameExcept(s, e.state, {DsnKey(t, dsnName)})
              && var ls := ListValues(e.state, RootOf(t), ODBC_INI_SUBPATH + [dsnName]);
                 && ls.Ok?
                 && RegistrySetting(stName, value) in ls.value
                 && (forall i, j :: (0 <= i < |ls.value| && 0 <= j < |ls.value| &&
                                     ls.value[i].name == stName && ls.value[j].name == stName) ==> i == j)
                 && (forall rs :: rs in ListValues(s, RootOf(t), ODBC_INI_SUBPATH + [dsnName]).value && rs.name != stName
                                  ==> rs in ls.value)
                 && (forall rs :: rs in ls.value ==>
                                  rs == RegistrySetting(stName, value)
                                  || rs in ListValues(s, RootOf(t), ODBC_INI_SUBPATH + [dsnName]).value)
    ensures var e := SetDsnValueEffect(s, t, dsnName, stName, value);
            e.result.Err? ==> e.state == s
  {
    var dsn := DsnKey(t, dsnName);
    if dsn in s {
      var s' := SetValueAt(s, dsn, stName, value);
      var vs' := Upsert(s[dsn].values, stName, value);
      assert s'[dsn].values == vs';
      UpsertKeepsUnique(s[dsn].values, stName, value);
      ReadableSettingsUnique(vs');
    }
  }

  /** set_dsn_value leaves the store a tree. */
  lemma SetDsnValueKeepsWellFormed(s: State, t: DsnType, dsnName: string, stName: string, value: string)
    requires WellFormed(s)
    ensures WellFormed(SetDsnValueEffect(s, t, dsnName, stName, value).state)
  {
    if DsnKey(t, dsnName) in s {
      SetValueKeepsWellFormed(s, DsnKey(t, dsnName), stName, value);
    }
  }

  /** Calling set_dsn_value again with another value overwrites rather than duplicates. */
  lemma SetDsnValueTwice(s: State, t: DsnType, dsnName: string, stName: string, a: string, b: string)
    ensures var e1 := SetDsnValueEffect(s, t, dsnName, stName, a);
            SetDsnValueEffect(e1.state, t, dsnName, stName, b) == SetDsnValueEffect(s, t, dsnName, stName, b)
  {
    var dsn := DsnKey(t, dsnName);
    if dsn in s {
      UpsertOverwrites(s[dsn].values, stName, a, b);
      var s1 := SetValueAt(s, dsn, stName, a);
      assert SetValueAt(s1, dsn, stName, b) == SetValueAt(s, dsn, stName, b);
    }
  }

  /**
    delete_dsn_value fails, changing nothing, when the DSN key does not open or has no value of that name;
    otherwise it removes exactly that value and everything else stays.
  */
  lemma DeleteDsnValueExact(s: State, t: DsnType, dsnName: string, stName: string)
    requires WellFormed(s)
    ensures var e := DeleteDsnValueEffect(s, t, dsnName, stName);
            && (e.result.Ok? <==> DsnKey(t, dsnName) in s && exists v :: v in s[DsnKey(t, dsnName)].values && v.name == stName)
            && (e.result.Err? ==> e.state == s)
            && (e.result.Ok? ==>
                  && WellFormed(e.state)
                  && SameExcept(s, e.state, {DsnKey(t, dsnName)})
                  && (forall v :: v in e.state[DsnKey(t, dsnName)].values <==>
                                  v in s[DsnKey(t, dsnName)].values && v.name != stName))
  {
    var dsn := DsnKey(t, dsnName);
    if dsn in s && FindValue(s[dsn].values, stName).Some? {
      DeleteValueKeepsWellFormed(s, dsn, stName);
    }
  }
}
