/**
  The registry-backed DSN store.

  The Windows registry is modelled as an in-memory store: a map from a key's location (one of the two
  roots and a path of key names below it) to the key's contents, an ordered list of named string values
  and an ordered list of subkey entries. The list orders are the enumeration orders. An entry whose
  `readable` flag is false is one whose enumeration reports an error. A key that is absent from the map
  cannot be opened.
*/
module Registry {
  import opened Errors

  type Path = seq<string>

  const ODBC_INI_SUBPATH: Path := ["SOFTWARE", "ODBC", "ODBC.INI"]
  const DRIVER_KEY_PATH: Path := ["SOFTWARE", "ODBC", "ODBCINST.INI", "DuckDB Driver"]
  const DRIVER_SETTING_NAME: string := "Driver"
  const DATABASE_SETTING_NAME: string := "database"
  const DS_LISTING_SUBPATH: string := "ODBC Data Sources"
  const DRIVER_LISTING_LABEL: string := "DuckDB Driver"

  /** A name/value pair read from a DSN key. */
  datatype RegistrySetting = RegistrySetting(name: string, value: string)

  datatype DsnType = USER | SYSTEM

  /** A DSN snapshot as produced by discovery. */
  datatype RegistryDsn = RegistryDsn(name: string, dsn_type: DsnType, settings: seq<RegistrySetting>)

  datatype Root = HKLM | HKCU

  /** The scope whose DSNs live under a root: discovery types HKLM entries SYSTEM and HKCU entries USER. */
  function TypeOf(root: Root): DsnType {
    match root
    case HKLM => SYSTEM
    case HKCU => USER
  }

  /** The root every mutation opens for a scope; it is the inverse of the discovery's typing. */
  function RootOf(t: DsnType): (r: Root)
    ensures TypeOf(r) == t
    ensures forall root :: TypeOf(root) == t ==> root == r
  {
    match t
    case USER => HKCU
    case SYSTEM => HKLM
  }

  function RootLabel(r: Root): string {
    match r
    case HKLM => "HKLM"
    case HKCU => "HKCU"
  }

  /** One value of a key. `readable` is false when enumerating or reading it reports an error. */
  datatype Value = Value(name: string, data: string, readable: bool)

  /** One subkey entry of a key, in enumeration order. */
  datatype Subkey = Subkey(name: string, readable: bool)

  datatype KeyData = KeyData(values: seq<Value>, subkeys: seq<Subkey>)

  datatype Location = Location(root: Root, path: Path)

  type State = map<Location, KeyData>

  const EMPTY_KEY := KeyData([], [])

  function Child(l: Location, name: string): Location {
    Location(l.root, l.path + [name])
  }

  function Parent(l: Location): Location
    requires l.path != []
  {
    Location(l.root, l.path[..|l.path| - 1])
  }

  function Last(l: Location): string
    requires l.path != []
  {
    l.path[|l.path| - 1]
  }

  function JoinPath(p: Path): string {
    if p == [] then "" else if |p| == 1 then p[0] else p[0] + "\\" + JoinPath(p[1..])
  }

  function OpenError(l: Location): ConfigError {
    ConfigError("Cannot open registry key, path: '" + RootLabel(l.root) + "\\" + JoinPath(l.path) + "'")
  }

  function DeleteKeyError(name: string): ConfigError {
    ConfigError("Cannot delete registry key: " + name)
  }

  function DeleteValueError(name: string): ConfigError {
    ConfigError("Cannot delete registry value: " + name)
  }

  function AlreadyExist(name: string): ConfigError {
    ConfigError("Data source already exist, name: " + name)
  }

  predicate HasSubkey(ks: seq<Subkey>, name: string) {
    exists k :: k in ks && k.name == name
  }

  predicate UniqueValueNames(vs: seq<Value>) {
    forall i, j :: 0 <= i < j < |vs| ==> vs[i].name != vs[j].name
  }

  predicate UniqueSubkeyNames(ks: seq<Subkey>) {
    forall i, j :: 0 <= i < j < |ks| ==> ks[i].name != ks[j].name
  }

  /**
    The store is a tree: both roots exist, every subkey entry names an existing key, every non-root key
    is listed by its parent, and names are unique among a key's values and among its subkeys.
  */
  ghost predicate WellFormed(s: State) {
    && Location(HKLM, []) in s
    && Location(HKCU, []) in s
    && ChildrenExist(s)
    && ParentsList(s)
    && NamesUnique(s)
  }

  ghost predicate ChildrenExist(s: State) {
    forall l, k :: l in s && k in s[l].subkeys ==> Child(l, k.name) in s
  }

  ghost predicate ParentsList(s: State) {
    forall l {:trigger Parent(l)} :: l in s && l.path != [] ==> Parent(l) in s && HasSubkey(s[Parent(l)].subkeys, Last(l))
  }

  ghost predicate NamesUnique(s: State) {
    forall l :: l in s ==> UniqueValueNames(s[l].values) && UniqueSubkeyNames(s[l].subkeys)
  }

  // ---------------------------------------------------------------------------------------------
  // Reading

  /** The first value of that name. */
  function FindValue(vs: seq<Value>, name: string): (r: Option<Value>)
    ensures r.Some? ==> r.value in vs && r.value.name == name
    ensures r.None? <==> forall v :: v in vs ==> v.name != name
  {
    if vs == [] then None
    else if vs[0].name == name then Some(vs[0])
    else FindValue(vs[1..], name)
  }

  /** Opening a key succeeds exactly when the key exists; the handle is its location. */
  function OpenKey(s: State, root: Root, path: Path): (r: Result<Location>)
    ensures r.Ok? <==> Location(root, path) in s
    ensures r.Ok? ==> r.value == Location(root, path)
    ensures r.Err? ==> r.error == OpenError(Location(root, path))
  {
    var l := Location(root, path);
    if l in s then Ok(l) else Err(OpenError(l))
  }

  /** The names of the readable subkey entries, in enumeration order. */
  function ReadableNames(ks: seq<Subkey>): (r: seq<string>)
    ensures |r| <= |ks|
    ensures forall n :: n in r <==> exists k :: k in ks && k.readable && k.name == n
  {
    if ks == [] then []
    else (if ks[0].readable then [ks[0].name] else []) + ReadableNames(ks[1..])
  }

  /** The readable values as name/value pairs, in enumeration order. */
  function ReadableSettings(vs: seq<Value>): (r: seq<RegistrySetting>)
    ensures |r| <= |vs|
    ensures forall rs :: rs in r <==> Value(rs.name, rs.value, true) in vs
  {
    if vs == [] then []
    else (if vs[0].readable then [RegistrySetting(vs[0].name, vs[0].data)] else []) + ReadableSettings(vs[1..])
  }

  /** Enumerates the subkey names of a key: fails if the key cannot be opened, skips unreadable entries. */
  function ListSubkeys(s: State, root: Root, path: Path): Result<seq<string>> {
    var l :- OpenKey(s, root, path);
    Ok(ReadableNames(s[l].subkeys))
  }

  /** Enumerates the values of a key: fails if the key cannot be opened, skips unreadable entries. */
  function ListValues(s: State, root: Root, path: Path): Result<seq<RegistrySetting>> {
    var l :- OpenKey(s, root, path);
    Ok(ReadableSettings(s[l].values))
  }

  /** The installed driver's path: the `Driver` value of the driver registration key under HKLM. */
  function DuckdbDriverPath(s: State): (r: Result<string>)
    ensures r.Ok? ==> Location(HKLM, DRIVER_KEY_PATH) in s
                      && Value(DRIVER_SETTING_NAME, r.value, true) in s[Location(HKLM, DRIVER_KEY_PATH)].values
    ensures r.Err? && Location(HKLM, DRIVER_KEY_PATH) in s && UniqueValueNames(s[Location(HKLM, DRIVER_KEY_PATH)].values)
            ==> forall v :: v in s[Location(HKLM, DRIVER_KEY_PATH)].values && v.name == DRIVER_SETTING_NAME ==> !v.readable
  {
    var l := Location(HKLM, DRIVER_KEY_PATH);
    if l !in s then
      Err(ConfigError("DuckDB Driver not found in registry, path: 'HKLM\\" + JoinPath(DRIVER_KEY_PATH) + "'"))
    else
      match FindValue(s[l].values, DRIVER_SETTING_NAME)
      case Some(v) =>
        if v.readable then Ok(v.data)
        else Err(ConfigError("Error reading the 'Driver' value from registry key: 'HKLM\\" + JoinPath(DRIVER_KEY_PATH) + "'"))
      case None =>
        Err(ConfigError("Error reading the 'Driver' value from registry key: 'HKLM\\" + JoinPath(DRIVER_KEY_PATH) + "'"))
  }

  // ---------------------------------------------------------------------------------------------
  // Primitive updates (the registry API the store is written against)

  /** Sets a value: overwrites the value of that name in place, or appends a new one. */
  function Upsert(vs: seq<Value>, name: string, data: string): (r: seq<Value>)
    ensures Value(name, data, true) in r
    ensures forall v :: v in r ==> v == Value(name, data, true) || v in vs
    ensures forall v :: v in vs && v.name != name ==> v in r
  {
    if vs == [] then [Value(name, data, true)]
    else if vs[0].name == name then [Value(name, data, true)] + vs[1..]
    else [vs[0]] + Upsert(vs[1..], name, data)
  }

  /** Removes the first value of that name. */
  function RemoveValue(vs: seq<Value>, name: string): (r: seq<Value>)
    ensures forall v :: v in r ==> v in vs
    ensures UniqueValueNames(vs) ==> forall v :: v in r <==> v in vs && v.name != name
  {
    if vs == [] then []
    else if vs[0].name == name then vs[1..]
    else [vs[0]] + RemoveValue(vs[1..], name)
  }

  /** Removes every subkey entry of that name. */
  function WithoutSubkey(ks: seq<Subkey>, name: string): (r: seq<Subkey>)
    ensures forall k :: k in r <==> k in ks && k.name != name
  {
    if ks == [] then []
    else (if ks[0].name == name then [] else [ks[0]]) + WithoutSubkey(ks[1..], name)
  }

  /** Creating a subkey opens it when it already exists, and otherwise adds an empty key listed last. */
  function AddSubkey(s: State, parent: Location, name: string): State
    requires parent in s
  {
    var c := Child(parent, name);
    if c in s then s
    else s[parent := s[parent].(subkeys := s[parent].subkeys + [Subkey(name, true)])][c := EMPTY_KEY]
  }

  function SetValueAt(s: State, l: Location, name: string, data: string): State
    requires l in s
  {
    s[l := s[l].(values := Upsert(s[l].values, name, data))]
  }

  function DeleteValueAt(s: State, l: Location, name: string): State
    requires l in s
  {
    s[l := s[l].(values := RemoveValue(s[l].values, name))]
  }

  function RemoveSubkey(s: State, parent: Location, name: string): State
    requires parent in s
  {
    (s - {Child(parent, name)})[parent := s[parent].(subkeys := WithoutSubkey(s[parent].subkeys, name))]
  }

  // ---------------------------------------------------------------------------------------------
  // The DSN operations as functions of the store: the result and the store afterwards

  datatype Effect = Effect(result: Result<()>, state: State)

  /**
    create_dsn: open ODBC.INI, reject an existing subkey of that name, create the subkey, resolve the
    driver path, write `Driver` and `database`, then list the name in `ODBC Data Sources`. Nothing is
    rolled back when a later step fails.
  */
  function CreateDsnEffect(s: State, t: DsnType, name: string, database: string): Effect {
    var odbc := Location(RootOf(t), ODBC_INI_SUBPATH);
    var dsn := Child(odbc, name);
    var listing := Child(odbc, DS_LISTING_SUBPATH);
    if odbc !in s then Effect(Err(OpenError(odbc)), s)
    else if dsn in s then Effect(Err(AlreadyExist(name)), s)
    else
      var s1 := AddSubkey(s, odbc, name);
      match DuckdbDriverPath(s1)
      case Err(e) => Effect(Err(e), s1)
      case Ok(driverPath) =>
        var s2 := SetValueAt(SetValueAt(s1, dsn, DRIVER_SETTING_NAME, driverPath), dsn, DATABASE_SETTING_NAME, database);
        if listing !in s2 then Effect(Err(OpenError(listing)), s2)
        else Effect(Ok(()), SetValueAt(s2, listing, name, DRIVER_LISTING_LABEL))
  }

  /** delete_dsn: delete the DSN subkey (it must exist and have no subkeys), then its listing value. */
  function DeleteDsnEffect(s: State, t: DsnType, name: string): Effect {
    var odbc := Location(RootOf(t), ODBC_INI_SUBPATH);
    var dsn := Child(odbc, name);
    var listing := Child(odbc, DS_LISTING_SUBPATH);
    if odbc !in s then Effect(Err(OpenError(odbc)), s)
    else if dsn !in s || s[dsn].subkeys != [] then Effect(Err(DeleteKeyError(name)), s)
    else
      var s1 := RemoveSubkey(s, odbc, name);
      if listing !in s1 then Effect(Err(OpenError(listing)), s1)
      else if FindValue(s1[listing].values, name).None? then Effect(Err(DeleteValueError(name)), s1)
      else Effect(Ok(()), DeleteValueAt(s1, listing, name))
  }

  /** set_dsn_value: open the DSN key and set one value. */
  function SetDsnValueEffect(s: State, t: DsnType, dsnName: string, stName: string, value: string): Effect {
    var dsn := Location(RootOf(t), ODBC_INI_SUBPATH + [dsnName]);
    if dsn !in s then Effect(Err(OpenError(dsn)), s)
    else Effect(Ok(()), SetValueAt(s, dsn, stName, value))
  }

  /** delete_dsn_value: open the DSN key and delete one value, which must exist. */
  function DeleteDsnValueEffect(s: State, t: DsnType, dsnName: string, stName: string): Effect {
    var dsn := Location(RootOf(t), ODBC_INI_SUBPATH + [dsnName]);
    if dsn !in s then Effect(Err(OpenError(dsn)), s)
    else if FindValue(s[dsn].values, stName).None? then Effect(Err(DeleteValueError(stName)), s)
    else Effect(Ok(()), DeleteValueAt(s, dsn, stName))
  }

  // ---------------------------------------------------------------------------------------------
  // The tree invariant is kept by every primitive update

  lemma ChildParent(l: Location)
    requires l.path != []
    ensures Child(Parent(l), Last(l)) == l
  {
    assert Parent(l).path + [Last(l)] == l.path;
  }

  lemma ChildOfChild(l: Location, name: string)
    ensures Child(l, name).path != [] && Parent(Child(l, name)) == l && Last(Child(l, name)) == name
  {
    assert (l.path + [name])[..|l.path|] == l.path;
  }

  lemma ChildInjective(a: Location, x: string, b: Location, y: string)
    requires Child(a, x) == Child(b, y)
    ensures a == b && x == y
  {
    ChildOfChild(a, x);
    ChildOfChild(b, y);
  }

  lemma ChildDistinct(l: Location, x: string, y: string)
    requires x != y
    ensures Child(l, x) != Child(l, y)
  {
    ChildOfChild(l, x);
    ChildOfChild(l, y);
  }

  lemma UniqueValueCons(x: Value, rest: seq<Value>)
    requires UniqueValueNames(rest)
    requires forall v :: v in rest ==> v.name != x.name
    ensures UniqueValueNames([x] + rest)
  {
    var r := [x] + rest;
    forall i, j | 0 <= i < j < |r| ensures r[i].name != r[j].name {
      assert r[j] == rest[j - 1];
      if i > 0 {
        assert r[i] == rest[i - 1];
      }
    }
  }

  lemma UniqueValueTail(vs: seq<Value>)
    requires vs != [] && UniqueValueNames(vs)
    ensures UniqueValueNames(vs[1..])
    ensures forall v :: v in vs[1..] ==> v.name != vs[0].name
  {
    forall v | v in vs[1..] ensures v.name != vs[0].name {
      var m :| 0 <= m < |vs[1..]| && vs[1..][m] == v;
      assert vs[m + 1] == v;
    }
    forall i, j | 0 <= i < j < |vs[1..]| ensures vs[1..][i].name != vs[1..][j].name {
      assert vs[1..][i] == vs[i + 1] && vs[1..][j] == vs[j + 1];
    }
  }

  lemma UniqueSubkeyCons(x: Subkey, rest: seq<Subkey>)
    requires UniqueSubkeyNames(rest)
    requires forall k :: k in rest ==> k.name != x.name
    ensures UniqueSubkeyNames([x] + rest)
  {
    var r := [x] + rest;
    forall i, j | 0 <= i < j < |r| ensures r[i].name != r[j].name {
      assert r[j] == rest[j - 1];
      if i > 0 {
        assert r[i] == rest[i - 1];
      }
    }
  }

  lemma UniqueSubkeyTail(ks: seq<Subkey>)
    requires ks != [] && UniqueSubkeyNames(ks)
    ensures UniqueSubkeyNames(ks[1..])
    ensures forall k :: k in ks[1..] ==> k.name != ks[0].name
  {
    forall k | k in ks[1..] ensures k.name != ks[0].name {
      var m :| 0 <= m < |ks[1..]| && ks[1..][m] == k;
      assert ks[m + 1] == k;
    }
    forall i, j | 0 <= i < j < |ks[1..]| ensures ks[1..][i].name != ks[1..][j].name {
      assert ks[1..][i] == ks[i + 1] && ks[1..][j] == ks[j + 1];
    }
  }

  lemma UpsertKeepsUnique(vs: seq<Value>, name: string, data: string)
    requires UniqueValueNames(vs)
    ensures UniqueValueNames(Upsert(vs, name, data))
  {
    if vs != [] {
      UniqueValueTail(vs);
      if vs[0].name == name {
        UniqueValueCons(Value(name, data, true), vs[1..]);
      } else {
        UpsertKeepsUnique(vs[1..], name, data);
        UniqueValueCons(vs[0], Upsert(vs[1..], name, data));
      }
    }
  }

  lemma RemoveValueKeepsUnique(vs: seq<Value>, name: string)
    requires UniqueValueNames(vs)
    ensures UniqueValueNames(RemoveValue(vs, name))
  {
    if vs != [] {
      UniqueValueTail(vs);
      if vs[0].name != name {
        RemoveValueKeepsUnique(vs[1..], name);
        UniqueValueCons(vs[0], RemoveValue(vs[1..], name));
      }
    }
  }

  lemma WithoutSubkeyKeepsUnique(ks: seq<Subkey>, name: string)
    requires UniqueSubkeyNames(ks)
    ensures UniqueSubkeyNames(WithoutSubkey(ks, name))
  {
    if ks != [] {
      UniqueSubkeyTail(ks);
      WithoutSubkeyKeepsUnique(ks[1..], name);
      if ks[0].name != name {
        UniqueSubkeyCons(ks[0], WithoutSubkey(ks[1..], name));
      } else {
        assert WithoutSubkey(ks, name) == WithoutSubkey(ks[1..], name);
      }
    }
  }

  lemma AddSubkeyKeepsWellFormed(s: State, parent: Location, name: string)
    requires WellFormed(s) && parent in s
    ensures WellFormed(AddSubkey(s, parent, name))
  {
    var c := Child(parent, name);
    if c !in s {
      ChildOfChild(parent, name);
      AddSubkeyChildrenExist(s, parent, name);
      AddSubkeyParentsList(s, parent, name);
      AddSubkeyNamesUnique(s, parent, name);
    }
  }

  lemma AddSubkeyChildrenExist(s: State, parent: Location, name: string)
    requires ChildrenExist(s) && parent in s && Child(parent, name) !in s
    ensures ChildrenExist(AddSubkey(s, parent, name))
  {
    var s' := AddSubkey(s, parent, name);
    forall l, k | l in s' && k in s'[l].subkeys ensures Child(l, k.name) in s' {
      if l == parent {
        assert k in s[parent].subkeys || k == Subkey(name, true);
      } else if l != Child(parent, name) {
        assert k in s[l].subkeys;
      }
    }
  }

  lemma AddSubkeyParentsList(s: State, parent: Location, name: string)
    requires ParentsList(s) && parent in s && Child(parent, name) !in s
    ensures ParentsList(AddSubkey(s, parent, name))
  {
    var c := Child(parent, name);
    var s' := AddSubkey(s, parent, name);
    ChildOfChild(parent, name);
    forall l | l in s' && l.path != [] ensures Parent(l) in s' && HasSubkey(s'[Parent(l)].subkeys, Last(l)) {
      if l == c {
        assert s'[parent].subkeys[|s'[parent].subkeys| - 1] == Subkey(name, true);
      } else {
        assert l in s;
        var k :| k in s[Parent(l)].subkeys && k.name == Last(l);
        assert Parent(l) != c;
        assert k in s'[Parent(l)].subkeys;
      }
    }
  }

  lemma AddSubkeyNamesUnique(s: State, parent: Location, name: string)
    requires ChildrenExist(s) && NamesUnique(s) && parent in s && Child(parent, name) !in s
    ensures NamesUnique(AddSubkey(s, parent, name))
  {
    var ks := s[parent].subkeys;
    var ks' := ks + [Subkey(name, true)];
    forall i, j | 0 <= i < j < |ks'| ensures ks'[i].name != ks'[j].name {
      if j == |ks| {
        assert ks[i] in ks;
      } else {
        assert ks'[i] == ks[i] && ks'[j] == ks[j];
      }
    }
    assert UniqueSubkeyNames(ks');
  }

  lemma SetValueKeepsWellFormed(s: State, l: Location, name: string, data: string)
    requires WellFormed(s) && l in s
    ensures WellFormed(SetValueAt(s, l, name, data))
  {
    UpsertKeepsUnique(s[l].values, name, data);
    var s' := SetValueAt(s, l, name, data);
    forall m | m in s' ensures s'[m].subkeys == s[m].subkeys { }
  }

  lemma DeleteValueKeepsWellFormed(s: State, l: Location, name: string)
    requires WellFormed(s) && l in s
    ensures WellFormed(DeleteValueAt(s, l, name))
  {
    RemoveValueKeepsUnique(s[l].values, name);
    var s' := DeleteValueAt(s, l, name);
    forall m | m in s' ensures s'[m].subkeys == s[m].subkeys { }
  }

  lemma RemoveSubkeyKeepsWellFormed(s: State, parent: Location, name: string)
    requires WellFormed(s) && parent in s
    requires Child(parent, name) in s && s[Child(parent, name)].subkeys == []
    ensures WellFormed(RemoveSubkey(s, parent, name))
  {
    ChildOfChild(parent, name);
    RemoveSubkeyChildrenExist(s, parent, name);
    RemoveSubkeyParentsList(s, parent, name);
    WithoutSubkeyKeepsUnique(s[parent].subkeys, name);
  }

  lemma RemoveSubkeyChildrenExist(s: State, parent: Location, name: string)
    requires ChildrenExist(s) && parent in s && Child(parent, name) in s
    ensures ChildrenExist(RemoveSubkey(s, parent, name))
  {
    var c := Child(parent, name);
    var s' := RemoveSubkey(s, parent, name);
    ChildOfChild(parent, name);
    forall l, k | l in s' && k in s'[l].subkeys ensures Child(l, k.name) in s' {
      assert l in s && l != c;
      if l == parent {
        assert k in s[parent].subkeys && k.name != name;
      } else {
        assert k in s[l].subkeys;
      }
      if Child(l, k.name) == c {
        ChildInjective(l, k.name, parent, name);
      }
    }
  }

  lemma RemoveSubkeyParentsList(s: State, parent: Location, name: string)
    requires ParentsList(s) && parent in s
    requires Child(parent, name) in s && s[Child(parent, name)].subkeys == []
    ensures ParentsList(RemoveSubkey(s, parent, name))
  {
    var c := Child(parent, name);
    var s' := RemoveSubkey(s, parent, name);
    ChildOfChild(parent, name);
    forall l | l in s' && l.path != [] ensures Parent(l) in s' && HasSubkey(s'[Parent(l)].subkeys, Last(l)) {
      assert l in s && l != c;
      var k :| k in s[Parent(l)].subkeys && k.name == Last(l);
      assert Parent(l) != c;
      if Parent(l) == parent {
        ChildParent(l);
        assert k in s'[Parent(l)].subkeys;
      } else {
        assert k in s'[Parent(l)].subkeys;
      }
    }
  }

  // ---------------------------------------------------------------------------------------------
  // The store as an object whose methods update it step by step

  class RegistryStore {
    var keys: State

    ghost predicate Valid()
      reads this
    {
      WellFormed(keys)
    }

    constructor (initial: State)
      requires WellFormed(initial)
      ensures Valid() && keys == initial
    {
      keys := initial;
    }

    /** RegKey::create_subkey */
    method CreateSubkey(parent: Location, name: string)
      requires Valid() && parent in keys
      modifies this
      ensures Valid() && keys == AddSubkey(old(keys), parent, name)
    {
      AddSubkeyKeepsWellFormed(keys, parent, name);
      var c := Child(parent, name);
      if c !in keys {
        var pk := keys[parent];
        keys := keys[parent := pk.(subkeys := pk.subkeys + [Subkey(name, true)])];
        keys := keys[c := EMPTY_KEY];
      }
    }

    /** RegKey::set_value */
    method SetValue(l: Location, name: string, data: string)
      requires Valid() && l in keys
      modifies this
      ensures Valid() && keys == SetValueAt(old(keys), l, name, data)
    {
      SetValueKeepsWellFormed(keys, l, name, data);
      keys := keys[l := keys[l].(values := Upsert(keys[l].values, name, data))];
    }

    /** RegKey::delete_value: fails when there is no value of that name. */
    method DeleteValue(l: Location, name: string) returns (r: Result<()>)
      requires Valid() && l in keys
      modifies this
      ensures Valid()
      ensures r == if FindValue(old(keys)[l].values, name).Some? then Ok(()) else Err(DeleteValueError(name))
      ensures keys == if r.Ok? then DeleteValueAt(old(keys), l, name) else old(keys)
    {
      if FindValue(keys[l].values, name).None? {
        return Err(DeleteValueError(name));
      }
      DeleteValueKeepsWellFormed(keys, l, name);
      keys := keys[l := keys[l].(values := RemoveValue(keys[l].values, name))];
      r := Ok(());
    }

    /** RegKey::delete_subkey: fails when the subkey is absent or has subkeys of its own. */
    method DeleteSubkey(parent: Location, name: string) returns (r: Result<()>)
      requires Valid() && parent in keys
      modifies this
      ensures Valid()
      ensures r == if Child(parent, name) in old(keys) && old(keys)[Child(parent, name)].subkeys == []
                   then Ok(()) else Err(DeleteKeyError(name))
      ensures keys == if r.Ok? then RemoveSubkey(old(keys), parent, name) else old(keys)
    {
      var c := Child(parent, name);
      if c !in keys || keys[c].subkeys != [] {
        return Err(DeleteKeyError(name));
      }
      RemoveSubkeyKeepsWellFormed(keys, parent, name);
      var pk := keys[parent];
      keys := keys - {c};
      keys := keys[parent := pk.(subkeys := WithoutSubkey(pk.subkeys, name))];
      r := Ok(());
    }

    /** create_dsn */
    method CreateDsn(t: DsnType, name: string, database: string) returns (r: Result<()>)
      requires Valid()
      modifies this
      ensures Valid()
      ensures Effect(r, keys) == CreateDsnEffect(old(keys), t, name, database)
    {
      var root := RootOf(t);
      var odbcIni := OpenKey(keys, root, ODBC_INI_SUBPATH);
      if odbcIni.Err? {
        return Err(odbcIni.error);
      }
      var odbc := odbcIni.value;
      if OpenKey(keys, root, ODBC_INI_SUBPATH + [name]).Ok? {
        return Err(AlreadyExist(name));
      }
      CreateSubkey(odbc, name);
      var dsnKey := Child(odbc, name);
      var driverPath := DuckdbDriverPath(keys);
      if driverPath.Err? {
        return Err(driverPath.error);
      }
      SetValue(dsnKey, DRIVER_SETTING_NAME, driverPath.value);
      SetValue(dsnKey, DATABASE_SETTING_NAME, database);
      var listingKey := OpenKey(keys, root, ODBC_INI_SUBPATH + [DS_LISTING_SUBPATH]);
      if listingKey.Err? {
        return Err(listingKey.error);
      }
      SetValue(listingKey.value, name, DRIVER_LISTING_LABEL);
      r := Ok(());
    }

    /** delete_dsn */
    method DeleteDsn(t: DsnType, name: string) returns (r: Result<()>)
      requires Valid()
      modifies this
      ensures Valid()
      ensures Effect(r, keys) == DeleteDsnEffect(old(keys), t, name)
    {
      var root := RootOf(t);
      var odbcIni := OpenKey(keys, root, ODBC_INI_SUBPATH);
      if odbcIni.Err? {
        return Err(odbcIni.error);
      }
      var deleted := DeleteSubkey(odbcIni.value, name);
      if deleted.Err? {
        return deleted;
      }
      var listingKey := OpenKey(keys, root, ODBC_INI_SUBPATH + [DS_LISTING_SUBPATH]);
      if listingKey.Err? {
        return Err(listingKey.error);
      }
      r := DeleteValue(listingKey.value, name);
    }

    /** set_dsn_value */
    method SetDsnValue(t: DsnType, dsnName: string, stName: string, value: string) returns (r: Result<()>)
      requires Valid()
      modifies this
      ensures Valid()
      ensures Effect(r, keys) == SetDsnValueEffect(old(keys), t, dsnName, stName, value)
    {
      var dsnKey := OpenKey(keys, RootOf(t), ODBC_INI_SUBPATH + [dsnName]);
      if dsnKey.Err? {
        return Err(dsnKey.error);
      }
      SetValue(dsnKey.value, stName, value);
      r := Ok(());
    }

    /** delete_dsn_value */
    method DeleteDsnValue(t: DsnType, dsnName: string, stName: string) returns (r: Result<()>)
      requires Valid()
      modifies this
      ensures Valid()
      ensures Effect(r, keys) == DeleteDsnValueEffect(old(keys), t, dsnName, stName)
    {
      var dsnKey := OpenKey(keys, RootOf(t), ODBC_INI_SUBPATH + [dsnName]);
      if dsnKey.Err? {
        return Err(dsnKey.error);
      }
      r := DeleteValue(dsnKey.value, stName);
    }
  }
}
