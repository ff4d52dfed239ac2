# duckdb-odbc-config: the DSN store and the settings logic

duckdb-odbc-config is a Windows GUI for the ODBC Data Source Names (DSNs) that the DuckDB ODBC driver uses.
DSNs live in the Windows registry: under `SOFTWARE\ODBC\ODBC.INI` of HKLM for SYSTEM DSNs and of HKCU
for USER DSNs. Each DSN is registered in the `ODBC Data Sources` listing key. Its `Driver` value points at
the path the driver key `SOFTWARE\ODBC\ODBCINST.INI\DuckDB Driver` of HKLM records.

This project models the non-graphical core of the program and proves properties of it:

- **Registry access** (`registry.dfy`, `registry_properties.dfy`). The registry is a `RegistryStore` class
  whose single field maps key locations to their ordered values and subkey entries. A key that cannot be
  opened is absent. An entry that cannot be enumerated is marked unreadable.
  - `create_dsn`, `delete_dsn`, `set_dsn_value` and `delete_dsn_value` are methods. Each one takes the
    winreg steps of the source in order: create key, set value, delete key, delete value.
  - Each method is proved equal to a pure effect function, which gives the result and the new state.
  - The properties are lemmas about those effect functions.
- **DSN discovery** (`load_dsns_dialog.dfy`, `discovery_properties.dfy`).
  - `load_dsns_from_registry` is a method carrying the source's two loops. It is proved equal to the pure
    function `Discover`.
  - `Discover` is proved to be:
    - sound: every record uses the driver and carries exactly its key's values;
    - complete: every DuckDB key is found;
    - ordered: SYSTEM records come first, and each group keeps enumeration order;
    - abort-on-error.
  - It is also related to the registry mutations.
  - The load dialog's result handling is modelled as a class.
- **The settings table** (`settings_table.dfy`, `settings_sort.dfy`, `wildmatch.dfy`, `app_window.dfy`).
  - The main window is a class holding the loaded DSNs, the DSN combo, the settings list, the filter, the
    table rows and the column sort arrows.
  - The merge loop of `on_dsn_changed` and the remove/insert loops of `reload_settings_view` and
    `reload_dsns_combo` are modelled as they are written. Each is proved against a specification function:
    - `MergeAll` has a closed form. It gives catalog entries updated in place, then the appended extras.
    - `Rows` is the filtered rows in list order.
    - `SortSettings` is a stable sort, proved sorted, a permutation and stable.
- **The dialogs** (`add_dsn_dialog.dfy`, `setting_dialog.dfy`). Each dialog is a class whose fields
  stand for the widget states it reads and writes. Typing or picking in a widget that has no handler
  is a method of its own (`TypeDbPath`, `SelectType`, `TypeValue`, and `TypeFilter` in the main window)
  that changes only that widget's field.
  - The Add Data Source dialog covers the Save rules, the `:memory:` substitution and the type choice.
  - The Change Setting dialog covers the initial enable/readonly rules, value trimming, the checkbox text
    and the confirmed delete.
- **Records** (`duckdb_setting.dfy`, `load_dsns_result.dfy`, `errors.dfy`).

Strings are `seq<char>`. A registry value is modelled by its string form.

## Model

| member | source | states |
|---|---|---|
| Registry.RootOf | src/common/registry.rs:105-108 | USER maps to HKCU and SYSTEM to HKLM, and this is the only root of that DSN type |
| Registry.OpenKey | src/common/registry.rs:159-169 | opening succeeds exactly when the key exists; otherwise the error is the open error for that location |
| Registry.ReadableNames | src/common/registry.rs:80-85 | the listed subkey names are exactly the readable entries; unreadable ones are dropped |
| Registry.ReadableSettings | src/common/registry.rs:91-100 | the listed settings are exactly the readable values, as name/value pairs |
| Registry.DuckdbDriverPath | src/common/registry.rs:64-76 | a path is returned only if the driver key holds a readable `Driver` value with it; it fails when that value is missing or unreadable |
| Registry.FindValue | src/common/registry.rs:110-114 | finds a value of the given name when one exists, and returns none exactly when no value has that name |
| Registry.Upsert | src/common/registry.rs:144 | after `set_value` the key holds the new value; every other value of a different name is kept, and nothing else is added |
| Registry.RemoveValue | src/common/registry.rs:155 | with unique names, `delete_value` keeps exactly the values of other names |
| Registry.WithoutSubkey | src/common/registry.rs:131 | `delete_subkey` drops exactly the entries of that name from the parent's subkey list |
| Registry.AddSubkeyKeepsWellFormed | src/common/registry.rs:115 | creating a subkey keeps the registry a well-formed tree |
| Registry.RemoveSubkeyKeepsWellFormed | src/common/registry.rs:131 | deleting a childless subkey keeps the registry a well-formed tree |
| Registry.RegistryStore.CreateSubkey | src/common/registry.rs:115 | winreg `create_subkey`: the child key exists afterwards, and the tree stays well formed |
| Registry.RegistryStore.SetValue | src/common/registry.rs:118-121 | winreg `set_value` on an open key |
| Registry.RegistryStore.DeleteValue | src/common/registry.rs:133 | winreg `delete_value`: fails, changing nothing, when the value is absent |
| Registry.RegistryStore.DeleteSubkey | src/common/registry.rs:131 | winreg `delete_subkey`: fails, changing nothing, when the key is absent or has subkeys |
| Registry.RegistryStore.CreateDsn | src/common/registry.rs:104-123 | the step-by-step `create_dsn` has exactly the result and new state of `CreateDsnEffect`, and keeps the store well formed |
| Registry.RegistryStore.DeleteDsn | src/common/registry.rs:125-135 | the step-by-step `delete_dsn` has exactly the result and new state of `DeleteDsnEffect` |
| Registry.RegistryStore.SetDsnValue | src/common/registry.rs:137-146 | `set_dsn_value` has exactly the result and new state of `SetDsnValueEffect` |
| Registry.RegistryStore.DeleteDsnValue | src/common/registry.rs:148-157 | `delete_dsn_value` has exactly the result and new state of `DeleteDsnValueEffect` |
| RegistryProperties.DriverKeyIsNotUnderOdbcIni | src/common/registry.rs:22-23 | the driver key is neither an `ODBC.INI` key nor a DSN key, so DSN edits never touch it |
| RegistryProperties.DriverPathDependsOnDriverKey | src/common/registry.rs:64-76 | the driver path depends on the driver key alone |
| RegistryProperties.AddSubkeyKeepsDriverPath | src/common/registry.rs:115-117 | creating the DSN key does not change the driver path that is read next |
| RegistryProperties.InitialValues | src/common/registry.rs:118-119 | the new DSN key holds `Driver` and then `database`, in that order |
| RegistryProperties.CreateDsnRejectsExisting | src/common/registry.rs:109-114 | an existing subkey of that name, whatever its driver, gives "already exist" and no change |
| RegistryProperties.CreateDsnSucceedsIff | src/common/registry.rs:104-123 | `create_dsn` succeeds iff all of these hold: `ODBC.INI` opens, the name is free, the driver path resolves, and the listing key exists (or is the key just created) |
| RegistryProperties.CreateDsnSuccessState | src/common/registry.rs:115-121 | a successful create is exactly four steps: create key, set `Driver`, set `database`, set the listing entry |
| RegistryProperties.CreateDsnSuccess | src/common/registry.rs:115-119 | a successful create leaves one new key, holding `Driver` equal to the resolved path and `database` equal to the argument |
| RegistryProperties.CreateDsnListsName | src/common/registry.rs:115-121 | on success the name is appended to `ODBC.INI`'s subkeys and its values stay; the listing key maps the name to "DuckDB Driver", keeps every entry of another name, and gains no other entry |
| RegistryProperties.CreateDsnSuccessFrame | src/common/registry.rs:115-121 | on success only `ODBC.INI`, the new key and the listing key change; `ODBC.INI` is its old contents plus the subkey entry, and a listing key other than the new key is its old contents with the name set by `Upsert` |
| RegistryProperties.CreateDsnListingUpsert | src/common/registry.rs:115-121 | when the name is not the listing key's, the listing key existed and only gains the name through `Upsert` |
| RegistryProperties.CreateDsnKeepsWellFormed | src/common/registry.rs:104-123 | every outcome of `create_dsn` stays a well-formed tree |
| RegistryProperties.CreateDsnNoRollback | src/common/registry.rs:115-121 | a failure after the key was created (driver path missing, listing key missing) leaves the new key in place, empty or half-written |
| RegistryProperties.DeleteDsnFailsOnMissingKey | src/common/registry.rs:130-131 | `delete_dsn` fails and changes nothing when `ODBC.INI` or the DSN key is missing, or the key has subkeys |
| RegistryProperties.DeleteDsnSuccessFrame | src/common/registry.rs:130-134 | a successful delete removes the key and its subkey entry, and touches only `ODBC.INI`, the key and the listing key; `ODBC.INI` keeps its values, the DSN is never the listing key, and the listing key is its old contents with the name removed by `RemoveValue` |
| RegistryProperties.DeleteDsnSuccess | src/common/registry.rs:130-134 | after a successful delete the key and its listing entry are gone, the listing keeps exactly its entries of other names, other keys are unchanged, and the tree is well formed |
| RegistryProperties.UpsertFindsNew | src/common/registry.rs:144 | the value just set is the one found under its name |
| RegistryProperties.UpsertOverwrites | src/common/registry.rs:144 | setting a value twice is setting it once, to the last value |
| RegistryProperties.ReadableSettingsUnique | src/common/registry.rs:91-100 | unique value names give listed settings with unique names |
| RegistryProperties.SetDsnValueThenList | src/common/registry.rs:137-146 | `set_dsn_value` succeeds iff the DSN key exists; a later `list_values` then shows exactly one entry of that name, holding the new value; other listed values remain and no value appears that was not listed before or set; only that key changes, and a failure changes nothing |
| RegistryProperties.SetDsnValueKeepsWellFormed | src/common/registry.rs:137-146 | `set_dsn_value` keeps the tree well formed |
| RegistryProperties.SetDsnValueTwice | src/common/registry.rs:137-146 | two writes of one setting equal the last write alone |
| RegistryProperties.DeleteDsnValueExact | src/common/registry.rs:148-157 | `delete_dsn_value` succeeds iff the key has a value of that name; it then removes exactly that value, changes only that key, and on failure changes nothing |
| LoadDsns.Names | src/app_window/window.rs:230-232 | the DSN names in order |
| LoadDsns.Collect | src/load_dsns_dialog/dialog.rs:63-78 | one root's walk succeeds exactly when every listed key's values can be listed |
| LoadDsns.CollectSound | src/load_dsns_dialog/dialog.rs:63-78 | every collected record: its name was listed; it is typed by its root; its settings are exactly its key's values; it has `Driver` equal to the driver path |
| LoadDsns.CollectComplete | src/load_dsns_dialog/dialog.rs:63-78 | every listed key whose values include the matching `Driver` is collected |
| LoadDsns.CollectOrder | src/load_dsns_dialog/dialog.rs:63-78 | collected names keep the enumeration order |
| LoadDsns.ReadableNamesDistinct | src/common/registry.rs:80-85 | a key with unique subkey names enumerates each readable name once |
| LoadDsns.CollectNamesDistinct | src/load_dsns_dialog/dialog.rs:63-78 | distinct subkey names give records with distinct names |
| LoadDsns.CollectFailureSticks | src/load_dsns_dialog/dialog.rs:63-78 | once one key's values fail to list, the whole walk fails with that error |
| LoadDsns.CollectSnoc | src/load_dsns_dialog/dialog.rs:63-70 | one more loop iteration: fail, skip, or push the record |
| LoadDsns.CollectRoot | src/load_dsns_dialog/dialog.rs:63-70 | the loop over one root's names computes `Collect` |
| LoadDsns.LoadDsnsFromRegistry | src/load_dsns_dialog/dialog.rs:58-80 | the imperative load returns exactly `Discover` of the registry contents |
| LoadDsns.LoadOutcome | src/load_dsns_dialog/dialog.rs:101-104 | the worker's result is `success` with the records, or `failure` with the error's message |
| LoadDsns.LoadDsnsDialog.constructor | src/load_dsns_dialog/dialog.rs:20-26 | the dialog starts with the empty default result |
| LoadDsns.LoadDsnsDialog.OnLoadComplete | src/load_dsns_dialog/dialog.rs:29-42 | on success the result is exactly the loaded DSNs and the dialog closes; on failure the result is kept, the message is shown, and copy and close are enabled |
| LoadDsns.LoadDsnsDialog.StopProgressBar | src/load_dsns_dialog/dialog.rs:49-56 | the progress bar shows the error state exactly on failure |
| LoadDsns.LoadDsnsDialog.Result | src/load_dsns_dialog/dialog.rs:115-117 | the dialog's result is the DSNs it kept |
| LoadDsns.LoadDialogSession | src/load_dsns_dialog/dialog.rs:29-42 | after one load, the result holds exactly the discovered DSNs, or stays empty on failure, with the message shown |
| DiscoveryProperties.DiscoverParts | src/load_dsns_dialog/dialog.rs:58-80 | a successful load is the HKLM walk followed by the HKCU walk |
| DiscoveryProperties.DiscoverSound | src/load_dsns_dialog/dialog.rs:63-78 | every record: has `Driver` equal to the resolved path; is a listed subkey of its root; has settings exactly equal to its key's listed values |
| DiscoveryProperties.DiscoverComplete | src/load_dsns_dialog/dialog.rs:63-78 | every listed subkey of either root with a matching `Driver` is returned, typed by its root |
| DiscoveryProperties.DiscoverGroups | src/load_dsns_dialog/dialog.rs:63-78 | all SYSTEM records come before all USER records, and each group keeps enumeration order |
| DiscoveryProperties.CollectTyped | src/load_dsns_dialog/dialog.rs:63-78 | HKLM records are SYSTEM and HKCU records are USER |
| DiscoveryProperties.DiscoverSucceedsIff | src/load_dsns_dialog/dialog.rs:58-80 | the load succeeds iff the driver path resolves, both roots list, and every listed key's values list |
| DiscoveryProperties.DiscoverAbortReasons | src/load_dsns_dialog/dialog.rs:59-61 | a missing driver path or root aborts with that error, in that order |
| DiscoveryProperties.DiscoverWellFormed | src/load_dsns_dialog/dialog.rs:58-80 | in a well-formed registry the load succeeds iff the driver path resolves and both `ODBC.INI` keys exist |
| DiscoveryProperties.RecordSurvivesFrame | src/load_dsns_dialog/dialog.rs:63-78 | a record is still discovered after any change that leaves its key, its subkey entry and the driver path alone |
| DiscoveryProperties.CreateDsnKeepsDriverAndRoots | src/common/registry.rs:104-123 | a successful create changes neither the driver path nor the roots' existence |
| DiscoveryProperties.CreateDsnKeepsDiscoverable | src/common/registry.rs:104-123 | a successful create keeps a loadable registry loadable, and an unloadable one unloadable |
| DiscoveryProperties.CreateDsnDiscovered | src/common/registry.rs:115-121 | a DSN just created is discovered with `Driver` and `database` as its first two settings |
| DiscoveryProperties.CreateDsnDiscoveredOnce | src/common/registry.rs:115-121 | on a well-formed store, a DSN just created is discovered as exactly one record of its name and scope |
| DiscoveryProperties.DiscoverUnique | src/load_dsns_dialog/dialog.rs:63-78 | on a well-formed store no two discovered records share a name and a scope |
| DiscoveryProperties.CreateDsnKeepsOthers | src/common/registry.rs:115-121 | every DSN discovered before a create is still discovered after it (apart from one named like the listing key) |
| DiscoveryProperties.DeleteDsnForgotten | src/common/registry.rs:125-135 | a deleted DSN is no longer discovered |
| DiscoveryProperties.DeleteDsnKeepsOthers | src/common/registry.rs:125-135 | every other DSN is still discovered after a delete |
| DiscoveryProperties.DeleteDsnKeepsDriver | src/common/registry.rs:125-135 | a delete does not change the driver path |
| LoadDsnsResults.Success | src/load_dsns_dialog/result.rs:38-44 | `success(d)` has success set, an empty message and exactly `d` |
| LoadDsnsResults.Failure | src/load_dsns_dialog/result.rs:46-52 | `failure(m)` has success clear, message `m` and no DSNs |
| LoadDsnsResults.DefaultLoadDsnsResult | src/load_dsns_dialog/result.rs:30-35 | the default result is a failure with no message and no DSNs |
| LoadDsnsResults.NewDialogResult | src/load_dsns_dialog/result.rs:25-27 | `new(d)` keeps `d` unchanged |
| LoadDsnsResults.DefaultDialogResult | src/load_dsns_dialog/result.rs:19-22 | the default dialog result has no DSNs |
| LoadDsnsResults.SuccessFailureDistinct | src/load_dsns_dialog/result.rs:37-52 | a success is never a failure, and each constructor is injective |
| DuckDbSettings.DefaultSetting | src/common/duckdb_setting.rs:17-25 | the default record has every field empty |
| DuckDbSettings.New | src/common/duckdb_setting.rs:27-37 | `dsn_value` is empty; the second argument becomes `default_value`; name, input type, scope and description are kept |
| DuckDbSettings.NewRoundTrip | src/common/duckdb_setting.rs:27-37 | every record with an empty DSN value is `new` of its own fields |
| DuckDbSettings.NewInjective | src/common/duckdb_setting.rs:27-37 | `new` loses none of its arguments |
| SettingsTable.FindSetting | src/app_window/window.rs:90 | `iter_mut().find`: the first entry of that name, or none exactly when no entry has it |
| SettingsTable.AppendedSetting | src/app_window/window.rs:92-98 | an appended entry carries the registry name and value; its description is "Path to the database file" iff the name is `database` and is otherwise empty; every other field is empty |
| SettingsTable.ValueFor | src/app_window/window.rs:89-91 | the registry value of a setting name, when the DSN has one |
| SettingsTable.ExtrasFacts | src/app_window/window.rs:92-98 | the appended entries are exactly the non-`Driver` registry values that have no catalog entry |
| SettingsTable.MergeAllIsUpdatedPlusExtras | src/app_window/window.rs:86-100 | with unique names, the merge loop's result equals the catalog updated in place, followed by the appended extras |
| SettingsTable.MergeProperties | src/app_window/window.rs:86-100 | after the merge: a catalog entry named like a registry value carries that value and every other catalog entry is unchanged; every appended entry is an `AppendedSetting` of a non-`Driver` value missing from the catalog; every such value is appended |
| SettingsTable.RowOf | src/app_window/window.rs:250-273 | a row shows name, DSN value, default value and description in column order |
| SettingsTable.RowsMembership | src/app_window/window.rs:248-276 | the shown rows are exactly those of the settings that pass the filter |
| SettingsTable.RowsWithoutFilter | src/app_window/window.rs:214-218 | with an empty filter every setting is shown, in list order |
| SettingsTable.RowsBound | src/app_window/window.rs:248-276 | there are never more rows than settings |
| SettingsTable.LiteralFilterIsPrefix | src/app_window/window.rs:214-223 | a filter without `*` and `?` matches exactly the names starting with it |
| SettingsTable.StarFilterShowsAll | src/app_window/window.rs:214-223 | the filter `*` shows every setting |
| WildMatch.LiteralMatchesItself | src/app_window/window.rs:222 | a glob without wildcards matches only itself |
| WildMatch.StarMatchesAll | src/app_window/window.rs:222 | `*` matches every name |
| WildMatch.QuestionMarksMatchLength | src/app_window/window.rs:222 | `n` question marks match exactly the names of length `n` |
| WildMatch.LiteralStarIsPrefix | src/app_window/window.rs:222 | a literal followed by `*` matches exactly the names starting with that literal |
| Text.ToLower | src/app_window/window.rs:284-302 | lower-casing works character by character and keeps the length |
| Text.ToLowerIdempotent | src/app_window/window.rs:284-302 | lower-casing twice is lower-casing once |
| Text.LexLessTotal | src/app_window/window.rs:284-302 | the string order `cmp` uses is total and asymmetric |
| Text.LexLessTransitive | src/app_window/window.rs:284-302 | the string order is transitive |
| Text.Trim | src/setting_dialog/dialog.rs:30 | the trimmed text is a slice of the input; only white space is dropped around it, and it neither starts nor ends with white space |
| Text.TrimIdempotent | src/setting_dialog/dialog.rs:30 | trimming twice is trimming once |
| SettingsSort.KeyLessFacts | src/app_window/window.rs:280-306 | the comparator, ascending or descending, is a strict total order |
| SettingsSort.Insert | src/app_window/window.rs:282-304 | inserting one entry lengthens the list by one |
| SettingsSort.InsertPermutes | src/app_window/window.rs:282-304 | inserting one entry adds exactly that entry and loses none |
| SettingsSort.InsertionSort | src/app_window/window.rs:282-304 | sorting keeps the number of entries |
| SettingsSort.SortPermutes | src/app_window/window.rs:282-304 | sorting is a permutation of the entries |
| SettingsSort.InsertSorted | src/app_window/window.rs:282-304 | inserting into a sorted list keeps it sorted |
| SettingsSort.SortIsSorted | src/app_window/window.rs:282-304 | the sort's result is ordered by the column's lower-cased key |
| SettingsSort.SortIsStable | src/app_window/window.rs:282-304 | entries of equal key keep their relative order, as `sort_by` promises |
| SettingsSort.SortKeepsSorted | src/app_window/window.rs:282-304 | a sorted list is left as it is |
| SettingsSort.SortIdempotent | src/app_window/window.rs:282-304 | sorting twice is sorting once |
| SettingsSort.SortSettingsProperties | src/app_window/window.rs:280-306 | `sort_settings` permutes the list; for column 0, 1 or 2 it orders it by the lower-cased key, reversed when descending, stably; any other column leaves it unchanged |
| MainWindow.Toggle | src/app_window/window.rs:182-189 | the arrow flips, and the sort is descending iff the new arrow is Up, that is iff the old one was Down |
| MainWindow.FindDsn | src/app_window/window.rs:88 | the first DSN of the selected name, or none exactly when no DSN has it |
| MainWindow.DisplayedSettingsProperties | src/app_window/window.rs:85-104 | the displayed list is sorted ascending by lower-cased name, and holds exactly the merged entries (the catalog when no DSN is selected) |
| MainWindow.AppWindow.constructor | src/app_window/controls.rs:155-169 | nothing is loaded, and the sort arrows of the three columns point down |
| MainWindow.AppWindow.SelectionString | src/app_window/window.rs:87 | the combo's text is the selected entry, when there is one |
| MainWindow.AppWindow.FindSettingIndex | src/app_window/window.rs:90 | the search loop finds `FindSetting` |
| MainWindow.AppWindow.OnDsnChanged | src/app_window/window.rs:85-106 | the list becomes the catalog merged with the selected DSN's values and sorted by name, and the table shows its filtered rows; nothing else changes |
| MainWindow.AppWindow.SortSettingsBy | src/app_window/window.rs:280-306 | the list becomes `SortSettings` of the old list |
| MainWindow.AppWindow.OnSettingsViewSort | src/app_window/window.rs:169-193 | a column past the third changes nothing; otherwise that arrow flips, the list is sorted by the column (descending iff the arrow is now Up) and the rows are reloaded |
| MainWindow.AppWindow.TypeFilter | src/app_window/controls.rs:129-133 | typing into the filter input changes its text and nothing else; the shown rows stay until a reload |
| MainWindow.AppWindow.OnFilterButton | src/app_window/window.rs:195-197 | the rows are reloaded under the current filter text, which stays |
| MainWindow.AppWindow.FilterBy | src/app_window/window.rs:195-197 | typing a filter and pressing the button shows exactly `Rows(settings, text)` |
| MainWindow.AppWindow.ReloadSettingsView | src/app_window/window.rs:238-278 | after the remove and insert loops the rows are exactly `Rows(settings, filter)` |
| MainWindow.AppWindow.ReloadDsnsCombo | src/app_window/window.rs:225-236 | the combo holds exactly the DSN names in order, and the first one is selected when there is one |
| MainWindow.AppWindow.OpenLoadDialog | src/app_window/window.rs:67-72 | the loaded DSNs are dropped |
| MainWindow.AppWindow.AwaitLoadDialog | src/app_window/window.rs:74-83 | the window takes the dialog's DSNs, refills the combo and shows the first DSN merged into the catalog (the catalog alone when none was loaded), sorted by name |
| AddDsn.DsnTypeOf | src/add_dsn_dialog/dialog.rs:83-87 | "System" selects SYSTEM, and every other text selects USER |
| AddDsn.SaveRequest | src/add_dsn_dialog/dialog.rs:64-87 | a registry call is made iff all of these hold: the name is non-empty, in-memory is checked or the path is non-empty, and a non-empty type is selected; it then uses the name, `:memory:` or the path, and the selected type |
| AddDsn.SaveEnabledIffRequest | src/add_dsn_dialog/dialog.rs:64-104 | with a type selected, Save makes a registry call exactly when the enabling rule holds |
| AddDsn.InMemoryIgnoresPath | src/add_dsn_dialog/dialog.rs:69-74 | with in-memory checked, the path text does not matter |
| AddDsn.AddDsnDialog.constructor | src/add_dsn_dialog/dialog.rs:121-123 | the dialog starts with empty inputs, "User" selected, Save disabled and a cancelled result |
| AddDsn.AddDsnDialog.UpdateSaveButtonState | src/add_dsn_dialog/dialog.rs:98-104 | Save is enabled iff the name is non-empty and (the path is non-empty or in-memory is checked) |
| AddDsn.AddDsnDialog.OnNameInput | src/add_dsn_dialog/dialog.rs:30-32 | the Save button follows the new name |
| AddDsn.AddDsnDialog.OnChooseDbFile | src/add_dsn_dialog/dialog.rs:41-48 | a chosen file becomes the path and Save is recomputed; an accepted chooser without a file only clears the path |
| AddDsn.AddDsnDialog.OnMemoryCheckboxChanged | src/add_dsn_dialog/dialog.rs:51-62 | checking clears the path and locks its input and chooser; unchecking unlocks them; Save is recomputed |
| AddDsn.AddDsnDialog.ReadRequest | src/add_dsn_dialog/dialog.rs:65-87 | the early returns of Save compute `SaveRequest` |
| AddDsn.AddDsnDialog.OnSaveButton | src/add_dsn_dialog/dialog.rs:64-96 | without a request nothing changes; otherwise the registry takes `create_dsn`'s effect; success sets the result to the name and closes; failure keeps the cancelled state and the dialog open |
| AddDsn.AddDsnDialog.Close | src/add_dsn_dialog/dialog.rs:129-133 | the dialog closes with whatever result was last set |
| AddDsn.AddDsnDialog.Result | src/add_dsn_dialog/dialog.rs:125-127 | the dialog's result |
| AddDsn.InMemorySession | src/add_dsn_dialog/dialog.rs:64-96 | name plus in-memory plus Save creates a USER DSN with database `:memory:`; the result names it iff the create succeeds, and an empty name makes no call |
| AddDsn.SystemInMemorySession | src/add_dsn_dialog/dialog.rs:64-96 | picking "System", then name plus in-memory plus Save, creates a SYSTEM DSN with database `:memory:`; the result names it iff the create succeeds |
| AddDsn.AddDsnDialog.SelectType | src/add_dsn_dialog/controls.rs:87-95 | picking one of the combo's two entries, "User" or "System", sets the selection and leaves the Save button and inputs alone |
| AddDsn.AddDsnDialog.TypeDbPath | src/add_dsn_dialog/events.rs:37-59 | typing a path changes the text but not the Save button |
| AddDsn.StaleSaveButton | src/add_dsn_dialog/events.rs:37-59 | a name then a typed path: saving is allowed, yet Save stays disabled |
| AddDsn.AddDsnDialog.OnDbPathInput | src/add_dsn_dialog/dialog.rs:98-104 | with a handler on the path input, Save follows the typed path |
| AddDsn.PathInputEnablesSave | src/add_dsn_dialog/dialog.rs:98-104 | with that handler, the same typing enables Save |
| SettingEdit.BoolText | src/setting_dialog/dialog.rs:61-69 | the checkbox writes "true" iff checked and "false" iff unchecked |
| SettingEdit.ExistingValue | src/setting_dialog/dialog.rs:104 | the DSN's value for the setting, found first by name, or none exactly when the DSN lacks it |
| SettingEdit.FirstValue | src/setting_dialog/dialog.rs:104 | the first setting of that name, or none exactly when there is none |
| SettingEdit.PathSettingsNotDeletable | src/setting_dialog/dialog.rs:117-119 | Delete is never enabled for `database` or the session-init setting |
| SettingEdit.BoolTextIsTrimmed | src/setting_dialog/dialog.rs:29-69 | a checkbox value survives Apply's trimming unchanged |
| SettingEdit.SettingDialog.constructor | src/setting_dialog/dialog.rs:100-127 | the initial state: the existing value is pre-filled; Delete is enabled iff the value exists and the setting is not a path setting; BOOLEAN makes the input read-only and enables the checkbox, and other types do the reverse; the chooser is enabled only for path settings; the result is failure |
| SettingEdit.SettingDialog.OnBoolValueChange | src/setting_dialog/dialog.rs:61-69 | the value text becomes "true" or "false" |
| SettingEdit.SettingDialog.TypeValue | src/setting_dialog/controls.rs:92-96 | typing changes the value text unless the input is read-only; nothing else changes |
| SettingEdit.SettingDialog.OnChooseFile | src/setting_dialog/dialog.rs:77-82 | a chosen file replaces the value text |
| SettingEdit.SettingDialog.OnApplyButton | src/setting_dialog/dialog.rs:29-41 | the trimmed text is written under the setting's name; success sets the result and closes; failure changes neither |
| SettingEdit.SettingDialog.OnDeleteButton | src/setting_dialog/dialog.rs:43-59 | without confirmation nothing happens; with it the value is deleted, and success sets the result and closes |
| SettingEdit.SettingDialog.Result | src/setting_dialog/dialog.rs:129-131 | the dialog's result |
| SettingEdit.TypeAndApply | src/setting_dialog/dialog.rs:29-69 | typing then Apply writes the trimmed text, or the pre-filled value for a read-only BOOLEAN input; the result is success iff the write succeeds |
| SettingEdit.ToggleAndApply | src/setting_dialog/dialog.rs:29-69 | checkbox then Apply writes exactly "true" or "false", and the result is success iff the write succeeds |

## Findings

| source | as written | input that shows it | evidently intended | confidence | as-written member | corrected member |
|---|---|---|---|---|---|---|
| src/add_dsn_dialog/events.rs:37-59 | only the name input, the chooser button and the in-memory box recompute the Save button; typing into the editable path input does not | type name `my_dsn`, then type path `my.db`: Save stays disabled although the inputs allow a save | Save follows the rule of `update_save_button_state` (dialog.rs:98-104) after any input changes | medium, not executed | AddDsn.StaleSaveButton | AddDsn.PathInputEnablesSave |

## Left out

- Widgets, layout, tab order, threads, join handles, notices and the load dialog's minimum display time are not modelled. Each dialog is a class of plain fields, and a whole session is a sequence of method calls.
- Clipboard copy, the website launch, process arguments, the About dialog and window close/resize have no model: they are OS or toolkit I/O.
- File choosers are modelled by their outcome alone, as a parameter.
- The static catalog of `src/common/all_settings.rs` is a parameter of `MainWindow.AppWindow.constructor`, not data.
- Real winreg behaviour is not modelled: access flags, handles, permissions, and write failures other than a missing key. A key that cannot be opened is absent. A value is modelled by its string form, because the `Display` of `RegValue` is out of scope.
- Registry names are compared case-sensitively. Windows compares key and value names without case.
- `delete_subkey` is modelled as winreg's: it fails when the key has subkeys.
- A DSN name is one key component. A backslash in a name is not split into a path.
- An empty DSN name is modelled as a new child key `""` of `ODBC.INI`. winreg's `open_subkey("")` opens `ODBC.INI` itself, so `create_dsn` there reports "already exist". No caller in the model passes an empty name: `AddDsn.SaveRequest` needs a non-empty one.
- Error messages are a single `ConfigError(message)`. Only the "already exist" wording is kept, and `config_error.rs` is a record with one string.
- The message boxes that report a failed save, apply or delete are not modelled. The model keeps only the fact that the dialog stays open with its previous result.
- `Text.ToLower`: only ASCII `A`-`Z` are lower-cased. Rust's `to_lowercase` is Unicode-wide.
- `Text.LexLess`: compares code points (`char`), while Rust's `str::cmp` compares UTF-8 bytes. The two agree on every string of scalar values.
- The settings table's row index is an unbounded integer. The `i32` of the source cannot overflow for a settings list the window can hold.
- The window's `init`, `open_setting_dialog`, `await_setting_dialog`, `open_add_dsn_dialog` and `await_add_dsn_dialog` are not modelled. They only start dialogs and receive results (a row index and effective value the setting dialog's result type does not show).
- The delete-DSN and copy-connection-string handlers are wired in `src/app_window/events.rs`, but their bodies are not in `window.rs`, so they are not part of this model.
- `AddDsnDialogResult` and `SettingDialogResult` are modelled from their uses, cancelled or the created name and a success flag; no declaration of either is modelled.
- `src/setting_dialog/args.rs` declares no `dsn` field, and `src/common/registry.rs` defines no `SESSION_INIT_SQL_FILE_SETTING_NAME`, yet `src/setting_dialog/dialog.rs` lines 31, 104 and 117 use both. The DSN and that setting name are parameters of `SettingEdit.SettingDialog.constructor`.
- The description label's line wrapping and the window shake in the Change Setting dialog are presentation only.
- The Add Data Source dialog's "Init SQL file" input is never read by `on_save_button`, so the model has no field for it.
- `MainWindow.FindDsn`: a combo name shared by a SYSTEM and a USER DSN selects the first one, SYSTEM, exactly as `find` does.
