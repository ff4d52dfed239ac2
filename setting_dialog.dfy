/**
  The Change Setting dialog for one setting of one DSN: what its inputs start as, which buttons it
  enables, and what Apply and Delete ask of the registry. The DSN being edited and the name of the
  session-init-file setting are parameters of the dialog.
*/
module SettingEdit {
  import opened Errors
  import opened Registry
  import opened DuckDbSettings
  import opened Text

  const BOOLEAN_INPUT_TYPE: string := "BOOLEAN"
  const TRUE_TEXT: string := "true"
  const FALSE_TEXT: string := "false"

  /** What the dialog returns: whether a value was set or deleted. */
  datatype SettingDialogResult = SettingDialogResult(success: bool)

  /** on_bool_value_change: the text the checkbox writes into the value input. */
  function BoolText(checked: bool): (r: string)
    ensures r == TRUE_TEXT <==> checked
    ensures r == FALSE_TEXT <==> !checked
  {
    if checked then TRUE_TEXT else FALSE_TEXT
  }

  /** The DSN's value for the setting: `dsn.settings.iter().find` by name, so the first of that name. */
  function ExistingValue(dsn: RegistryDsn, name: string): (r: Option<string>)
    ensures r.Some? ==> RegistrySetting(name, r.value) in dsn.settings
    ensures r.None? <==> forall i :: 0 <= i < |dsn.settings| ==> dsn.settings[i].name != name
  {
    FirstValue(dsn.settings, name)
  }

  function FirstValue(rss: seq<RegistrySetting>, name: string): (r: Option<string>)
    ensures r.Some? ==> exists i :: 0 <= i < |rss| && rss[i] == RegistrySetting(name, r.value)
                                    && forall j :: 0 <= j < i ==> rss[j].name != name
    ensures r.None? <==> forall i :: 0 <= i < |rss| ==> rss[i].name != name
  {
    if rss == [] then None
    else if rss[0].name == name then Some(rss[0].value)
    else
      var r := FirstValue(rss[1..], name);
      if r.Some? then
        var i :| 0 <= i < |rss[1..]| && rss[1..][i] == RegistrySetting(name, r.value)
                 && forall j :: 0 <= j < i ==> rss[1..][j].name != name;
        assert rss[i + 1] == rss[1..][i];
        assert forall j :: 1 <= j < i + 1 ==> rss[j] == rss[1..][j - 1];
        r
      else r
  }

  /** The settings whose value is a file path: the database and the session init SQL file. */
  predicate IsPathSetting(name: string, sessionInitName: string) {
    DATABASE_SETTING_NAME == name || sessionInitName == name
  }

  /** Delete is offered only for a value the DSN has, and never for the path settings. */
  predicate DeleteEnabled(dsn: RegistryDsn, name: string, sessionInitName: string) {
    ExistingValue(dsn, name).Some? && !IsPathSetting(name, sessionInitName)
  }

  /** The database and session-init settings can never be deleted from the dialog. */
  lemma PathSettingsNotDeletable(dsn: RegistryDsn, sessionInitName: string)
    ensures !DeleteEnabled(dsn, DATABASE_SETTING_NAME, sessionInitName)
    ensures !DeleteEnabled(dsn, sessionInitName, sessionInitName)
  {
  }

  /** A value the checkbox wrote survives Apply's trimming unchanged. */
  lemma BoolTextIsTrimmed(checked: bool)
    ensures Trim(BoolText(checked)) == BoolText(checked)
  {
    var s := BoolText(checked);
    assert !IsWhiteSpace(s[0]) && !IsWhiteSpace(s[|s| - 1]);
    TrimKeepsInner(s);
  }

  class SettingDialog {
    const dsn: RegistryDsn
    const setting: DuckDbSetting
    const sessionInitName: string
    var nameText: string
    var defaultValueText: string
    var valueText: string
    var valueReadonly: bool
    var checkboxEnabled: bool
    var fsPathEnabled: bool
    var deleteEnabled: bool
    var result: SettingDialogResult
    var closed: bool

    /**
      The dialog after build and init: name and default shown, the DSN's value pre-filled when it has
      one, Delete only for an existing value outside the path settings, BOOLEAN settings edited by the
      checkbox alone, the file chooser only for path settings, and a failure result.
    */
    constructor (dsn: RegistryDsn, setting: DuckDbSetting, sessionInitName: string)
      ensures this.dsn == dsn && this.setting == setting && this.sessionInitName == sessionInitName
      ensures nameText == setting.name && defaultValueText == setting.default_value
      ensures valueText == match ExistingValue(dsn, setting.name) case Some(v) => v case None => []
      ensures deleteEnabled == DeleteEnabled(dsn, setting.name, sessionInitName)
      ensures valueReadonly == (setting.input_type == BOOLEAN_INPUT_TYPE)
      ensures checkboxEnabled == (setting.input_type == BOOLEAN_INPUT_TYPE)
      ensures fsPathEnabled == IsPathSetting(setting.name, sessionInitName)
      ensures !result.success && !closed
    {
      this.dsn := dsn;
      this.setting := setting;
      this.sessionInitName := sessionInitName;
      valueText := "";
      nameText := setting.name;
      defaultValueText := setting.default_value;
      var existing := ExistingValue(dsn, setting.name);
      if existing.Some? {
        valueText := existing.value;
        deleteEnabled := true;
      } else {
        deleteEnabled := false;
      }
      if BOOLEAN_INPUT_TYPE == setting.input_type {
        valueReadonly := true;
        checkboxEnabled := true;
      } else {
        valueReadonly := false;
        checkboxEnabled := false;
      }
      if DATABASE_SETTING_NAME == setting.name || sessionInitName == setting.name {
        fsPathEnabled := true;
        deleteEnabled := false;
      } else {
        fsPathEnabled := false;
      }
      result := SettingDialogResult(false);
      closed := false;
    }

    /** on_bool_value_change */
    method OnBoolValueChange(checked: bool)
      modifies this
      ensures valueText == BoolText(checked)
      ensures nameText == old(nameText) && defaultValueText == old(defaultValueText)
      ensures valueReadonly == old(valueReadonly) && checkboxEnabled == old(checkboxEnabled)
      ensures fsPathEnabled == old(fsPathEnabled) && deleteEnabled == old(deleteEnabled)
      ensures result == old(result) && closed == old(closed)
    {
      var value := if checked then TRUE_TEXT else FALSE_TEXT;
      valueText := value;
    }

    /** on_choose_db_file: a file picked in the chooser replaces the value text; otherwise nothing changes. */
    method OnChooseFile(picked: Option<string>)
      modifies this
      ensures valueText == if picked.Some? then picked.value else old(valueText)
      ensures nameText == old(nameText) && defaultValueText == old(defaultValueText)
      ensures valueReadonly == old(valueReadonly) && checkboxEnabled == old(checkboxEnabled)
      ensures fsPathEnabled == old(fsPathEnabled) && deleteEnabled == old(deleteEnabled)
      ensures result == old(result) && closed == old(closed)
    {
      if picked.Some? {
        valueText := picked.value;
      }
    }

    /**
      Typing into the value input. No handler is attached to it: only its text changes, and a read-only
      input (a BOOLEAN setting, edited through the checkbox) keeps its text.
    */
    method TypeValue(text: string)
      modifies this
      ensures valueText == if valueReadonly then old(valueText) else text
      ensures nameText == old(nameText) && defaultValueText == old(defaultValueText)
      ensures valueReadonly == old(valueReadonly) && checkboxEnabled == old(checkboxEnabled)
      ensures fsPathEnabled == old(fsPathEnabled) && deleteEnabled == old(deleteEnabled)
      ensures result == old(result) && closed == old(closed)
    {
      if !valueReadonly {
        valueText := text;
      }
    }

    /**
      on_apply_button: the trimmed input is written to the DSN under the setting's name; on success the
      result turns to success and the dialog closes, on failure both stay as they were.
    */
    method OnApplyButton(reg: RegistryStore)
      requires reg.Valid()
      modifies this, reg
      ensures reg.Valid()
      ensures var e := SetDsnValueEffect(old(reg.keys), dsn.dsn_type, dsn.name, setting.name, Trim(old(valueText)));
              && reg.keys == e.state
              && (e.result.Ok? ==> result.success && closed)
              && (e.result.Err? ==> result == old(result) && closed == old(closed))
      ensures valueText == old(valueText)
    {
      var value := Trim(valueText);
      ghost var e := SetDsnValueEffect(reg.keys, dsn.dsn_type, dsn.name, setting.name, value);
      var r := reg.SetDsnValue(dsn.dsn_type, dsn.name, setting.name, value);
      assert r == e.result && reg.keys == e.state;
      if r.Ok? {
        result := SettingDialogResult(true);
        closed := true;
      }
    }

    /**
      on_delete_button: without the user's confirmation nothing happens; with it the setting's value is
      deleted from the DSN, and on success the result turns to success and the dialog closes.
    */
    method OnDeleteButton(reg: RegistryStore, confirmed: bool)
      requires reg.Valid()
      modifies this, reg
      ensures reg.Valid()
      ensures !confirmed ==> reg.keys == old(reg.keys) && result == old(result) && closed == old(closed)
      ensures confirmed ==>
                var e := DeleteDsnValueEffect(old(reg.keys), dsn.dsn_type, dsn.name, setting.name);
                && reg.keys == e.state
                && (e.result.Ok? ==> result.success && closed)
                && (e.result.Err? ==> result == old(result) && closed == old(closed))
      ensures valueText == old(valueText)
    {
      if !confirmed {
        return;
      }
      var r := reg.DeleteDsnValue(dsn.dsn_type, dsn.name, setting.name);
      if r.Ok? {
        result := SettingDialogResult(true);
        closed := true;
      }
    }

    /** The value the dialog returns to the main window. */
    function Result(): (r: SettingDialogResult)
      reads this
      ensures r == result
    {
      result
    }
  }

  /**
    A whole session on a BOOLEAN setting: the checkbox is set and Apply pressed. The registry receives
    exactly "true" or "false", and the result is success exactly when the write succeeds.
  */
  method ToggleAndApply(reg: RegistryStore, dsn: RegistryDsn, setting: DuckDbSetting, sessionInitName: string, checked: bool)
    returns (dialog: SettingDialog)
    requires reg.Valid()
    modifies reg
    ensures fresh(dialog) && reg.Valid()
    ensures var e := SetDsnValueEffect(old(reg.keys), dsn.dsn_type, dsn.name, setting.name, BoolText(checked));
            && reg.keys == e.state
            && dialog.Result().success == e.result.Ok?
  {
    dialog := new SettingDialog(dsn, setting, sessionInitName);
    dialog.OnBoolValueChange(checked);
    BoolTextIsTrimmed(checked);
    dialog.OnApplyButton(reg);
  }

  /**
    A whole session on a setting edited as text: a value is typed and Apply pressed. The registry receives
    the typed text trimmed, or, for a BOOLEAN setting whose input is read-only, the pre-filled value; the
    result is success exactly when the write succeeds.
  */
  method TypeAndApply(reg: RegistryStore, dsn: RegistryDsn, setting: DuckDbSetting, sessionInitName: string, text: string)
    returns (dialog: SettingDialog)
    requires reg.Valid()
    modifies reg
    ensures fresh(dialog) && reg.Valid()
    ensures var prefilled := match ExistingValue(dsn, setting.name) case Some(v) => v case None => [];
            var written := if setting.input_type == BOOLEAN_INPUT_TYPE then Trim(prefilled) else Trim(text);
            var e := SetDsnValueEffect(old(reg.keys), dsn.dsn_type, dsn.name, setting.name, written);
            && reg.keys == e.state
            && dialog.Result().success == e.result.Ok?
  {
    dialog := new SettingDialog(dsn, setting, sessionInitName);
    dialog.TypeValue(text);
    dialog.OnApplyButton(reg);
  }
}
