/**
  The Add Data Source dialog: when Save is allowed, what a save asks the registry for, and the result it
  hands back, with the dialog's inputs as plain state.
*/
module AddDsn {
  import opened Errors
  import opened Registry

  const MEMORY_DATABASE: string := ":memory:"
  const SYSTEM_TYPE_LABEL: string := "System"
  const USER_TYPE_LABEL: string := "User"
  /** The type combo's entries, in the order it lists them; the first is selected when the dialog opens. */
  const TYPE_CHOICES: seq<string> := [USER_TYPE_LABEL, SYSTEM_TYPE_LABEL]

  /** What the dialog returns: cancelled, or the name of the DSN it created. */
  datatype AddDsnResult = Cancelled | Added(name: string)

  /** What the database file chooser gives back: nothing, an accepted dialog without a file, or a file path. */
  datatype ChooserOutcome = ChooserCancelled | ChooserNoItem | ChooserPicked(path: string)

  /** The create_dsn call a save makes. */
  datatype CreateRequest = CreateRequest(dsnType: DsnType, name: string, database: string)

  /** update_save_button_state: a name, and either a database path or the in-memory box checked. */
  predicate CanSave(name: string, dbPath: string, inMemory: bool) {
    |name| > 0 && (|dbPath| > 0 || inMemory)
  }

  /** The DSN type the type combo's text selects: "System" is SYSTEM, anything else USER. */
  function DsnTypeOf(text: string): (t: DsnType)
    ensures t == SYSTEM <==> text == SYSTEM_TYPE_LABEL
  {
    if SYSTEM_TYPE_LABEL == text then SYSTEM else USER
  }

  /**
    on_save_button's decision: no call for an empty name, an empty path without the in-memory box, or
    no type; otherwise the name, `:memory:` or the path, and the type the combo names.
  */
  function SaveRequest(name: string, dbPath: string, inMemory: bool, typeSelection: Option<string>): (r: Option<CreateRequest>)
    ensures r.Some? <==> && |name| > 0 && (inMemory || |dbPath| > 0)
                         && typeSelection.Some? && |typeSelection.value| > 0
    ensures r.Some? ==> && r.value.name == name
                        && r.value.database == (if inMemory then MEMORY_DATABASE else dbPath)
                        && (r.value.dsnType == SYSTEM <==> typeSelection.value == SYSTEM_TYPE_LABEL)
  {
    if |name| == 0 then None
    else
      var database := if inMemory then MEMORY_DATABASE else dbPath;
      if |database| == 0 then None
      else
        var typeText := if typeSelection.Some? then typeSelection.value else "";
        if |typeText| == 0 then None
        else Some(CreateRequest(DsnTypeOf(typeText), name, database))
  }

  /** With a type chosen, a save reaches the registry exactly when the Save button is enabled. */
  lemma SaveEnabledIffRequest(name: string, dbPath: string, inMemory: bool, typeText: string)
    requires |typeText| > 0
    ensures CanSave(name, dbPath, inMemory) <==> SaveRequest(name, dbPath, inMemory, Some(typeText)).Some?
  {
  }

  /** With the in-memory box checked the path text is ignored. */
  lemma InMemoryIgnoresPath(name: string, p1: string, p2: string, typeSelection: Option<string>)
    ensures SaveRequest(name, p1, true, typeSelection) == SaveRequest(name, p2, true, typeSelection)
  {
  }

  class AddDsnDialog {
    var nameText: string
    var dbPathText: string
    var inMemory: bool
    var dbPathReadonly: bool
    var dbPathButtonEnabled: bool
    var saveEnabled: bool
    var typeSelection: Option<string>
    var addedDsn: AddDsnResult
    var closed: bool

    /** The dialog after build and init: empty inputs, "User" selected, Save disabled, result cancelled. */
    constructor ()
      ensures nameText == [] && dbPathText == [] && !inMemory
      ensures !dbPathReadonly && dbPathButtonEnabled && !saveEnabled
      ensures typeSelection == Some(USER_TYPE_LABEL) && addedDsn == Cancelled && !closed
    {
      nameText := "";
      dbPathText := "";
      inMemory := false;
      dbPathReadonly := false;
      dbPathButtonEnabled := true;
      saveEnabled := false;
      typeSelection := Some(USER_TYPE_LABEL);
      addedDsn := Cancelled;
      closed := false;
    }

    method UpdateSaveButtonState()
      modifies this
      ensures saveEnabled == CanSave(nameText, dbPathText, inMemory)
      ensures nameText == old(nameText) && dbPathText == old(dbPathText) && inMemory == old(inMemory)
      ensures dbPathReadonly == old(dbPathReadonly) && dbPathButtonEnabled == old(dbPathButtonEnabled)
      ensures typeSelection == old(typeSelection) && addedDsn == old(addedDsn) && closed == old(closed)
    {
      var hasName := |nameText| > 0;
      var hasDb := |dbPathText| > 0;
      saveEnabled := hasName && (hasDb || inMemory);
    }

    /** on_name_input: the name text changed. */
    method OnNameInput(text: string)
      modifies this
      ensures nameText == text && saveEnabled == CanSave(text, dbPathText, inMemory)
      ensures dbPathText == old(dbPathText) && inMemory == old(inMemory)
      ensures dbPathReadonly == old(dbPathReadonly) && dbPathButtonEnabled == old(dbPathButtonEnabled)
      ensures typeSelection == old(typeSelection) && addedDsn == old(addedDsn) && closed == old(closed)
    {
      nameText := text;
      UpdateSaveButtonState();
    }

    /**
      Picking an entry of the type combo. No handler is attached to it, so only the selection changes and
      the Save button keeps its state.
    */
    method SelectType(index: nat)
      requires index < |TYPE_CHOICES|
      modifies this
      ensures typeSelection == Some(TYPE_CHOICES[index]) && saveEnabled == old(saveEnabled)
      ensures nameText == old(nameText) && dbPathText == old(dbPathText) && inMemory == old(inMemory)
      ensures dbPathReadonly == old(dbPathReadonly) && dbPathButtonEnabled == old(dbPathButtonEnabled)
      ensures addedDsn == old(addedDsn) && closed == old(closed)
    {
      typeSelection := Some(TYPE_CHOICES[index]);
    }

    /**
      Typing into the path input. No handler is attached to that input, so only its text changes and
      the Save button keeps its previous state.
    */
    method TypeDbPath(text: string)
      modifies this
      ensures dbPathText == text && saveEnabled == old(saveEnabled)
      ensures nameText == old(nameText) && inMemory == old(inMemory)
      ensures dbPathReadonly == old(dbPathReadonly) && dbPathButtonEnabled == old(dbPathButtonEnabled)
      ensures typeSelection == old(typeSelection) && addedDsn == old(addedDsn) && closed == old(closed)
    {
      dbPathText := text;
    }

    /** The path input with the handler the name input has: the Save button follows the new text. */
    method OnDbPathInput(text: string)
      modifies this
      ensures dbPathText == text && saveEnabled == CanSave(nameText, text, inMemory)
      ensures nameText == old(nameText) && inMemory == old(inMemory)
      ensures dbPathReadonly == old(dbPathReadonly) && dbPathButtonEnabled == old(dbPathButtonEnabled)
      ensures typeSelection == old(typeSelection) && addedDsn == old(addedDsn) && closed == old(closed)
    {
      dbPathText := text;
      UpdateSaveButtonState();
    }

    /**
      on_choose_db_file: a cancelled chooser changes nothing; an accepted one clears the path, and when it
      names a file the path becomes that file and the Save button is recomputed.
    */
    method OnChooseDbFile(outcome: ChooserOutcome)
      modifies this
      ensures outcome.ChooserCancelled? ==> dbPathText == old(dbPathText) && saveEnabled == old(saveEnabled)
      ensures outcome.ChooserNoItem? ==> dbPathText == [] && saveEnabled == old(saveEnabled)
      ensures outcome.ChooserPicked? ==> dbPathText == outcome.path && saveEnabled == CanSave(nameText, outcome.path, inMemory)
      ensures nameText == old(nameText) && inMemory == old(inMemory)
      ensures dbPathReadonly == old(dbPathReadonly) && dbPathButtonEnabled == old(dbPathButtonEnabled)
      ensures typeSelection == old(typeSelection) && addedDsn == old(addedDsn) && closed == old(closed)
    {
      if outcome.ChooserCancelled? {
        return;
      }
      dbPathText := "";
      if outcome.ChooserPicked? {
        dbPathText := outcome.path;
        UpdateSaveButtonState();
      }
    }

    /** close: the window goes away, with whatever result was last set. */
    method Close()
      modifies this
      ensures closed
      ensures nameText == old(nameText) && dbPathText == old(dbPathText) && inMemory == old(inMemory)
      ensures saveEnabled == old(saveEnabled) && typeSelection == old(typeSelection) && addedDsn == old(addedDsn)
    {
      closed := true;
    }

    /**
      on_memory_checkbox_changed: checking the box clears the path and locks its input and chooser;
      unchecking unlocks them; either way the Save button is recomputed.
    */
    method OnMemoryCheckboxChanged(checked: bool)
      modifies this
      ensures inMemory == checked
      ensures checked ==> dbPathText == [] && dbPathReadonly && !dbPathButtonEnabled
      ensures !checked ==> dbPathText == old(dbPathText) && !dbPathReadonly && dbPathButtonEnabled
      ensures saveEnabled == CanSave(nameText, dbPathText, inMemory)
      ensures nameText == old(nameText) && typeSelection == old(typeSelection)
      ensures addedDsn == old(addedDsn) && closed == old(closed)
    {
      inMemory := checked;
      if checked {
        dbPathText := "";
        dbPathReadonly := true;
        dbPathButtonEnabled := false;
      } else {
        dbPathReadonly := false;
        dbPathButtonEnabled := true;
      }
      UpdateSaveButtonState();
    }

    /**
      The early returns of on_save_button: the name, then the database (`:memory:` when the box is
      checked, else the path), then the type text, each of which must be non-empty.
    */
    method ReadRequest() returns (req: Option<CreateRequest>)
      ensures req == SaveRequest(nameText, dbPathText, inMemory, typeSelection)
    {
      var name := nameText;
      if |name| == 0 {
        return None;
      }
      var dbPath := if inMemory then MEMORY_DATABASE else dbPathText;
      if |dbPath| == 0 {
        return None;
      }
      var typeText := if typeSelection.Some? then typeSelection.value else "";
      if |typeText| == 0 {
        return None;
      }
      var dsnType := if SYSTEM_TYPE_LABEL == typeText then SYSTEM else USER;
      return Some(CreateRequest(dsnType, name, dbPath));
    }

    /**
      on_save_button: nothing happens unless the inputs make a request; otherwise create_dsn runs, and on
      success the result names the new DSN and the dialog closes, while on failure both stay as they were.
    */
    method OnSaveButton(reg: RegistryStore)
      requires reg.Valid()
      modifies this, reg
      ensures reg.Valid()
      ensures var req := SaveRequest(old(nameText), old(dbPathText), old(inMemory), old(typeSelection));
              && (req.None? ==> reg.keys == old(reg.keys) && addedDsn == old(addedDsn) && closed == old(closed))
              && (req.Some? ==>
                    var e := CreateDsnEffect(old(reg.keys), req.value.dsnType, req.value.name, req.value.database);
                    && reg.keys == e.state
                    && (e.result.Ok? ==> addedDsn == Added(old(nameText)) && closed)
                    && (e.result.Err? ==> addedDsn == old(addedDsn) && closed == old(closed)))
      ensures nameText == old(nameText) && dbPathText == old(dbPathText) && inMemory == old(inMemory)
      ensures typeSelection == old(typeSelection) && saveEnabled == old(saveEnabled)
    {
      var req := ReadRequest();
      if req.None? {
        return;
      }
      var r := reg.CreateDsn(req.value.dsnType, req.value.name, req.value.database);
      if r.Ok? {
        addedDsn := Added(req.value.name);
        closed := true;
      }
    }

    /** The value the dialog returns to the main window. */
    function Result(): (r: AddDsnResult)
      reads this
      ensures r == addedDsn
    {
      addedDsn
    }
  }

  /**
    A whole session from a fresh dialog: the user types a name, sets the in-memory box and saves. The
    DSN is created in memory, of USER type as the combo's default, and the result names it only when
    create_dsn succeeds.
  */
  method InMemorySession(reg: RegistryStore, name: string) returns (dialog: AddDsnDialog)
    requires reg.Valid()
    modifies reg
    ensures fresh(dialog) && reg.Valid()
    ensures |name| == 0 ==> reg.keys == old(reg.keys) && dialog.Result() == Cancelled
    ensures |name| > 0 ==>
              var e := CreateDsnEffect(old(reg.keys), USER, name, MEMORY_DATABASE);
              && reg.keys == e.state
              && dialog.Result() == (if e.result.Ok? then Added(name) else Cancelled)
              && dialog.closed == e.result.Ok?
  {
    dialog := new AddDsnDialog();
    dialog.OnNameInput(name);
    dialog.OnMemoryCheckboxChanged(true);
    dialog.OnSaveButton(reg);
  }

  /** The same session with "System" picked in the type combo first: the DSN is created under HKLM. */
  method SystemInMemorySession(reg: RegistryStore, name: string) returns (dialog: AddDsnDialog)
    requires reg.Valid()
    modifies reg
    ensures fresh(dialog) && reg.Valid()
    ensures |name| == 0 ==> reg.keys == old(reg.keys) && dialog.Result() == Cancelled
    ensures |name| > 0 ==>
              var e := CreateDsnEffect(old(reg.keys), SYSTEM, name, MEMORY_DATABASE);
              && reg.keys == e.state
              && dialog.Result() == (if e.result.Ok? then Added(name) else Cancelled)
              && dialog.closed == e.result.Ok?
  {
    dialog := new AddDsnDialog();
    dialog.SelectType(1);
    dialog.OnNameInput(name);
    dialog.OnMemoryCheckboxChanged(true);
    dialog.OnSaveButton(reg);
  }

  /**
    A name typed first and a path typed after it: the inputs allow a save, yet the Save button stays
    disabled because nothing recomputes it.
  */
  method StaleSaveButton() returns (dialog: AddDsnDialog)
    ensures CanSave(dialog.nameText, dialog.dbPathText, dialog.inMemory) && !dialog.saveEnabled
  {
    dialog := new AddDsnDialog();
    dialog.OnNameInput("my_dsn");
    dialog.TypeDbPath("my.db");
  }

  /** With the path handler in place the same typing enables Save, as update_save_button_state intends. */
  method PathInputEnablesSave() returns (dialog: AddDsnDialog)
    ensures CanSave(dialog.nameText, dialog.dbPathText, dialog.inMemory) && dialog.saveEnabled
  {
    dialog := new AddDsnDialog();
    dialog.OnNameInput("my_dsn");
    dialog.OnDbPathInput("my.db");
  }
}
