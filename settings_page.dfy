/**
 * The settings page: the stored theme and its toggle, export and import of
 * the `todos` and `activityDates` slots, the two resets, and the checks of
 * the change-password form.
 */
module SettingsPage {
  import opened Wrappers
  import opened Storage

  const DarkTheme: string := "dark"
  const LightTheme: string := "light"

  /** `getTheme`: the stored theme text, or dark when the slot is absent or empty. */
  function StoredTheme(slot: Option<string>): (t: string)
    ensures t != ""
    ensures slot.Some? && slot.value != "" ==> t == slot.value
    ensures slot.None? || slot.value == "" ==> t == DarkTheme
  {
    if slot.Some? && slot.value != "" then slot.value else DarkTheme
  }

  /** The choice in `toggleTheme`: dark becomes light, anything else becomes dark. */
  function NextTheme(t: string): (r: string)
    ensures r == LightTheme <==> t == DarkTheme
    ensures r == DarkTheme <==> t != DarkTheme
  {
    if t == DarkTheme then LightTheme else DarkTheme
  }

  /** Toggling twice restores the theme exactly when it was dark or light. */
  lemma NextThemeTwice(t: string)
    ensures NextTheme(NextTheme(t)) == t <==> t == DarkTheme || t == LightTheme
  {
  }

  /** The object `exportData` serialises: both slots (each `[]` when unreadable), the time, version 1. */
  function Export(slots: Slots, exportedAt: string): (snapshot: Json)
    ensures snapshot.JObj? && snapshot.fields.Keys == {TodosKey, ActivityKey, "exportedAt", "version"}
    ensures snapshot.fields[TodosKey] == ReadJson(slots, TodosKey, JArr([]))
    ensures snapshot.fields[ActivityKey] == ReadJson(slots, ActivityKey, JArr([]))
    ensures snapshot.fields["version"] == JNum(1)
  {
    JObj(map[
      TodosKey := ReadJson(slots, TodosKey, JArr([])),
      ActivityKey := ReadJson(slots, ActivityKey, JArr([])),
      "exportedAt" := JStr(exportedAt),
      "version" := JNum(1)])
  }

  /** What the import handler tells the user. */
  datatype ImportAlert = ImportDone | InvalidFile

  /** `JSON.parse(String(reader.result || '{}'))`: an empty file reads as `{}`; `None` when parsing throws. */
  function ParseFile(file: Cell): Option<Json> {
    match file
    case Blank => Some(JObj(map[]))
    case Malformed => None
    case Holds(v) => Some(v)
  }

  /** Write `fields[key]` to the slot `key` only when it is an array (`Array.isArray(parsed[key])`). */
  function WriteIfArray(slots: Slots, fields: map<string, Json>, key: string): (r: Slots)
    ensures key in fields && fields[key].JArr? ==> r == WriteJson(slots, key, fields[key])
    ensures !(key in fields && fields[key].JArr?) ==> r == slots
  {
    if key in fields && fields[key].JArr? then WriteJson(slots, key, fields[key]) else slots
  }

  /** Whether an imported file carries an array under `key`. */
  predicate CarriesArray(file: Cell, key: string) {
    file.Holds? && file.value.JObj? && key in file.value.fields && file.value.fields[key].JArr?
  }

  /**
   * The slots after `onImportFile` reads `file`, and the alert shown. Each of
   * the two slots is written only from an array; nothing else changes; a file
   * that does not parse, or parses to `null`, writes nothing.
   */
  function Imported(slots: Slots, file: Cell): (r: (Slots, ImportAlert))
    ensures r.1 == InvalidFile <==> file.Malformed? || file == Holds(JNull)
    ensures r.1 == InvalidFile ==> r.0 == slots
    ensures forall k :: k != TodosKey && k != ActivityKey ==> (k in r.0 <==> k in slots)
    ensures forall k :: k != TodosKey && k != ActivityKey && k in slots ==> r.0[k] == slots[k]
    ensures CarriesArray(file, TodosKey) ==> TodosKey in r.0 && r.0[TodosKey] == Holds(file.value.fields[TodosKey])
    ensures !CarriesArray(file, TodosKey) ==> (TodosKey in r.0 <==> TodosKey in slots) && (TodosKey in slots ==> r.0[TodosKey] == slots[TodosKey])
    ensures CarriesArray(file, ActivityKey) ==> ActivityKey in r.0 && r.0[ActivityKey] == Holds(file.value.fields[ActivityKey])
    ensures !CarriesArray(file, ActivityKey) ==> (ActivityKey in r.0 <==> ActivityKey in slots) && (ActivityKey in slots ==> r.0[ActivityKey] == slots[ActivityKey])
  {
    match ParseFile(file)
    case None => (slots, InvalidFile)
    case Some(parsed) =>
      if parsed.JNull? then (slots, InvalidFile)
      else if parsed.JObj? then
        (WriteIfArray(WriteIfArray(slots, parsed.fields, TodosKey), parsed.fields, ActivityKey), ImportDone)
      else (slots, ImportDone)
  }

  /**
   * Importing a snapshot exported from `slots` into any store `target`: each
   * slot reads back as the exported value when that value is an array, and
   * keeps what `target` held otherwise.
   */
  lemma ExportImportRestores(slots: Slots, target: Slots, exportedAt: string, key: string)
    requires key == TodosKey || key == ActivityKey
    ensures Imported(target, Holds(Export(slots, exportedAt))).1 == ImportDone
    ensures var exported := ReadJson(slots, key, JArr([]));
      ReadJson(Imported(target, Holds(Export(slots, exportedAt))).0, key, JArr([]))
        == if exported.JArr? then exported else ReadJson(target, key, JArr([]))
  {
  }

  /** When both slots hold arrays (or nothing readable), an export imported anywhere restores both. */
  lemma ExportImportRoundTrip(slots: Slots, target: Slots, exportedAt: string)
    requires ReadJson(slots, TodosKey, JArr([])).JArr? && ReadJson(slots, ActivityKey, JArr([])).JArr?
    ensures ReadJson(Imported(target, Holds(Export(slots, exportedAt))).0, TodosKey, JArr([])) == ReadJson(slots, TodosKey, JArr([]))
    ensures ReadJson(Imported(target, Holds(Export(slots, exportedAt))).0, ActivityKey, JArr([])) == ReadJson(slots, ActivityKey, JArr([]))
  {
    ExportImportRestores(slots, target, exportedAt, TodosKey);
    ExportImportRestores(slots, target, exportedAt, ActivityKey);
  }

  /** A stored `null` is exported as `null`, and the import skips it: it is not restored. */
  lemma NonArrayNotRestored()
    ensures var slots := map[TodosKey := Holds(JNull)];
      ReadJson(Imported(map[], Holds(Export(slots, "t"))).0, TodosKey, JArr([])) != ReadJson(slots, TodosKey, JArr([]))
  {
    var slots := map[TodosKey := Holds(JNull)];
    ExportImportRestores(slots, map[], "t", TodosKey);
  }

  /** `resetTodos` / `resetStreak` once confirmed: the one slot set to `[]`. */
  function Reset(slots: Slots, key: string, confirmed: bool): (r: Slots)
    ensures !confirmed ==> r == slots
    ensures confirmed ==> key in r && r[key] == Holds(JArr([]))
    ensures forall k :: k != key ==> (k in r <==> k in slots) && (k in slots ==> r[k] == slots[k])
  {
    if confirmed then WriteJson(slots, key, JArr([])) else slots
  }

  /** The page's state: the storage slots it reads and writes, and the theme. */
  class SettingsPageState {
    var slots: Slots
    var themeSlot: Option<string>
    var theme: string

    /** Mounting the page: the theme is read, then written back by the theme effect. */
    constructor (stored: Slots, storedTheme: Option<string>)
      ensures slots == stored
      ensures theme == StoredTheme(storedTheme) && themeSlot == Some(theme)
    {
      slots := stored;
      theme := StoredTheme(storedTheme);
      themeSlot := Some(theme);
    }

    /** `toggleTheme`, followed by the effect that stores the new theme. */
    method ToggleTheme()
      modifies this
      ensures theme == NextTheme(old(theme)) && themeSlot == Some(theme)
      ensures slots == old(slots)
    {
      theme := NextTheme(theme);
      themeSlot := Some(theme);
    }

    /** `exportData`: the snapshot handed to the download, built from the current slots. */
    method ExportData(exportedAt: string) returns (snapshot: Json)
      ensures snapshot.JObj? && TodosKey in snapshot.fields && ActivityKey in snapshot.fields
      ensures snapshot.fields[TodosKey] == ReadJson(slots, TodosKey, JArr([]))
      ensures snapshot.fields[ActivityKey] == ReadJson(slots, ActivityKey, JArr([]))
      ensures "version" in snapshot.fields && snapshot.fields["version"] == JNum(1)
    {
      var todos := ReadJson(slots, TodosKey, JArr([]));
      var dates := ReadJson(slots, ActivityKey, JArr([]));
      snapshot := JObj(map[TodosKey := todos, ActivityKey := dates, "exportedAt" := JStr(exportedAt), "version" := JNum(1)]);
    }

    /** `onImportFile`: no file selected does nothing; otherwise the file is read and imported. */
    method ImportFile(file: Option<Cell>) returns (alert: Option<ImportAlert>)
      modifies this
      ensures file.None? ==> alert.None? && slots == old(slots)
      ensures file.Some? ==> alert == Some(Imported(old(slots), file.value).1) && slots == Imported(old(slots), file.value).0
      ensures theme == old(theme) && themeSlot == old(themeSlot)
    {
      if file.None? {
        return None;
      }
      var outcome := Imported(slots, file.value);
      slots := outcome.0;
      alert := Some(outcome.1);
    }

    /** `resetTodos`: only after the user confirms, the todos slot becomes `[]`. */
    method ResetTodos(confirmed: bool)
      modifies this
      ensures slots == Reset(old(slots), TodosKey, confirmed)
      ensures theme == old(theme) && themeSlot == old(themeSlot)
    {
      if confirmed {
        slots := WriteJson(slots, TodosKey, JArr([]));
      }
    }

    /** `resetStreak`: only after the user confirms, the activity slot becomes `[]`. */
    method ResetStreak(confirmed: bool)
      modifies this
      ensures slots == Reset(old(slots), ActivityKey, confirmed)
      ensures theme == old(theme) && themeSlot == old(themeSlot)
    {
      if confirmed {
        slots := WriteJson(slots, ActivityKey, JArr([]));
      }
    }
  }

  const MinPasswordLength: nat := 6
  const TooShortMessage: string := "Le nouveau mot de passe doit contenir au moins 6 caractères."
  const MismatchMessage: string := "Les mots de passe ne correspondent pas."
  const UpdatedMessage: string := "Mot de passe mis à jour (démo)."

  /**
   * The checks of the change-password form, in order: the length of the new
   * password first, then the confirmation. The current password plays no part.
   */
  function PasswordProblem(next: string, confirmNext: string): (r: Option<string>)
    ensures r == Some(TooShortMessage) <==> |next| < MinPasswordLength
    ensures r == Some(MismatchMessage) <==> |next| >= MinPasswordLength && next != confirmNext
    ensures r.None? <==> |next| >= MinPasswordLength && next == confirmNext
  {
    if next == "" || |next| < MinPasswordLength then Some(TooShortMessage)
    else if next != confirmNext then Some(MismatchMessage)
    else None
  }

  /** The change-password form's fields and message line. */
  class PasswordForm {
    var current: string
    var next: string
    var confirmNext: string
    var msg: string

    constructor ()
      ensures current == "" && next == "" && confirmNext == "" && msg == ""
    {
      current, next, confirmNext, msg := "", "", "", "";
    }

    /** Typing in the three fields. */
    method Edit(currentText: string, nextText: string, confirmText: string)
      modifies this
      ensures current == currentText && next == nextText && confirmNext == confirmText && msg == old(msg)
    {
      current, next, confirmNext := currentText, nextText, confirmText;
    }

    /** `submit`: a rejected password leaves the fields as typed; an accepted one clears all three. */
    method Submit()
      modifies this
      ensures PasswordProblem(old(next), old(confirmNext)).Some? ==>
        msg == PasswordProblem(old(next), old(confirmNext)).value
        && current == old(current) && next == old(next) && confirmNext == old(confirmNext)
      ensures PasswordProblem(old(next), old(confirmNext)).None? ==>
        msg == UpdatedMessage && current == "" && next == "" && confirmNext == ""
    {
      msg := "";
      if next == "" || |next| < MinPasswordLength {
        msg := TooShortMessage;
        return;
      }
      if next != confirmNext {
        msg := MismatchMessage;
        return;
      }
      msg := UpdatedMessage;
      current, next, confirmNext := "", "", "";
    }
  }
}
