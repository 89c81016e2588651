/** The entry-detail dialog's editing state: a copy `editedEntry` of the
    selected entry that the edit inputs change, and the Save, Cancel and
    Delete buttons that hand it back to the tracker. */
module EntryDetail {
  import opened Records
  import opened FieldRegistry
  import opened EntryLog
  import opened Summary
  import opened Tracker

  /** The dialog's text, number and date inputs that go through its
      `renderField` helper: six built-in ones and one per custom field. */
  datatype DialogInput =
    | DateInput | GoalsSetInput | GoalsAchievedInput | HoursInput
    | ResourcesInput | NotesInput
    | CustomInput(field: CustomField)

  /** The key whose value each input displays (the second argument the
      dialog passes to `renderField`). */
  function ShownKey(input: DialogInput): (k: string)
    ensures input.CustomInput? ==> k == input.field.name
    ensures !input.CustomInput? ==> k in BuiltinDefaults("").Keys && k != "id"
  {
    match input
    case DateInput => "date"
    case GoalsSetInput => "goalsSet"
    case GoalsAchievedInput => "goalsAchieved"
    case HoursInput => "hoursFocused"
    case ResourcesInput => "resources"
    case NotesInput => "notes"
    case CustomInput(f) => f.name
  }

  /** What an input displays: the value under its key, `None` when missing. */
  function Shown(r: Record, input: DialogInput): (v: Option<Value>)
    ensures v.None? <==> ShownKey(input) !in r
    ensures v.Some? ==> v.value == r[ShownKey(input)]
  {
    if ShownKey(input) in r then Some(r[ShownKey(input)]) else None
  }

  /** The key the `onChange` handler writes, as the code stands: it writes
      under `field.name`, and for the built-in inputs the field passed is a
      bare `{type: ...}` literal, whose `name` is `undefined`; a computed key
      `undefined` is the property named "undefined". */
  function WrittenKeyAsWritten(input: DialogInput): (k: string)
    ensures input.CustomInput? ==> k == input.field.name
    ensures !input.CustomInput? ==> k == "undefined"
  {
    if input.CustomInput? then input.field.name else "undefined"
  }

  /** One keystroke in an input, as the code stands. */
  function EditAsWritten(r: Record, input: DialogInput, text: string): (r': Record)
    ensures r'.Keys == r.Keys + {WrittenKeyAsWritten(input)}
    ensures r'[WrittenKeyAsWritten(input)] == Str(text)
    ensures forall k :: k in r && k != WrittenKeyAsWritten(input) ==> r'[k] == r[k]
  {
    r[WrittenKeyAsWritten(input) := Str(text)]
  }

  /** As the code stands, typing into a built-in input never reaches the
      value it shows: the shown value stays what it was and the text lands
      under "undefined". */
  lemma BuiltinEditIsLost(r: Record, input: DialogInput, text: string)
    requires !input.CustomInput?
    ensures Shown(EditAsWritten(r, input, text), input) == Shown(r, input)
    ensures EditAsWritten(r, input, text)["undefined"] == Str(text)
  {
    assert ShownKey(input) != "undefined" by {
      assert "undefined" !in BuiltinDefaults("").Keys;
    }
  }

  /** A concrete case: changing the date of a fresh entry to another day
      leaves the date it shows (and would save) unchanged. */
  lemma DateEditCounterexample()
    ensures Shown(EditAsWritten(BuiltinDefaults("2024-05-01"), DateInput, "2024-05-02"), DateInput)
      == Some(Str("2024-05-01"))
  {
    BuiltinEditIsLost(BuiltinDefaults("2024-05-01"), DateInput, "2024-05-02");
  }

  /** One keystroke in an input, corrected so that each built-in input
      writes the key it displays: what is typed is what the input then shows,
      no other key changes, and the id stays unless the input is a custom
      field named `id` (so Save replaces the entry that was opened). */
  function Edit(r: Record, input: DialogInput, text: string): (r': Record)
    ensures Shown(r', input) == Some(Str(text))
    ensures r'.Keys == r.Keys + {ShownKey(input)}
    ensures forall k :: k in r && k != ShownKey(input) ==> r'[k] == r[k]
    ensures !(input.CustomInput? && input.field.name == "id") ==> IdOf(r') == IdOf(r)
  {
    r[ShownKey(input) := Str(text)]
  }

  class EntryDetailDialog {
    const entry: Record
    var editedEntry: Record

    /** Opening the dialog on an entry copies it. */
    constructor (selected: Record)
      ensures entry == selected && editedEntry == selected
    {
      entry := selected;
      editedEntry := selected;
    }

    /** Typing into a text, number or date input. */
    method EditInput(input: DialogInput, text: string)
      modifies this
      ensures editedEntry == Edit(old(editedEntry), input, text)
      ensures Shown(editedEntry, input) == Some(Str(text))
    {
      editedEntry := Edit(editedEntry, input, text);
    }

    /** The category select. Unlike the draft form, the topics are kept. */
    method SelectCategory(category: string)
      modifies this
      ensures editedEntry == old(editedEntry)["category" := Str(category)]
      ensures TopicsOf(editedEntry) == TopicsOf(old(editedEntry))
    {
      editedEntry := editedEntry["category" := Str(category)];
    }

    /** The topics autocomplete: the chosen list replaces the old one. */
    method SelectTopics(topics: seq<string>)
      modifies this
      ensures editedEntry == old(editedEntry)["topics" := List(topics)]
      ensures TopicsOf(editedEntry) == topics
    {
      editedEntry := editedEntry["topics" := List(topics)];
    }

    /** The difficulty select. */
    method SelectDifficulty(difficulty: string)
      modifies this
      ensures editedEntry == old(editedEntry)["difficulty" := Str(difficulty)]
    {
      editedEntry := editedEntry["difficulty" := Str(difficulty)];
    }

    /** The confidence input, clamped to the 1 to 10 scale. */
    method SetConfidence(x: real)
      modifies this
      ensures editedEntry == old(editedEntry)["confidence" := Num(ClampConfidence(x))]
      ensures 1.0 <= NumberAt(editedEntry, "confidence") <= 10.0
    {
      editedEntry := editedEntry["confidence" := Num(ClampConfidence(x))];
    }

    /** Cancel throws the edits away. */
    method Cancel()
      modifies this
      ensures editedEntry == entry
    {
      editedEntry := entry;
    }

    /** Save hands the edited copy to `handleEditEntry`. */
    method Save(tracker: PerformanceTracker)
      modifies tracker
      ensures tracker.entries == ReplaceById(old(tracker.entries), editedEntry)
      ensures tracker.customFields == old(tracker.customFields)
      ensures tracker.newEntry == old(tracker.newEntry)
    {
      tracker.EditEntry(editedEntry);
    }

    /** Delete removes the entry the dialog was opened on, by its id. */
    method Delete(tracker: PerformanceTracker)
      modifies tracker
      ensures tracker.entries == DeleteById(old(tracker.entries), IdOf(entry))
      ensures tracker.customFields == old(tracker.customFields)
      ensures tracker.newEntry == old(tracker.newEntry)
    {
      tracker.DeleteEntry(IdOf(entry));
    }
  }
}
