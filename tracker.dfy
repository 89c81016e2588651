/** The `PerformanceTracker` component: its three pieces of state (`entries`,
    `customFields` and the draft `newEntry`) and the handlers that replace
    them. Each handler's new state is one of the building blocks of EntryLog
    or FieldRegistry applied to the old state. */
module Tracker {
  import opened Records
  import opened FieldRegistry
  import opened EntryLog
  import opened Summary

  /** The shape the handlers keep: registered names are distinct ignoring
      case, and every entry and the draft carry a key for each of them. */
  predicate WellFormed(entries: seq<Record>, fields: seq<CustomField>, draft: Record) {
    NoCaseDuplicates(fields) && FieldsPresent(entries, fields) && Names(fields) <= draft.Keys
  }

  class PerformanceTracker {
    var entries: seq<Record>
    var customFields: seq<CustomField>
    var newEntry: Record

    predicate Valid()
      reads this
    {
      WellFormed(entries, customFields, newEntry)
    }

    /** Starts from what storage held (the loading itself is not modelled) and
        a default draft dated `today`. */
    constructor (savedEntries: seq<Record>, savedFields: seq<CustomField>, today: string)
      ensures entries == savedEntries && customFields == savedFields
      ensures newEntry == DefaultDraft(today, savedFields)
      ensures NoCaseDuplicates(savedFields) && FieldsPresent(savedEntries, savedFields) ==> Valid()
    {
      entries := savedEntries;
      customFields := savedFields;
      newEntry := DefaultDraft(today, savedFields);
    }

    /** `handleAddEntry`: appends the draft under the id `Date.now()` gave and
        resets the draft to the defaults dated `today`. */
    method AddEntry(id: int, today: string)
      modifies this
      ensures entries == old(entries) + [old(newEntry)["id" := Num(id as real)]]
      ensures customFields == old(customFields)
      ensures newEntry == DefaultDraft(today, customFields)
      ensures old(Valid()) ==> Valid()
      ensures old(IdsUnique(entries)) && IsFreshId(id, old(entries)) ==> IdsUnique(entries)
    {
      if IdsUnique(entries) && IsFreshId(id, entries) {
        AppendFreshKeepsIdsUnique(entries, newEntry, id);
      }
      entries := entries + [newEntry["id" := Num(id as real)]];
      newEntry := DefaultDraft(today, customFields);
    }

    /** `handleDeleteEntry`. */
    method DeleteEntry(id: Option<Value>)
      modifies this
      ensures entries == DeleteById(old(entries), id)
      ensures customFields == old(customFields) && newEntry == old(newEntry)
      ensures old(Valid()) ==> Valid()
      ensures old(IdsUnique(entries)) ==> IdsUnique(entries)
    {
      if IdsUnique(entries) {
        DeleteByIdKeepsIdsUnique(entries, id);
      }
      var kept := DeleteById(entries, id);
      if FieldsPresent(entries, customFields) {
        forall i | 0 <= i < |kept| ensures Names(customFields) <= kept[i].Keys {
          assert kept[i] in kept;
          var j :| 0 <= j < |entries| && entries[j] == kept[i];
        }
      }
      entries := kept;
    }

    /** `handleEditEntry`: ids do not change, so neither does their
        uniqueness; the shape is kept when the edited record has every
        registered key, as a record edited from an entry does. */
    method EditEntry(updated: Record)
      modifies this
      ensures entries == ReplaceById(old(entries), updated)
      ensures customFields == old(customFields) && newEntry == old(newEntry)
      ensures old(Valid()) && Names(customFields) <= updated.Keys ==> Valid()
      ensures old(IdsUnique(entries)) ==> IdsUnique(entries)
    {
      entries := ReplaceById(entries, updated);
    }

    /** `handleAddCustomField` itself: it trusts the dialog and validates
        nothing. */
    method AddCustomField(field: CustomField)
      modifies this
      ensures customFields == old(customFields) + [field]
      ensures entries == Backfill(old(entries), field.name)
      ensures newEntry == old(newEntry)[field.name := Str("")]
      ensures old(FieldsPresent(entries, customFields)) ==> FieldsPresent(entries, customFields)
      ensures old(Names(customFields) <= newEntry.Keys) ==> Names(customFields) <= newEntry.Keys
    {
      NamesCons(field, []);
      assert Names(customFields + [field]) == Names(customFields) + {field.name} by {
        var after := customFields + [field];
        forall i | 0 <= i < |customFields| ensures customFields[i].name in Names(after) {
          assert after[i] == customFields[i];
        }
        assert after[|customFields|] == field;
      }
      customFields := customFields + [field];
      entries := Backfill(entries, field.name);
      newEntry := newEntry[field.name := Str("")];
    }

    /** "Add Field" in the dialog (`CustomFieldDialog.handleSubmit` with the
        lower-cased names of the registry): a refused name changes nothing, an
        accepted one is registered as typed and back-filled everywhere. */
    method SubmitCustomField(name: string, ty: FieldType) returns (verdict: Verdict)
      modifies this
      ensures verdict == CheckFieldName(name, LowerNames(old(customFields)))
      ensures verdict.Rejected? ==>
        entries == old(entries) && customFields == old(customFields) && newEntry == old(newEntry)
      ensures verdict == Accepted ==>
        && customFields == old(customFields) + [CustomField(name, ty)]
        && entries == Backfill(old(entries), name)
        && newEntry == old(newEntry)[name := Str("")]
      ensures old(Valid()) ==> Valid()
    {
      verdict := CheckFieldName(name, LowerNames(customFields));
      if verdict == Accepted {
        if NoCaseDuplicates(customFields) {
          AcceptedAddKeepsNamesDistinct(customFields, name, ty);
        }
        AddCustomField(CustomField(name, ty));
      }
    }

    /** `handleDeleteCustomField`: drops the registry records with exactly this
        name and the key from every entry and the draft, built-in or not. */
    method DeleteCustomField(name: string)
      modifies this
      ensures customFields == WithoutField(old(customFields), name)
      ensures entries == StripKey(old(entries), name)
      ensures newEntry == old(newEntry) - {name}
      ensures old(Valid()) ==> Valid()
      ensures name != "id" && old(IdsUnique(entries)) ==> IdsUnique(entries)
    {
      if NoCaseDuplicates(customFields) {
        WithoutFieldKeepsNamesDistinct(customFields, name);
      }
      var stripped := StripKey(entries, name);
      assert name != "id" ==> forall i :: 0 <= i < |entries| ==> IdOf(stripped[i]) == IdOf(entries[i]);
      customFields := WithoutField(customFields, name);
      entries := stripped;
      newEntry := newEntry - {name};
    }

    /** The form's plain inputs: `setNewEntry({...newEntry, [key]: value})`. */
    method SetDraftField(key: string, value: Value)
      modifies this
      ensures newEntry == old(newEntry)[key := value]
      ensures entries == old(entries) && customFields == old(customFields)
      ensures old(Valid()) ==> Valid()
    {
      newEntry := newEntry[key := value];
    }

    /** The form's category select: picking a category clears the topics. */
    method SelectDraftCategory(category: string)
      modifies this
      ensures newEntry == old(newEntry)["category" := Str(category)]["topics" := List([])]
      ensures TopicsOf(newEntry) == []
      ensures entries == old(entries) && customFields == old(customFields)
      ensures old(Valid()) ==> Valid()
    {
      newEntry := newEntry["category" := Str(category)]["topics" := List([])];
    }

    /** The form's confidence input, clamped to the 1 to 10 scale. */
    method SetDraftConfidence(x: real)
      modifies this
      ensures newEntry == old(newEntry)["confidence" := Num(ClampConfidence(x))]
      ensures 1.0 <= NumberAt(newEntry, "confidence") <= 10.0
      ensures entries == old(entries) && customFields == old(customFields)
      ensures old(Valid()) ==> Valid()
    {
      newEntry := newEntry["confidence" := Num(ClampConfidence(x))];
    }
  }
}
