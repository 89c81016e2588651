/** The custom-field registry (`customFields`) and the validation the
    "Add Custom Field" dialog performs before a field is registered. */
module FieldRegistry {
  import opened Js

  /** The four editors a custom field can have. */
  datatype FieldType = Text | Number | Select | Date

  /** One registry record, `{name, type}`. */
  datatype CustomField = CustomField(name: string, fieldType: FieldType)

  /** The two messages the dialog can show instead of adding the field. */
  datatype FieldError = NameRequired | NameExists

  datatype Verdict = Accepted | Rejected(error: FieldError)

  /** The registered names, as keys. */
  function Names(fields: seq<CustomField>): (ns: set<string>)
    ensures forall f :: f in fields ==> f.name in ns
  {
    set i | 0 <= i < |fields| :: fields[i].name
  }

  /** `customFields.map(f => f.name.toLowerCase())`, the list the dialog checks
      new names against. */
  function LowerNames(fields: seq<CustomField>): (r: seq<string>)
    ensures |r| == |fields|
    ensures forall i :: 0 <= i < |fields| ==> r[i] == ToLower(fields[i].name)
  {
    if fields == [] then [] else [ToLower(fields[0].name)] + LowerNames(fields[1..])
  }

  /** No two registered names are equal once lower-cased. */
  predicate NoCaseDuplicates(fields: seq<CustomField>) {
    forall i, j :: 0 <= i < j < |fields| ==> ToLower(fields[i].name) != ToLower(fields[j].name)
  }

  /** The dialog's submit check: a name that trims to nothing is refused, then a
      name whose lower-case form is already among `existing` is refused; the
      name itself is neither trimmed nor lower-cased for storage. */
  function CheckFieldName(name: string, existing: seq<string>): (v: Verdict)
    ensures v == Rejected(NameRequired) <==> IsBlank(name)
    ensures v == Rejected(NameExists) <==> !IsBlank(name) && ToLower(name) in existing
    ensures v == Accepted <==> !IsBlank(name) && ToLower(name) !in existing
  {
    if Trim(name) == "" then Rejected(NameRequired)
    else if ToLower(name) in existing then Rejected(NameExists)
    else Accepted
  }

  /** An accepted name, appended as typed, keeps the registry free of
      case-insensitive duplicates. */
  lemma AcceptedAddKeepsNamesDistinct(fields: seq<CustomField>, name: string, ty: FieldType)
    requires NoCaseDuplicates(fields)
    requires CheckFieldName(name, LowerNames(fields)) == Accepted
    ensures NoCaseDuplicates(fields + [CustomField(name, ty)])
  {
    var after := fields + [CustomField(name, ty)];
    var lower := LowerNames(fields);
    forall i, j | 0 <= i < j < |after|
      ensures ToLower(after[i].name) != ToLower(after[j].name)
    {
      if j == |fields| {
        assert lower[i] == ToLower(after[i].name);
      }
    }
  }

  /** Once a name is registered, submitting it again in any letter case is
      refused with "Field name already exists". */
  lemma RegisteredNameIsTaken(fields: seq<CustomField>, name: string, ty: FieldType, again: string)
    requires !IsBlank(again) && ToLower(again) == ToLower(name)
    ensures CheckFieldName(again, LowerNames(fields + [CustomField(name, ty)])) == Rejected(NameExists)
  {
    var lower := LowerNames(fields + [CustomField(name, ty)]);
    assert lower[|fields|] == ToLower(again);
  }

  /** The names of a registry with one record in front. */
  lemma NamesCons(f: CustomField, rest: seq<CustomField>)
    ensures Names([f] + rest) == {f.name} + Names(rest)
  {
    var all := [f] + rest;
    forall n | n in Names(all) ensures n in {f.name} + Names(rest) {
      var i :| 0 <= i < |all| && all[i].name == n;
      if i > 0 { assert rest[i - 1].name == n; }
    }
    forall n | n in Names(rest) ensures n in Names(all) {
      var i :| 0 <= i < |rest| && rest[i].name == n;
      assert all[i + 1].name == n;
    }
    assert all[0].name == f.name;
  }

  /** The registry with one record in front is duplicate-free exactly when the
      rest is and no later name clashes with the first. */
  lemma NoCaseDuplicatesCons(f: CustomField, rest: seq<CustomField>)
    ensures NoCaseDuplicates([f] + rest) <==>
      NoCaseDuplicates(rest) && forall g :: g in rest ==> ToLower(g.name) != ToLower(f.name)
  {
    var all := [f] + rest;
    if NoCaseDuplicates(all) {
      forall i, j | 0 <= i < j < |rest| ensures ToLower(rest[i].name) != ToLower(rest[j].name) {
        assert all[i + 1] == rest[i] && all[j + 1] == rest[j];
      }
      forall g | g in rest ensures ToLower(g.name) != ToLower(f.name) {
        var k :| 0 <= k < |rest| && rest[k] == g;
        assert all[k + 1] == g && all[0] == f;
      }
    }
    if NoCaseDuplicates(rest) && forall g :: g in rest ==> ToLower(g.name) != ToLower(f.name) {
      forall i, j | 0 <= i < j < |all| ensures ToLower(all[i].name) != ToLower(all[j].name) {
        assert all[j] == rest[j - 1];
        if i > 0 { assert all[i] == rest[i - 1]; }
      }
    }
  }

  /** `customFields.filter(f => f.name !== fieldName)`: an exact, case-sensitive
      match; every record with that name goes, the rest stay in order. */
  function WithoutField(fields: seq<CustomField>, name: string): (r: seq<CustomField>)
    ensures |r| <= |fields|
    ensures forall f :: f in r <==> f in fields && f.name != name
    ensures Names(r) == Names(fields) - {name}
    ensures name !in Names(fields) ==> r == fields
  {
    if fields == [] then []
    else
      var rest := WithoutField(fields[1..], name);
      NamesCons(fields[0], fields[1..]);
      assert fields == [fields[0]] + fields[1..];
      if fields[0].name != name then
        NamesCons(fields[0], rest);
        [fields[0]] + rest
      else rest
  }

  /** Filtering a concatenation filters each part. */
  lemma {:induction false} WithoutFieldAppend(a: seq<CustomField>, b: seq<CustomField>, name: string)
    ensures WithoutField(a + b, name) == WithoutField(a, name) + WithoutField(b, name)
  {
    if a != [] {
      assert (a + b)[1..] == a[1..] + b;
      WithoutFieldAppend(a[1..], b, name);
      if a[0].name != name {
        assert [a[0]] + WithoutField(a[1..], name) + WithoutField(b, name)
          == [a[0]] + (WithoutField(a[1..], name) + WithoutField(b, name));
      }
    } else {
      assert a + b == b;
    }
  }

  /** Removing a field keeps the registry free of case-insensitive duplicates. */
  lemma {:induction false} WithoutFieldKeepsNamesDistinct(fields: seq<CustomField>, name: string)
    requires NoCaseDuplicates(fields)
    ensures NoCaseDuplicates(WithoutField(fields, name))
  {
    if fields != [] {
      var tail := fields[1..];
      assert fields == [fields[0]] + tail;
      NoCaseDuplicatesCons(fields[0], tail);
      WithoutFieldKeepsNamesDistinct(tail, name);
      if fields[0].name != name {
        NoCaseDuplicatesCons(fields[0], WithoutField(tail, name));
      }
    }
  }

  /** Adding "Notes" while "notes" is registered is refused. */
  lemma NotesClashesWithRegisteredNotes()
    ensures CheckFieldName("Notes", LowerNames([CustomField("notes", Text)])) == Rejected(NameExists)
  {
    assert ToLower("Notes") == "notes";
    assert LowerNames([CustomField("notes", Text)]) == [ToLower("notes")];
    assert ToLower("notes") == "notes";
    assert !IsWhitespace('N');
  }
}
