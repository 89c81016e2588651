/** The values the tracker's handlers build for the entry list and the draft:
    the default draft, and the `filter`/`map`/spread expressions that delete,
    replace, back-fill and strip keys. */
module EntryLog {
  import opened Records
  import opened FieldRegistry

  /** The built-in part of a fresh draft: today's date, category `coding`, no
      topics, difficulty `medium`, confidence 5 and empty text elsewhere. */
  function BuiltinDefaults(today: string): (d: Record)
    ensures "id" !in d
  {
    map[
      "date" := Str(today), "category" := Str("coding"), "topics" := List([]),
      "goalsSet" := Str(""), "goalsAchieved" := Str(""), "hoursFocused" := Str(""),
      "dsaSolved" := Str(""), "projectProgress" := Str(""), "appliedJobs" := Str(""),
      "difficulty" := Str("medium"), "confidence" := Num(5.0), "notes" := Str(""),
      "resources" := Str(""), "nextSteps" := Str("")
    ]
  }

  /** `customFields.reduce((acc, field) => ({...acc, [field.name]: ''}), {})`:
      one empty-text value per registered name and nothing else. */
  function BlankFields(fields: seq<CustomField>): (b: Record)
    ensures b.Keys == Names(fields)
    ensures forall k :: k in b ==> b[k] == Str("")
  {
    if fields == [] then map[]
    else
      var init := fields[..|fields| - 1];
      var last := fields[|fields| - 1];
      assert fields == init + [last];
      assert Names(fields) == Names(init) + {last.name} by {
        forall i | 0 <= i < |init| ensures init[i].name in Names(fields) {
          assert fields[i] == init[i];
        }
      }
      BlankFields(init)[last.name := Str("")]
  }

  /** The draft the form starts from and is reset to after each add: the
      built-in defaults, then an empty value per registered field. A custom
      field whose name is a built-in key overrides that default. */
  function DefaultDraft(today: string, fields: seq<CustomField>): (d: Record)
    ensures d.Keys == BuiltinDefaults(today).Keys + Names(fields)
    ensures forall n :: n in Names(fields) ==> d[n] == Str("")
    ensures forall k :: k in BuiltinDefaults(today) && k !in Names(fields) ==>
      d[k] == BuiltinDefaults(today)[k]
  {
    BuiltinDefaults(today) + BlankFields(fields)
  }

  /** Every record carries a key for every registered field name. */
  predicate FieldsPresent(es: seq<Record>, fields: seq<CustomField>) {
    forall i :: 0 <= i < |es| ==> Names(fields) <= es[i].Keys
  }

  /** No two entries answer to the same `entry.id` (two entries without an id
      would both match `undefined`). */
  predicate IdsUnique(es: seq<Record>) {
    forall i, j :: 0 <= i < j < |es| ==> IdOf(es[i]) != IdOf(es[j])
  }

  /** `id` is not the id of any entry yet. */
  predicate IsFreshId(id: int, es: seq<Record>) {
    forall i :: 0 <= i < |es| ==> IdOf(es[i]) != Some(Num(id as real))
  }

  /** A list with one entry in front has unique ids exactly when the rest does
      and no later entry shares the first one's id. */
  lemma IdsUniqueCons(e: Record, rest: seq<Record>)
    ensures IdsUnique([e] + rest) <==>
      IdsUnique(rest) && forall g :: g in rest ==> IdOf(g) != IdOf(e)
  {
    var all := [e] + rest;
    if IdsUnique(all) {
      forall i, j | 0 <= i < j < |rest| ensures IdOf(rest[i]) != IdOf(rest[j]) {
        assert all[i + 1] == rest[i] && all[j + 1] == rest[j];
      }
      forall g | g in rest ensures IdOf(g) != IdOf(e) {
        var k :| 0 <= k < |rest| && rest[k] == g;
        assert all[k + 1] == g && all[0] == e;
      }
    }
    if IdsUnique(rest) && forall g :: g in rest ==> IdOf(g) != IdOf(e) {
      forall i, j | 0 <= i < j < |all| ensures IdOf(all[i]) != IdOf(all[j]) {
        assert all[j] == rest[j - 1];
        if i > 0 { assert all[i] == rest[i - 1]; }
      }
    }
  }

  /** Appending the draft under a fresh id keeps the ids unique. */
  lemma AppendFreshKeepsIdsUnique(es: seq<Record>, draft: Record, id: int)
    requires IdsUnique(es) && IsFreshId(id, es)
    ensures IdsUnique(es + [draft["id" := Num(id as real)]])
  {
    var after := es + [draft["id" := Num(id as real)]];
    forall i, j | 0 <= i < j < |after| ensures IdOf(after[i]) != IdOf(after[j]) {
      if j == |es| {
        assert IdOf(after[j]) == Some(Num(id as real));
        assert after[i] == es[i];
      } else {
        assert after[i] == es[i] && after[j] == es[j];
      }
    }
  }

  /** `entries.filter(entry => entry.id !== id)`: every entry that answers to
      `id` goes, the others stay; nothing happens when none answers. */
  function DeleteById(es: seq<Record>, id: Option<Value>): (r: seq<Record>)
    ensures |r| <= |es|
    ensures forall e :: e in r <==> e in es && IdOf(e) != id
    ensures (forall e :: e in es ==> IdOf(e) != id) ==> r == es
  {
    if es == [] then []
    else
      var rest := DeleteById(es[1..], id);
      assert es == [es[0]] + es[1..];
      if IdOf(es[0]) != id then [es[0]] + rest else rest
  }

  /** Deleting keeps the relative order: it distributes over concatenation. */
  lemma {:induction false} DeleteByIdAppend(a: seq<Record>, b: seq<Record>, id: Option<Value>)
    ensures DeleteById(a + b, id) == DeleteById(a, id) + DeleteById(b, id)
  {
    if a != [] {
      assert (a + b)[1..] == a[1..] + b;
      DeleteByIdAppend(a[1..], b, id);
      if IdOf(a[0]) != id {
        assert [a[0]] + DeleteById(a[1..], id) + DeleteById(b, id)
          == [a[0]] + (DeleteById(a[1..], id) + DeleteById(b, id));
      }
    } else {
      assert a + b == b;
    }
  }

  /** Deleting keeps the ids unique. */
  lemma {:induction false} DeleteByIdKeepsIdsUnique(es: seq<Record>, id: Option<Value>)
    requires IdsUnique(es)
    ensures IdsUnique(DeleteById(es, id))
  {
    if es != [] {
      assert es == [es[0]] + es[1..];
      IdsUniqueCons(es[0], es[1..]);
      DeleteByIdKeepsIdsUnique(es[1..], id);
      if IdOf(es[0]) != id {
        IdsUniqueCons(es[0], DeleteById(es[1..], id));
      }
    }
  }

  /** With unique ids, deleting removes exactly one entry when some entry has
      the id and none otherwise. */
  lemma {:induction false} DeleteByIdRemovesOne(es: seq<Record>, id: Option<Value>)
    requires IdsUnique(es)
    ensures |DeleteById(es, id)| == if exists e :: e in es && IdOf(e) == id then |es| - 1 else |es|
  {
    if es != [] {
      assert es == [es[0]] + es[1..];
      IdsUniqueCons(es[0], es[1..]);
      DeleteByIdRemovesOne(es[1..], id);
      if IdOf(es[0]) == id {
        assert es[0] in es;
        assert forall e :: e in es[1..] ==> IdOf(e) != id;
      } else {
        assert (exists e :: e in es && IdOf(e) == id) <==> (exists e :: e in es[1..] && IdOf(e) == id);
      }
    }
  }

  /** `entries.map(entry => entry.id === updated.id ? updated : entry)`. */
  function ReplaceById(es: seq<Record>, updated: Record): (r: seq<Record>)
    ensures |r| == |es|
    ensures forall i :: 0 <= i < |es| ==>
      r[i] == (if IdOf(es[i]) == IdOf(updated) then updated else es[i])
    ensures forall i :: 0 <= i < |es| ==> IdOf(r[i]) == IdOf(es[i])
    ensures (forall e :: e in es ==> IdOf(e) != IdOf(updated)) ==> r == es
  {
    if es == [] then []
    else
      var head := if IdOf(es[0]) == IdOf(updated) then updated else es[0];
      [head] + ReplaceById(es[1..], updated)
  }

  /** Deleting an entry after editing it gives the same list as deleting it
      straight away. */
  lemma {:induction false} DeleteAfterReplace(es: seq<Record>, updated: Record)
    ensures DeleteById(ReplaceById(es, updated), IdOf(updated)) == DeleteById(es, IdOf(updated))
  {
    if es != [] {
      var r := ReplaceById(es, updated);
      assert r[1..] == ReplaceById(es[1..], updated);
      DeleteAfterReplace(es[1..], updated);
    }
  }

  /** `entries.map(entry => ({...entry, [name]: ''}))`: every entry gets the key
      `name` with empty text, overwriting what it held; no other key changes. */
  function Backfill(es: seq<Record>, name: string): (r: seq<Record>)
    ensures |r| == |es|
    ensures forall i :: 0 <= i < |es| ==> r[i].Keys == es[i].Keys + {name} && r[i][name] == Str("")
    ensures forall i, k :: 0 <= i < |es| && k in es[i] && k != name ==> r[i][k] == es[i][k]
  {
    if es == [] then [] else [es[0][name := Str("")]] + Backfill(es[1..], name)
  }

  /** `entries.map(({[name]: removed, ...rest}) => rest)`: the key `name` goes
      from every entry; every other key keeps its value. */
  function StripKey(es: seq<Record>, name: string): (r: seq<Record>)
    ensures |r| == |es|
    ensures forall i :: 0 <= i < |es| ==> r[i].Keys == es[i].Keys - {name}
    ensures forall i, k :: 0 <= i < |es| && k in r[i] ==> r[i][k] == es[i][k]
  {
    if es == [] then [] else [es[0] - {name}] + StripKey(es[1..], name)
  }

  /** A custom field named `id` erases every entry's id: afterwards any two
      entries answer to the same id `''`. */
  lemma BackfillIdMergesIds(es: seq<Record>)
    requires |es| >= 2
    ensures !IdsUnique(Backfill(es, "id"))
  {
    var r := Backfill(es, "id");
    assert IdOf(r[0]) == Some(Str("")) == IdOf(r[1]);
  }
}
