# Performance entry log

A Dafny model of the performance log kept by the `PerformanceTracker`
React component. The log is an ordered list of entries plus an ordered
registry of custom fields `{name, type}`, and the component also keeps a
draft entry. Built-in keys (`date`, `category`, `topics`, ...), custom
field keys and `id` all live in one JavaScript object. So here an entry is
a single `map<string, Value>`, and a custom field named `notes` or `id`
really does overwrite or strip the built-in value.

Modules, in dependency order:

- `Js` (`js.dfy`): the built-in JavaScript behaviour the log relies on,
  over exact values:
  - `trim`, using JavaScript's whitespace set;
  - `toLowerCase`;
  - `parseFloat(x) || 0`, as a decimal reader that returns 0 when no digit
    is found;
  - `Math.round`.
- `Records` (`records.dfy`): values, records, reading `entry.id`, and
  reading a key as a number.
- `FieldRegistry` (`registry.dfy`): the custom-field registry, the
  add-field validation, and removing a field.
- `EntryLog` (`entries.dfy`): the values the handlers build:
  - the default draft;
  - delete by id and replace by id;
  - back-filling and stripping a key.
- `Summary` (`summary.dfy`): the derived values:
  - per-entry progress;
  - the confidence clamp;
  - the four summary cards: total hours, goal rate, average confidence and
    topics covered.
- `Tracker` (`tracker.dfy`): the component as a class. Its fields are
  `entries`, `customFields` and `newEntry`, and its handlers replace each
  field with an `EntryLog`/`FieldRegistry` value built from the old state.
  The invariant `Valid` holds three things:
  - registered names are distinct ignoring case;
  - every entry carries a key for every registered field;
  - so does the draft.

  `AddEntry`, `DeleteEntry`, `SubmitCustomField`, `DeleteCustomField` and
  the draft setters preserve it unconditionally. `EditEntry` preserves it
  when the edited record has every registered key, as a copy of an entry
  does. The unguarded `AddCustomField` keeps only key coverage. Id
  uniqueness is preserved when the clock gives a fresh id.
- `EntryDetail` (`dialog.dfy`): the entry-detail dialog's copy of an entry,
  its edit inputs, and Save, Cancel and Delete. As written, the dialog
  cannot render at all (see "## Left out"), so this module models the
  dialog as it would behave once that scope error is fixed.

The clock is taken as parameters: the id `Date.now()` returns, and today's
date for the draft. The entries and fields read from `localStorage` are the
constructor's arguments.

## Model

| member | source | states |
|---|---|---|
| Js.TrimStart | src/components/PerformanceTracker.jsx:73 | the result is a suffix of the input that does not start with whitespace, and everything dropped is whitespace |
| Js.TrimEnd | src/components/PerformanceTracker.jsx:73 | the result is a prefix of the input that does not end with whitespace, and everything dropped is whitespace |
| Js.Trim | src/components/PerformanceTracker.jsx:73 | `trim()` is no longer than its input, neither starts nor ends with whitespace, and is empty exactly when the name is whitespace only |
| Js.LowerChar | src/components/PerformanceTracker.jsx:77 | a lower-cased character is never an ASCII capital |
| Js.ToLower | src/components/PerformanceTracker.jsx:77 | `toLowerCase` keeps the length and lowers each character in place |
| Js.ToLowerIdempotent | src/components/PerformanceTracker.jsx:77 | lower-casing an already lower-cased name changes nothing, so the registry's lower-case names compare with the typed name's lower-case form |
| Js.DigitRun | src/components/PerformanceTracker.jsx:154 | the run of leading digits `parseFloat` consumes is maximal |
| Js.FractionDigits | src/components/PerformanceTracker.jsx:154 | the fraction part is digits only, and is empty for a string without digits |
| Js.UnsignedValue | src/components/PerformanceTracker.jsx:154 | an unsigned numeral reads as a non-negative value, and as 0 when it has no digit |
| Js.ParseNum | src/components/PerformanceTracker.jsx:154-155 | `parseFloat(x) \|\| 0` reads 0 whenever no numeral (a digit, or a point and a digit) follows the leading whitespace and an optional sign, and so for any string without a digit (NaN becomes 0) |
| Js.UnsignedValueOfDigits | src/components/PerformanceTracker.jsx:154 | a string of digits reads as the number it spells |
| Js.ParseNumOfNat | src/components/PerformanceTracker.jsx:154 | reading back a written natural number gives that number |
| Js.ParseNumOfNegatedNat | src/components/PerformanceTracker.jsx:154 | a leading minus sign negates the number read |
| Js.DigitRunOfDigitsThen | src/components/PerformanceTracker.jsx:154 | the digits `parseFloat` consumes stop at the first non-digit |
| Js.UnsignedValueOfDecimal | src/components/PerformanceTracker.jsx:154 | a numeral `ds.fs` reads as the value of its whole digits plus that of its fraction digits |
| Js.ParseNumOfDecimal | src/components/PerformanceTracker.jsx:154 | reading back a written natural number followed by a point and fraction digits gives the number plus the fraction |
| Js.Round | src/components/PerformanceTracker.jsx:1001 | `Math.round` gives an integer within half of its argument, halves rounding up |
| Js.Min | src/components/PerformanceTracker.jsx:157 | `Math.min` is one of its arguments and no greater than either |
| Js.Max | src/components/PerformanceTracker.jsx:1003 | `Math.max` is one of its arguments and no less than either |
| Records.IdOf | src/components/PerformanceTracker.jsx:536 | `entry.id` is undefined exactly when the entry has no `id` key, and is otherwise the stored value |
| Records.JoinComma | src/components/PerformanceTracker.jsx:154 | an array turned into a string: empty gives `""`, one item gives that item, otherwise the first item is followed by a comma |
| Records.NumberOf | src/components/PerformanceTracker.jsx:154-155 | the empty string reads as 0 and a number reads as itself |
| Records.NumberAt | src/components/PerformanceTracker.jsx:986 | a missing key (undefined, so NaN) and an empty field both read as 0 |
| Records.NumberAtOfNat | src/components/PerformanceTracker.jsx:154 | a key holding a written natural number reads as that number |
| FieldRegistry.LowerNames | src/components/PerformanceTracker.jsx:1050 | the names the dialog checks against are the registered names lower-cased, one per record, in order |
| FieldRegistry.CheckFieldName | src/components/PerformanceTracker.jsx:71-81 | if and only if: a blank name is refused as required; otherwise a name whose lower-case form is already listed is refused as existing; otherwise it is accepted |
| FieldRegistry.AcceptedAddKeepsNamesDistinct | src/components/PerformanceTracker.jsx:77-81 | appending an accepted name, as typed, keeps the registered names distinct ignoring case |
| FieldRegistry.RegisteredNameIsTaken | src/components/PerformanceTracker.jsx:77-78 | once a name is registered, any non-blank name with the same lower-case form is refused as existing |
| FieldRegistry.NotesClashesWithRegisteredNotes | src/components/PerformanceTracker.jsx:77-78 | "Notes" is refused while "notes" is registered |
| FieldRegistry.WithoutField | src/components/PerformanceTracker.jsx:557 | exactly the records whose name equals the given one (case-sensitive) go, and the names left are the old names minus that name; an unregistered name changes nothing |
| FieldRegistry.WithoutFieldAppend | src/components/PerformanceTracker.jsx:557 | filtering distributes over concatenation, so the fields kept keep their relative order |
| FieldRegistry.WithoutFieldKeepsNamesDistinct | src/components/PerformanceTracker.jsx:557 | removing a field keeps the names distinct ignoring case |
| EntryLog.BlankFields | src/components/PerformanceTracker.jsx:511 | the `reduce` gives exactly one key per registered name, each holding `''` |
| EntryLog.DefaultDraft | src/components/PerformanceTracker.jsx:496-512 | the draft's keys are the fourteen built-ins plus the registered names; every registered name holds `''`; every other built-in keeps its default |
| EntryLog.AppendFreshKeepsIdsUnique | src/components/PerformanceTracker.jsx:515 | appending the draft under an id no entry has keeps the ids unique |
| EntryLog.DeleteById | src/components/PerformanceTracker.jsx:535-537 | an entry survives if and only if its id differs from the given one; an id no entry has leaves the list unchanged |
| EntryLog.DeleteByIdAppend | src/components/PerformanceTracker.jsx:536 | deleting distributes over concatenation, so the survivors keep their relative order |
| EntryLog.DeleteByIdKeepsIdsUnique | src/components/PerformanceTracker.jsx:536 | deleting keeps the ids unique |
| EntryLog.DeleteByIdRemovesOne | src/components/PerformanceTracker.jsx:536 | with unique ids, exactly one entry goes when some entry has the id, and none otherwise |
| EntryLog.ReplaceById | src/components/PerformanceTracker.jsx:641-644 | the length is kept; each entry whose id matches becomes the updated record and every other entry is unchanged; ids do not change; an unmatched id changes nothing |
| EntryLog.DeleteAfterReplace | src/components/PerformanceTracker.jsx:641-644 | deleting an entry after an edit gives the same list as deleting it without the edit |
| EntryLog.Backfill | src/components/PerformanceTracker.jsx:541-544 | every entry gains the key with `''`, overwriting what it held, and no other key changes |
| EntryLog.StripKey | src/components/PerformanceTracker.jsx:558-561 | every entry loses the key and keeps every other key and value |
| EntryLog.BackfillIdMergesIds | src/components/PerformanceTracker.jsx:541-544 | a custom field named `id` gives every entry the id `''`, so two or more entries stop having unique ids |
| Summary.Progress | src/components/PerformanceTracker.jsx:652-657 | at most 100; 0 when the target is 0; exactly 100·achieved/target when that ratio is at most 1 and exactly 100 when it is above 1; non-negative when achieved and target have the same sign |
| Summary.ProgressHasNoLowerBound | src/components/PerformanceTracker.jsx:656 | for every bound, some goal counts give progress below it |
| Summary.EntryProgress | src/components/PerformanceTracker.jsx:907 | an entry's progress bar is at most 100, and 0 when its goals set reads as 0 |
| Summary.ProgressOfHalf | src/components/PerformanceTracker.jsx:652-657 | achieving half of a positive target is 50 percent |
| Summary.HalfOfGoalsIsFifty | src/components/PerformanceTracker.jsx:652-657 | for every positive n, goals achieved written as n against goals set written as 2n give 50 |
| Summary.ZeroTargetIsZero | src/components/PerformanceTracker.jsx:153-158 | a goals-set text of "0" gives 0 whatever was achieved |
| Summary.ClampConfidence | src/components/PerformanceTracker.jsx:788 | the result is in [1, 10]; a value in range is kept; below 1 gives 1; above 10 gives 10 |
| Summary.Total | src/components/PerformanceTracker.jsx:986 | the sum over an empty log is 0, and over non-negative readings it is non-negative |
| Summary.TotalAppend | src/components/PerformanceTracker.jsx:986 | the total of two lists joined is the sum of their totals |
| Summary.TotalOfZeros | src/components/PerformanceTracker.jsx:986 | the total over entries that all read 0 is 0 |
| Summary.TotalOnScale | src/components/PerformanceTracker.jsx:1022 | when every reading is in [1, 10], the total is between n and 10n |
| Summary.TotalMonotone | src/components/PerformanceTracker.jsx:1002-1003 | when each entry reads no more under one key than under another, the totals compare the same way |
| Summary.TotalPointwise | src/components/PerformanceTracker.jsx:986 | lists that read the same at every position have the same total |
| Summary.TotalAfterBackfill | src/components/PerformanceTracker.jsx:541-544 | after back-filling a key, its total is 0 and every other key's total is unchanged |
| Summary.TotalAfterStrip | src/components/PerformanceTracker.jsx:558-561 | after stripping a key, its total is 0 and every other key's total is unchanged |
| Summary.TotalHours | src/components/PerformanceTracker.jsx:986 | the Total Hours card is 0 for an empty log and non-negative when no entry has negative hours |
| Summary.GoalRate | src/components/PerformanceTracker.jsx:1000-1006 | 0 for an empty log; otherwise within half of 100·Σachieved / max(1, Σset) |
| Summary.RateWithinPercent | src/components/PerformanceTracker.jsx:1000-1006 | when no entry claims more goals than it set and none is negative, the rate is between 0 and 100 |
| Summary.AverageConfidence | src/components/PerformanceTracker.jsx:1021-1023 | 0 for an empty log; otherwise the confidence total divided by the number of entries |
| Summary.Mean | src/components/PerformanceTracker.jsx:1022 | 0 over no items; otherwise the value that times the count gives the sum |
| Summary.AverageConfidenceInRange | src/components/PerformanceTracker.jsx:1021-1023 | when every confidence is in [1, 10], as the clamp keeps it, the average is in [1, 10] |
| Summary.TopicsOf | src/components/PerformanceTracker.jsx:1038 | an entry's topics are its `topics` list, and none when it has no list there |
| Summary.DraftHasNoTopics | src/components/PerformanceTracker.jsx:499 | a fresh draft lists no topics, whatever fields are registered |
| Summary.AllTopics | src/components/PerformanceTracker.jsx:1038 | a topic is in the flattened list if and only if some entry lists it |
| Summary.DistinctBound | src/components/PerformanceTracker.jsx:1038 | a `Set` built from a list has at most as many elements as the list |
| Summary.AllTopicsEmpty | src/components/PerformanceTracker.jsx:1038 | the flattened list is empty if and only if every entry's topic list is empty |
| Summary.DistinctCount | src/components/PerformanceTracker.jsx:1038 | `new Set(s).size` is the number of distinct elements of s, at most the length of s, and 0 if and only if s is empty |
| Summary.TopicCount | src/components/PerformanceTracker.jsx:1038 | the Topics Covered card is the number of distinct topics listed by any entry, at most the number of topic picks, and 0 if and only if no entry lists a topic (so 0 on an empty log) |
| Tracker.PerformanceTracker.constructor | src/components/PerformanceTracker.jsx:470-512 | starts from the stored entries and fields, with the default draft for those fields; well-formed when the stored data is |
| Tracker.PerformanceTracker.AddEntry | src/components/PerformanceTracker.jsx:514-533 | appends exactly the old draft with `id` set to the fresh id; earlier entries and fields are unchanged; the draft becomes the defaults; the invariant is kept; ids stay unique when the id is fresh |
| Tracker.PerformanceTracker.DeleteEntry | src/components/PerformanceTracker.jsx:535-537 | the entries become the ones whose id differs; fields and draft are unchanged; the invariant and id uniqueness are kept |
| Tracker.PerformanceTracker.EditEntry | src/components/PerformanceTracker.jsx:641-644 | the entries become the id-wise replacement; fields and draft are unchanged; the invariant is kept when the record has every registered key; id uniqueness is kept |
| Tracker.PerformanceTracker.AddCustomField | src/components/PerformanceTracker.jsx:539-548 | the field is appended; every entry and the draft get its key as `''`; key coverage is kept |
| Tracker.PerformanceTracker.SubmitCustomField | src/components/PerformanceTracker.jsx:71-81 | the verdict is the validation against the lower-cased names; a refusal changes nothing; an acceptance registers the name as typed and back-fills entries and draft; the invariant is kept |
| Tracker.PerformanceTracker.DeleteCustomField | src/components/PerformanceTracker.jsx:556-565 | removes the exact-name records and strips the key from every entry and the draft; the invariant is kept, and so is id uniqueness unless the name is `id` |
| Tracker.PerformanceTracker.SetDraftField | src/components/PerformanceTracker.jsx:729 | one draft key takes the typed value; entries and fields are unchanged; the invariant is kept |
| Tracker.PerformanceTracker.SelectDraftCategory | src/components/PerformanceTracker.jsx:739 | sets the category and clears the draft's topics |
| Tracker.PerformanceTracker.SetDraftConfidence | src/components/PerformanceTracker.jsx:788 | the draft's confidence becomes the clamped value, which is in [1, 10] |
| EntryDetail.ShownKey | src/components/PerformanceTracker.jsx:283 | each built-in input displays a built-in key other than `id`, and a custom input displays its field's name |
| EntryDetail.Shown | src/components/PerformanceTracker.jsx:454 | an input displays the value under its key, and nothing when that key is missing |
| EntryDetail.WrittenKeyAsWritten | src/components/PerformanceTracker.jsx:195 | as written, a built-in input's `onChange` writes under "undefined", and a custom input writes under its name |
| EntryDetail.EditAsWritten | src/components/PerformanceTracker.jsx:160-210 | a keystroke as written sets the written key to the text and leaves every other key alone |
| EntryDetail.BuiltinEditIsLost | src/components/PerformanceTracker.jsx:283 | as written, typing into a built-in input leaves the value it shows unchanged and stores the text under "undefined" |
| EntryDetail.DateEditCounterexample | src/components/PerformanceTracker.jsx:195 | as written, changing a fresh entry's date from 2024-05-01 to 2024-05-02 leaves it showing 2024-05-01 |
| EntryDetail.Edit | src/components/PerformanceTracker.jsx:160-210 | corrected keystroke: the input then shows the typed text; no other key changes; the id is kept unless the input is a custom field named `id` |
| EntryDetail.EntryDetailDialog.constructor | src/components/PerformanceTracker.jsx:131-136 | opening the dialog copies the entry |
| EntryDetail.EntryDetailDialog.EditInput | src/components/PerformanceTracker.jsx:205 | the copy takes the corrected keystroke and shows the typed text |
| EntryDetail.EntryDetailDialog.SelectCategory | src/components/PerformanceTracker.jsx:291 | sets the category and, unlike the draft form, keeps the topics |
| EntryDetail.EntryDetailDialog.SelectTopics | src/components/PerformanceTracker.jsx:314 | the chosen topics replace the old ones |
| EntryDetail.EntryDetailDialog.SelectDifficulty | src/components/PerformanceTracker.jsx:386 | sets the difficulty |
| EntryDetail.EntryDetailDialog.SetConfidence | src/components/PerformanceTracker.jsx:408-411 | the confidence becomes the clamped value, which is in [1, 10] |
| EntryDetail.EntryDetailDialog.Cancel | src/components/PerformanceTracker.jsx:148-151 | the copy goes back to the entry the dialog was opened on |
| EntryDetail.EntryDetailDialog.Save | src/components/PerformanceTracker.jsx:143-146 | the tracker's entries become the id-wise replacement by the copy, and nothing else of the tracker changes |
| EntryDetail.EntryDetailDialog.Delete | src/components/PerformanceTracker.jsx:249-252 | the tracker deletes by the opened entry's id, and nothing else of the tracker changes |

## Left out

- Loading from and saving to `localStorage` (lines 470-479, 488-494) is browser I/O plus JSON. The stored entries and fields are the constructor's arguments. The `JSON.parse` there is not guarded, so malformed stored data throws; the model claims no fallback for it.
- `Date.now()` and today's ISO date are clock reads, so they are parameters. The code does not guarantee a fresh id, so id uniqueness is proved only under the `IsFreshId` condition.
- Floating point is not modelled; arithmetic is over exact reals, which has these effects:
  - `Js.ParseNum` reads only a plain decimal numeral, so exponents (`1e3`) and `Infinity` read as their leading digits or 0;
  - NaN does not appear, because `|| 0` removes it;
  - the average's `toFixed(1)` formatting is not modelled;
  - `Math.round` is applied to an exact value.
- `Js.LowerChar`: maps only the ASCII letters. JavaScript's `toLowerCase` also lowers non-ASCII letters.
- `Summary.ClampConfidence`: takes a number. With a non-numeric input string, `Math.max(1, "abc")` is NaN; that coercion case is not modelled.
- `Summary.TopicsOf`: a `topics` value that is not a list is read as no topics. The code's `flatMap` would add the value itself, and the table's `topics.map` would throw. Every handler in the model stores a list there, except a custom field named `topics`.
- State comparison: equality of list values here is structural. JavaScript compares arrays by reference, but no compared value in the model is an array: ids are numbers or strings.
- Snackbar messages, the dialog's open/close and edit-mode flags, the `TOPICS` suggestions, and all rendering are UI only.
- `EntryDetailDialog` as written throws a `ReferenceError` on render. It uses `getCategoryIcon` (lines 301, 323, 336), `getDifficultyColor` (line 396) and `customFields` (lines 444, 451), which are declared only inside `PerformanceTracker` (lines 573, 582, 476). So none of its inputs and none of its Save, Cancel and Delete buttons are reachable as written. `handleEditEntry`, whose only caller is the dialog's `onSave` (line 1062), is never called either. The `EntryDetail` module and `Tracker.PerformanceTracker.EditEntry` model the behaviour once those names are in scope, and the model gives the dialog's custom inputs the registry's fields.
- `src/components/Dashboard.jsx`, `Login.jsx`, `Whiteboard.jsx` and `Navbar.jsx` are not part of this model: they are static markup, navigation and a third-party widget.
- Two places where the code does less than the design describes; the model follows the code:
  - progress has no lower bound, so negative goal counts give negative progress;
  - the log does not enforce unique ids;
  - confidence is not kept in [1, 10]: a custom field named `confidence` back-fills `''` into every entry and the draft, and that reads as 0 (`Summary.TotalAfterBackfill`).

## Findings

| source | as written | input that shows it | evidently intended | confidence | as-written member | corrected member |
|---|---|---|---|---|---|---|
| src/components/PerformanceTracker.jsx:195 | `renderField({ type: 'date' }, editedEntry.date)` passes no `name`, so `onChange` writes `[undefined]`, i.e. key "undefined"; the same holds for goals set, goals achieved, hours, resources and notes (lines 283, 351, 355, 378, 436, 440) | once the dialog's scope errors (lines 301, 396, 444) are fixed so that it renders: open an entry dated 2024-05-01, switch to edit and pick 2024-05-02; the date shown and saved stays 2024-05-01 | each built-in input writes the key it displays | not executed; follows from the language's computed-key semantics; as written the dialog first fails with a `ReferenceError`, so the lost edit shows only after that is fixed | EntryDetail.EditAsWritten, EntryDetail.BuiltinEditIsLost, EntryDetail.DateEditCounterexample | EntryDetail.Edit, EntryDetail.EntryDetailDialog.EditInput |
