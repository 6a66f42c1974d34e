# F95Zone game notes — a Dafny model

A browser extension for the F95Zone forum that lets a user keep a private note
per game thread. It has three parts:

- a **content script** (`content.js`). It recognises the site's "latest updates"
  list and its game thread pages. It mounts a small note widget per thread, with a
  display view, an edit view and an "Add Note" view. It keeps each note in the
  extension's local store under `note_<thread id>`.
- a **settings page** (`options.js`) and a **popup** (`popup.js`). Each offers
  bulk export, bulk import and clear-all over that store. Both accept the legacy
  key prefix `comment_` as well.

The model is a set of pure functions over immutable values. The store is a map.
The widget is a record of three visibility flags plus its texts. A parsed JSON file
is a `Json` datatype whose objects keep their member list, so JSON's "a repeated
key keeps its last value" rule can be stated, and so can the order in which an
import visits the keys (creation order; see "Left out" for array-index keys).

The modules follow the program:

- `JsString`: the string builtins the scripts rely on. These are `startsWith`,
  `includes`, first-occurrence `replace` and `trim`, with the ECMAScript white-space
  and line-terminator sets.
- `Json`: parsed values, truthiness, `||`, property access and `Object.keys`
  enumeration.
- `NoteKeys`: the two key prefixes and the key renaming done on import.
- `Bulk`: export and clear, which both pages implement with the same rules, and
  the note count, which only the settings page shows (`loadStats`; the popup has
  no statistics).
- `BulkImport`: the import handlers. One walk is parameterised by the page's value
  rule. The settings page wraps values as `{text, version, savedAt}` objects; the
  popup keeps bare strings only.
- `ImportProperties`: round trips between export and import, idempotence of
  re-import, and small concrete files.
- `Widget`: one widget's state machine, with its click and key handlers.
- `PageInit`: page classification and the thread-id regex with its leftmost and
  greedy semantics. It also covers the thread-id fallbacks, mounting widgets at
  most once per id, `initializeExtension`, and events on a page of many widgets.

Inputs the scripts get from the browser become parameters:

- the URL;
- whether the container element exists;
- the tiles' `data-thread-id` attributes;
- the `data-lb-id` attribute;
- the result of the page-HTML scan;
- the answer to `confirm`;
- the parsed file;
- the clock reading `now`.

## Model

| member | source | states |
|---|---|---|
| JsString.IndexOf | content.js:15 | the index found is an occurrence and no earlier index is one; there is none exactly when the pattern occurs nowhere |
| JsString.ReplaceFirst | content.js:72 | only the first occurrence is replaced; a string without the pattern is returned unchanged, and one starting with it loses exactly that prefix |
| JsString.Trim | content.js:254 | the result is the middle of the input between a trimmable prefix and suffix, with non-trimmable ends; it is empty exactly when every character is white space or a line terminator |
| JsString.TrimUnique | content.js:254 | any split into white-space prefix, non-white-space-ended middle and white-space suffix is the one `trim` finds |
| JsString.TrimIdempotent | content.js:313-314 | trimming an already trimmed note changes nothing, so the second `trim` in `saveNote` agrees with the handler's |
| Json.Member | options.js:54 | a property exists exactly when its key is listed, and its value is the one listed LAST with that key, as `JSON.parse` keeps it |
| Json.ObjectEntries | options.js:57 | `Object.keys` visits each listed key once |
| Json.ObjectEntriesValues | options.js:57 | each visited key carries the value parsing keeps for it |
| Json.ObjectEntriesOfDistinct | options.js:57 | a member list with distinct keys is visited in its own order with its own values |
| Json.Property | options.js:69-71 | only a parsed object carries the `text`, `version` and `savedAt` fields the handler reads |
| Json.OwnEntries | options.js:57 | enumerating `null` throws; an object yields its members; booleans and numbers yield no keys; strings and arrays yield only index keys |
| NoteKeys.NoteKey | content.js:320 | the slot of a thread is a current-prefix key, never a legacy one, and the id can be read back from it |
| NoteKeys.PrefixesDisjoint | options.js:98 | no key carries both prefixes |
| NoteKeys.NoteKeyInjective | content.js:313-323 | distinct threads never share a slot |
| NoteKeys.ImportKey | options.js:58-60 | a key survives exactly when it has either prefix; current keys are kept and legacy keys become the current key of the same id |
| NoteKeys.ImportKeyIsReplace | options.js:58 | the renaming agrees with a first-occurrence `replace` of the legacy prefix |
| NoteKeys.LegacyKeyImportsAs | popup.js:57 | the legacy key of a thread imports into that thread's slot |
| NoteKeys.ImportKeyInverse | popup.js:55-58 | exactly two file keys land in a thread's slot: its current key and its legacy key |
| NoteKeys.DigitKeysAreForeign | options.js:57-60 | an all-digit key, as every array-index key is, carries neither note prefix, so an import skips it |
| Bulk.Export | options.js:14-27 | export refuses exactly when no current-prefix key is stored; otherwise the file holds every such key with its value and no legacy key |
| Bulk.StatsAgreeWithExport | options.js:110-112 | the note count shown is zero exactly when export refuses, and otherwise is the number of notes exported |
| Bulk.NoteCount | options.js:110-121 | the count `loadStats` shows is zero exactly when the store holds no current-prefix key, and never exceeds the number of stored keys |
| Bulk.ClearLeavesNoNotes | options.js:94-112 | after a clear the statistics show no note, an export refuses, and a second clear finds nothing to remove |
| Bulk.Clear | options.js:94-106 | a refused confirmation does nothing. Otherwise, with no note keys nothing is removed; else every note key is removed, every other key keeps its value, and the count reported is the number removed |
| BulkImport.OptionsValue | options.js:61-73 | the settings page skips exactly null, booleans and numbers; a bare string becomes a note with that text, no version and the current time |
| BulkImport.OptionsValueFields | options.js:67-73 | an object or array becomes a note whose text, version and time are its own fields when truthy and `""`, `null` and now otherwise |
| BulkImport.OptionsValueIsNormal | options.js:62-72 | every value the settings page writes has the three fields in order, with a truthy time |
| BulkImport.StoredNoteFields | options.js:62-66 | a stored note's three fields read back as written |
| BulkImport.PopupNotesAreFileStrings | popup.js:54-60 | every note the popup writes is a string, and one that occurs as a value in the file |
| BulkImport.CollectNotesSpec | options.js:57-75 | the collected notes are exactly the slots some entry is accepted into, each holding the value of the last entry accepted into it |
| BulkImport.CollectStep | popup.js:54-60 | one iteration of the key walk keeps that description true |
| BulkImport.CollectValuesFromFile | options.js:57-75 | every collected value is what the page's value rule made of some value in the file |
| BulkImport.CollectIgnoresForeign | options.js:60 | the walk sees only the note-prefixed entries: dropping every other entry collects the same notes |
| BulkImport.CollectSeesOnlyNoteEntries | options.js:57-75 | two enumerations that agree on the note-prefixed entries and their order import the same notes, wherever the other keys sit |
| BulkImport.OptionsNotesAreNormal | options.js:57-75 | every note the settings page writes has the three fields in order and a truthy time |
| BulkImport.FileNotes | options.js:54-57 | key enumeration fails exactly on a `null` file |
| BulkImport.FileNotesAreNoteKeys | options.js:60-62 | whatever the file holds, only current-prefix slots are written |
| BulkImport.ImportIsMerge | options.js:77-88 | an import fails only on an unparsable or `null` file and writes nothing when no note survives. Otherwise it overwrites exactly the imported slots, keeps the rest of the store and reports how many slots it wrote |
| BulkImport.ImportKeepsForeignKeys | popup.js:67 | keys that are not note keys are never touched by an import |
| BulkImport.Import | options.js:48-91 | the import handler shared by both pages; its contract is BulkImport.ImportIsMerge and BulkImport.ImportKeepsForeignKeys |
| BulkImport.ImportOptions | options.js:48-91 | the settings page's import; it writes only normal-form notes (BulkImport.OptionsNotesAreNormal) |
| BulkImport.ImportPopup | popup.js:43-83 | the popup's import; it writes only strings found in the file (BulkImport.PopupNotesAreFileStrings) |
| BulkImport.CollectNotes | options.js:57-75 | the `forEach` that builds `validNotes`; its specification is BulkImport.CollectNotesSpec |
| BulkImport.Collect | popup.js:54-60 | one `forEach` iteration; BulkImport.CollectStep shows it keeps the walk's specification |
| ImportProperties.MapOf | options.js:29 | a serialised object with distinct keys denotes each key with its listed value |
| ImportProperties.ReshapedIsMapOf | options.js:57-75 | reshaping a serialised object entry by entry is reshaping the object it denotes |
| ImportProperties.CollectAllAccepted | options.js:57-75 | when every entry is an accepted current-prefix entry, the walk yields every entry, reshaped |
| ImportProperties.FileNotesListed | popup.js:54-60 | a serialised object of accepted note slots yields those slots with their reshaped values |
| ImportProperties.NormalNoteIsFixpoint | options.js:67-73 | a note already in the settings page's shape is stored exactly as it is |
| ImportProperties.NormalNotesAreFixpoints | options.js:67-73 | the same, for every note of a store |
| ImportProperties.OptionsValueIdempotent | options.js:61-73 | normalising a note twice, at any two times, is normalising it once |
| ImportProperties.ImportOfNotes | options.js:77-83 | a file yielding notes is one merge of exactly those notes, reporting their number |
| ImportProperties.ImportListed | options.js:57-83 | importing a serialised object of accepted note slots merges exactly its reshaped slots |
| ImportProperties.ReshapedUnchanged | popup.js:55-58 | a value rule that keeps every value reshapes nothing |
| ImportProperties.ImportListedUnchanged | popup.js:54-72 | when the rule keeps every value, the import writes the serialised object itself |
| ImportProperties.PopupRoundTrip | popup.js:9-72 | a popup export of string notes, imported through the popup into an empty store, restores exactly the exported notes with the count the statistics show |
| ImportProperties.OptionsKeepsText | options.js:61-66 | a bare string becomes a note whose text is that string |
| ImportProperties.ImportListedFresh | options.js:57-83 | into an empty store, the import writes exactly the reshaped serialised object |
| ImportProperties.ImportKeepsTexts | options.js:57-83 | when the rule keeps each value as the text field, every imported note carries its file value as text |
| ImportProperties.OptionsRoundTripText | options.js:14-83 | exporting string notes and importing the file on the settings page gives the same slots, each with the exported string as its text |
| ImportProperties.OptionsReimportListed | options.js:57-83 | re-importing normal-form notes the store already holds leaves the store unchanged |
| ImportProperties.OptionsReimportIsNoOp | options.js:14-83 | importing the settings page's own export back into the same store rewrites nothing and reports the note count |
| ImportProperties.CollectOne | options.js:57-75 | a one-entry file is one iteration of the walk |
| ImportProperties.CollectTwo | options.js:57-75 | a two-entry file is two iterations, in file order |
| ImportProperties.CollisionLaterWins | options.js:58-73 | a current and a legacy entry for one thread collide in one slot, and the later one in the file wins |
| ImportProperties.ForeignKeySkipped | popup.js:54-60 | a foreign key beside a note is skipped and the note alone is imported |
| ImportProperties.LegacyKeyRenamedPopup | popup.js:54-60 | a legacy entry imports through the popup into the thread's current slot, unchanged |
| ImportProperties.LegacyKeyRenamedOptions | options.js:57-66 | a legacy entry imports through the settings page into the thread's current slot with its string as text |
| ImportProperties.NonObjectFileHasNoNotes | options.js:57-80 | a top-level boolean, number, string or array has only index keys, so no note survives |
| Widget.ShowEditMode | content.js:281-290 | entering edit mode leaves the edit view as the only one shown and keeps the texts |
| Widget.UpdateNoteDisplay | content.js:295-311 | the edit view is hidden. A non-empty note is shown in the display view; an empty one shows the empty view instead |
| Widget.SaveNote | content.js:313-323 | a note that trims to nothing removes the thread's slot, any other is stored there, and no other slot changes |
| Widget.SaveThenLoad | content.js:313-334 | after a trimmed note is saved, `loadNote` reads back exactly that note; a blank one reads back as empty |
| Widget.LoadNote | content.js:325-334 | loading puts the stored note in the textarea and shows it, or the empty view when there is none |
| Widget.Mounted | content.js:188-215 | a freshly inserted and loaded widget shows exactly one view |
| Widget.FreshShowsTwoViews | content.js:189-205 | the template alone shows both the edit and the empty view; after loading, exactly one view is shown and it agrees with the store |
| Widget.StepKeepsOneVisible | content.js:226-278 | every click or key keeps exactly one view shown |
| Widget.StepTouchesOwnSlot | content.js:239-263 | every event writes at most its own thread's slot |
| Widget.StepKeepsClean | content.js:252-257 | every event keeps each stored note non-empty and trimmed |
| Widget.StepKeepsSynced | content.js:226-278 | outside edit mode, the widget keeps showing exactly what its slot holds |
| Widget.SaveStoresTrimmed | content.js:252-257 | Save stores the trimmed textarea, or removes the slot when it is blank, and shows what was saved; the textarea keeps what was typed |
| Widget.DeleteClears | content.js:239-249 | a confirmed delete empties the slot and the textarea and shows the empty view; a refused one changes nothing |
| Widget.KeyDownIsSaveOrCancel | content.js:266-278 | Ctrl+Enter is Save, Escape is Cancel, and any other key does nothing |
| Widget.CancelReloads | content.js:325-334 | Cancel keeps the store and resets the textarea from it; a missing slot gives an empty textarea and the empty view |
| Widget.CancelDiscardsInput | content.js:260-263 | typing then cancelling is the same as cancelling alone |
| Widget.SaveThenCancel | content.js:252-263 | cancelling after a save puts the trimmed text back in the textarea and keeps the store |
| Widget.SaveIdempotent | content.js:252-257 | saving twice is saving once |
| Widget.Step | content.js:226-278 | the click and key handlers; their invariants are Widget.StepKeepsOneVisible, Widget.StepKeepsClean, Widget.StepKeepsSynced and Widget.StepTouchesOwnSlot |
| Widget.Save | content.js:252-257 | the Save handler; see Widget.SaveStoresTrimmed and Widget.SaveIdempotent |
| Widget.Cancel | content.js:260-263 | the Cancel handler; see Widget.CancelReloads and Widget.CancelDiscardsInput |
| Widget.Delete | content.js:239-249 | the Delete handler; see Widget.DeleteClears |
| Widget.KeyDownHandler | content.js:266-278 | the textarea key handler; see Widget.KeyDownIsSaveOrCancel |
| PageInit.UrlIdMeansGamePage | content.js:15-19 | a URL the thread-id pattern matches holds the threads marker, so it is classified a game page unless the updates marker, which takes precedence, is also present |
| PageInit.GroupText | content.js:62-64 | the captured group is a non-empty run of digits |
| PageInit.FirstMatch | content.js:62 | the engine's match starts at the leftmost position where the pattern matches, and there takes the last dot that lets the rest match |
| PageInit.UrlThreadId | content.js:62-65 | the URL yields an all-digit id exactly when the pattern matches somewhere |
| PageInit.UrlThreadIdIsLeftmostGreedy | content.js:62-65 | the id is the digit group after the last matching dot on the leftmost `/threads/` that has a match |
| PageInit.ThreadUrlYieldsId | content.js:61-65 | a one-line URL `…/threads/<slug>.<id>/<rest>` without dots in slug and rest yields `<id>` |
| PageInit.ExtractThreadId | content.js:60-83 | the URL id wins. Otherwise a `data-lb-id` starting with `thread-` is used without its prefix. Otherwise the page-HTML scan decides |
| PageInit.LbIdYieldsSuffix | content.js:68-74 | `data-lb-id="thread-X"` yields exactly `X` when the URL has no id |
| PageInit.MountTwice | content.js:164-171 | mounting the same id twice adds no second widget; a missing or empty id mounts nothing |
| PageInit.MountAllSpec | content.js:128-135 | mounting a tile list keeps every existing widget and adds one loaded widget per offered id not yet mounted, and nothing else |
| PageInit.MountAllIdempotent | content.js:147-152 | mounting the same tiles again changes nothing |
| PageInit.NothingNewToMount | content.js:131 | a tile list whose ids are all mounted leaves the page alone |
| PageInit.MountAll | content.js:128-135 | `processExistingTiles` over a tile list; its contract is PageInit.MountAllSpec |
| PageInit.Initialize | content.js:13-58 | other pages are ignored and a missing container means retry. An updates page mounts its tiles. A game page without a non-empty id stops, and otherwise mounts one widget for that id |
| PageInit.InitializeTwice | content.js:2-11 | running initialisation a second time on the page the first run produced changes nothing |
| PageInit.MountAllKeepsConsistent | content.js:208-215 | mounting keeps every widget showing one view in agreement with its slot |
| PageInit.PageStepKeepsConsistent | content.js:218-279 | an event on one widget keeps every widget on the page consistent with the store |
| PageInit.PageStep | content.js:218-279 | an event on one widget of a page; see PageInit.PageStepKeepsConsistent |

## Left out

- Browser plumbing is not modelled:
  - DOM construction, re-parenting of tiles into wrappers, and the HTML templates beyond their initial visibility;
  - CSS, focus and its 50 ms timer;
  - status messages and their timers;
  - the download link and the `Blob`;
  - the file picker, `FileReader` and `JSON.parse` itself. An import receives the parsed value, or `None` when parsing threw.
- Asynchrony is not modelled. Storage calls are synchronous map operations on one snapshot, so races between tabs or overlapping handlers are out of scope, and so are `chrome.runtime.lastError` failures.
- The one-second retry loop is only reported as the `Retry` outcome. The `MutationObserver` is modelled as further calls of `MountAll` with the added tiles.
- `escapeHtml` (content.js:336-340) is unused by the script and is not modelled.
- PageInit.ExtractThreadId: the last-resort scan of the page HTML, `/thread[_-](\d+)/i`, is an input, because the page HTML is outside the model.
- BulkImport.OptionsValue: the source calls `new Date()` once per entry. The model uses one `now` for the whole import, because the clock is outside the model.
- Widget.LoadedNote: the widget store holds strings only. A note imported by the settings page is an object, and `loadNote` would show it as text; that mixed case is not modelled.
- Json.ObjectEntries: keys are enumerated in creation order, each at its first occurrence. `Object.keys` lists array-index keys such as "0" or "17" first, in ascending numeric order, and only then the other keys in creation order, so `{"b":1,"0":2}` enumerates as `["0","b"]` in JavaScript but as `["b","0"]` here. An import cannot observe the difference: an index key is all digits and carries no note prefix (NoteKeys.DigitKeysAreForeign), and the walk depends only on the note-prefixed entries and their relative order (BulkImport.CollectSeesOnlyNoteEntries), which both enumerations share.
- Json.ObjectEntriesOfDistinct: the member list with distinct keys is the enumeration this model uses; it equals the `Object.keys` order only when no key is an array index, for the reason given on the line above.
- Numbers are mathematical reals, not IEEE doubles. Strings are sequences of characters rather than UTF-16 code units; this matters only for `trim`'s character classes.
- Widget.Step: any event may occur in any view. The buttons of hidden views are not excluded, so the lemmas hold for more event sequences than a user can produce.
- PageInit.Page: tile widgets (`note-section-<id>`) and game-page widgets (`game-note-section-<id>`) share one map. The two never occur on the same page.
- Bulk.Clear follows the code: both pages ask for confirmation first and only then look for note keys.
- BulkImport.OptionsValue follows the code. It accepts any object-typed value, arrays included, and reads its `text`, `version` and `savedAt` fields. It does not require the `{text, version, savedAt}` shape.
