# Checklist store and page transforms, modelled in Dafny

The application keeps checklist templates, running ("active") checklists
and completed ("archived") checklists in three persisted collections. The
storage module reads a whole collection, transforms it and writes it back.
It can:

- insert or update a template;
- start a checklist from a template, with every entry open;
- save a running checklist, archiving it as soon as every entry is done;
- archive a checklist at most once;
- delete records from each collection.

The pages around the store apply small list transforms:

- the runner toggles an entry and splits the entries into open and done;
- the template editor adds, edits and removes entries, and validates the
  name before saving;
- the three list pages search by name (and, in the archive, by entry text)
  ignoring case;
- the active list shows its checklists newest first, and the archive shows
  the most recently completed first; the template list keeps stored order;
- the active list computes a progress percentage.

Layout:

- `records.dfy` (`Records`): the record types as persisted. A key that a
  record may lack is an `Option`.
- `seqs.dfy` (`Seqs`): the array methods the code relies on (`filter`,
  `findIndex`, `find`, `some`, `every`, a stable descending sort), with their
  properties.
- `text.dfy` (`Text`): `trim`, `toLowerCase` and `includes` on strings.
- `storage.dfy` (`Storage`):
  - one pure function per storage operation, giving the state that
    operation leaves behind;
  - the lemmas stating each operation's effect and that identifiers stay
    unique in each collection;
  - the class `Store`, whose three `seq` fields are the persisted
    collections. Its methods update the fields in place and are proved equal
    to the transition functions.
- `checklist_runner.dfy`, `template_editor.dfy`, `template_list.dfy`,
  `active_checklist_list.dfy`, `archive_list.dfy`: the list transforms of
  each page.

How the environment is represented:

- `uuidv4()` is a parameter `newId`. Where the code depends on the
  identifier being new, a precondition says it is not yet in use.
- `Date.now()` is a parameter `now`. Facts that compare two times, such as a
  completion time not being before the start time, hold for a clock that
  has not gone back, and say so in their preconditions.
- Throwing the `TypeError` of `template.items.map` on a template stored
  without items is the result `StartResult.Thrown`. The state is left
  unchanged.

Two behaviours of the code differ from what the store is meant to do; the
model follows the code:

- `saveTemplate` with an identifier that matches no record stores the
  record under a new identifier. It is meant to return the identifier it
  used, but it returns the caller's (src/utils/storage.js:46, 53), and a lookup by the
  returned identifier finds nothing (`Storage.UpsertUnknownId`). That
  branch also does not default `items`, so the stored template can lack
  them.
- An active checklist whose entries are all done is meant never to stay
  persisted. Starting from a template with no entries persists
  exactly such a checklist, because only a save archives
  (`Storage.StartFromEmptyTemplate`).

## Model

| member | source | states |
|---|---|---|
| Storage.TemplateById | src/utils/storage.js:32-35 | absent exactly when no template has the id; otherwise the first template with that id |
| Storage.TemplateIndex | src/utils/storage.js:41-42 | None exactly when the id is missing; otherwise the position of the first template carrying it |
| Storage.ChecklistById | src/utils/storage.js:68-71 | absent exactly when no active checklist has the id; otherwise the record at the first position that has it |
| Storage.ChecklistIndex | src/utils/storage.js:95-96 | None exactly when the id is not active; otherwise the first position carrying it |
| Storage.IsArchived | src/utils/storage.js:125 | true exactly when some archived record has the id |
| Storage.AllDone | src/utils/storage.js:101 | true exactly when every entry is done; so true for no entries |
| Storage.UpsertExisting | src/utils/storage.js:39-43 | a known id rewrites only that record: the name and supplied items are taken over, the id and unsupplied items are kept, the length and all other records are unchanged, and the id is returned |
| Storage.UpsertNew | src/utils/storage.js:48-53 | without an id, exactly one record is appended under the new id, with items defaulting to empty; that id is returned and the lookup by it finds the record |
| Storage.UpsertUnknownId | src/utils/storage.js:44-53 | an unknown id appends the record under a different new id without defaulting items, returns the caller's id, and the lookup by the returned id finds nothing |
| Storage.UpsertKeepsValid | src/utils/storage.js:37-54 | with a new id not in use, template ids stay unique |
| Storage.WithoutTemplate | src/utils/storage.js:56-62 | removes every template with the id, keeps the rest in order, and changes nothing when the id is absent |
| Storage.WithoutChecklist | src/utils/storage.js:110-114 | removes every active checklist with the id, keeps the rest in order, and changes nothing when the id is absent |
| Storage.WithoutArchived | src/utils/storage.js:140-144 | removes every archived checklist with the id, keeps the rest in order, and changes nothing when the id is absent |
| Storage.DeletesKeepValid | src/utils/storage.js:56-62 | each delete keeps ids unique in every collection |
| Storage.StartFromMissing | src/utils/storage.js:74-78 | a missing template gives the null result and an unchanged store |
| Storage.StartFromExisting | src/utils/storage.js:80-90 | exactly one checklist is appended and its new id returned; it has the template's id, the template's name followed by " (Instanz)", `now` as start time, and the template's entries in order with none done; the other collections are unchanged |
| Storage.StartFromItemless | src/utils/storage.js:85 | a template without items makes the start throw, leaving the store unchanged |
| Storage.StartFromEmptyTemplate | src/utils/storage.js:80-90 | a template with no entries yields an active checklist that is already complete |
| Storage.StartKeepsValid | src/utils/storage.js:73-91 | with a new id not in use, active ids stay unique |
| Storage.ArchiveInactive | src/utils/storage.js:121-122 | archiving an id that is not active changes nothing |
| Storage.ArchiveActive | src/utils/storage.js:124-137 | archiving removes the id from active in all cases; it appends the first active record stamped with `now` only if the archive lacked the id; afterwards the archive holds the id, once if it did not before |
| Storage.ArchivedCountZero | src/utils/storage.js:125 | the archive has no record with the id exactly when the count of such records is zero |
| Storage.ArchiveIdempotent | src/utils/storage.js:120-138 | archiving twice equals archiving once |
| Storage.ArchiveTwiceOneCopy | src/utils/storage.js:127-137 | for an active id archived at most once before, two archive calls leave the id in no active record and in exactly one archived record |
| Storage.ValidArchivedAtMostOnce | src/utils/storage.js:125-134 | in a store whose ids are unique, every id is archived at most once, so Storage.ArchiveTwiceOneCopy applies to every valid store |
| Storage.ArchiveKeepsValid | src/utils/storage.js:120-138 | archiving keeps ids unique |
| Storage.SaveActiveUnknown | src/utils/storage.js:105-107 | saving an id that is not active changes nothing and reports not found |
| Storage.SaveActiveKnown | src/utils/storage.js:96-104 | a known id merges the supplied fields; the record stays active exactly when an entry is still open, in which case only that position changes; otherwise every active record with the id, and only those, is removed, and the archive gains `Completed(merged, now)` at the end if it lacked the id and is unchanged if it had it; an empty entry list archives |
| Storage.SaveActiveCompletesOnce | src/utils/storage.js:100-104 | completing a never-archived checklist leaves exactly one archived copy and no active one; when the clock has not gone back (`now >= createdAt`), its completion time is not before its start time |
| Storage.SaveActiveKeepsValid | src/utils/storage.js:93-108 | saving keeps ids unique |
| Storage.Store.constructor | src/utils/storage.js:30 | the store holds the collections it was read with |
| Storage.Store.SaveTemplate | src/utils/storage.js:37-54 | updates the template field in place to the upsert result, returns its id, changes no other collection, and keeps ids unique |
| Storage.Store.DeleteTemplate | src/utils/storage.js:56-62 | the template field becomes the filtered collection; the other collections are unchanged |
| Storage.Store.StartChecklistFromTemplate | src/utils/storage.js:73-91 | the new state and the result are those of the start transition; ids stay unique |
| Storage.Store.SaveActiveChecklist | src/utils/storage.js:93-108 | the new state and the found flag are those of the save transition, including the archiving step; ids stay unique |
| Storage.Store.DeleteActiveChecklist | src/utils/storage.js:110-114 | the active field becomes the filtered collection; the other collections are unchanged |
| Storage.Store.ArchiveChecklist | src/utils/storage.js:120-138 | the new state is the archive transition's; ids stay unique |
| Storage.Store.DeleteArchivedChecklist | src/utils/storage.js:140-144 | the archived field becomes the filtered collection; the other collections are unchanged |
| ChecklistRunner.ToggleEffect | src/pages/ChecklistRunner.jsx:28-32 | the toggle keeps count, order, ids and texts; it flips `done` on exactly the entries with the id, leaves the others as they were, and changes no other field of the checklist |
| ChecklistRunner.ToggleTwice | src/pages/ChecklistRunner.jsx:29 | toggling the same entry twice restores the checklist |
| ChecklistRunner.CompletedByToggle | src/pages/ChecklistRunner.jsx:40-44 | completion is announced exactly when the toggled checklist has no open entry, the list the page shows at src/pages/ChecklistRunner.jsx:60 |
| Records.Completed | src/utils/storage.js:127-130 | the archived record carries the given completion time, and dropping it gives back the active record unchanged |
| ChecklistRunner.CompletedByToggleIff | src/pages/ChecklistRunner.jsx:40-44 | completion is announced exactly when the toggled entries were open and all others were done |
| ChecklistRunner.ToggleThenSave | src/pages/ChecklistRunner.jsx:34-44 | saving the toggled checklist removes it from active exactly when the page announces completion (it is then archived); otherwise the toggled record replaces it in place |
| ChecklistRunner.OpenDonePartition | src/pages/ChecklistRunner.jsx:60-61 | open and done lists keep order, each entry is in the list its flag selects, the counts sum to the total, and together they are a permutation of the entries |
| ChecklistRunner.NoOpenItemsIffAllDone | src/pages/ChecklistRunner.jsx:69-70 | "all done" is shown exactly when every entry is done |
| TemplateEditor.LoadForEditing | src/pages/TemplateEditor.jsx:17-25 | absent exactly when the template is missing; otherwise the name and items (empty when missing) of the first template with that id |
| TemplateEditor.AddItemEffect | src/pages/TemplateEditor.jsx:33-39 | a non-blank input appends exactly one entry with the trimmed text and a new id, and clears the input; a blank input changes nothing |
| TemplateEditor.EditItemEffect | src/pages/TemplateEditor.jsx:41-45 | editing keeps length, order and ids, sets the text of the entries with the id and leaves the others unchanged |
| TemplateEditor.EditItemLastWins | src/pages/TemplateEditor.jsx:42-44 | two edits of an entry equal the second edit alone |
| TemplateEditor.RemoveItem | src/pages/TemplateEditor.jsx:47-49 | drops every entry with the id, keeps the rest in order, and changes nothing when the id is absent |
| TemplateEditor.SaveData | src/pages/TemplateEditor.jsx:51-60 | refused exactly when the name is blank; otherwise carries the trimmed non-empty name and the current items, and an id exactly when editing |
| TemplateEditor.CreateRoundTrip | src/pages/TemplateEditor.jsx:56-61 | saving a new template returns the new id, under which the store and the editor find the trimmed name and the items |
| TemplateEditor.EditRoundTrip | src/pages/TemplateEditor.jsx:56-61 | saving an edited template returns its id and keeps the count; reloading gives the trimmed name and the edited items |
| Text.Trim | src/pages/TemplateEditor.jsx:35-36 | the result is a slice of the input with only white space before and after it, and it neither starts nor ends with white space; it is empty exactly when the input is all white space |
| Text.IncludesIffOccurs | src/pages/TemplateList.jsx:22 | `includes` holds exactly when the term occurs at some position |
| TemplateList.FilterTemplatesSpec | src/pages/TemplateList.jsx:17-24 | an empty term keeps all templates; otherwise the result is an ordered subsequence holding exactly the templates whose lower-cased name contains the lower-cased term |
| TemplateList.FilterTemplatesIgnoresCase | src/pages/TemplateList.jsx:21-23 | terms that agree after lower-casing give the same result |
| TemplateList.KitchenSearch | src/pages/TemplateList.jsx:17-24 | "kitchen" finds "Kitchen" and "kitchen checklist" but not "Office", in order |
| ActiveChecklistList.StartCandidatesSpec | src/pages/ActiveChecklistList.jsx:19-26 | an empty term offers no template; otherwise the offer is an ordered subsequence with exactly the matching names, the same as the template list's search |
| ActiveChecklistList.RoundedPercent | src/pages/ActiveChecklistList.jsx:60 | the percentage is the nearest integer to 100·done/total (halves up) |
| ActiveChecklistList.RoundedPercentBounds | src/pages/ActiveChecklistList.jsx:60 | the percentage lies in 0..100; it is 0 when nothing is done and 100 when everything is |
| ActiveChecklistList.GetProgress | src/pages/ActiveChecklistList.jsx:56-62 | no entries gives "0%"; otherwise total is the entry count, done is at most the total, and the percentage lies in 0..100, at the ends when none or all are done |
| ActiveChecklistList.ProgressCounts | src/pages/ActiveChecklistList.jsx:59 | the done count is 0 exactly when no entry is done, and equals the total exactly when all are |
| ActiveChecklistList.NewestFirstSpec | src/pages/ActiveChecklistList.jsx:96 | the shown list is ordered by non-increasing start time and is a permutation of the loaded list |
| ArchiveList.FilterArchiveSpec | src/pages/ArchiveList.jsx:15-23 | an empty term keeps the archive; otherwise the result is an ordered subsequence with exactly the checklists whose name or some entry text contains the term ignoring case |
| ArchiveList.FilterArchiveIgnoresCase | src/pages/ArchiveList.jsx:19-22 | terms that agree after lower-casing give the same result |
| ArchiveList.ShownSpec | src/pages/ArchiveList.jsx:60 | the shown list is ordered by non-increasing completion time and is a permutation of the search result |
| Storage.MergeTemplate | src/utils/storage.js:43 | the name is the supplied one; supplied items replace the stored ones and unsupplied items are kept; the id is kept when none or the same one is supplied |
| Storage.UpsertTemplate | src/utils/storage.js:37-54 | the collection keeps its length exactly when a truthy known id is supplied; otherwise the old records stay unchanged in front and one record with the new id follows; no position changes its id; the result is the caller's id when truthy, else the new id |
| Storage.Unchecked | src/utils/storage.js:85 | the entries of the template in order with the same ids and texts, none done; all done exactly when the template has no entries |
| Storage.StartFrom | src/utils/storage.js:73-91 | templates and archive unchanged; the null result exactly when the template is missing; the store is unchanged unless a checklist started; a start returns the new id and appends exactly one record with that id after the unchanged active list |
| Storage.ArchiveTransition | src/utils/storage.js:120-138 | templates unchanged; afterwards no active record has the id; an id that was active is then in the archive; the archive only grows, by at most one record at its end |
| Storage.MergeChecklist | src/utils/storage.js:97 | the id is the supplied one, every supplied field (template id, name, items, start time) replaces the stored value, and every unsupplied field keeps it |
| Storage.SaveActive | src/utils/storage.js:93-108 | reports found exactly when the id is active; not found changes nothing; templates unchanged; the archive only grows, by at most one record at its end |
| ChecklistRunner.ToggleItems | src/pages/ChecklistRunner.jsx:28-30 | same length, ids and texts in order; an entry's done flag changes exactly when it carries the id |
| ChecklistRunner.Toggle | src/pages/ChecklistRunner.jsx:32 | the updated checklist differs from the old one only in its items, of the same count |
| ChecklistRunner.OpenItems | src/pages/ChecklistRunner.jsx:60 | an ordered subsequence of the entries holding open entries only |
| ChecklistRunner.DoneItems | src/pages/ChecklistRunner.jsx:61 | an ordered subsequence of the entries holding done entries only |
| TemplateEditor.AddItem | src/pages/TemplateEditor.jsx:33-39 | the existing entries stay as a prefix and at most one is added; one is added exactly when the trimmed input is non-empty, and it is then the trimmed input under the new id and the input is cleared; a blank input changes nothing |
| TemplateEditor.EditItem | src/pages/TemplateEditor.jsx:41-45 | length and ids are kept; without an entry carrying the id nothing changes |
| Text.Lower | src/pages/TemplateList.jsx:22 | same length; no upper-case letter is left, so lower-casing again changes nothing; characters that are not upper-case letters are kept |
| Text.Includes | src/pages/TemplateList.jsx:22 | the empty term is always included and a term longer than the text never is |
| TemplateList.FilterTemplates | src/pages/TemplateList.jsx:17-24 | an ordered subsequence of the templates; all of them for an empty term |
| ActiveChecklistList.StartCandidates | src/pages/ActiveChecklistList.jsx:19-26 | an ordered subsequence of the templates; none for an empty term |
| ActiveChecklistList.NewestFirst | src/pages/ActiveChecklistList.jsx:96 | a permutation of the loaded checklists |
| ArchiveList.FilterArchive | src/pages/ArchiveList.jsx:15-23 | an ordered subsequence of the archive, drawn from it; the whole archive for an empty term |
| ArchiveList.LatestFirst | src/pages/ArchiveList.jsx:60 | a permutation of the found checklists |
| ArchiveList.Shown | src/pages/ArchiveList.jsx:60 | a permutation of the search result, every element of which is in the archive |
| Seqs.Filter | src/utils/storage.js:58 | an ordered subsequence, no longer than the input, holding only input elements; each input element satisfying the predicate keeps every one of its occurrences, and each other one none |
| Seqs.FindIndex | src/utils/storage.js:41 | None exactly when no position matches; otherwise a matching position with no match before it |
| Seqs.Find | src/utils/storage.js:34 | the first matching element of the sequence, absent exactly when no element matches |
| Seqs.Any | src/utils/storage.js:125 | true exactly when some position matches |
| Seqs.Every | src/utils/storage.js:101 | true exactly when every position matches |
| Seqs.SortDesc | src/pages/ActiveChecklistList.jsx:96 | keeps the length; order and permutation are stated by Seqs.SortDescCorrect |
| Seqs.SortDescCorrect | src/pages/ActiveChecklistList.jsx:96 | the descending sort orders by non-increasing key and is a permutation |
| Seqs.FilterPartition | src/pages/ChecklistRunner.jsx:60-61 | filtering by a predicate and by its negation splits the sequence: the lengths add up and so do the multisets |

## Left out

- Reading and writing `localStorage` with JSON (src/utils/storage.js:8-26), including the fall-back to an empty collection on a failed read and the dropped write on a failed write. The collections are in memory.
- `uuidv4()` and `Date.now()` are parameters.
- `console.error`, `alert`, `navigate`, the React state and effects, rendering, `toLocaleString`, and the confirmation dialog flags.
- src/App.jsx, src/components/ConfirmationDialog.jsx and src/pages/Overview.jsx are not part of this model.
- TemplateData.name is always supplied, as handleSave does (src/pages/TemplateEditor.jsx:56-60); a call of `saveTemplate` without a name, which would keep the stored name, is not modelled.
- Object spread of a key that is present with the value `undefined` is not modelled: a missing key is `None`, and a present one has a value.
- ActiveChecklistList.RoundedPercent: rounds the exact fraction, not the floating-point value that `Math.round((done / total) * 100)` sees. The two can differ when the product lands within rounding error of a half.
- Text.Lower: lower-cases the Basic Latin and Latin-1 letters only, not the full Unicode mapping of `toLowerCase`.
- Seqs.SortDesc: it is stable, like the engine's sort, but only order and permutation are proved. The in-place mutation of the page's state array by `.sort` is not modelled.
- The exception thrown when starting from a template without items is a result value; its propagation through the click handler is not modelled.
- The list pages' reloads of the collections after a delete are store reads and are not modelled.
