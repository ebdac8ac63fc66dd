# Timetable generator and timetable context, modelled in Dafny

This project models two parts of a college timetable application.

The first is the greedy timetable engine in `src/utils/timetableGenerator.js`:
- It collects the distinct subjects named by faculty and student preferences.
- It orders them by descending weight (two per faculty preference, one per student preference).
- For each subject it lists the free candidate placements: faculty preferences score 3, student preferences score 2, and every free cell of the fixed 5 x 8 weekly grid scores 1 under the first faculty preference's teacher and room.
- It appends the best candidate to the growing timetable.

A separate validator reports pairwise teacher and room conflicts.

The second is the timetable logic inside the React context provider `src/contexts/TimetableContext.jsx`:
- validating a manually entered record against the day buckets;
- grouping the stored entry list into day buckets;
- deleting a record by id;
- rendering a 24-hour time as a 12-hour time;
- saving the entries to the stored document (`saveTimetable`, which the provider neither exports nor calls, so it is unreachable in the application);
- the finalize/approve workflow flags, written to the stored document and read back by the snapshot listener.

Modules:
- `Wrappers` (`wrappers.dfy`): `Option`, where `None` is JavaScript's `undefined`, and how a template literal renders it.
- `Collections` (`collections.dfy`): `Dedup`, the order of a JavaScript `Set`; `SortDesc`, the stable `Array.prototype.sort` under a `b - a` comparator; and `Concat`.
- `TimetableGenerator` (`generator.dfy`): the engine and the validator.
- `JsNumber` (`jsnumber.dfy`): `parseInt` without a radix, the truncating `%`, and number-to-text conversion.
- `TimetableContext` (`context.dfy`): the context logic, plus a class `TimetableState` holding the stored document, the local day buckets and the two flags. `addEntry` and `deleteEntry` change only the local buckets. The flag setters write the stored document, and the listener then reloads the buckets from it, so unsaved local edits are dropped.

How the JavaScript is represented:
- A preference map is a sequence of `(id, preference)` pairs in `Object.entries` order.
- Teacher and room are `Option<string>`, so `undefined === undefined` is `None == None`.
- `generateUniqueId` is an injected function `ids`: the k-th committed entry gets `ids(k)`.
- `Date.now()` is a parameter of `AddEntry`.

The loops of `findAvailableSlots`, `generateTimetable` and `validateTimetable` are methods. Each is proved equal to a specification function: `Candidates`, `Schedule` and `ConflictMessages`. The properties are lemmas about those functions.

`generateTimetable` returns only the timetable and sends the "could not find slot" message to the console. The context's `generationWarnings` state (`src/contexts/TimetableContext.jsx:41`) is never filled by the engine. The model returns the skipped subjects as a separate list next to the timetable, so that when a subject is skipped can be stated.

## Model

| member | source | states |
|---|---|---|
| TimetableGenerator.IsSlotAvailable | src/utils/timetableGenerator.js:10-16 | defines `!timetable.some(...)`: no committed entry `Blocks` the placement, walking the timetable from the front |
| TimetableGenerator.IsSlotAvailableIff | src/utils/timetableGenerator.js:10-16 | a placement is unavailable exactly when some committed entry has its day and time and the same teacher or the same room; with no entries every placement is available |
| TimetableGenerator.IsSlotAvailableAppend | src/utils/timetableGenerator.js:10-16 | after an entry is appended, a placement is free exactly when it was free before and the new entry does not block it |
| TimetableGenerator.SubjectPreferences | src/utils/timetableGenerator.js:23-30 | the selected preferences all name the subject, and every submitted preference naming the subject is selected |
| TimetableGenerator.SubjectPreferencesAppend | src/utils/timetableGenerator.js:23-30 | the filter distributes over concatenation, so the selected preferences keep `Object.entries` order |
| TimetableGenerator.SubjectPreferencesFrom | src/utils/timetableGenerator.js:23-30 | every selected preference is one of the submitted ones |
| TimetableGenerator.FreeSlots | src/utils/timetableGenerator.js:33-43 | every slot kept is one of the probes and is free |
| TimetableGenerator.FreeSlotsHead | src/utils/timetableGenerator.js:33-71 | the free probes are empty exactly when no probe is free; otherwise the list starts with the first free probe |
| TimetableGenerator.FreePreferenceSlots | src/utils/timetableGenerator.js:33-56 | a preference loop pushes exactly the free preferences, in order, with the loop's score |
| TimetableGenerator.FreeCellSlots | src/utils/timetableGenerator.js:59-71 | the nested day/time loop pushes exactly the free cells, day by day and time by time |
| TimetableGenerator.Candidates | src/utils/timetableGenerator.js:19-74 | defines the candidate list: the free faculty probes, then the free student probes, then the free grid probes |
| TimetableGenerator.FindAvailableSlots | src/utils/timetableGenerator.js:19-74 | the candidate list is the free faculty preferences (score 3), then the free student preferences (score 2), then the free grid cells (score 1) |
| TimetableGenerator.GridProbesScored | src/utils/timetableGenerator.js:59-71 | every grid candidate has score 1 and the fallback teacher and room, and lies on one of the listed days and times |
| TimetableGenerator.GridProbesLength | src/utils/timetableGenerator.js:59-71 | the grid probes one placement per (day, time) cell |
| TimetableGenerator.GridProbesComplete | src/utils/timetableGenerator.js:59-71 | every (day, time) cell of the grid is probed |
| TimetableGenerator.OpenGrid | src/utils/timetableGenerator.js:3-7 | the fallback grid is the 40 cells of DAYS x TIME_SLOTS, all under the first faculty preference's teacher and room, or undefined when there is none |
| TimetableGenerator.CandidatesRanked | src/utils/timetableGenerator.js:33-71 | candidates have scores 3, 2 or 1, in non-increasing order; open-grid candidates carry the fallback teacher and room |
| TimetableGenerator.BestCandidate | src/utils/timetableGenerator.js:33-71 | tier priority: the first candidate is the first free faculty preference; failing that the first free student preference; failing that the first free grid cell; there is no candidate only when none of the three is free |
| TimetableGenerator.BestSlotIsFirst | src/utils/timetableGenerator.js:110-114 | the stable sort by descending score leaves the candidate list unchanged, so the slot taken is the first candidate |
| TimetableGenerator.FirstCandidateFree | src/utils/timetableGenerator.js:110-114 | the slot taken is free in the timetable built so far |
| Collections.Dedup | src/utils/timetableGenerator.js:82-85 | the Set's elements are distinct, and they are exactly the elements of the input |
| Collections.DedupFirstAppearance | src/utils/timetableGenerator.js:82-85 | Set elements keep the order of their first appearance, faculty subjects before student subjects |
| TimetableGenerator.SubjectNames | src/utils/timetableGenerator.js:83-84 | `Object.values(prefs).map(p => p.subject)`: one name per preference, in order |
| TimetableGenerator.AllSubjects | src/utils/timetableGenerator.js:82-85 | the Set of subjects is distinct and holds exactly the faculty and student subject names |
| TimetableGenerator.Priority | src/utils/timetableGenerator.js:89-96 | the sort weight is never negative, and is zero exactly when no faculty or student preference names the subject |
| Collections.SortDesc | src/utils/timetableGenerator.js:88-99 | the stable descending sort keeps the length and the elements (a permutation) |
| TimetableGenerator.SubjectOrder | src/utils/timetableGenerator.js:88-99 | the sorted subjects are a permutation of the Set's subjects |
| Collections.SortDescSorted | src/utils/timetableGenerator.js:88-99 | a sort by descending key yields non-increasing keys |
| Collections.SortDescStable | src/utils/timetableGenerator.js:88-99 | elements with equal keys keep their relative order (stable sort) |
| Collections.SortDescSortedInput | src/utils/timetableGenerator.js:111 | sorting an already non-increasing list leaves it as it is |
| Collections.PermutationDistinct | src/utils/timetableGenerator.js:88-99 | a permutation of a duplicate-free list has no duplicates |
| TimetableGenerator.SubjectOrderProperties | src/utils/timetableGenerator.js:82-99 | the subject order lists each distinct subject once, is non-increasing in 2 x faculty count + student count, and keeps Set order among subjects of equal weight |
| TimetableGenerator.HigherPriorityFirst | src/utils/timetableGenerator.js:88-99 | a subject of strictly higher weight is processed before a subject of lower weight |
| TimetableGenerator.Step | src/utils/timetableGenerator.js:103-122 | defines one iteration: skip the subject when it has no candidate, otherwise push the first candidate of the score sort under the next id |
| TimetableGenerator.AssignAll | src/utils/timetableGenerator.js:102-123 | defines the subject loop as `Step` applied to each subject in turn, from an empty timetable |
| TimetableGenerator.Schedule | src/utils/timetableGenerator.js:77-126 | defines the generation result: the subject loop run over the sorted subjects |
| TimetableGenerator.GenerateTimetable | src/utils/timetableGenerator.js:77-126 | the subject loop returns the timetable, and the skipped subjects, that `Schedule` defines |
| TimetableGenerator.StepGood | src/utils/timetableGenerator.js:102-123 | one loop iteration preserves the run invariant: no conflicts, every subject accounted for once, each entry is the best candidate when pushed, each skipped subject has no candidate |
| TimetableGenerator.SkipGood | src/utils/timetableGenerator.js:105-108 | skipping a subject without candidates preserves the run invariant |
| TimetableGenerator.CommitGood | src/utils/timetableGenerator.js:110-122 | pushing the best candidate preserves the run invariant |
| TimetableGenerator.CommitNoConflict | src/utils/timetableGenerator.js:115-122 | appending an entry at a free placement keeps the timetable free of conflicts |
| TimetableGenerator.CandidatesShrink | src/utils/timetableGenerator.js:102-108 | a subject with no candidate has none after more entries are added |
| TimetableGenerator.AssignAllGood | src/utils/timetableGenerator.js:102-123 | the run invariant holds after every prefix of the subject loop |
| TimetableGenerator.ScheduleNoConflicts | src/utils/timetableGenerator.js:102-123 | no two generated entries share day and time together with teacher or room |
| TimetableGenerator.ScheduleValidates | src/utils/timetableGenerator.js:129-155 | the validator finds nothing in a generated timetable |
| TimetableGenerator.ScheduleOnePerSubject | src/utils/timetableGenerator.js:82-123 | each distinct subject is either committed once or skipped, never both; committed subjects come from some preference; entries plus skipped subjects equal the distinct subjects |
| TimetableGenerator.ScheduleTierPriority | src/utils/timetableGenerator.js:102-122 | entry i has id `ids(i)` and, against the entries before it, sits at its subject's first free faculty preference, else first free student preference, else first free grid cell |
| TimetableGenerator.SkippedAtItsTurn | src/utils/timetableGenerator.js:102-108 | every skipped subject occurs in the loop's subject list at some position k, and had no candidate against the timetable built from the first k subjects |
| TimetableGenerator.ScheduleSkippedAtTurn | src/utils/timetableGenerator.js:102-108 | at the moment a subject is skipped, none of its faculty probes, student probes or grid probes under the fallback teacher and room is free against the entries committed before it |
| TimetableGenerator.ScheduleSkipped | src/utils/timetableGenerator.js:105-108 | a consequence of the skip-time fact, since entries never free a slot: against the final timetable too, none of a skipped subject's probes is free, and no submitted faculty or student preference naming it is free |
| TimetableGenerator.NoneFreePreferences | src/utils/timetableGenerator.js:23-56 | when none of a subject's probes is free, no submitted preference naming that subject is free |
| TimetableGenerator.ScheduleOnGrid | src/utils/timetableGenerator.js:33-71 | when every preference lies on DAYS x TIME_SLOTS, so does every generated entry |
| TimetableGenerator.CandidatesOnGrid | src/utils/timetableGenerator.js:33-71 | when every preference lies on the grid, so does every candidate |
| TimetableGenerator.LoneFacultyPreference | src/utils/timetableGenerator.js:77-126 | one faculty preference and no student preference produce exactly that placement under the first id, and nothing is skipped |
| TimetableGenerator.MathScenario | src/utils/timetableGenerator.js:77-126 | Math on Monday 9:00 AM with Dr. A in R1 yields that single entry and no warning |
| TimetableGenerator.PairMessages | src/utils/timetableGenerator.js:139-150 | a pair yields one teacher message exactly when it shares day, time and teacher, and one room message exactly when it shares day, time and room; the teacher message comes first, both name the first entry, and there are none exactly when the pair does not conflict |
| TimetableGenerator.RowMessagesEmpty | src/utils/timetableGenerator.js:134-151 | row i is silent exactly when entry i conflicts with no later entry |
| TimetableGenerator.RowMessagesBound | src/utils/timetableGenerator.js:134-151 | row i holds at most two messages per later entry |
| TimetableGenerator.RowMessagesMember | src/utils/timetableGenerator.js:134-151 | a message is in row i exactly when it comes from some pair (i, j) with j > i |
| TimetableGenerator.ConflictMessages | src/utils/timetableGenerator.js:129-155 | defines the validator's result: the messages of each row `i`, one pair `(i, j)` with `j > i` after another |
| TimetableGenerator.ConflictMessagesEmpty | src/utils/timetableGenerator.js:129-155 | the validator returns nothing exactly when no pair conflicts |
| TimetableGenerator.ConflictMessagesMember | src/utils/timetableGenerator.js:133-152 | a message is reported exactly when some pair i < j produces it |
| TimetableGenerator.ConflictMessagesBound | src/utils/timetableGenerator.js:133-152 | at most n(n-1) messages, and none when n <= 1 |
| TimetableGenerator.RowConflicts | src/utils/timetableGenerator.js:134-151 | the inner loop pushes exactly the messages of row i |
| TimetableGenerator.ValidateTimetable | src/utils/timetableGenerator.js:129-155 | the nested loop returns the messages of every pair in index order |
| Collections.ConcatMember | src/utils/timetableGenerator.js:133-152 | an element is in the concatenated rows exactly when it is in one of them |
| Collections.ConcatTriangle | src/utils/timetableGenerator.js:133-152 | rows of at most 2(n-p-1) messages add up to at most n(n-1) |
| TimetableContext.ValidateEntry | src/contexts/TimetableContext.jsx:83-119 | "Missing required fields" exactly when subject, teacher, day or time is missing or empty, checked first; "Time slot is already occupied" exactly when a complete entry shares day and time with a record of another id; the teacher error never occurs; otherwise accepted |
| TimetableContext.ValidateIgnoresSameId | src/contexts/TimetableContext.jsx:90-101 | records carrying the entry's own id never change the verdict |
| TimetableContext.RevalidateUnchanged | src/contexts/TimetableContext.jsx:90-101 | a complete entry whose slot holds only records with its own id is accepted |
| TimetableContext.Push | src/contexts/TimetableContext.jsx:163-170 | the reduce step adds the entry's day key and appends the entry to that bucket; other buckets are untouched |
| TimetableContext.OnDayMember | src/contexts/TimetableContext.jsx:163-170 | an entry is in a day's filter exactly when it is in the input with that day |
| TimetableContext.GroupByDay | src/contexts/TimetableContext.jsx:163-170 | defines the reduce: each entry in turn is pushed onto the bucket of its day |
| TimetableContext.GroupByDayBuckets | src/contexts/TimetableContext.jsx:163-170 | a bucket exists exactly for each day that occurs, and holds that day's entries in input order |
| TimetableContext.EveryEntryBucketed | src/contexts/TimetableContext.jsx:163-170 | every entry lands in the bucket of its own day |
| TimetableContext.GroupByDaySize | src/contexts/TimetableContext.jsx:163-170 | the bucket sizes add up to the input length |
| TimetableContext.WithoutId | src/contexts/TimetableContext.jsx:216 | the filter keeps exactly the records of other ids |
| TimetableContext.WithoutIdAppend | src/contexts/TimetableContext.jsx:216 | the filter keeps the relative order of what it keeps |
| TimetableContext.WithoutEntry | src/contexts/TimetableContext.jsx:215-224 | deleting keeps the same day keys, and a day then holds exactly its former records of other ids |
| TimetableContext.DeleteIdempotent | src/contexts/TimetableContext.jsx:215-224 | deleting the same id twice is deleting it once |
| TimetableContext.DeleteAbsent | src/contexts/TimetableContext.jsx:215-224 | deleting an id no record carries changes nothing |
| TimetableContext.Split | src/contexts/TimetableContext.jsx:460 | splitting on ':' gives at least one piece, none containing ':' |
| TimetableContext.JoinSplit | src/contexts/TimetableContext.jsx:460 | joining the pieces with ':' restores the text |
| TimetableContext.SplitJoin | src/contexts/TimetableContext.jsx:460 | splitting colon-free pieces joined by ':' gives them back |
| JsNumber.ParseInt | src/contexts/TimetableContext.jsx:461 | `parseInt` is NaN exactly when no digit follows the white space, sign and hex prefix |
| JsNumber.ParseIntToString | src/contexts/TimetableContext.jsx:461-464 | `parseInt` reads back any integer rendered in a template literal |
| JsNumber.TruncRem | src/contexts/TimetableContext.jsx:463 | `%` takes the sign of the dividend and the magnitude of the remainder |
| JsNumber.IntToString | src/contexts/TimetableContext.jsx:464 | `${i}`: at least one character, a leading '-' exactly for a negative number, digits after it |
| JsNumber.NatToString | src/contexts/TimetableContext.jsx:464 | a number renders as decimal digits without a leading zero |
| TimetableContext.Suffix | src/contexts/TimetableContext.jsx:462 | PM exactly when the hour parsed as a number of at least 12, otherwise AM (NaN as well) |
| TimetableContext.DisplayHour | src/contexts/TimetableContext.jsx:463 | NaN shows 12; a non-negative hour shows 1 to 12 with the same remainder modulo 12; a negative hour shows 12 exactly when 12 divides it, and otherwise minus the remainder of its magnitude |
| TimetableContext.FormatTime12Hour | src/contexts/TimetableContext.jsx:458-465 | the result is empty exactly when the input is missing or empty |
| TimetableContext.FormatClock | src/contexts/TimetableContext.jsx:458-465 | for `hours:minutes` the text is the converted hour, ':', the minutes unchanged, a space and the suffix of the parsed hour |
| TimetableContext.FormatNoColon | src/contexts/TimetableContext.jsx:458-465 | a time without ':' renders its minutes as "undefined" |
| TimetableContext.Clock24 | src/contexts/TimetableContext.jsx:461-463 | on hours 0 to 23: 0 shows 12, hours above 12 drop by twelve, and PM exactly from 12 |
| TimetableContext.ParseTwoDigits | src/contexts/TimetableContext.jsx:461 | `parseInt` of two decimal digits is their value |
| TimetableContext.TwoDigitClock | src/contexts/TimetableContext.jsx:458-465 | an `HH:MM` time renders as the converted hour of HH, ':', MM and the suffix |
| TimetableContext.FormatMidnight | src/contexts/TimetableContext.jsx:458-465 | "00:15" renders as "12:15 AM" |
| TimetableContext.FormatNoon | src/contexts/TimetableContext.jsx:458-465 | "12:00" renders as "12:00 PM" |
| TimetableContext.FormatAfternoon | src/contexts/TimetableContext.jsx:458-465 | "13:30" renders as "1:30 PM" |
| TimetableContext.StoredEntries | src/contexts/TimetableContext.jsx:160 | defines `data.entries || []`: the stored list, or no entries when the field is absent |
| TimetableContext.StoredFlag | src/contexts/TimetableContext.jsx:173-174 | `data.isFinalized || false`: an absent flag reads false, a stored one reads as stored |
| TimetableContext.WithFinalized | src/contexts/TimetableContext.jsx:417-424 | the document `setFinalized` writes reads back with the new finality, the old approval and the old entries, also when no document existed |
| TimetableContext.WithApproved | src/contexts/TimetableContext.jsx:442-448 | the document `setApproved` writes reads back with the new approval, the old finality and the old entries, also when no document existed |
| TimetableContext.TimetableState.constructor | src/contexts/TimetableContext.jsx:29-38 | the provider starts with no local buckets and both flags clear, whatever the store holds |
| TimetableContext.TimetableState.ApplySnapshot | src/contexts/TimetableContext.jsx:156-182 | the listener replaces the local buckets by the stored document's grouped entries and the flags by its stored values, false when absent; with no document everything is cleared; afterwards the flags agree with the store |
| TimetableContext.TimetableState.AddEntry | src/contexts/TimetableContext.jsx:121-138 | an accepted entry is appended, stamped with the clock reading, to its day's local bucket and the call reports true; a rejected one changes nothing and reports false; the store and the flags are untouched |
| TimetableContext.TimetableState.DeleteEntry | src/contexts/TimetableContext.jsx:215-224 | the local buckets become the filtered buckets; the store and the flags are untouched |
| TimetableContext.TimetableState.SaveTimetable | src/contexts/TimetableContext.jsx:211-213 | models code the application never reaches (`saveTimetable` is not in the context value and is never called): the document is overwritten by one holding only the entries, so after the listener both flags are false and the buckets are the grouped entries |
| TimetableContext.TimetableState.SetFinalized | src/contexts/TimetableContext.jsx:414-431 | the stored document gets the new finality; the listener then sets the flag, keeps the stored approval and reloads the buckets from the stored entries, dropping local edits |
| TimetableContext.TimetableState.SetApproved | src/contexts/TimetableContext.jsx:439-455 | the stored document gets the new approval; the listener then sets the flag, keeps the stored finality and reloads the buckets from the stored entries, dropping local edits |
| TimetableContext.TimetableState.FinalizeTimetable | src/contexts/TimetableContext.jsx:557-561 | finalizes; approval is left as it was when the flags agree with the store |
| TimetableContext.TimetableState.ApproveTimetable | src/contexts/TimetableContext.jsx:563-570 | approves exactly when the local flag says finalized, otherwise changes nothing; after approving, the flags agree with the store and finality is the stored one; keeps "approved implies finalized" when the flags agree with the store |
| TimetableContext.TimetableState.UnfinalizeTimetable | src/contexts/TimetableContext.jsx:572-579 | clears finality, and writes approval false if the local flag had it set; the result is neither finalized nor approved when the flags agreed with the store |
| TimetableContext.TimetableState.UnapproveTimetable | src/contexts/TimetableContext.jsx:581-584 | clears approval; finality is left as it was when the flags agree with the store |

## Left out

- Firestore is reduced to the one `timetable/current` document, held in the `stored` field of `TimetableState`. The other collections and listeners (preferences, notifications, feedback) and the async sequencing are not modelled.
  - The store is one field of `TimetableState`. Each write is followed at once by the listener's run (`ApplySnapshot`), so the interleavings of awaits and snapshot callbacks are not modelled.
  - Writes to the document by other clients are not modelled. In the model the stored document changes only through `SaveTimetable`, `SetFinalized` and `SetApproved`. In the application, the context's placeholder `generateTimetable` (`src/contexts/TimetableContext.jsx:526-531`) also writes it, and `saveTimetable` is never called.
  - The failure path of `getDoc`/`setDoc` (the error notification) is not modelled.
- The staleness of `validateEntry` is not modelled. It reads the buckets captured by the last render, while `addEntry` appends to the newest state. The model uses one state for both.
- `addEntry` pushes into the existing bucket array in place and returns the same object. The model replaces the bucket in the map, so sharing of that array with other holders is not modelled.
- Record fields are strings or absent. `!field` is therefore exactly "missing or empty".
- The model does not cover non-string values:
  - numbers or `null` in record fields;
  - a stored `isFinalized`/`isApproved` value that is truthy but not `true`;
  - in the generator, a missing `subject`, `day` or `time`, or non-string preference fields (a missing `teacher` or `room` is modelled, as `None`). The source does not drop a preference without a subject. It groups it under the subject `undefined` and schedules it like any other subject. The model's subjects are always strings, so this case is outside it.
- Day names that collide with inherited object properties (`constructor`, `__proto__`, ...) are not modelled. On such keys the reduce of the snapshot listener would fail. The model treats every day as an ordinary key.
- `Object.keys` / `Object.values` order is not kept. The buckets are a map, so nothing depends on key order.
- `JsNumber.ParseInt`: JavaScript numbers are doubles, and the model does not capture it. Very long digit strings lose precision or become `Infinity`, while here they have their exact integer value.
- `TimetableContext.FormatClock` states the minutes are copied unchanged only when they contain no further ':'. Otherwise `split` drops everything after the second ':'. `FormatTime12Hour` itself models that case.
- `updateEntry`, `importData`/`exportData`, notifications, feedback, search and day filters, uploaded JSON schedules, and every page and component are not modelled. They are not part of the core logic.
- The context's own `generateTimetable` (`src/contexts/TimetableContext.jsx:479-555`) is left out. It is a random placeholder, not the engine.
- `generateUniqueId` comes from `src/utils/timetableUtils.js`, which is not part of this model. It is the parameter `ids`.
- `console.warn` and `console.error` output is not modelled. The skipped subjects are returned instead.
- The loops of `findAvailableSlots` and `validateTimetable` are split into helper methods (`FreePreferenceSlots`, `FreeCellSlots`, `RowConflicts`), each with its own loop. The computation is the same as the source's.
