# Notes app: the note store and its queries

This project models the data core of a Next.js notes application. The application's
notes are kept in one JSON file.

- **The API route** (`app/api/notes/route.ts`) handles three requests. GET reads the
  file. POST upserts a note by id: it overwrites the first note with the same id, or
  appends the note when no note has that id. DELETE keeps every note whose id differs
  from the given one.
- **`lib/data/server-data.ts`** sets up the data files and reads them directly. When
  the notes file or the categories file is missing, it writes a default. Every query
  falls back to `[]` when a file cannot be read.
- **`lib/data/data-service.ts`** runs the same queries over the body of a `fetch`
  response. It throws when the response is not ok.
- **`lib/utils.ts`** runs the same queries a third time, over the seed data of
  `lib/data/notes.ts`. It also holds three helpers: text truncation, extraction of
  plain text from HTML, and the "time ago" phrase.
- **`components/editor/tag-input.tsx`** is the tag editor. It appends tags, removes
  them, and handles the Enter and Backspace keys.

The queries are:
- lookup by id: the first match;
- the category filter and the pinned filter;
- the most recent notes: a stable sort of a copy, newest first, then a slice;
- the popular tags: count the tags, list the counts with `Object.entries`, sort by
  count, slice.

One functional model (`NoteQueries`) serves all three copies of the queries. Each copy
is a separate module whose members are proved against that model.

## How the model is organised

| module | what it holds |
|---|---|
| `Wrappers` | `Option`; `Result` with failure propagation |
| `Types` | `Note` and `Category` records; `Stored<T>`, a file that is missing, unparsable, or holds a list; initialisation if absent |
| `JsArray` | the ECMAScript array operations used: `slice`, `splice`, `findIndex`/`find`, and the stable `sort` as a descending insertion sort with its stability lemma |
| `JsString` | `String.prototype.trim` with the white space and line terminators of ECMA-262; decimal number-to-string; the array-index test for property keys |
| `NoteQueries` | the shared query model: lookups, filters, recent notes, the tag tally, `Object.entries` order, popular tags |
| `NotesRoute` | the API route as class `NotesFile`, whose field `file` is the stored notes file, with `Get`, `Post` and `Delete` |
| `ServerData` | class `ServerStore` over the two stored files, with the initialisation and the queries of `server-data.ts` |
| `DataService` | the client queries as functions of a response `(ok, body)`, giving a `Result` |
| `Utils` | `truncateText`, `extractTextFromHtml` and the `getRelativeTime` buckets |
| `SeedQueries` | the queries of `lib/utils.ts` over the seed data |
| `SeedData` | the seed `categories` and `notes` of `lib/data/notes.ts` |
| `SeedShapes` | facts about any eight notes shaped as the seed's, and about its tag list written out |
| `SeedFacts` | what the seed gives those queries |
| `PrototypeTally` | the tag tally as written, on an object that inherits from `Object.prototype` (see Findings) |
| `TagEditor` | class `TagInput` with fields `tags` and `inputValue`, one method per handler |
| `Scenarios` | worked examples of how ties are ordered |

Timestamps are integers, so `new Date(s).getTime()` is taken as given. The clock of
`getRelativeTime` is a parameter. The files and `fetch` become inputs: a `Stored<T>`
value, or a response record.

## Model

| member | source | states |
|---|---|---|
| Types.InitFile | lib/data/server-data.ts:15-28 | the file is written exactly when it was missing, and then holds the default; a file that exists, readable or not, is kept as it is; the result is never missing |
| Types.InitFileIdempotent | lib/data/server-data.ts:15-28 | initialising twice equals initialising once, whatever default the second pass uses |
| JsArray.RelativeIndex | lib/data/server-data.ts:69 | the position rule of `slice`/`splice`: in range it is returned unchanged; negative counts back from the end; the result is clamped to `0..n` (also the start of `splice` at components/editor/tag-input.tsx:45) |
| JsArray.Take | lib/data/server-data.ts:69 | `slice(0, end)` is a prefix; its length is `min(end, n)` for `end >= 0` and `max(n + end, 0)` otherwise |
| JsArray.RemoveAt | components/editor/tag-input.tsx:44-45 | `splice(start, 1)` on a copy: elements before the position stay, later ones shift down by one, exactly one element goes, and a position past the end removes nothing |
| JsArray.RemoveAtKeepsDistinct | components/editor/tag-input.tsx:43-47 | removing one element keeps a list free of duplicates |
| JsArray.FindIndex | app/api/notes/route.ts:35 | the index of the first element with the key, or -1 exactly when no element has it |
| JsArray.Find | lib/data/server-data.ts:52 | `find` returns an element exactly when one matches, and then the first such element |
| JsArray.Insert | lib/data/server-data.ts:68 | one insertion step of the sort adds exactly that element |
| JsArray.SortDesc | lib/data/server-data.ts:68 | the sort by a descending key is a permutation and its keys are non-increasing |
| JsArray.SortCons | lib/data/server-data.ts:68 | sorting `[x] + s` inserts `x` into the sorted `s` |
| JsArray.InsertPast | lib/data/server-data.ts:68 | an element with a smaller key is inserted after the head |
| JsArray.InsertFront | lib/data/server-data.ts:68 | an element whose key is no smaller than the head's goes in front |
| JsArray.InsertKeepsOrder | lib/data/server-data.ts:68 | inserting into a sorted list keeps it sorted |
| JsArray.KeyClassAppend | lib/data/server-data.ts:68 | the elements with one key, taken from `a + b`, are those from `a` followed by those from `b` |
| JsArray.InsertKeyClass | lib/data/server-data.ts:68 | insertion places the new element before every equal-keyed element it is inserted among |
| JsArray.SortDescStable | lib/data/server-data.ts:68 | stability: the elements sharing a key keep their relative order |
| JsArray.KeyClassOfPrefix | lib/data/server-data.ts:69 | a prefix keeps the relative order of each key class |
| JsArray.SuffixBelowPrefix | lib/data/server-data.ts:68-69 | in a sorted list, nothing after a cut has a larger key than anything before it |
| JsArray.TopOfSorted | lib/data/server-data.ts:68-69 | every element left out by the slice has a key no larger than any element kept |
| JsArray.TwoPositionsCount | lib/data/server-data.ts:79-84 | a value at two positions is counted at least twice |
| JsArray.CountTwoPositions | lib/data/server-data.ts:79-84 | a value counted twice stands at two distinct positions |
| JsArray.PermutationPositions | lib/data/server-data.ts:86-89 | two positions of a permutation come from two distinct positions of the original |
| JsArray.AtMostOnce | lib/data/server-data.ts:79-84 | a value that never repeats is counted at most once |
| JsArray.OneRepeat | lib/data/server-data.ts:79-84 | when exactly one pair of positions repeats, that value is counted twice and every other value at most once |
| JsString.TrimStart | components/editor/tag-input.tsx:27 | drops exactly the leading white space: a suffix, everything dropped is white space, and what is left starts with none |
| JsString.TrimEnd | components/editor/tag-input.tsx:27 | drops exactly the trailing white space |
| JsString.Trim | components/editor/tag-input.tsx:27 | `trim()` leaves no white space at either end |
| JsString.TrimIsInfix | components/editor/tag-input.tsx:27 | the trimmed text is the contiguous piece of the input that starts after its leading white space |
| JsString.TrimRemovesWhiteSpace | components/editor/tag-input.tsx:27 | everything removed at either end is white space |
| JsString.TrimOfTrimmed | lib/utils.ts:93 | trimming text that has no white space at its ends changes nothing |
| JsString.TrimIdempotent | lib/utils.ts:93 | trimming twice is trimming once |
| JsString.DigitChar | lib/utils.ts:25 | the character of a digit has that value |
| JsString.NatToString | lib/utils.ts:25 | the decimal form of a number is non-empty digits with no leading zero, and reads back as the number |
| JsString.IntToString | lib/utils.ts:25 | a negative number is written as `-` followed by the decimal form of its magnitude |
| JsString.ArrayIndexIsNatToString | lib/data/server-data.ts:86 | a key that is an array index is the canonical decimal form of its value |
| JsString.NatToStringIsArrayIndex | lib/data/server-data.ts:86 | the decimal form of a number below 2^32 - 1 is an array-index key |
| JsString.CanonicalDigitsUnique | lib/data/server-data.ts:86 | two canonical digit strings with the same value are equal |
| JsString.LeadingDigitPositive | lib/data/server-data.ts:86 | digits that start with a non-zero digit have a positive value |
| NoteQueries.NoteById | lib/data/server-data.ts:50-53 | a note is found exactly when some note has the id, and then it is the first such note |
| NoteQueries.CategoryById | lib/data/server-data.ts:55-58 | the same first-match lookup for categories |
| NoteQueries.NoteByIdUnique | lib/data/server-data.ts:50-53 | when ids are unique, looking up a note's id finds that note |
| NoteQueries.Filter | lib/data/server-data.ts:62 | `filter` keeps exactly the notes meeting the criterion, and never lengthens the list |
| NoteQueries.FilterAppend | lib/data/server-data.ts:62 | filtering a concatenation filters each part: storage order is kept |
| NoteQueries.FilterCount | lib/data/server-data.ts:62 | each kept note keeps all its copies; a rejected note has none |
| NoteQueries.FilterAll | app/api/notes/route.ts:54 | when every note meets the criterion the filter returns the list unchanged |
| NoteQueries.NotesByCategory | lib/data/server-data.ts:60-63 | exactly the notes of the category |
| NoteQueries.PinnedNotes | lib/data/server-data.ts:72-75 | exactly the pinned notes |
| NoteQueries.FilterKeeps | lib/data/server-data.ts:62 | a head that meets the criterion stays at the head |
| NoteQueries.FilterDrops | lib/data/server-data.ts:62 | a head that fails the criterion is dropped |
| NoteQueries.NotesByCategoryExact | lib/data/server-data.ts:60-63 | each note of the category with all its copies, none of any other; in storage order |
| NoteQueries.PinnedNotesExact | lib/data/server-data.ts:72-75 | each pinned note with all its copies, none unpinned; in storage order |
| NoteQueries.RecentNotes | lib/data/server-data.ts:65-70 | newest first, drawn from the stored notes, `min(limit, n)` of them, all of them when the limit covers the list |
| NoteQueries.RecentNotesStable | lib/data/server-data.ts:67-69 | notes with equal `updatedAt` come out in storage order |
| NoteQueries.RecentNotesAreLatest | lib/data/server-data.ts:67-69 | no note left out is newer than any note returned |
| NoteQueries.FirstSeen | lib/data/server-data.ts:79-84 | the distinct tags, each once, exactly those that occur |
| NoteQueries.BumpFacts | lib/data/server-data.ts:81 | `acc[tag] = (acc[tag] \|\| 0) + 1`: a new tag is added at the end with count 1; a known tag gets one more; other counts stay; key order stays |
| NoteQueries.TallyTagsFacts | lib/data/server-data.ts:79-84 | one entry per distinct tag, in first-seen order, whose count is its number of occurrences, repeats within one list included |
| NoteQueries.TallyStep | lib/data/server-data.ts:79-84 | one tag later, the tally still has first-seen keys, distinct tags and true counts |
| NoteQueries.TallyStepKeys | lib/data/server-data.ts:81 | one tag later, the keys are the tags first seen one tag later |
| NoteQueries.TallyStepCounts | lib/data/server-data.ts:81 | one tag later, every count is the number of occurrences one tag later |
| NoteQueries.TallyTagsSnoc | lib/data/server-data.ts:80-82 | one more tag is one more increment |
| NoteQueries.AllTagsSnoc | lib/data/server-data.ts:79-80 | the tags of the first `i + 1` notes are those of the first `i` followed by note `i`'s own |
| NoteQueries.AllTagsSnocNote | lib/data/server-data.ts:79-80 | the tags of one more note are followed by that note's own |
| NoteQueries.TallyNextTag | lib/data/data-service.ts:88-90 | within one note's tags, one more tag is one more increment |
| NoteQueries.TallyNotes | lib/data/data-service.ts:87-92 | the nested loop over notes and tags builds exactly the tally |
| NoteQueries.EntriesWhere | lib/data/server-data.ts:86 | the entries whose key is (or is not) an array index |
| NoteQueries.EntriesSplit | lib/data/server-data.ts:86 | index keys and other keys together are all the entries |
| NoteQueries.Entries | lib/data/server-data.ts:86 | `Object.entries` lists every entry exactly once |
| NoteQueries.PermutationKeepsDistinctTags | lib/data/server-data.ts:86-89 | reordering the entries keeps the tags distinct |
| NoteQueries.EntriesIndicesFirst | lib/data/server-data.ts:86 | array-index keys come first, in ascending numeric order |
| NoteQueries.EntriesNamedAfter | lib/data/server-data.ts:86 | the other keys follow, in creation order |
| NoteQueries.EntriesWithoutIndexKeys | lib/data/server-data.ts:86 | without index keys, entries come in creation order |
| NoteQueries.NoIndexEntries | lib/data/server-data.ts:86 | without index keys, no entry is hoisted |
| NoteQueries.PermutedTally | lib/data/server-data.ts:86-89 | any reordering of the tally has distinct tags, one per distinct tag, each with its occurrence count |
| NoteQueries.PopularTagsCounts | lib/data/server-data.ts:77-90 | every reported tag occurs in the notes, with its total count, and is reported once |
| NoteQueries.PrefixOfPermutedTally | lib/data/server-data.ts:89 | a prefix of a reordered tally keeps distinct tags and true counts |
| NoteQueries.PopularTagsShape | lib/data/server-data.ts:86-89 | counts are non-increasing and the length is `min(limit, number of distinct tags)` |
| NoteQueries.PopularTagsComplete | lib/data/server-data.ts:86-89 | with a limit covering every distinct tag, every tag is reported |
| NoteQueries.PopularTagsTop | lib/data/server-data.ts:86-89 | a tag left out is used no more often than any tag reported |
| NoteQueries.PopularTagsLeader | lib/data/server-data.ts:86-89 | a tag used strictly more often than every other heads the list with its count |
| NoteQueries.LeaderFirst | lib/data/server-data.ts:88 | in a descending, complete-at-the-top list, the strict leader is first |
| NoteQueries.PrefixOfSortedTally | lib/data/server-data.ts:88-89 | a prefix of the sorted tally holds the most-used tags |
| NoteQueries.PopularTagsStable | lib/data/server-data.ts:86-89 | tags with equal counts keep their `Object.entries` order, which is first-seen order when no tag is an array index |
| NoteQueries.TallyInFirstSeenOrder | lib/data/server-data.ts:79-86 | without integer-like tags, `Object.entries` lists the tally in first-seen order |
| NotesRoute.Upsert | app/api/notes/route.ts:35-40 | the posted note is present and the length grows by at most one |
| NotesRoute.RemoveById | app/api/notes/route.ts:54 | exactly the notes with a different id remain |
| NotesRoute.UpsertExisting | app/api/notes/route.ts:35-37 | an existing id: the first note with it is overwritten at its index, every other index is unchanged, and so is the length |
| NotesRoute.UpsertNew | app/api/notes/route.ts:38-40 | a new id: the note is appended at the end |
| NotesRoute.UpsertThenFind | app/api/notes/route.ts:35-40 | looking up the posted id afterwards gives the posted note |
| NotesRoute.UpsertKeepsOtherLookups | app/api/notes/route.ts:35-40 | a lookup of any other id is unaffected |
| NotesRoute.UpsertKeepsOthers | app/api/notes/route.ts:35-40 | apart from the posted id, the notes and their order are unchanged |
| NotesRoute.FilterSkips | app/api/notes/route.ts:54 | a note failing the filter splits it into the filters of the two sides |
| NotesRoute.UpsertKeepsUniqueIds | app/api/notes/route.ts:35-40 | unique ids stay unique |
| NotesRoute.UpsertIdempotent | app/api/notes/route.ts:35-42 | posting the same note twice equals posting it once |
| NotesRoute.RemoveAbsentId | app/api/notes/route.ts:54-56 | deleting an absent id leaves the notes unchanged |
| NotesRoute.RemoveByIdExact | app/api/notes/route.ts:54 | every other note keeps all its copies, no note with the id is left, and order is kept |
| NotesRoute.RemoveUndoesInsert | app/api/notes/route.ts:35-54 | deleting a newly posted note restores the notes |
| NotesRoute.SaveAll | app/api/notes/route.ts:35-40 | a run of POST requests never shortens the list, lengthens it by at most one per request, and leaves the last posted note in it |
| NotesRoute.SaveAllKeepsUniqueIds | app/api/notes/route.ts:35-40 | any sequence of posts keeps ids unique |
| NotesRoute.SaveAllThenFindLast | app/api/notes/route.ts:35-40 | after a sequence of posts, the last posted note is found by its id |
| NotesRoute.NotesFile.constructor | app/api/notes/route.ts:15-17 | a missing notes file starts as `[]` |
| NotesRoute.NotesFile.Get | app/api/notes/route.ts:19-27 | the stored notes, or the error "Failed to fetch notes" when the file cannot be read |
| NotesRoute.NotesFile.Post | app/api/notes/route.ts:29-47 | with a note and a readable file: the upserted list is written and the note returned, keeping ids unique; otherwise "Failed to save note" and the file is unchanged |
| NotesRoute.NotesFile.Delete | app/api/notes/route.ts:49-60 | with an id and a readable file: the filtered list is written and `success: true` returned, absent id included; otherwise "Failed to delete note" and the file is unchanged |
| ServerData.DefaultCategoriesFacts | lib/data/server-data.ts:21-26 | the default categories are `business`, `personal`, `ideas`, `projects`, with distinct ids and seven-character hex colours |
| ServerData.ServerStore.constructor | lib/data/server-data.ts:9-28 | an empty notes file and the default categories are written only where a file is missing |
| ServerData.ServerStore.GetNotes | lib/data/server-data.ts:30-38 | the stored notes, or `[]` when the file cannot be read or parsed |
| ServerData.ServerStore.GetCategories | lib/data/server-data.ts:40-48 | the stored categories, or `[]` |
| ServerData.ServerStore.GetNoteById | lib/data/server-data.ts:50-53 | the first note with the id, or none when no note has it |
| ServerData.ServerStore.GetCategoryById | lib/data/server-data.ts:55-58 | the first category with the id, or none |
| ServerData.ServerStore.GetNotesByCategory | lib/data/server-data.ts:60-63 | exactly the notes of the category, each with all its copies |
| ServerData.ServerStore.GetRecentNotes | lib/data/server-data.ts:65-70 | newest first, drawn from the notes, `min(limit, n)` of them; the limit defaults to 5 |
| ServerData.ServerStore.GetPinnedNotes | lib/data/server-data.ts:72-75 | exactly the pinned notes, each with all its copies |
| ServerData.ServerStore.GetPopularTags | lib/data/server-data.ts:77-90 | the popular-tags model of the stored notes: distinct tags with true counts, non-increasing, `min(limit, distinct tags)` of them; the limit defaults to 5 |
| DataService.GetNotes | lib/data/data-service.ts:16-22 | fails with "Failed to fetch notes" exactly when the response is not ok, else gives its body |
| DataService.GetCategories | lib/data/data-service.ts:24-30 | fails with "Failed to fetch categories" exactly when the response is not ok |
| DataService.SaveNote | lib/data/data-service.ts:32-43 | fails with "Failed to save note" exactly when the response is not ok |
| DataService.DeleteNote | lib/data/data-service.ts:45-56 | fails with "Failed to delete note" exactly when the response is not ok |
| DataService.GetNoteById | lib/data/data-service.ts:58-61 | the fetch error passes through; otherwise the first note with the id, or none |
| DataService.GetCategoryById | lib/data/data-service.ts:63-66 | the fetch error passes through; otherwise the first category with the id, or none |
| DataService.GetNotesByCategory | lib/data/data-service.ts:68-71 | the fetch error passes through; otherwise exactly the notes of the category, each with all its copies |
| DataService.GetRecentNotes | lib/data/data-service.ts:73-78 | the fetch error passes through; otherwise newest first, drawn from the body, `min(limit, n)` of them |
| DataService.GetPinnedNotes | lib/data/data-service.ts:80-83 | the fetch error passes through; otherwise exactly the pinned notes, each with all its copies |
| DataService.GetPopularTags | lib/data/data-service.ts:85-98 | the fetch error passes through; otherwise the loop computes the popular-tags model, distinct and non-increasing |
| Utils.TruncateText | lib/utils.ts:83-86 | text within the limit is unchanged; otherwise the first `maxLength` characters and `...`, of length `maxLength + 3` |
| Utils.IndexOf | lib/utils.ts:91 | the first position of a character |
| Utils.StripTags | lib/utils.ts:91 | the output is no longer and holds only spaces and input characters; what each tag becomes is stated by `Utils.StripTagsStep` |
| Utils.Collapse | lib/utils.ts:92 | the output is no longer, empty exactly for empty input, and starts as the input does; what each run becomes is stated by `Utils.CollapseStep` |
| Utils.ExtractTextFromHtml | lib/utils.ts:88-94 | the text has no white space at either end; its other properties are the lemmas below |
| Utils.StripTagsRemovesTags | lib/utils.ts:91 | after stripping, no `<` is followed anywhere by a `>` |
| Utils.ConsKeepsNoTag | lib/utils.ts:91 | a character in front keeps a tag-free text tag-free unless it opens a tag |
| Utils.CollapseChars | lib/utils.ts:92 | collapsing introduces no character except the space |
| Utils.CollapseIsCollapsed | lib/utils.ts:92 | after collapsing, white space is single spaces, never two in a row |
| Utils.CollapseKeepsNoTag | lib/utils.ts:92 | collapsing keeps a text tag-free |
| Utils.InfixKeepsNoTag | lib/utils.ts:93 | a contiguous piece of a tag-free text is tag-free |
| Utils.InfixKeepsCollapsed | lib/utils.ts:93 | a contiguous piece of a collapsed text is collapsed |
| Utils.TrimKeepsNoTag | lib/utils.ts:93 | trimming keeps a text tag-free |
| Utils.TrimKeepsCollapsed | lib/utils.ts:93 | trimming keeps a text collapsed |
| Utils.ExtractTextCollapsed | lib/utils.ts:88-94 | the extracted text never holds two white-space characters in a row |
| Utils.ExtractTextNoTag | lib/utils.ts:88-94 | the extracted text holds no `<` followed later by `>` |
| Utils.StripTagsOfNoTag | lib/utils.ts:91 | stripping a tag-free text changes nothing |
| Utils.CollapseOfCollapsed | lib/utils.ts:92 | collapsing a collapsed text changes nothing |
| Utils.ExtractTextIdempotent | lib/utils.ts:88-94 | extracting twice is extracting once |
| Utils.StripTagsCons | lib/utils.ts:91 | a character other than `<` passes through unchanged |
| Utils.StripTagsPrefix | lib/utils.ts:91 | text without `<` passes through unchanged, whatever follows it |
| Utils.StripTagsOpen | lib/utils.ts:91 | a tag `<…>` at the front, with no `>` inside, becomes one space |
| Utils.StripTagsStep | lib/utils.ts:91 | `a<t>b` with no `<` in `a` and no `>` in `t` becomes `a`, one space, then the stripping of `b` |
| Utils.CollapseCons | lib/utils.ts:92 | a character that is not white space passes through unchanged |
| Utils.CollapsePrefix | lib/utils.ts:92 | text without white space passes through unchanged, whatever follows it |
| Utils.CollapseRun | lib/utils.ts:92 | a non-empty run of white space at the front, not followed by more, becomes one space |
| Utils.CollapseStep | lib/utils.ts:92 | `a w b`, with no white space in `a`, `w` a whole non-empty run of white space and `b` not starting with any, becomes `a`, one space, then the collapsing of `b` |
| Utils.ExtractTextOfPlain | lib/utils.ts:88-94 | plain text, with no tag, only single spaces and no white space at its ends, comes out unchanged |
| JsString.TrimStartSkips | lib/utils.ts:92 | dropping leading white space skips exactly a whole run of white space |
| Utils.DiffInSeconds | lib/utils.ts:22 | the floored whole seconds between the two instants |
| Utils.RelativeTime | lib/utils.ts:24-49 | beyond seconds the amount is at least 1, and below the unit's ceiling: minutes below 60, hours below 24, days below 30, months below 12 |
| Utils.RelativeTimeBuckets | lib/utils.ts:22-49 | each unit is chosen exactly on its range of seconds (60, 3600, 86400, 30 days, 360 days); seconds report the difference itself; any other unit reports the floor of the difference over the unit's length |
| Utils.Phrase | lib/utils.ts:25-49 | the phrase starts with the amount and a space and ends in ` ago`; it ends in `s ago` exactly when the unit is seconds or the amount is above 1 |
| Utils.PhraseParts | lib/utils.ts:30-49 | a phrase `n word[s] ago` starts with `n ` and ends in ` ago`, and in `s ago` exactly when the plural `s` is written |
| Utils.GetRelativeTime | lib/utils.ts:19-50 | the phrase for two instants starts with the chosen unit's amount and ends in ` ago`, in `s ago` exactly when the unit is seconds or the amount is not 1 |
| Utils.PluralRule | lib/utils.ts:25-49 | the phrase ends in `s ago` exactly when the unit is seconds or the amount is not 1 |
| SeedQueries.GetNotesByCategory | lib/utils.ts:52-54 | exactly the seed notes of the category, each with all its copies |
| SeedQueries.GetRecentNotes | lib/utils.ts:56-58 | newest first, drawn from the seed, `min(limit, 8)` of them; the limit defaults to 5 |
| SeedQueries.GetPinnedNotes | lib/utils.ts:60-62 | exactly the pinned seed notes, each with all its copies |
| SeedQueries.GetCategoryById | lib/utils.ts:64-66 | the first seed category with the id, or none exactly when no seed category has it |
| SeedQueries.GetPopularTags | lib/utils.ts:68-81 | the loop computes the popular-tags model of the seed: distinct tags with true counts, non-increasing, `min(limit, distinct tags)` of them; the limit defaults to 10 |
| SeedFacts.SeedCategories | lib/data/notes.ts:3-28 | four categories `business`, `personal`, `ideas`, `projects`, coloured blue, green, amber, purple, all with icon `BookMarked` |
| SeedShapes.IdsOfEight | lib/data/notes.ts:30-135 | eight notes numbered `note-1` … `note-8` have pairwise distinct ids |
| SeedFacts.SeedIds | lib/data/notes.ts:30-135 | eight notes with ids `note-1` … `note-8`, pairwise distinct |
| SeedFacts.SeedCategoriesResolve | lib/data/notes.ts:30-135 | every seed note's category is found among the seed categories |
| SeedFacts.SeedPublic | lib/data/notes.ts:30-135 | exactly `note-3`, `note-5` and `note-8` are public |
| SeedShapes.PinnedOfEight | lib/utils.ts:60-62 | the pinned filter on eight notes pinned as the seed is keeps the first, third, sixth and eighth |
| SeedFacts.SeedPinned | lib/utils.ts:60-62 | the seed's pinned notes are `note-1`, `note-3`, `note-6`, `note-8`, in that order |
| SeedShapes.RecentOfEight | lib/utils.ts:57 | the sort of eight notes whose times are ordered as the seed's |
| SeedShapes.RecentFiveOfEight | lib/utils.ts:56-58 | the five most recent of such eight notes are the first, sixth, seventh, second and eighth |
| SeedFacts.SeedRecent | lib/utils.ts:56-58 | the five most recent seed notes are `note-1`, `note-6`, `note-7`, `note-2`, `note-8` |
| SeedShapes.AllTagsOfEight | lib/utils.ts:71-75 | the tags of eight notes, note by note |
| SeedShapes.ProductRepeatsOnce | lib/data/notes.ts:37 | in the seed's tag list `product` occurs twice and every other tag once at most |
| SeedShapes.ProductPositions | lib/data/notes.ts:128 | the only repeated pair of positions in the seed's tag list is `product`'s |
| SeedShapes.JoinSeedTags | lib/data/notes.ts:30-135 | the eight tag lists joined |
| SeedFacts.SeedTagList | lib/data/notes.ts:30-135 | the seed's tags in visiting order |
| SeedFacts.SeedTags | lib/data/notes.ts:30-135 | `product` is used twice, every other tag at most once |
| NoteQueries.PopularWithOneRepeat | lib/data/server-data.ts:86-89 | when one tag is used twice and the others at most once, it heads the list with count 2 and every other entry has count 1 |
| SeedFacts.SeedPopularTags | lib/utils.ts:68-81 | the seed's popular tags start with `product`, count 2, and every other entry has count 1 |
| PrototypeTally.BumpAsWritten | lib/data/server-data.ts:81 | as written, with `ObjectPrototypeKeys` the twelve names `Object.prototype` supplies: at most one entry is added; a `__proto__` tag changes nothing; an unseen tag naming an inherited member gets a non-numeric value; any other unseen tag gets 1 |
| PrototypeTally.BumpAsWrittenKeys | lib/data/server-data.ts:81 | one step as written keeps the keys in place and adds at most the visited tag, never `__proto__` |
| PrototypeTally.TallyAsWritten | lib/data/server-data.ts:79-84 | the tally as written has at most one entry per visited tag |
| PrototypeTally.ProtoNeverStored | lib/data/server-data.ts:79-84 | for any tags, the tally as written has no entry `__proto__` |
| PrototypeTally.ToStringCounterexample | lib/data/server-data.ts:79-84 | a `toString` tag is stored with a non-number, where the intended tally counts 1 |
| PrototypeTally.ProtoCounterexample | lib/data/server-data.ts:79-84 | a `__proto__` tag is dropped, where the intended tally counts 1 |
| PrototypeTally.BumpAgrees | lib/data/server-data.ts:81 | for a tag naming no `Object.prototype` member, one increment as written is the intended increment |
| PrototypeTally.AsWrittenAgrees | lib/data/server-data.ts:79-84 | for tags naming no `Object.prototype` member, the code as written computes the intended tally |
| TagEditor.TagInput.constructor | components/editor/tag-input.tsx:18-19 | the parent's tags and an empty text box |
| TagEditor.TagInput.InputChange | components/editor/tag-input.tsx:22-24 | the text box takes the typed value; the tags are unchanged |
| TagEditor.TagInput.AddTag | components/editor/tag-input.tsx:35-41 | a non-empty tag not yet listed is appended and the box cleared; otherwise nothing changes, so a duplicate stays in the box; no tag repeats |
| TagEditor.TagInput.RemoveTag | components/editor/tag-input.tsx:43-47 | exactly the element at the index goes, the rest keep their order; no tag repeats |
| TagEditor.TagInput.KeyDown | components/editor/tag-input.tsx:26-33 | Enter with non-blank text adds the trimmed text; Backspace in an empty box removes exactly the last tag; any other key, and Enter on blank text, changes nothing |
| TagEditor.TagInput.AddClick | components/editor/tag-input.tsx:49-53 | the button does what Enter does |
| Scenarios.RecencyTie | lib/data/server-data.ts:67-69 | two notes updated at the same instant keep their storage order |
| Scenarios.SortTie | lib/data/server-data.ts:68 | the sort of three elements whose outer keys tie below the middle one |
| Scenarios.TallyXYYZX | lib/data/server-data.ts:79-84 | the tally of `x, y, y, z, x` is x 2, y 2, z 1 |
| Scenarios.AllTagsOfThree | lib/data/server-data.ts:79-80 | the tags of three notes, note by note |
| Scenarios.TallyOfTie | lib/data/server-data.ts:79-84 | the tally of notes tagged `[x, y]`, `[y, z]`, `[x]` |
| Scenarios.SortPair | lib/data/server-data.ts:68 | the sort leaves a descending pair in place |
| Scenarios.SortSorted | lib/data/server-data.ts:68 | the sort leaves a descending list of three in place |
| Scenarios.TieEntriesSorted | lib/data/server-data.ts:86-89 | those counts keep their first-seen order through entries, sort and slice |
| Scenarios.PopularTie | lib/data/server-data.ts:77-90 | notes tagged `[x, y]`, `[y, z]`, `[x]` give x 2, y 2, z 1: the tie goes to the tag seen first |

## Left out

- File and directory I/O (`existsSync`, `mkdirSync`, `readFile`, `writeFile`, and JSON parsing and printing): a file is a `Stored<T>` value that is missing, unparsable (`Malformed`) or holds a list. A failed write is not modelled.
- `fetch`, `getApiUrl` and `response.json()` in `lib/data/data-service.ts`: a response is an input record `(ok, body)`. A body that fails to parse is not modelled.
- A POST or DELETE request body that fails to parse is `None`. The model does not check the fields of a posted note.
- Concurrency: each route handler is one atomic method. The lost update that two interleaved read-modify-write handlers can cause is not modelled.
- `NextResponse` status codes and `console.error` logging: only the response body or error message is modelled.
- Dates: `createdAt` and `updatedAt` are integer milliseconds standing for `new Date(s).getTime()`, so malformed dates (NaN) are not modelled. The sort comparator's subtraction is exact integer comparison.
- `formatDate`, which uses `Intl`: not modelled.
- `getRelativeTime` takes the current instant as a parameter instead of reading the clock.
- `cn` and `twMerge` class merging: a foreign library.
- Random ids and clock-stamped note construction: outside the core.
- React state plumbing, focus and `preventDefault` in the tag editor: the parent's `tags` prop and `onChange` are modelled as the `tags` field being assigned.
- `communityNotes` in `lib/data/notes.ts` (lines 136-189): used only by pages.
- The default categories at `lib/data/server-data.ts:21-26` (hex colours) differ from those of `app/api/categories/route.ts` (named colours). `ServerStore` takes the default as a parameter. `ServerData.DefaultCategories` gives the hex set.
- Characters are Dafny `char`, not UTF-16 code units. `length`, `slice` and `trim` therefore count and cut per character.
- Tie order of popular tags: equal counts follow the order of `Object.entries`. That order puts integer-like keys first in ascending order, then the other keys in first-seen order. The model follows the code here; the natural reading "first-seen order" holds only when no tag is an array index (`NoteQueries.PopularTagsStable`).
- Two copies of `data/notes.json`: `NotesRoute.NotesFile` holds its own `file` and `ServerData.ServerStore` its own `notesFile`, so a POST or DELETE through the route is never seen by a later `ServerStore` query. The program re-reads the one file on every call. `ServerStore` is a snapshot of the file taken once.
- Valid JSON that is not an array: `Stored<T>` holds a list or nothing, so it cannot represent such a document. The program's route GET would return it, POST and DELETE would fail at `findIndex`/`filter`, and `getNotes` in `server-data.ts` would return it while the other queries would throw a `TypeError`.
- ServerData.ServerStore.GetPopularTags, DataService.GetPopularTags and SeedQueries.GetPopularTags compute the corrected tally of Findings, not what the program computes for tags named after `Object.prototype` members (`toString`, `__proto__`, …). The program's result for those is `PrototypeTally.TallyAsWritten`.
- Error surfacing: `getNotes` and `getCategories` in `server-data.ts` return `[]` on failure instead of reporting an error. The model follows the code.
- PrototypeTally.BumpAsWritten: a repeated tag that names an inherited member keeps a non-numeric value, but the order in which `sort` places such entries is not modelled.
- SeedFacts.SeedPopularTags: states the head and the counts of the seed's popular tags; it does not state the length (10) of the list.

## Findings

| source | as written | input that shows it | evidently intended | confidence | as-written member | corrected member |
|---|---|---|---|---|---|---|
| lib/data/server-data.ts:79-84 (the same code is at lib/data/data-service.ts:87-92 and lib/utils.ts:69-75) | the tag counts are kept in a `{}` literal, so `acc[tag] \|\| 0` reads members inherited from `Object.prototype` | a note tagged `toString` gets a string (the inherited function followed by `1`) for a count; a note tagged `__proto__` gets no entry, because the prototype setter ignores a string | a count of own occurrences for every tag, e.g. over `Object.create(null)` or a `Map` | not executed | PrototypeTally.ToStringCounterexample, PrototypeTally.ProtoCounterexample | NoteQueries.TallyTagsFacts (with PrototypeTally.AsWrittenAgrees: the two agree on every other tag) |
