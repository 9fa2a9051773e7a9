# lostfound — a Dafny model of its feed, report form and lookups

lostfound is a React and Firebase web application for reporting lost items. This
project models the logic inside its components:

- **The report form** (`src/ItemForm.js`):
  - validation;
  - the field updaters;
  - the five-file / 500 KiB photo rule;
  - the tag toggle;
  - the submission record and the form reset.
- **The tag picker** it renders (`src/incident/incidentform/IncidentTags.js`):
  - the 21 predefined tags;
  - the picker's own copy of the selection;
  - adding a free-form tag.
- **The item feed** (`src/DataGrid.js`):
  - cursor pagination over the "Items" collection, ordered by `dateLost` descending, five per page;
  - resolving each item's `imagePaths`, where a failed path is dropped;
  - the `items` / `lastDoc` / `hasMore` state and the "Load More" button.
- **The map** (`src/mainmap/MapWithPinpoints.js`):
  - the nearest-town reduction over the 25-town gazetteer, seeded with `{town: null, distance: Infinity}`;
  - the filter that keeps the items with a truthy `locationLngLat.lat` and `.lng`.
- **`getDocumentsByIds`** (`src/utils/AppUtils.js`): one read per id, all together; the records of the existing documents in request order; the empty list when any read fails.

The document store, the object store, the signed-in user and the distance
formula are parameters. The ordered collection is modelled as its index, the
documents in the order the query returns them (`StoreOrder.Sorted`). A failed
call (a rejected promise) is an `Option` that is `None`.

Modules:

| module | file |
|---|---|
| `Wrappers` | wrappers.dfy |
| `Seqs` | seqs.dfy |
| `Values` | values.dfy |
| `Text` | text.dfy |
| `TagList` | tag_list.dfy |
| `ItemForm` | item_form.dfy |
| `IncidentTags` | incident_tags.dfy |
| `ReportPage` | report_page.dfy |
| `StoreOrder` | store_order.dfy |
| `DataGrid` | data_grid.dfy |
| `MapWithPinpoints` | map_with_pinpoints.dfy |
| `AppUtils` | app_utils.dfy |

- `Wrappers` defines `Option`.
- `Seqs` defines the order-preserving `Filter`, `FilterMap` and `AllSome` combinators and proves their laws once. Every `.filter`, `.map(...).filter(Boolean)` and `Promise.all` in the source is an instance of one of them.
- `Values` holds JavaScript values, document fields and JavaScript truthiness. A number is finite, an infinity or `NaN`; `0` and `NaN` are the falsy ones.
- `Text` defines `String.prototype.trim` and the `/^\d{10}$/` test.
- `TagList` holds the tag toggle shared by the form and the picker.
- `ReportPage` composes the form and the picker into one state machine.

Two facts of the feed's code that the model follows:

- **Page size:** `ITEMS_PER_PAGE = 5` (`src/DataGrid.js:22`); `DataGrid.ItemsPerPage` is 5.
- **Cursor after an empty page:** `lastDoc` is set to `docs[docs.length - 1]`, which is `undefined` for an empty page (`src/DataGrid.js:82`), so the model's cursor becomes `None`. The same fetch sets `hasMore` to false (`src/DataGrid.js:83`), which disables "Load More" (`src/DataGrid.js:133`). The feed is then exhausted, and the unset cursor is never used for another query. `DataGrid.ExactMultipleCostsOneEmptyClick` and `DataGrid.ExhaustedFeedIgnoresClicks` state this case.

Records are built as `{ id: doc.id, ...data }` (`src/DataGrid.js:75`, `src/utils/AppUtils.js:88`, `src/mainmap/MapWithPinpoints.js:128`). A stored field named "id" comes later in the spread and replaces the document id. The model keeps this order: `Values.WithId` gives the document id only when the stored fields have no "id" of their own.

## Model

| member | source | states |
|---|---|---|
| Text.TrimEmptyIffBlank | src/ItemForm.js:117 | `s.trim()` is empty exactly when every character of `s` is JavaScript whitespace |
| Text.PaddedTenDigitsFail | src/ItemForm.js:123 | the phone pattern is matched against the untrimmed value, so ten digits with any padding are rejected |
| Text.TenDigitsNotBlank | src/ItemForm.js:121-125 | a ten-digit number is never blank, so a phone error is either "required" or "must be 10 digits" |
| ItemForm.ValidateForm | src/ItemForm.js:114-131 | the form is valid iff the error map is empty iff the form is complete; each field has an error exactly when its check fails; the phone problem is "required" for a blank number and "must be 10 digits" otherwise |
| ItemForm.CompleteIffNoProblem | src/ItemForm.js:114-131 | the per-field problems agree with completeness field by field, in both directions |
| ItemForm.FieldProblemSpec | src/ItemForm.js:117-127 | each field's problem, given independently of the others, as the `if` chain assigns it |
| ItemForm.HandleChange | src/ItemForm.js:78-81 | a text input replaces its own field and leaves every other field unchanged |
| ItemForm.HandleFileChange | src/ItemForm.js:83-99 | more than five files leaves the form unchanged with the limit notice; otherwise `files` holds every copy of each selected file of at most 500 KiB and none larger, the size notice is given iff some file was too large, and nothing else changes |
| ItemForm.AdmissionKeepsOrder | src/ItemForm.js:84-87 | the admitted files of a split selection are those of each part, concatenated, so selection order is kept |
| ItemForm.HandleTagsChange | src/ItemForm.js:101-108 | the clicked tag's membership flips, other tags keep their occurrences, and no other field changes |
| ItemForm.SelectLocation | src/ItemForm.js:110-112 | the location is replaced and nothing else changes |
| ItemForm.HandleSubmit | src/ItemForm.js:133-193 | a record is sent iff the form is complete and a user is signed in; it copies the form's fields, has status "Unclaimed" and no image paths; the form is reset only when every backend call succeeded; the login notice is given iff a complete form has no user |
| TagList.RemoveAll | src/ItemForm.js:104 | filtering out a tag removes every copy of it and keeps every copy of every other tag |
| TagList.Toggle | src/ItemForm.js:103-105 | a present tag is removed entirely; an absent one is appended at the end; other tags are untouched |
| TagList.ToggleTwiceRestores | src/ItemForm.js:103-105 | clicking an unselected tag twice restores the selection exactly |
| TagList.ToggleKeepsNoDup | src/incident/incidentform/IncidentTags.js:38-40 | a toggle never creates a duplicate in a duplicate-free selection |
| TagList.RemoveAllIdempotent | src/incident/incidentform/IncidentTags.js:39 | removing a tag twice is removing it once |
| TagList.RemoveAllAbsent | src/incident/incidentform/IncidentTags.js:39 | removing an absent tag changes nothing |
| TagList.RemoveAllAppendSelf | src/incident/incidentform/IncidentTags.js:38-40 | appending a tag and then removing it gives the same list as removing it alone |
| TagList.PredefinedTagsDistinct | src/incident/incidentform/IncidentTags.js:12-34 | the 21 predefined tags are pairwise distinct |
| TagList.ToggleAllWithinVocabulary | src/incident/incidentform/IncidentTags.js:84-93 | any sequence of badge clicks keeps the selection duplicate-free and within the predefined tags |
| TagList.SelectionBounded | src/incident/incidentform/IncidentTags.js:12-34 | a duplicate-free selection of predefined tags has at most 21 entries |
| IncidentTags.ToggleTag | src/incident/incidentform/IncidentTags.js:36-47 | the picker's selection flips membership of the tag, the parent is told the clicked tag itself, and nothing else in the picker changes |
| IncidentTags.HandleAddTag | src/incident/incidentform/IncidentTags.js:64-77 | a blank input writes nothing and changes nothing; otherwise `{name}` is written untrimmed; on success it is appended and the input cleared; on failure nothing changes |
| ReportPage.StepAsWritten | src/incident/incidentform/IncidentTags.js:36-47 | in the source as written, only a tag click reaches the picker, and it flips the clicked tag in both the picker's and the form's copy; every other event, a submission included, leaves the picker as it was |
| ReportPage.StepAsWrittenKeepsFormInv | src/ItemForm.js:83-112 | in the source as written, every event the page's controls can raise keeps the form's tags distinct vocabulary tags, its location unset or a badge, and its photos at most five of at most 500 KiB |
| ReportPage.RunAsWrittenKeepsFormInv | src/ItemForm.js:67-112 | in the source as written, any sequence of UI events keeps that form invariant; the desync after a submission reaches the picker only |
| ReportPage.Step | src/ItemForm.js:180-187 | corrected page step: identical to the source's step except that a successful submission also clears the picker's selection |
| ReportPage.StepDiffersOnlyInPicker | src/ItemForm.js:180-187 | the corrected step gives the same form as the source's step for every event, and the same picker except that a successful submission empties its selection |
| ReportPage.StepKeepsInvariant | src/ItemForm.js:83-112 | every event the page's controls can raise keeps the picker and form selections equal, the tags distinct vocabulary tags, the location unset or a badge, and the photos at most five of at most 500 KiB |
| ReportPage.RunKeepsInvariant | src/ItemForm.js:67-74 | from the initial page, any sequence of UI events keeps that invariant |
| ReportPage.InitialPageInv | src/ItemForm.js:67-74 | the initial page satisfies the invariant |
| ReportPage.TagClicksKeepCopiesEqual | src/incident/incidentform/IncidentTags.js:36-47 | in the source as written, tag clicks alone keep the picker's and the form's selections equal, both equal to the toggles applied in order |
| ReportPage.SubmitLeavesPickerStale | src/ItemForm.js:180-187 | in the source as written, a successful submit empties the form's tags while the picker keeps "Keys"; the next click on "Keys" leaves the picker empty and the form holding "Keys" |
| ReportPage.CorrectedSubmitClearsPicker | src/ItemForm.js:180-187 | with the corrected step, the same events leave both copies holding "Keys" |
| StoreOrder.StrLessTransitive | src/DataGrid.js:47 | code-point string order is transitive (also irreflexive and total: `StrLessIrreflexive`, `StrLessTotal`) |
| StoreOrder.BeforeTransitive | src/DataGrid.js:47 | the query order, date descending with ties by id descending, is transitive |
| StoreOrder.BeforeTotal | src/DataGrid.js:47 | any two orderable documents with distinct ids are ordered one way or the other |
| StoreOrder.BeforeAsymmetric | src/DataGrid.js:47 | no two documents are each before the other |
| StoreOrder.SortedNoDup | src/DataGrid.js:47 | the ordered collection holds no document twice |
| StoreOrder.FromTopSeesAll | src/DataGrid.js:53 | a query without a cursor sees the whole collection |
| StoreOrder.AfterCursorIsSuffix | src/DataGrid.js:48 | `startAfter(d)` sees exactly the documents after `d` |
| DataGrid.BuildQuery | src/DataGrid.js:43-54 | the query is on "Items", ordered by `dateLost` descending, limited to 5, and starts after the cursor iff it is a next-page request and a cursor exists |
| DataGrid.RunQuery | src/DataGrid.js:56 | a query returns at most `limit` documents, all from the collection and after the cursor |
| DataGrid.QueryFromTop | src/DataGrid.js:53 | on the ordered collection, the first-page query returns its first `min(5, size)` documents |
| DataGrid.QueryAfterCursor | src/DataGrid.js:45-50 | on the ordered collection, the next-page query returns the up to 5 documents right after the cursor |
| DataGrid.SortedIsPaged | src/DataGrid.js:43-54 | both query forms answer contiguous slices of an ordered collection |
| DataGrid.ImageUrls | src/DataGrid.js:63-73 | a falsy `imagePaths` gives no images; a truthy non-array makes the record fail; otherwise at most one URL per path, and one for every path when every path resolves |
| DataGrid.ImageUrlsFollowPathOrder | src/DataGrid.js:63-75 | the URLs are the resolver's URLs of exactly the paths that resolve to a non-empty URL, in the paths' order: the picked positions increase, cover every resolving path, and the `j`-th URL belongs to the `j`-th of them |
| DataGrid.ResolutionIsPerPath | src/DataGrid.js:63-73 | resolving a split path list is resolving each part and concatenating, so one path's failure affects no other path |
| DataGrid.OneFailedImageOfThree | src/DataGrid.js:65-73 | with the middle one of three paths missing from the store, the record keeps the other two URLs in order |
| DataGrid.BuildRecord | src/DataGrid.js:75 | a record has the stored fields plus `id` and `images`; `images` holds the resolved URLs; stored fields other than `images` are kept; `id` is the document id unless a stored "id" field replaces it |
| DataGrid.BuildPage | src/DataGrid.js:58-77 | the page's records are built iff every document's record is, one per document in order |
| DataGrid.BuildPageAppend | src/DataGrid.js:58-77 | building two runs of documents is building each and concatenating |
| DataGrid.Absorb | src/DataGrid.js:79-83 | after a fetch, items are replaced (first page) or extended (next page), `hasMore` holds iff the page was full, and the cursor is the page's last document, or none after an empty page |
| DataGrid.FetchItems | src/DataGrid.js:38-87 | a failed read or image-path error leaves the state unchanged; otherwise the state is updated from the page the query returns |
| DataGrid.FirstPageShowsFirstRecords | src/DataGrid.js:53-83 | on the ordered collection, a first-page fetch replaces the items by the records of the first `min(5, size)` documents, moves the cursor to the last of them (none if there are none) and keeps "Load More" enabled iff five came back; a failing record changes nothing |
| DataGrid.NextPageAppendsFollowingRecords | src/DataGrid.js:43-83 | on the ordered collection, "Load More" from a cursor on the `k`-th document appends the records of exactly the up to five documents after it, moves the cursor to the last of them, and keeps the button enabled iff five came back; a failing record changes nothing |
| DataGrid.Commit | src/DataGrid.js:79-83 | an arriving answer extends (next page) or replaces the items current at that moment, `hasMore` says whether its page was full, and a rejected answer changes nothing |
| DataGrid.FetchIsIssueThenCommit | src/DataGrid.js:38-87 | a fetch that completes before the next one starts is the query from the state's cursor followed by committing its answer to that state |
| DataGrid.DoubleClickAppendsPageTwice | src/DataGrid.js:130-134 | in the source as written, two clicks before the first answer arrives query from the same cursor, and the two answers append the same records twice |
| DataGrid.EarlyClickRepeatsFirstPage | src/DataGrid.js:34-53 | in the source as written, a click while the mount fetch is in flight finds no cursor, asks for the first page again, and appends it after the mount fetch has shown it |
| DataGrid.FeedStepKeepsPrefix | src/DataGrid.js:79-83 | every mount or enabled "Load More" keeps the items equal to the records of a prefix of the ordered collection, with the cursor its last document; "Load More" never shrinks the prefix |
| DataGrid.FeedRunShowsPrefix | src/DataGrid.js:34-36 | with each fetch completing before the next one starts, from any state showing a prefix of the ordered collection (the initial empty state among them), any sequence of mounts and clicks, failed ones included, still shows the records of a prefix, with no gap and no repeat |
| DataGrid.ExhaustedFeedIgnoresClicks | src/DataGrid.js:130-134 | once `hasMore` is false the disabled button changes nothing, however often it is clicked |
| DataGrid.LoadedIsOrderedAndDistinct | src/DataGrid.js:79-82 | the items shown are the records of the first k documents, in query order, with no document twice |
| DataGrid.ExactMultipleCostsOneEmptyClick | src/DataGrid.js:82-83 | when the whole collection is loaded and the last page was full, one more click appends nothing, clears `hasMore` and leaves the cursor unset |
| MapWithPinpoints.LessTransitive | src/mainmap/MapWithPinpoints.js:68 | JavaScript `<` on numbers, NaN and infinities included, is transitive (also irreflexive: `LessIrreflexive`) |
| MapWithPinpoints.TownsAreLocationTags | src/mainmap/MapWithPinpoints.js:16-42 | the 25 gazetteer towns are the form's 25 location badges, in the same order |
| MapWithPinpoints.NearestTown | src/mainmap/MapWithPinpoints.js:64-78 | the seed survives iff no distance is below Infinity; otherwise the chosen distance is below Infinity |
| MapWithPinpoints.NearestTownLeads | src/mainmap/MapWithPinpoints.js:64-78 | a chosen town leads: below every earlier non-NaN distance, not above any later one; the result carries that town's name, distance and coordinates |
| MapWithPinpoints.LeaderIsChosen | src/mainmap/MapWithPinpoints.js:64-78 | conversely, a leading town is the one the reduction returns |
| MapWithPinpoints.LeaderUnique | src/mainmap/MapWithPinpoints.js:68 | at most one town leads |
| MapWithPinpoints.NearestIsMinimal | src/mainmap/MapWithPinpoints.js:64-78 | no town's non-NaN distance is below the chosen distance |
| MapWithPinpoints.TiesGoToEarliest | src/mainmap/MapWithPinpoints.js:68 | the strict `<` keeps the first of equally near towns: no earlier town has the chosen distance |
| MapWithPinpoints.FiniteDistancesNameATown | src/mainmap/MapWithPinpoints.js:16-78 | with finite distances a town is always chosen, with a gazetteer entry's name and coordinates, and the name is a location badge |
| MapWithPinpoints.FetchNearbyTowns | src/mainmap/MapWithPinpoints.js:14-82 | the answer is a one-element list, and it holds the null-town seed iff no town's distance is below Infinity |
| MapWithPinpoints.LocatedItems | src/mainmap/MapWithPinpoints.js:127-134 | an item is kept iff its record has truthy `locationLngLat`, `.lat` and `.lng`; nothing is dropped iff every item is located |
| MapWithPinpoints.LocatedItemsAppend | src/mainmap/MapWithPinpoints.js:127-134 | the filter keeps the store's order: filtering a split collection is filtering each part |
| MapWithPinpoints.ZeroCoordinateDropped | src/mainmap/MapWithPinpoints.js:131-133 | an item at latitude or longitude exactly 0 is dropped, since 0 is falsy |
| MapWithPinpoints.NaNCoordinateDropped | src/mainmap/MapWithPinpoints.js:131-133 | an item whose latitude or longitude is `NaN` is dropped, since `NaN` is falsy |
| MapWithPinpoints.NonZeroCoordinatesKept | src/mainmap/MapWithPinpoints.js:131-133 | an item whose latitude and longitude are numbers other than 0 and `NaN`, infinities included, is kept |
| MapWithPinpoints.NonObjectLocationDropped | src/mainmap/MapWithPinpoints.js:131-133 | a `locationLngLat` that is not an object has no truthy `.lat` and is dropped |
| MapWithPinpoints.FetchItemsWithLocations | src/mainmap/MapWithPinpoints.js:122-140 | a failed read keeps the previous items; otherwise the items are exactly the located records |
| Values.WithId | src/utils/AppUtils.js:88 | `{id, ...data}` has the stored keys plus `id`, keeps every stored value, and `id` is the given id unless the data has its own |
| AppUtils.GetDocumentsByIds | src/utils/AppUtils.js:79-93 | any failed read gives `[]`; never more records than ids; no ids give `[]` |
| AppUtils.SingleRequest | src/utils/AppUtils.js:82-88 | a single successful request answers the document's record if it exists and nothing otherwise |
| AppUtils.AnswerIsFoundRecords | src/utils/AppUtils.js:82-88 | without failures, the answer equals reading each id directly and keeping the existing ones, in request order |
| AppUtils.RecordsFollowFoundIds | src/utils/AppUtils.js:86-88 | without failures, there is one record per existing requested id, in request order, built from that id and its stored fields |
| AppUtils.RecordIdIsRequestedId | src/utils/AppUtils.js:88 | each record's keys are the stored keys plus `id`, and `id` is the requested id unless the stored fields carry an "id" |
| AppUtils.GetDocumentsAppend | src/utils/AppUtils.js:82-92 | requesting two runs of ids is requesting each and concatenating, unless a read fails, which empties the whole answer |
| AppUtils.RepeatedIdRepeatsRecord | src/utils/AppUtils.js:82-88 | a repeated id yields its record twice; nothing is deduplicated |

## Left out

- DataGrid.FeedRunShowsPrefix: the feed's run completes each fetch before the next one starts. The source does not disable "Load More" while a fetch is in flight, so overlapping fetches are possible. Their effect is stated by `DataGrid.DoubleClickAppendsPageTwice` and `DataGrid.EarlyClickRepeatsFirstPage` and listed under Findings.
- MapWithPinpoints.NearestIsMinimal: minimality is stated only against towns whose distance is not NaN. JavaScript's `<` is false both ways for NaN, so the reduction skips such a town and a chosen town need not be below it.
- **Distance:** the haversine formula (`src/mainmap/MapWithPinpoints.js:45-61`) is floating-point trigonometry. The distance is a parameter returning a JavaScript number, so NaN and Infinity are still possible.
- **Store and network I/O:** Firebase reads and writes, object-store URL resolution and authentication are parameters:
  - a resolved collection or a failure;
  - a path-to-URL map;
  - a signed-in user or none;
  - "the backend calls succeeded".
  The model does not send alerts, console output or React re-renders.
- **Photo upload:** `addDoc`, the photo uploads, `updateDoc` and `arrayUnion` in `handleSubmit` (`src/ItemForm.js:158-177`) are folded into one success flag. The model states the record first written and when the form resets, not the photo URLs written afterwards.
- **Promise.all:** completion order is not modelled. Only the order-preserving result and the all-or-nothing rejection matter, and both are modelled.
- **Unsorted documents:** the model assumes every document in "Items" has a string `dateLost`, as the report form writes it. The store's order across value types, for documents holding some other `dateLost`, is not modelled.
- **Non-string image paths:** an entry of `imagePaths` that is not a string is treated as a path that fails to resolve.
- **Collection names:** `handleSubmit` writes to "Incidents" while the feed and the map read "Items". The model keeps the names and does not connect the collections.
- **Adding a tag:** the picker component renders only the predefined badges (`src/incident/incidentform/IncidentTags.js:79-101`), with no input or button wired to `handleAddTag` or `newTag`. `IncidentTags.HandleAddTag` models the handler as written, but no page event reaches it.
- **Picker mount:** `fetchTags` on mount (`src/incident/incidentform/IncidentTags.js:49-62`) only loads the free-form tag list. It is not modelled.
- **StrictMode:** under React StrictMode an updater runs twice, which would notify the parent twice. The model runs each updater once, as in a production build.
- **getDocumentsByIds input:** `documentIds` is a sequence. A non-array argument, which the source catches as an error, is not modelled.
- **Other functions and files:** the other functions of `src/utils/AppUtils.js` are not part of this model. Neither are the login, profile, comment, card, upload-modal and navigation components, because they contain no logic beyond rendering and single store calls.
- **Date input:** `dateLost` values are the `YYYY-MM-DD` strings of a date input. Their ordering is code-point string order, which the model uses directly.

## Findings

| source | as written | input that shows it | evidently intended | confidence | as-written member | corrected member |
|---|---|---|---|---|---|---|
| src/ItemForm.js:180-187 | a successful submit resets the form's `tags` to `[]` but not the picker's own selection (`src/incident/incidentform/IncidentTags.js:9`) | select "Keys", submit a complete form as a signed-in user, then click "Keys" again: the picker shows nothing selected and the form holds ["Keys"] | the picker's selection is cleared with the form, so both copies stay equal | high; not executed | ReportPage.SubmitLeavesPickerStale | ReportPage.StepKeepsInvariant |
| src/DataGrid.js:130-134 | "Load More" stays enabled while a fetch is in flight, and each answer extends the list current when it arrives (`src/DataGrid.js:79-81`) | click "Load More" twice before the first answer arrives: both fetches start from the same cursor and the same five records are appended twice; or click while the mount fetch is in flight: the first page is shown twice | one fetch at a time, so the items are always the records of a prefix of the collection with no repeat | medium; not executed | DataGrid.DoubleClickAppendsPageTwice | DataGrid.FeedRunShowsPrefix |
