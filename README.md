# Warehouse inventory list view, modelled in Dafny

This project models the `ItemList` component of the warehouse inventory
client: the table that lists the stored items, lets the user search them
by name or category, sort them by clicking a column header, page through
them five at a time, and edit or delete one record. All of it lives in
`warehouse-inventory/src/components/ItemList.js`.

The model has two halves, following the source:

- The derived view is pure and is modelled with functions and lemmas:
  - the search filter (`Search.Filter`);
  - the copy-and-sort with the three-way comparator (`Sorting.Compare`, `Sorting.SortBy`);
  - the page slice (`Paging.Page`) and the page count (`Paging.PageCount`).
- The component state is imperative and is modelled as a class,
  `ListView.ItemList`:
  - its fields are the seven React state variables: `items`, `loading`,
    `editingItem`, `searchQuery`, `currentPage`, `sortField` and `sortOrder`;
  - each event handler is a method whose `ensures` gives the whole new state;
  - the loop that builds the page-number buttons is a method with a loop
    (`Paging.BuildPageNumbers`).

Modules:

- `Wrappers`: `Option`, for the nullable edit draft.
- `Text`: ASCII `toLowerCase`, `String.prototype.includes`, and the `<` order on strings.
- `Items`: the record, its five sortable fields, the key a field holds, and the edit-form keystrokes.
- `Search`, `Sorting`, `Paging`: the derived view.
- `ListView`: the component state and its handlers.
- `Scenarios`: a two-record worked example.

Each request to the inventory service becomes a parameter of the handler
that sends it. A delete or update passes a success flag. A fetch passes a
`Fetched` value: either the records returned or a failure.

In three places the code behaves in a way a reader might not expect;
the model follows the code:

- With no matching record there are zero page numbers, not one (`Paging.NoPagesWhenEmpty`).
  Next is therefore never disabled in that case (`Paging.NextEnabledWhenEmpty`).
- Typing in the search box does not reset or clamp the current page (`ListView.ItemList.SetSearchQuery`).
  A page left past the end then shows no rows (`ListView.StalePageShowsNothing`).
- The sort compares strings case-sensitively, character by character.
  The search ignores ASCII letter case.

## Model

| member | source | states |
|---|---|---|
| `Text.ToLower` | warehouse-inventory/src/components/ItemList.js:70-71 | lower-casing keeps the length and folds each character on its own |
| `Text.ToLowerIdempotent` | warehouse-inventory/src/components/ItemList.js:70-71 | a lower-cased string has no upper-case letter, and lower-casing it again changes nothing |
| `Text.IncludesIffOccurs` | warehouse-inventory/src/components/ItemList.js:70-71 | `includes` holds exactly when the query occurs at some start position of the string |
| `Text.IncludesEmpty` | warehouse-inventory/src/components/ItemList.js:70-71 | the empty query is found in every string |
| `Text.Includes` | warehouse-inventory/src/components/ItemList.js:70-71 | `s.includes(t)`: tries each start position of `s` from the left; its meaning is stated by `Text.IncludesIffOccurs` |
| `Text.StrLess` | warehouse-inventory/src/components/ItemList.js:77-78 | `s < t` on strings: the first differing character decides and a proper prefix is smaller; its order properties are the four lemmas below |
| `Text.StrLessIrreflexive` | warehouse-inventory/src/components/ItemList.js:77-78 | no string is below itself |
| `Text.StrLessAsymmetric` | warehouse-inventory/src/components/ItemList.js:77-78 | two strings are never each below the other |
| `Text.StrLessTotal` | warehouse-inventory/src/components/ItemList.js:77-78 | two different strings are always ordered one way or the other |
| `Text.StrLessTransitive` | warehouse-inventory/src/components/ItemList.js:77-78 | string order is transitive |
| `Items.Get` | warehouse-inventory/src/components/ItemList.js:77-78 | `item[field]` is a number for id, quantity and price and a string for name and category |
| `Items.KeyLess` | warehouse-inventory/src/components/ItemList.js:77-78 | `a[field] < b[field]`: numeric order for numbers, `Text.StrLess` for strings |
| `Items.KeyLessAsymmetric` | warehouse-inventory/src/components/ItemList.js:77-78 | the `<` and `>` tests of the comparator never both hold |
| `Items.KeyLessTotal` | warehouse-inventory/src/components/ItemList.js:77-79 | two values of one field that are neither below nor above each other are equal |
| `Items.KeyLessTransitive` | warehouse-inventory/src/components/ItemList.js:77-78 | the field order is transitive |
| `Items.ApplyEdit` | warehouse-inventory/src/components/ItemList.js:131-166 | an edit-form keystroke sets its own field to the typed value and keeps the id and every other field |
| `Items.ApplyEditLastWins` | warehouse-inventory/src/components/ItemList.js:131-166 | two keystrokes in the same input leave only the second value |
| `Items.ApplyEditCommutes` | warehouse-inventory/src/components/ItemList.js:131-166 | keystrokes in different inputs can be applied in either order |
| `Search.Matches` | warehouse-inventory/src/components/ItemList.js:69-71 | a record matches iff the lower-cased query occurs somewhere in its lower-cased name or in its lower-cased category |
| `Search.Filter` | warehouse-inventory/src/components/ItemList.js:68-72 | a record is in the result iff it is stored and the lower-cased query is in its lower-cased name or category; the result is no longer than the input |
| `Search.FilterIsOrderedSelection` | warehouse-inventory/src/components/ItemList.js:68-72 | the result is an order-preserving subsequence of the records and holds every copy of each matching record and no copy of any other |
| `Search.FilterEmptyQuery` | warehouse-inventory/src/components/ItemList.js:68-72 | an empty query keeps every record, in order |
| `Search.FilterIgnoresQueryCase` | warehouse-inventory/src/components/ItemList.js:68-72 | queries equal after lower-casing select the same records |
| `Search.FilterAppend` | warehouse-inventory/src/components/ItemList.js:68-72 | filtering a concatenation is concatenating the filtered parts |
| `Sorting.Compare` | warehouse-inventory/src/components/ItemList.js:77-79 | the comparator returns -1, 0 or 1; negative exactly when `a`'s key is below `b`'s in ascending order (above it in descending), positive exactly in the opposite case |
| `Sorting.CompareAntisymmetric` | warehouse-inventory/src/components/ItemList.js:77-79 | the descending comparator is the ascending one negated, and swapping the arguments negates the result |
| `Sorting.CompareZeroIffEqualKeys` | warehouse-inventory/src/components/ItemList.js:77-79 | the comparator returns 0 exactly when the two keys are equal |
| `Sorting.Insert` | warehouse-inventory/src/components/ItemList.js:76-80 | inserting into a sorted sequence keeps it sorted and adds exactly that record |
| `Sorting.SortBy` | warehouse-inventory/src/components/ItemList.js:75-81 | the sorted copy is a permutation of the filtered records and each record may stand before the next under the comparator |
| `Sorting.SortedMeaning` | warehouse-inventory/src/components/ItemList.js:77-79 | ascending results never decrease in the chosen field and descending results never increase |
| `Sorting.SortedPairwise` | warehouse-inventory/src/components/ItemList.js:75-81 | in a sorted result every earlier record may stand before every later one |
| `Sorting.SortByKeepsSorted` | warehouse-inventory/src/components/ItemList.js:75-81 | sorting an already sorted sequence returns it unchanged |
| `Sorting.SortByIdempotent` | warehouse-inventory/src/components/ItemList.js:75-81 | sorting twice by the same field and order is sorting once |
| `Sorting.InsertStable` | warehouse-inventory/src/components/ItemList.js:76-80 | an inserted record lands before every record with the same key, and the other records with that key keep their order |
| `Sorting.SortByStable` | warehouse-inventory/src/components/ItemList.js:75-81 | for every key, the records holding it appear in the sorted copy in the same order as in the filtered list: the sort is stable |
| `Paging.Page` | warehouse-inventory/src/components/ItemList.js:91-93 | a page never holds more than five records; page p of 1 or more is the clipped slice `[(p-1)*5, p*5)` |
| `Paging.PageCount` | warehouse-inventory/src/components/ItemList.js:102 | the page count is the ceiling of the record count over five |
| `Paging.JsSlice` | warehouse-inventory/src/components/ItemList.js:93 | `slice(start, end)` returns a contiguous run of `s` starting at the resolved start index, never longer than `s`, and exactly `s[start..end]` when both bounds lie in range |
| `Paging.BuildPageNumbers` | warehouse-inventory/src/components/ItemList.js:101-104 | the loop yields exactly `1, 2, ..., ceil(n/5)` |
| `Paging.NoPagesWhenEmpty` | warehouse-inventory/src/components/ItemList.js:102 | with no records there are no page numbers |
| `Paging.PagesArePrefix` | warehouse-inventory/src/components/ItemList.js:91-93 | pages 1 to k laid end to end are the first `min(5k, n)` records |
| `Paging.PagesPartition` | warehouse-inventory/src/components/ItemList.js:91-104 | the pages of all listed page numbers, concatenated, give back the sorted records exactly once |
| `Paging.PageSizes` | warehouse-inventory/src/components/ItemList.js:91-104 | every listed page but the last holds five records, and the last holds the remaining, at least one |
| `Paging.PageBeyondData` | warehouse-inventory/src/components/ItemList.js:91-93 | a page past the data is empty, with no error |
| `Paging.NextEnabledWhenEmpty` | warehouse-inventory/src/components/ItemList.js:229-232 | with no records Next is not disabled on any page from 1 on |
| `Paging.PrevDisabled` | warehouse-inventory/src/components/ItemList.js:218 | Prev is disabled exactly when the current page is 1 |
| `Paging.NextDisabled` | warehouse-inventory/src/components/ItemList.js:231 | Next is disabled exactly when the current page equals the number of page buttons, `ceil(n/5)` |
| `Paging.SevenRecords` | warehouse-inventory/src/components/ItemList.js:91-104 | seven records give two page numbers: page 1 holds records 1-5, page 2 records 6-7, page 3 nothing |
| `ListView.ItemList.constructor` | warehouse-inventory/src/components/ItemList.js:6-13 | the initial state: no records, loading, no draft, empty query, page 1, sorted by name ascending |
| `ListView.ItemList.FilteredItems` | warehouse-inventory/src/components/ItemList.js:68-72 | the filtered records of the current state: exactly the stored records matching the current query |
| `ListView.ItemList.CurrentItems` | warehouse-inventory/src/components/ItemList.js:68-93 | the table shows at most five rows, each a stored record matching the search |
| `ListView.ItemList.FetchItems` | warehouse-inventory/src/components/ItemList.js:16-28 | a successful fetch replaces the snapshot wholesale, a failed one keeps it; loading ends false; nothing else changes |
| `ListView.ItemList.HandleDelete` | warehouse-inventory/src/components/ItemList.js:35-45 | a successful delete refetches; a failed one changes nothing |
| `ListView.ItemList.StartEditing` | warehouse-inventory/src/components/ItemList.js:48-50 | the draft becomes the chosen record; nothing else changes |
| `ListView.ItemList.CancelEditing` | warehouse-inventory/src/components/ItemList.js:171 | the draft is cleared; nothing else changes |
| `ListView.ItemList.EditDraft` | warehouse-inventory/src/components/ItemList.js:128-168 | one keystroke replaces one field of the draft; nothing else changes |
| `ListView.ItemList.HandleUpdate` | warehouse-inventory/src/components/ItemList.js:53-65 | a successful save clears the draft and refetches; a failed one leaves the draft and the snapshot unchanged |
| `ListView.ItemList.SetSearchQuery` | warehouse-inventory/src/components/ItemList.js:114-120 | only the query changes; the current page is kept as it was |
| `ListView.ItemList.HandleSort` | warehouse-inventory/src/components/ItemList.js:84-88 | the new field and order are those of `NextSort`; the records, draft, query and page are untouched |
| `ListView.ItemList.HandlePageChange` | warehouse-inventory/src/components/ItemList.js:96-98 | the current page becomes the given number; nothing else changes |
| `ListView.ItemList.ClickPageNumber` | warehouse-inventory/src/components/ItemList.js:220-228 | a numbered button makes its number the current page |
| `ListView.ItemList.ClickPrev` | warehouse-inventory/src/components/ItemList.js:216-219 | Prev goes back one page unless the current page is 1, and the page stays at least 1 |
| `ListView.ItemList.ClickNext` | warehouse-inventory/src/components/ItemList.js:229-232 | Next goes forward one page unless the current page equals the number of page buttons |
| `ListView.NextSort` | warehouse-inventory/src/components/ItemList.js:85 | the (field, order) a header click leads to; its rule is stated by `ListView.NextSortSpec` |
| `ListView.NextSortSpec` | warehouse-inventory/src/components/ItemList.js:84-88 | a header click always selects its field, and the order becomes descending exactly when that field was selected in ascending order |
| `ListView.NextSortTwice` | warehouse-inventory/src/components/ItemList.js:84-88 | clicking the selected header twice from ascending returns to ascending; a new header clicked twice ends descending |
| `ListView.StalePageShowsNothing` | warehouse-inventory/src/components/ItemList.js:91-104 | when the query leaves fewer pages than the current page number, the table is empty |
| `Scenarios.SearchBolt` | warehouse-inventory/src/components/ItemList.js:68-72 | searching "bolt" over a bolt and a nut keeps only the bolt |
| `Scenarios.SortByPrice` | warehouse-inventory/src/components/ItemList.js:75-81 | sorting the bolt and the nut by price ascending puts the cheaper nut first |

## Left out

- backend/app.py is not part of this model. It holds the server's route handlers and persistence. The rest of that file is commented out.
- warehouse-inventory/src/components/ItemForm.js is not part of this model. It is form binding around a POST request. The edit draft of `ItemList` covers the same kind of field-by-field update.
- warehouse-inventory/src/App.js is not part of this model. It only toggles a React `key` to remount the list.
- HTTP requests: URLs, JSON bodies and the server's reaction are not modelled. Each call appears only as its outcome, passed in as a parameter. So the model does not claim that a deleted id is absent from the next fetch, or that a created item is present in it.
- Asynchrony: each fetch runs as one step (loading is set, then the response is applied). The window in which the "Loading items..." message shows is not modelled. Overlapping requests that finish out of order are not modelled.
- Rendering: JSX, the Bootstrap `Pagination` components and CSS are not modelled. A disabled Prev or Next button is modelled as a click that does nothing.
- Prices are integers standing for the source's decimal numbers. Floating point is not modelled.
- After an edit the source stores quantity and price as the input's string value. The model keeps them as numbers. JavaScript's mixed string/number comparison is not modelled.
- `toLowerCase` folds only the ASCII letters A-Z. Locale and Unicode case mapping are not modelled.
- A `char` stands for one UTF-16 code unit in the string order. Surrogate pairs are not modelled.
- `Array.prototype.sort` is the JavaScript engine's (stable since ES2019), not code of this repository. The model stands in for it with a stable insertion sort that uses the source's comparator; the claims made (permutation, comparator order, stability) are those any conforming engine sort gives.
