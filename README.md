# Searchable catalog grid: a Dafny model

This project models the two React components of a catalog grid that is
backed by a REST endpoint.

- **The grid container (`Table`)** holds five pieces of state: the canonical
  list of items (`data`), the rows on display (`filteredData`), the per-column
  search strings (`filters`), a `loading` flag and an `error`. It loads the
  items once on mount. On every filter notification it recomputes the
  displayed rows. On a successful delete it drops the rows with the deleted id.
  What it renders is the loading placeholder, then the error, and only then
  the grid.
- **The header cell (`CustomHeader`)** holds two pieces of state:
  `showSearch` and `filterText`. A click on its search icon shows or hides the
  input and clears the text. Typing in the input stores the raw text. Each
  event sends one `(column id, text)` notification to the container.

Files:

- `wrappers.dfy`: `Option`.
- `text.dfy`: ASCII lower-casing, and `String.prototype.includes` as a
  left-to-right scan. A lemma proves the scan equal to "the needle occurs at
  some position".
- `rows.dfy`: an item is a map from field name to the field's string form.
  The file also defines the subsequence relation.
- `filtering.dfy`: the row predicate, the list filter, the fallback to the
  full list, and delete-by-id. It also holds their properties.
- `columns.dfy`: the fixed column table, including the three columns whose
  id is not the field their selector reads.
- `table.dfy`: class `Table`, the container's state and handlers.
- `custom_header.dfy`: class `CustomHeader`.
- `scenarios.dfy`: header notifications wired to the container, plus concrete
  runs that show the stale-filter lag.

Two behaviours of the code are modelled on purpose, because the code really
does them:

- **The stale filter set.** `handleFilterChange` merges the new value into
  `filters`, but it computes the displayed rows with the `filters` captured
  before the merge. So the value just typed takes effect only at the next
  notification. `Table.HandleFilterChange` states this outright:
  `filteredData == Displayed(data, old(filters))`.
- **Filter keys are looked up on the item as they are.** The key is not mapped
  through the column's selector. The columns `price`, `created` and `updated`
  display `unitPrice`, `createdAt` and `updatedAt`. So a non-empty filter
  under those ids rejects every item that has no field literally named
  `price`, `created` or `updated`. When every row is rejected, the view falls
  back to the full list.

A delete removes every item whose `id` equals the argument
(`data.filter(item => item.id !== id)`, src/Table.jsx:168), and so does
`RemoveId`. `RemoveIdLength` gives the exact number removed. A delete sets
both lists to the unfiltered remainder: the active filters stay in `filters`
but no longer apply to the view.

## Model

| member | source | states |
|---|---|---|
| Text.LowerChar | src/Table.jsx:80 | Lower-cases ASCII capitals by +32 and leaves every other character alone. The result is never an upper-case ASCII letter. |
| Text.Lower | src/Table.jsx:80 | The lower-cased string has the same length. Each of its characters is the lower-cased character at that position. |
| Text.IncludesIffOccurs | src/Table.jsx:80 | The substring scan behind `includes` succeeds exactly when the needle starts at some position of the haystack. |
| Rows.SubsequenceElements | src/Table.jsx:77 | A subsequence is no longer than its source and contains only the source's elements. |
| Filtering.KeyPassesMeaning | src/Table.jsx:78-81 | A filter key passes when its value is empty, or when the item has that field and the lower-cased value occurs in the lower-cased field. |
| Filtering.Filter | src/Table.jsx:77-82 | The result is a subsequence of the rows, so order is kept. A row is in the result exactly when it is a row of the input and passes every filter key. |
| Filtering.FilterCounts | src/Table.jsx:77-82 | Each passing row occurs in the result as often as in the input. Every failing row occurs zero times. |
| Filtering.Displayed | src/Table.jsx:84-89 | The displayed rows are a subsequence of `data`. They are empty exactly when `data` is empty. When no row passes they are all of `data`; otherwise they are the filtered rows. |
| Filtering.DisplayedRowsContainFilter | src/Table.jsx:77-89 | When some row passes, every displayed row has each non-empty filter's field, and that field contains the filter text ignoring case. |
| Filtering.InactiveFiltersKeepAll | src/Table.jsx:79 | When every filter value is empty, filtering and display both return the whole list. |
| Filtering.EmptyFilterSetShowsAll | src/Table.jsx:78 | An empty filter map displays the whole list. |
| Filtering.SameVerdictsSameResult | src/Table.jsx:77-89 | Two filter sets that accept the same rows give the same filtered and displayed lists. |
| Filtering.ClearedKeyIsInactive | src/Table.jsx:79 | A column whose filter was reset to "" filters exactly as if the column had never been filtered on. |
| Filtering.FilterCaseInsensitive | src/Table.jsx:80 | Two filter values that are equal after lower-casing display the same rows. |
| Filtering.RowMatchesCaseInsensitive | src/Table.jsx:80 | One row's verdict is the same under two filter values that are equal after lower-casing. |
| Filtering.MissingFieldFilterShowsAll | src/Table.jsx:80-86 | A non-empty filter on a key that no row has as a field rejects every row, so the display falls back to the whole list. |
| Filtering.RemoveId | src/Table.jsx:168 | The result is a subsequence of the rows. A row is in it exactly when it is a row of the input whose `id` is not the deleted id. |
| Filtering.KeepsItemMeaning | src/Table.jsx:168 | `item.id !== id`: with an undefined id, an item is kept exactly when it has an `id` field; with a defined id, it is kept exactly when its `id` field is missing or different. |
| Filtering.RemoveIdCounts | src/Table.jsx:168 | Every row without the id keeps its number of occurrences. Every row with the id occurs zero times. |
| Filtering.CountWithId | src/Table.jsx:168 | The count of rows with the id is at most the length of the list. It is zero exactly when no row carries the id. |
| Filtering.RemoveAbsentId | src/Table.jsx:168 | Deleting an id that no row carries leaves the list unchanged. |
| Filtering.RemoveIdLength | src/Table.jsx:168 | A delete shortens the list by exactly the number of rows that carry the id. |
| Columns.MislabeledColumns | src/Table.jsx:92-141 | Among the filterable columns, the selector's field differs from the column id exactly for `price`, `created` and `updated`. |
| Columns.FilterIgnoresSelector | src/Table.jsx:121-141 | An item that has a mislabeled column's selector field but no field named like its id is rejected by any non-empty filter on that id. |
| Columns.PriceFilterFallsBack | src/Table.jsx:121-127 | A non-empty `price` filter over items with no literal `price` field always displays the whole list. |
| TableComponent.Table.constructor | src/Table.jsx:49-53 | Initially both lists and the filter map are empty, `loading` is true and there is no error. |
| TableComponent.Table.FetchResult | src/Table.jsx:56-65 | A response sets both lists to the returned items. A failure records the error and leaves the lists as they were. Loading ends either way, and the invariant is kept. |
| TableComponent.Table.HandleFilterChange | src/Table.jsx:71-90 | `filters` gains `columnId := value` with other keys unchanged. `filteredData` is `Displayed(data, old(filters))`, which does not depend on `value`. The alert fires exactly when nothing passed. `data`, `loading` and `error` are unchanged. |
| TableComponent.Table.HandleDelete | src/Table.jsx:164-174 | On success, `data` and `filteredData` both become `RemoveId(old(data), id)`. On failure all state is unchanged. `filters` is never touched. |
| TableComponent.Table.Render | src/Table.jsx:176-192 | Loading is shown first, then the error's message, and only otherwise the grid over `filteredData`. |
| CustomHeaderComponent.CustomHeader.constructor | src/CustomHeader.jsx:5-7 | Initially the input is hidden and `filterText` is empty. |
| CustomHeaderComponent.CustomHeader.HandleSearchIconClick | src/CustomHeader.jsx:9-13 | Visibility is negated and the text emptied whatever it was. The click emits `(columnId, "")`. |
| CustomHeaderComponent.CustomHeader.HandleFilterChange | src/CustomHeader.jsx:15-18 | The text becomes the raw value. The raw value is emitted unchanged. Visibility is untouched. |
| CustomHeaderComponent.CustomHeader.SearchInput | src/CustomHeader.jsx:24-32 | The input exists exactly while `showSearch` holds, and it shows `filterText`. |
| CustomHeaderComponent.ClickTwice | src/CustomHeader.jsx:9-13 | Two clicks restore the visibility and leave the text empty. Both emit `(columnId, "")`. |
| Scenarios.TypeIntoHeader | src/Table.jsx:92-96 | A keystroke puts the raw text into the container's filters. The grid still shows the rows of the filters from before the keystroke. |
| Scenarios.ToggleHeader | src/Table.jsx:92-96 | An icon click sets the column's filter to "". From then on that column filters as if never set. The grid lags by one notification. |
| Scenarios.RepeatFilterChange | src/Table.jsx:71-90 | The next notification settles the lag: the grid shows `Displayed(data, filters)`. When some row passes a non-empty value, every shown row's field contains that value ignoring case. |
| Scenarios.NameFilterExample | src/Table.jsx:77-89 | Over Alpha and Beta, `name = "al"` displays Alpha alone, and an empty name filter displays both. |
| Scenarios.Mount | src/Table.jsx:55-69 | Mounting and a successful load show every returned row with no filters. |
| Scenarios.OpenAndType | src/Table.jsx:72-82 | After opening a search and typing, the filter set holds the typed text but the grid still shows every row. |
| Scenarios.TypingLags | src/Table.jsx:72-82 | After opening the Name search, typing, and one more header notification, the filter set holds the typed text, the Name input is open with that text, and the grid shows only the matching row. |
| Scenarios.ClosingLags | src/Table.jsx:72-82 | From the narrowed grid with the Name input open, closing it and one more header notification leave the input hidden and empty, both filters empty, and the grid showing both rows again. |

## Left out

- HTTP: `axios.get` and `axios.delete` are not modelled. Their outcomes are parameters: `FetchOutcome` for the load and `ok` for the delete.
- Async interleaving: each handler runs as one atomic step. This leaves out the `data` captured across the delete's `await`, and updates that arrive after the component unmounts.
- React's batching of state setters: the setters inside one handler are applied together, in the order the handler calls them.
- `alert`, `console.log` and `console.error`: left out as side effects. The "No results found" alert is the `noResults` result of `HandleFilterChange`.
- `handleView` and `handleEdit`: left out, because they only log.
- Third-party rendering: `DataTable` layout, column sorting, styling and icons are left out. The grid's render is the list of rows it is given.
- Field values: each item field is its string form (`toString()`). A field that is absent, `null` or `undefined` is a missing key. JavaScript's number and date formatting is not modelled.
- Prototype properties: a field name that resolves through the object prototype (such as `constructor`) is not modelled. The filter keys are the fixed column ids, and none of them does.
- Text.LowerChar: lower-cases ASCII letters only; Unicode case mapping of `toLowerCase` is not modelled.
- Filtering.KeepsItem: compares ids by their string form. `!==` on raw values of mixed types (number against string) is not modelled. Because `null` and `undefined` are both a missing key, a delete whose argument is an undefined id also removes an item whose `id` is `null`, which `null !== undefined` would keep.
- The header's `column.name` label and the input's placeholder are kept as a constant field only. They do not affect any state.
