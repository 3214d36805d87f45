# Companies directory: a Dafny model of the filter, sort and paging pipeline

The `App` component of the companies directory loads a list of company
records once. It then lets the user search them, sort them and page through
them, five at a time. This project models that component's state and its
event handlers in Dafny and proves what each handler does.

- `Companies` (`company.dfy`): the company record `{id, name, location, industry}`.
- `Text` (`text.dfy`): `toLowerCase`, `includes` and `localeCompare` on strings.
- `Search` (`search.dfy`): the filter `handleSearch` applies. A company matches
  when the lowered term is a substring of its lowered name, location or
  industry.
- `Sorting` (`sorting.dfy`): the comparator `handleSort` passes to `sort`, the
  stable ascending sort as a function (`StableSort`), and the in-place
  insertion sort of the copied array (`SortInPlace`), proved equal to it.
- `Pagination` (`pagination.dfy`): `slice` with JavaScript's index rules, the
  five-record window, `totalPages = Math.ceil(n / 5)`, and the clamping done
  by `nextPage`/`prevPage` and by the two button guards.
- `Directory` (`app.dfy`): class `App`, whose fields are the component's state
  (`companies`, `filtered`, `search`, `sortBy`, `loading`, `error`,
  `currentPage`). Its methods are the load callbacks and the handlers. Each
  React setter is a plain field assignment. `Valid()` is the invariant every
  handler keeps:
  - `filtered` holds the same companies as `Matching(companies, search)`,
    perhaps reordered by a sort.
  - `search` is stored lowered.
  - Nothing changes before the load settles.
  - A failed load leaves no companies.
  - `0 <= currentPage <= max(1, totalPages)`, and page 0 occurs only when
    there are no results.
- `Scenarios` (`scenarios.dfy`): concrete event sequences, proved only from
  `App`'s contracts.

The model follows the code in these respects:
- `totalPages` is 0 when nothing matches. From page 1, Next then sets the page to
  `min(2, 0) = 0` ("Page 0 of 0"), and Prev returns to 1
  (`Scenarios.NoResults`).
- Sorting neither resets nor re-clamps the page. Only `nextPage` and
  `prevPage` clamp it, and only a search resets it to 1.
- A later search rebuilds `filtered` from `companies`, so the sort order is
  lost while `sortBy` still shows the old choice.
- The error screen appears only for a non-empty message (`if (error)`). A
  failure whose message is empty shows an empty directory.

The handlers require `View() == DirectoryScreen`. The early returns at
`my-app/src/App.js:68-70` mean the input, the selector and the buttons exist
only on that screen. The load callbacks require `loading`, because the
effect's promise settles once and nothing else clears `loading`.

## Model

| member | source | states |
|---|---|---|
| `Text.LowerChar` | my-app/src/App.js:33 | no upper-case ASCII letter is left; upper-case letters become lower-case letters; every other character is unchanged |
| `Text.ToLower` | my-app/src/App.js:33 | lowering keeps the length of the string |
| `Text.ToLowerIdempotent` | my-app/src/App.js:33 | lowering an already lowered string changes nothing, so re-entering the stored `search` gives the same filter |
| `Text.Includes` | my-app/src/App.js:37-39 | the empty term is included in every string; a string includes itself; an included term is no longer than the string (the full characterisation is `Text.IncludesIff`) |
| `Text.IncludesIff` | my-app/src/App.js:37-39 | `includes(s, t)` holds exactly when `t` occurs at some index of `s` (both directions) |
| `Text.IncludesEmpty` | my-app/src/App.js:37-39 | every string includes the empty string |
| `Text.LocaleCompare` | my-app/src/App.js:51-53 | the comparison is -1, 0 or 1, and 0 exactly for equal strings; the empty string sorts first |
| `Text.LocaleCompareAntisymmetric` | my-app/src/App.js:51-53 | swapping the operands negates the result |
| `Text.LocaleCompareTransitive` | my-app/src/App.js:51-53 | "sorts no later than" is transitive, so the comparator is a total order |
| `Search.Matches` | my-app/src/App.js:36-39 | the predicate passed to `filter`; it has no contract of its own, and which companies it accepts is stated by `Search.MatchesIff` |
| `Search.MatchesIff` | my-app/src/App.js:36-39 | a company matches exactly when the lowered term occurs at some index of its lowered name, location or industry (both directions) |
| `Search.Matching` | my-app/src/App.js:35-40 | the filtered list is no longer than the catalogue, and all its companies match the term |
| `Search.MatchingMembership` | my-app/src/App.js:35-40 | a company is in the result exactly when it is in the catalogue and matches the term |
| `Search.MatchingCount` | my-app/src/App.js:35-40 | each matching company appears as often as in the catalogue; other companies do not appear |
| `Search.MatchingIsSubsequence` | my-app/src/App.js:35-40 | the result keeps the catalogue's order (it is a subsequence) |
| `Search.MatchingConcat` | my-app/src/App.js:35-40 | filtering a concatenation filters each part and concatenates the results, in order |
| `Search.MatchingEmptyTerm` | my-app/src/App.js:35-40 | the empty term keeps the whole catalogue |
| `Search.MatchingIdempotent` | my-app/src/App.js:35-40 | filtering the result again by the same term changes nothing |
| `Sorting.Compare` | my-app/src/App.js:51-53 | the comparator returns -1, 0 or 1, and 0 exactly when the two keys are equal (its order properties are `Text.LocaleCompareAntisymmetric` and `Text.LocaleCompareTransitive`) |
| `Sorting.Insert` | my-app/src/App.js:50-53 | one insertion step of the stable sort: `x` goes after every record that does not sort after it; it has no contract of its own, and its properties are proved by `Sorting.InsertPermutes`, `Sorting.InsertSorted` and `Sorting.InsertStable` |
| `Sorting.StableSort` | my-app/src/App.js:50-53 | the stable ascending sort; it has no contract of its own, and its properties are proved by `Sorting.SortPermutes`, `Sorting.SortSorted` and `Sorting.SortStable` |
| `Sorting.ApplySort` | my-app/src/App.js:49-55 | for every selector value the stored list is a permutation of `filtered`; `""` and any other value leave it as it was (sortedness and stability are in `Sorting.ApplySortSpec`) |
| `Sorting.InsertPermutes` | my-app/src/App.js:50-53 | one insertion adds exactly the inserted record |
| `Sorting.SortPermutes` | my-app/src/App.js:49-53 | the sorted list is a permutation of the list sorted |
| `Sorting.InsertSorted` | my-app/src/App.js:50-53 | inserting into a sorted list keeps it sorted |
| `Sorting.SortSorted` | my-app/src/App.js:50-53 | the sorted list is non-decreasing by `localeCompare` on the chosen field |
| `Sorting.InsertStable` | my-app/src/App.js:50-53 | an insertion puts the new record after every record with an equal key |
| `Sorting.SortStable` | my-app/src/App.js:50-53 | for every key, the records with that key keep their prior relative order |
| `Sorting.ApplySortSpec` | my-app/src/App.js:49-55 | for every selector value the result is a permutation; `""` and any other value keep the order; `"name"` and `"industry"` give a list sorted by that field and stable on ties |
| `Sorting.SwapStep` | my-app/src/App.js:50-53 | one swap of the insertion pass leaves the pending insertion's result, and the records after the pass's index, unchanged |
| `Sorting.SortStep` | my-app/src/App.js:50-53 | after one pass of the outer loop the first `i+1` cells hold the sorted first `i+1` records and the rest is untouched |
| `Sorting.InsertInPlace` | my-app/src/App.js:50-53 | one in-place pass leaves the first `i+1` cells equal to the insertion of `a[i]` into the sorted prefix, and leaves the rest of the array unchanged |
| `Sorting.SortInPlace` | my-app/src/App.js:50-53 | after sorting in place, the array holds `StableSort` of its old contents |
| `Sorting.SortedCopy` | my-app/src/App.js:49-54 | copying `filtered` and sorting the copy gives `ApplySort` of `filtered` |
| `Pagination.SliceIndex` | my-app/src/App.js:61 | a `slice` index counts from the end when negative and is clamped to `0..n` |
| `Pagination.JsSlice` | my-app/src/App.js:61 | a slice is never longer than the list; with indices `0 <= start <= end <= length` it is exactly the records from `start` up to `end`; once the resolved start reaches the resolved end it is empty |
| `Pagination.Window` | my-app/src/App.js:59-61 | the page holds at most 5 records; from page 1 on it is the slice of `s` from `(p-1)*5` to `min(p*5, length)`, and empty once the start reaches the length |
| `Pagination.WindowCovers` | my-app/src/App.js:59-61 | record `i` appears on page `i/5 + 1` at position `i%5`, so the pages together show every record in order |
| `Pagination.WindowNonEmpty` | my-app/src/App.js:59-62 | from page 1 on, a page is non-empty exactly when its number is at most `totalPages` |
| `Pagination.TotalPages` | my-app/src/App.js:62 | the fewest pages of 5 that hold `n` records; 0 exactly when `n` is 0 |
| `Pagination.Next` | my-app/src/App.js:64 | Next never passes `totalPages` and moves at most one page; it gives `p+1` or `totalPages` |
| `Pagination.Prev` | my-app/src/App.js:65 | Prev is at least 1 and moves back at most one page; it gives `p-1` or 1 |
| `Pagination.NavigationStaysInRange` | my-app/src/App.js:64-65 | from a page in `1..totalPages`, Next and Prev stay in that range |
| `Pagination.NextWithoutPages` | my-app/src/App.js:62-64 | with no pages, Next gives page 0 |
| `Pagination.PrevDisabled` | my-app/src/App.js:121 | when Prev is disabled (page 1) a click would leave the page where it is (the enabled case is `Pagination.EnabledButtons`) |
| `Pagination.NextDisabled` | my-app/src/App.js:131 | when Next is disabled (page equals `totalPages`) a click would leave the page where it is (the enabled case is `Pagination.EnabledButtons`) |
| `Pagination.EnabledButtons` | my-app/src/App.js:119-134 | an enabled Next moves on one page, or to page 0 when there are no pages; an enabled Prev moves back one page, or from page 0 to page 1 |
| `Directory.App.Valid` | my-app/src/App.js:4-28 | while loading, the loading screen is shown and `filtered` is empty; the invariant itself (the filter holds the matches of `search`, in some order, the page stays in range) is kept by every handler's `ensures Valid()` and used by `Directory.App.ShownPageNonEmpty` |
| `Directory.App.constructor` | my-app/src/App.js:4-11 | the `useState` initial values; the loading screen is shown |
| `Directory.App.View` | my-app/src/App.js:68-70 | loading screen exactly while loading; error screen exactly when loaded with a non-empty error, showing that message |
| `Directory.App.PageCount` | my-app/src/App.js:62 | `totalPages` is the ceiling of the length of `filtered` divided by 5 |
| `Directory.App.CurrentCompanies` | my-app/src/App.js:59-61 | `currentCompanies` has at most 5 records and is the contiguous slice of `filtered` for `currentPage` |
| `Directory.App.ShownPageNonEmpty` | my-app/src/App.js:59-65 | in every reachable state the page shown is empty only when nothing matches |
| `Directory.App.OnData` | my-app/src/App.js:20-24 | `companies` and `filtered` become the loaded data; loading ends; the directory is shown; the invariant is kept |
| `Directory.App.OnError` | my-app/src/App.js:25-28 | `error` becomes the message; loading ends; `companies` stays empty; the error screen is shown unless the message is empty |
| `Directory.App.Settle` | my-app/src/App.js:13-29 | the one-shot load moves from loading to loaded or to failed, never back |
| `Directory.App.HandleSearch` | my-app/src/App.js:32-43 | `search` is the lowered input; `filtered` is `Matching(companies, lowered input)`, whatever the earlier `filtered`, `sortBy` or page; the page is 1; `companies` and `sortBy` are unchanged |
| `Directory.App.HandleSort` | my-app/src/App.js:46-56 | `sortBy` is the selector value; `filtered` is `ApplySort` of the old `filtered`; `companies`, `search` and the page are unchanged |
| `Directory.App.NextPage` | my-app/src/App.js:64 | the page becomes `min(p+1, totalPages)`; nothing else changes; the invariant is kept |
| `Directory.App.PrevPage` | my-app/src/App.js:65 | the page becomes `max(p-1, 1)`; nothing else changes; the invariant is kept |
| `Scenarios.ShowAll` | my-app/src/App.js:59-62 | three loaded companies with no search or sort all show on one page |
| `Scenarios.SearchLocation` | my-app/src/App.js:32-43 | with six companies a click on Next reaches page 2; searching "NY" then leaves Acme, Cadence and Fable (matched by location, case-insensitively) and returns to page 1 |
| `Scenarios.SortIndustry` | my-app/src/App.js:46-56 | sorting by industry gives Ball Co (Retail), Acme, Cadence; Acme stays before Cadence on the tie |
| `Scenarios.NextThreeTimes` | my-app/src/App.js:62-64 | with twelve companies, Next from page 1 gives pages 2, 3, 3 |
| `Scenarios.NoResults` | my-app/src/App.js:62-65 | with no matches there are 0 pages; Next gives page 0 and Prev then gives page 1 |
| `Scenarios.LoadFails` | my-app/src/App.js:25-28 | a load failing with "network unreachable" shows that message and leaves no companies |

## Left out

- The `fetch("/companies.json")` transport, the `res.ok` check with its fixed message, and `res.json()` (`my-app/src/App.js:15-19`). These are I/O; the model receives their result as `Settle(Loaded(data))` or `Settle(LoadFailed(message))`.
- React's mechanics: `useState` batching, the `useEffect` lifecycle and the functional updaters of `nextPage`/`prevPage`. Each setter is a direct assignment. `totalPages` is computed from the current `filtered`, as it is in the render that binds the handler.
- The JSX and CSS (`my-app/src/App.js:67-138`). Only the early returns (`View`) and the two button guards (`Pagination.PrevDisabled`, `Pagination.NextDisabled`) are kept.
- Text.LowerChar: lowers only the ASCII letters `A`-`Z`. Unicode case mapping is not modelled, including mappings that change a string's length.
- Text.ToLower: keeps the length of the string, which Unicode lowering does not always do (for example `"\u0130".toLowerCase()` has two code units). The model lowers ASCII only.
- Text.LocaleCompare: compares character codes lexicographically, where `localeCompare` uses locale collation. The sort relies only on the result's sign and on the comparison being a total order.
- Sorting.StableSort: models `Array.prototype.sort` by insertion sort. A stable sort under a total order has only one possible result, so this matches any stable implementation. The engine's own algorithm is not modelled.
- Pagination.TotalPages: computes the exact integer ceiling. `Math.ceil(n / 5)` in floating point agrees when `n` is below 2^53.
- Validation of records: the code does none, and the model assumes every record has all four fields.
