# eco-shared-ui core, modelled in Dafny

This project models the logic of the shared UI components in the
eco-shared-ui React library. It leaves out markup and styling.

- **Text matching.** The accent-insensitive `commandFilter`, which the
  combobox and the keyword multi-select hand to their command list. It
  uses JavaScript's `toLowerCase`, `normalize("NFD")`, the removal of
  U+0300–U+036F, the `đ`/`Đ` folding and `includes`.
- **Choice inputs.** The single-choice combobox and the two controlled
  multi-selects: what the trigger shows, the value each pick emits, and
  how the search box scores an item.
- **Pagination bar.** The stateless bar of the plain table. It covers the
  page count (`Math.ceil`), the enable flags and the page each button
  emits.
- **Data table.** The generic data table:
  - search and column filters;
  - page slicing and the "showing lo - hi" range;
  - row selection and the header checkbox;
  - column visibility and filter chips;
  - its own pagination bar, including `parseInt` on the page box and
    `Number(String(size))` on the rows-per-page select.
- **Admin sidebar.** Foldable groups, expandable parents and the collapsed
  mode. The two expansion lists are written through to the session store,
  so a reload restores them.
- **Stepper form.** A step index, a back button that cancels on the first
  step, and a next button that completes on the last step.

Pure logic is modelled as datatypes and functions. Component state is
modelled as classes whose methods are the event handlers:

- `DataTable.Table`;
- `Sidebar.AdminSidebar` over a `Sidebar.SessionStore`;
- `Stepper.StepperForm`;
- `Combobox.Popup`.

Each handler's `ensures` gives the whole new state in terms of the pure
functions. The properties are proved about those functions.

Four behaviours of the code are easy to miss, and the model states them
as they are:

- **Select-all.** The header checkbox and "select all" compare only the
  size of the selection with the size of the page. Selecting all twice
  therefore does not give back the original selection
  (`DataTable.SelectAllTwice`). The header box can be checked while no row
  of the page is selected (`DataTable.HeaderCheckedBySizeAlone`).
- **Stale page.** Searching and filtering do not reset the current page.
  The next and last buttons are disabled only when `currentPage ===
  totalPages`. So a page already past the end keeps moving
  (`DataTable.NextPastLastMovesOn`).
- **Filter badge.** The badge on the filter button counts every key
  currently in `activeFilters`, including filters set back to "all". Such
  a filter keeps its key, so it still counts, although its chip is gone
  and it no longer filters (`DataTable.ResetToAllKeepsBadge`). Only a
  chip's close button or "clear all" removes keys.
- **Combobox value.** The combobox matches on the option's value and
  searches its label through the keywords. The keyword multi-select does
  it the other way round.

## Model

| member | source | states |
|---|---|---|
| Lists.Remove | src/components/ui/multiselect.tsx:55 | `value.filter((x) => x !== v)`: `v` no longer occurs, every other value keeps its number of occurrences, and the length drops by the occurrences of `v` |
| Lists.RemoveAppend | src/components/ui/multiselect.tsx:55 | removing from a concatenation removes from each part, so the order of the other values is kept |
| Lists.RemoveAbsent | src/components/ui/multiselect.tsx:55 | removing an absent value returns the list unchanged |
| Lists.RemoveIdempotent | src/components/ui/multiselect.tsx:55 | removing twice is removing once |
| Lists.Toggle | src/components/ui/multiselect.tsx:50-53 | picking an item flips the membership of its value and keeps the counts of all other values; an absent value is appended at the end, a present one is filtered out |
| Lists.ToggleTwiceAbsent | src/components/ui/multiselect.tsx:50-53 | picking an unselected item twice gives back the original list |
| Lists.ToggleTwicePresent | src/components/ui/multiselect.tsx:50-53 | picking a selected item twice moves it to the end, and drops its duplicates |
| Text.LowerChar | src/components/ui/multiselect.tsx:71 | `toLowerCase` on one character: it changes exactly the upper-case letters of the modelled repertoire, and its result is never upper-case |
| Text.Lower | src/components/ui/multiselect.tsx:71 | `toLowerCase` maps character by character and keeps the length |
| Text.LowerAppend | src/components/ui/multiselect.tsx:71 | lower-casing distributes over concatenation |
| Text.LowerIdempotent | src/components/ui/multiselect.tsx:80 | lower-casing twice is lower-casing once |
| Text.Decompose | src/components/ui/multiselect.tsx:76 | NFD of one character is never empty |
| Text.DecomposeShape | src/components/ui/multiselect.tsx:76 | NFD of a character is its base letter followed only by combining marks, and the base is a mark exactly when the character is |
| Text.Nfd | src/components/ui/multiselect.tsx:76 | `normalize("NFD")` never shortens a string |
| Text.NfdAppend | src/components/ui/multiselect.tsx:76 | NFD works character by character (no canonical reordering in the modelled repertoire) |
| Text.StripMarks | src/components/ui/multiselect.tsx:77 | removing U+0300–U+036F leaves no combining mark and never lengthens the string |
| Text.StripMarksAppend | src/components/ui/multiselect.tsx:77 | mark removal distributes over concatenation |
| Text.StripOnlyMarks | src/components/ui/multiselect.tsx:77 | a run of marks is removed entirely |
| Text.StripDecompose | src/components/ui/multiselect.tsx:76-77 | NFD then mark removal leaves exactly the base letter of a non-mark, and nothing of a mark |
| Text.ReplaceChar | src/components/ui/multiselect.tsx:78-79 | a global one-character `replace` changes exactly the occurrences of that character |
| Text.ReplaceCharAppend | src/components/ui/multiselect.tsx:78-79 | the replacement distributes over concatenation |
| Text.NormalizeAppend | src/components/ui/multiselect.tsx:74-80 | `normalize(a + b) == normalize(a) + normalize(b)` |
| Text.NormalizeCons | src/components/ui/multiselect.tsx:74-80 | normalising a string folds its first character and normalises the rest |
| Text.NormalizeChar | src/components/ui/multiselect.tsx:74-80 | a mark normalises to nothing, any other character to its folded base letter |
| Text.FoldedLatin1 | src/components/ui/multiselect.tsx:74-80 | an upper-case Latin-1 letter folds like its lower-case form |
| Text.FoldedVietnamese | src/components/ui/multiselect.tsx:74-80 | an upper-case Vietnamese letter with tone marks (U+1EA0–U+1EF8) folds like its lower-case form |
| Text.FoldedExtended | src/components/ui/multiselect.tsx:74-80 | Ă, Đ, Ĩ, Ũ, Ơ and Ư fold like their lower-case forms |
| Text.FoldedLowerChar | src/components/ui/multiselect.tsx:74-80 | lower-casing a character first never changes what it folds to |
| Text.LowerCharMark | src/components/ui/multiselect.tsx:71 | lower-casing neither creates nor removes a combining mark |
| Text.NormalizeLower | src/components/ui/multiselect.tsx:82 | normalising the lower-cased text equals normalising the text, so lower-casing before `normalize` changes nothing |
| Text.NormalizeKeepsContainment | src/components/ui/multiselect.tsx:72-85 | if `s.includes(t)` then `normalize(s).includes(normalize(t))` |
| Text.Normalize | src/components/ui/multiselect.tsx:74-80 | the result of `normalize` holds no combining mark, no `đ` or `Đ`, and no upper-case letter of the modelled repertoire |
| Text.Contains | src/components/ui/multiselect.tsx:85 | `s.includes(t)` holds only when `t` is at most as long as `s` (its partners ContainsMiddle and ContainsSplit characterise it as "`s` splits as `p + t + q`") |
| CommandFilter.Join | src/components/ui/multiselect.tsx:70 | `keywords.join(" ")` contains every keyword, and is empty for no keywords |
| CommandFilter.ItemText | src/components/ui/multiselect.tsx:67-71 | the searched text starts with the item value and a space, and contains every keyword |
| CommandFilter.Score | src/components/ui/multiselect.tsx:62-87 | the filter returns 0 or 1 |
| CommandFilter.ScoreIsNormalizedContainment | src/components/ui/multiselect.tsx:62-87 | the filter returns 1 exactly when the normalised item text contains the normalised search: for the letters the decomposition table covers, the plain lower-case tier never decides differently |
| CommandFilter.EmptySearchScoresOne | src/components/ui/multiselect.tsx:72 | an empty search keeps every item |
| CommandFilter.ScoreAccentInsensitive | src/components/ui/combobox.tsx:54-80 | two searches that normalise alike select the same items |
| CommandFilter.KeywordSpellingIsFound | src/components/ui/multiselect.tsx:67-85 | any search that normalises like one of an item's keywords finds the item, whatever its accents, `đ`/`Đ` or case |
| CommandFilter.SameSpellingIsFound | src/components/ui/multiselect.tsx:74-85 | any search that normalises like the item's value finds it |
| CommandFilter.FoldedLatinExamples | src/components/ui/multiselect.tsx:74-80 | à folds to a, Ê to e, C to c, and a space stays a space |
| CommandFilter.FoldedVietnameseExamples | src/components/ui/multiselect.tsx:74-80 | ầ folds to a and Ư to u |
| CommandFilter.FoldedStrokeExamples | src/components/ui/multiselect.tsx:78-80 | đ and Đ both fold to d |
| CommandFilter.OtherBaseLetterIsNotFound | src/components/ui/multiselect.tsx:74-86 | folding keeps the base letter: searching for `ò` does not find an item whose text is `à` (score 0) |
| Choices.FindByValue | src/components/ui/combobox.tsx:52 | `options.find((o) => o.value === v)`: none exactly when no option carries `v`, otherwise the first option that does |
| Choices.LabelFor | src/components/ui/multiselect.tsx:108 | `?.label ?? v`: the label of the first option carrying `v`, or `v` when none does |
| Choices.LabelOfOwnValue | src/components/shared/MultiSelect.tsx:73 | with distinct option values, each option's value is shown with that option's label |
| MultiSelect.Trigger | src/components/ui/multiselect.tsx:104-108 | the placeholder exactly when nothing is selected, otherwise one badge per selected value, showing the first matching label or the raw value |
| MultiSelect.ClearVisible | src/components/ui/multiselect.tsx:142 | the clear control is shown only for a clearable, enabled input, and never with nothing selected (ClearResetsTrigger states its use) |
| MultiSelect.ClearResetsTrigger | src/components/ui/multiselect.tsx:57-60 | after clearing, the placeholder is back and the clear control (line 142) is hidden |
| MultiSelect.RemoveDropsBadges | src/components/ui/multiselect.tsx:120-128 | a badge's close button drops one badge per occurrence of its value, and brings back the placeholder when it was the only value |
| MultiSelect.PickFlipsCheck | src/components/ui/multiselect.tsx:170-176 | picking an item flips its check mark |
| MultiSelect.IsChecked | src/components/ui/multiselect.tsx:170 | an item is checked exactly when its value occurs at least once in the selected list (PickFlipsCheck states its use) |
| MultiSelect.ItemScore | src/components/ui/multiselect.tsx:174-175 | an item is found exactly when the normalised label, value and keywords contain the normalised search |
| MultiSelect.SearchFindsOption | src/components/ui/multiselect.tsx:174-175 | searching for any spelling that normalises like the option's label, its value or one of its keywords finds the option |
| Combobox.TriggerText | src/components/ui/combobox.tsx:110 | the trigger shows the label of the first option carrying the value, or the placeholder (the lookup is on line 52) |
| Combobox.Emitted | src/components/ui/combobox.tsx:127-133 | picking the selected option emits `""`, any other option emits its value |
| Combobox.PickTwice | src/components/ui/combobox.tsx:133 | picking an option twice deselects it if it was unselected, and selects it if it was selected |
| Combobox.PickShowsLabel | src/components/ui/combobox.tsx:110 | after picking an unselected option, the trigger shows its label (see also line 133) |
| Combobox.RepickShowsPlaceholder | src/components/ui/combobox.tsx:110 | after picking the selected option again, the trigger shows the placeholder (see also line 133) |
| Combobox.ItemScore | src/components/ui/combobox.tsx:131-136 | an item is found exactly when its normalised value, label and value contain the normalised search |
| Combobox.SearchFindsOption | src/components/ui/combobox.tsx:131-136 | searching for any spelling that normalises like the option's label or its value finds the option |
| Combobox.Popup.constructor | src/components/ui/combobox.tsx:50 | the popover starts closed |
| Combobox.Popup.SetOpen | src/components/ui/combobox.tsx:83 | `onOpenChange` sets the open state |
| Combobox.Popup.Pick | src/components/ui/combobox.tsx:132-135 | a pick emits the value `Emitted` gives and closes the popover |
| Pagination.TotalPages | src/components/ui/table.tsx:142 | `Math.ceil(total / pageSize)`: the fewest pages of `pageSize` rows that hold every row |
| Pagination.TotalPagesZero | src/components/ui/table.tsx:142 | there are no pages exactly when there are no rows |
| Pagination.Enabled | src/components/ui/table.tsx:143-144 | first and previous are enabled when `page > 1`, next and last when `page < totalPages`; from a page in range, a button is enabled only when there are at least two pages |
| Pagination.Target | src/components/ui/table.tsx:179-206 | the page each button hands to `onPageChange`; from a page in range, an enabled button names another page in `1..totalPages` |
| Pagination.Click | src/components/ui/table.tsx:176-211 | a button emits nothing exactly when its flag disables it; first and previous emit a page in `1..page-1`, next and last a page in `page+1..totalPages` (see also lines 143-144) |
| Pagination.ClickStaysInRange | src/components/ui/table.tsx:176-211 | from a page in `1..totalPages`, every emitted page is in `1..totalPages` and differs from the current one |
| Pagination.EmptyTableDisablesAll | src/components/ui/table.tsx:142-144 | with no rows, every button on page 1 is disabled |
| Pagination.SinglePageDisablesAll | src/components/ui/table.tsx:142-144 | with a single page of rows, every button on page 1 is disabled |
| Pagination.DefaultOptionsReadBack | src/components/ui/table.tsx:138 | each default page-size option (10 to 50) is read back as itself by the select and is at least 1 |
| Pagination.ChosenPageSize | src/components/ui/table.tsx:155-157 | `Number` of the option text `${size}` is `size` itself (see also lines 164-166) |
| Numbers.HexDigitValue | src/components/shared/DataTable.tsx:443 | the value of a hexadecimal digit in 0..15, or -1 for any other character |
| Numbers.DecimalString | src/components/ui/table.tsx:165 | `${n}` is a non-empty run of decimal digits with no leading zero |
| Numbers.RunValueOfDecimal | src/components/ui/table.tsx:157 | reading the decimal text of `n` gives `n` back |
| Numbers.TrimStart | src/components/shared/DataTable.tsx:443 | what `parseInt` reads starts after a run of leading white space |
| Numbers.RunLength | src/components/shared/DataTable.tsx:443 | the longest prefix of digits in the radix |
| Numbers.ParseIntSkipsWhiteSpace | src/components/shared/DataTable.tsx:443 | leading white space does not change what `parseInt` reads |
| Numbers.TrimStartSkips | src/components/shared/DataTable.tsx:443 | skipping white space goes past any white-space prefix |
| Numbers.UnsignedPart | src/components/shared/DataTable.tsx:443 | the digits after the sign, in base 16 after `0x`/`0X`: a value needs a leading decimal digit |
| Numbers.SignedPart | src/components/shared/DataTable.tsx:443 | the optional sign, then the digits: a negative value needs a minus sign, and any value a digit at the start or right after the sign |
| Numbers.ParseInt | src/components/shared/DataTable.tsx:443 | `parseInt(text)`: text without any digit is `NaN`, and the decimal form of `n` followed by anything that cannot continue it reads as `n` |
| Numbers.DecimalParses | src/components/shared/DataTable.tsx:443 | the decimal form of `n`, followed by anything that cannot continue it, reads back as `n` after the white space and the sign |
| Numbers.UnsignedOfDecimal | src/components/shared/DataTable.tsx:443 | the unsigned part reads a decimal number back, and is not taken for a `0x` prefix |
| Numbers.RunLengthOfDigits | src/components/shared/DataTable.tsx:443 | the digit run stops where the digits stop |
| Numbers.ParseIntOfNegative | src/components/shared/DataTable.tsx:443 | a leading minus sign negates |
| DataTable.FieldText | src/components/shared/DataTable.tsx:102 | `String(row[key])` is the field's text, or "undefined" for a missing key |
| DataTable.MatchesSearch | src/components/shared/DataTable.tsx:95-97 | some field, lower-cased, contains the lower-cased search; a matching row has a field at least as long as the search |
| DataTable.MatchesFilters | src/components/shared/DataTable.tsx:100-103 | every active filter that is neither empty nor "all" equals the field's `String` text; filters that are all inert keep every row |
| DataTable.FilterRows | src/components/shared/DataTable.tsx:92-107 | the rows kept are rows of the data that match both the search and the filters, and every matching row is kept |
| DataTable.FilterRowsAppend | src/components/shared/DataTable.tsx:93 | filtering goes row by row, so it keeps the order of the rows |
| DataTable.FilterRowsIdempotent | src/components/shared/DataTable.tsx:92-107 | filtering the kept rows again changes nothing |
| DataTable.EmptySearchMatches | src/components/shared/DataTable.tsx:95-97 | the empty search matches exactly the rows with at least one field |
| DataTable.InertFilterIsNoFilter | src/components/shared/DataTable.tsx:101 | a filter set to "" or "all" acts as if that key were absent |
| DataTable.ClearedKeepsAll | src/components/shared/DataTable.tsx:136-139 | with no search and no filters every row is shown, in order |
| DataTable.UndefinedMatchesMissingKey | src/components/shared/DataTable.tsx:102 | a filter value "undefined" keeps the rows that lack its key |
| DataTable.StartIndex | src/components/shared/DataTable.tsx:112 | the first row of a page from 1 on has a non-negative index |
| DataTable.PageRows | src/components/shared/DataTable.tsx:112-116 | the page's rows are the rows from `startIndex` on, at most `rowsPerPage` of them, cut short by the end and empty past it |
| DataTable.RowOnItsPage | src/components/shared/DataTable.tsx:111-116 | every row sits on exactly the page `i / rowsPerPage + 1`, which is within `1..totalPages`, at position `i % rowsPerPage` |
| DataTable.PagesBeyondLastAreEmpty | src/components/shared/DataTable.tsx:111-116 | a page shows no rows exactly when it lies beyond `totalPages` |
| DataTable.ShownRange | src/components/shared/DataTable.tsx:392 | "showing lo - hi of n" starts at 1 or later on a page from 1 on, and never ends past `n` |
| DataTable.ShownRangeCountsPage | src/components/shared/DataTable.tsx:392 | on a page within `1..totalPages`, "showing lo - hi" covers exactly the rows on the page |
| DataTable.Ids | src/components/shared/DataTable.tsx:122 | the set of ids of the page's rows, and no others |
| DataTable.IdsCount | src/components/shared/DataTable.tsx:122 | with distinct ids, a page has as many ids as rows |
| DataTable.Flip | src/components/shared/DataTable.tsx:126-134 | `toggleSelect` flips that id's membership and no other |
| DataTable.FlipTwice | src/components/shared/DataTable.tsx:126-134 | toggling a row twice gives back the selection |
| DataTable.SelectAll | src/components/shared/DataTable.tsx:118-124 | a selection as large as the page is emptied, and any other is replaced by the ids of the page |
| DataTable.HeaderChecked | src/components/shared/DataTable.tsx:276 | the header box is checked when the selection is as large as a non-empty page, so never with nothing selected (SelectAllChecksHeader and HeaderCheckedBySizeAlone state its use) |
| DataTable.SelectAllTwice | src/components/shared/DataTable.tsx:118-124 | select-all twice ends with the whole page selected if the sizes matched at first, and with nothing otherwise |
| DataTable.SelectAllChecksHeader | src/components/shared/DataTable.tsx:118-124 | after select-all on a non-empty page whose size differed from the selection, the header box is checked (see also line 276) |
| DataTable.HeaderCheckedBySizeAlone | src/components/shared/DataTable.tsx:276 | the header box is checked by one selected row from elsewhere against a one-row page |
| DataTable.RenderedColumns | src/components/shared/DataTable.tsx:282 | the columns rendered are the declared columns whose keys are visible |
| DataTable.RenderedColumnsAppend | src/components/shared/DataTable.tsx:282 | `columns.filter(...)` goes column by column, so the rendered columns keep their declaration order |
| DataTable.Keys | src/components/shared/DataTable.tsx:88-90 | every declared column's key is in the initial visible set |
| DataTable.AllVisibleRendersAll | src/components/shared/DataTable.tsx:88-90 | with every key visible, as at the start, every column renders in declaration order (see also line 282) |
| DataTable.SetVisibility | src/components/shared/DataTable.tsx:224-228 | the column checkbox adds its key when checked and removes it otherwise, and leaves the other keys alone |
| DataTable.ChipKeys | src/components/shared/DataTable.tsx:246-247 | a chip is shown exactly for the active filters that are neither empty nor "all" |
| DataTable.BadgeCount | src/components/shared/DataTable.tsx:165-169 | the badge counts every key in `activeFilters`, so never fewer than the chips shown |
| DataTable.ResetToAllKeepsBadge | src/components/shared/DataTable.tsx:179-181 | setting an active filter back to "all" keeps the badge count, removes its chip, and shows the rows shown without that filter (see also lines 101, 165-169 and 247) |
| DataTable.SameKeepsSameRows | src/components/shared/DataTable.tsx:100-105 | filters that accept the same rows produce the same filtered data |
| DataTable.ChipLabel | src/components/shared/DataTable.tsx:248-249 | a chip's label, falling back to its value: the value itself when no filter has the key, otherwise the label the option lookup gives, unless that is empty, in which case the value |
| DataTable.FindFilter | src/components/shared/DataTable.tsx:248 | `filters.find((f) => f.key === key)`: the first definition for that key, or none exactly when there is none |
| DataTable.Navigate | src/components/shared/DataTable.tsx:416-471 | a navigation click never leaves the pages from 1 on, stays within `1..totalPages` when it started there, and does nothing while the bar is hidden (see also line 389) |
| DataTable.NextPastLastMovesOn | src/components/shared/DataTable.tsx:456-457 | on a page already past `totalPages` the next button is enabled and moves further out |
| DataTable.EnteredPage | src/components/shared/DataTable.tsx:442-446 | a typed page is taken exactly when `parseInt` gives a number in `1..totalPages` |
| DataTable.EnterDecimalPage | src/components/shared/DataTable.tsx:441-446 | typing the decimal form of a page in range goes to that page |
| DataTable.Table.constructor | src/components/shared/DataTable.tsx:84-90 | the table starts with no search, on page 1, with `pageSize` rows per page, nothing selected, no filters and every column visible (see also line 109) |
| DataTable.Table.SetSearch | src/components/shared/DataTable.tsx:152 | the search box sets the search text and leaves the page where it was |
| DataTable.Table.SelectFilter | src/components/shared/DataTable.tsx:180-181 | a filter's select sets that key only |
| DataTable.Table.RemoveChip | src/components/shared/DataTable.tsx:254-258 | a chip's close button deletes that key only |
| DataTable.Table.ClearFilters | src/components/shared/DataTable.tsx:136-139 | `clearFilters` empties the filters and the search, so every row is back, and keeps the page and the selection |
| DataTable.Table.ToggleSelect | src/components/shared/DataTable.tsx:126-134 | a row's checkbox flips its id in the selection |
| DataTable.Table.ToggleSelectAll | src/components/shared/DataTable.tsx:118-124 | the header checkbox applies `SelectAll` to the rows of the current page |
| DataTable.Table.SetColumnVisible | src/components/shared/DataTable.tsx:224-228 | a column's checkbox sets that column's visibility |
| DataTable.Table.ChooseRowsPerPage | src/components/shared/DataTable.tsx:397-414 | with the bar shown, choosing a size sets it and goes back to page 1; with the bar hidden nothing changes (see also line 389) |
| DataTable.Table.EnterPage | src/components/shared/DataTable.tsx:439-448 | with the bar shown, a typed page in range becomes the current page; anything else leaves it (see also line 389) |
| DataTable.Table.ClickNavigation | src/components/shared/DataTable.tsx:416-471 | the first, previous, next and last buttons move the page as `Navigate` says and change nothing else (see also line 389) |
| Sidebar.Titles | src/components/layout/AdminSidebar.tsx:361 | `menuGroups.map((g) => g.title)`, in order |
| Sidebar.InitialGroups | src/components/layout/AdminSidebar.tsx:359-362 | the expanded groups start as the saved list, or as exactly the group titles in menu order when nothing is saved |
| Sidebar.InitialItems | src/components/layout/AdminSidebar.tsx:364-367 | the expanded items start as the saved list, or empty |
| Sidebar.ItemsListed | src/components/layout/AdminSidebar.tsx:480 | a group lists its items when the sidebar is collapsed or the group is expanded; a folded group in the wide sidebar lists none (FirstMount states its use) |
| Sidebar.ChildrenInline | src/components/layout/AdminSidebar.tsx:554 | a parent lists its children under it only in the wide sidebar and when its id is expanded, so never together with the flyout (SharedIdExpandsTogether states its use) |
| Sidebar.IsActive | src/components/layout/AdminSidebar.tsx:488-491 | an entry is highlighted when the location is its own link or one of its children's links; an entry with neither is never highlighted (ChildLinkActivatesParent states its use) |
| Sidebar.ChildLinkActivatesParent | src/components/layout/AdminSidebar.tsx:488-491 | being on a child's link highlights its parent |
| Sidebar.SharedIdExpandsTogether | src/components/layout/AdminSidebar.tsx:113 | the region chart appears under two groups with one id, and parents sharing an id always expand and fold together, which holds by definition since only the id is read (see also lines 207, 486, 554) |
| Sidebar.SessionStore.constructor | src/components/layout/AdminSidebar.tsx:360-365 | the store holds what the session saved |
| Sidebar.SessionStore.SetItem | src/components/layout/AdminSidebar.tsx:397-403 | `setItem` replaces that key only |
| Sidebar.AdminSidebar.constructor | src/components/layout/AdminSidebar.tsx:354-367 | mounting reads both lists from the store, or takes the defaults, and writes them back under their keys (see also lines 397-403) |
| Sidebar.AdminSidebar.ClickGroupHeader | src/components/layout/AdminSidebar.tsx:405-409 | in the wide sidebar a header click toggles its group and writes the list through; in the collapsed sidebar there is no header and nothing changes (see also lines 466-468, 397-399) |
| Sidebar.AdminSidebar.ClickParent | src/components/layout/AdminSidebar.tsx:411-417 | in the wide sidebar a parent click toggles its id and writes the list through; in the collapsed sidebar it does nothing (see also lines 508-510, 401-403) |
| Sidebar.AdminSidebar.SetCollapsed | src/components/layout/AdminSidebar.tsx:347-350 | the collapsed prop changes and the expansion lists are kept |
| Sidebar.AdminSidebar.FollowLink | src/components/layout/AdminSidebar.tsx:421-427 | following a link sets the location and changes nothing else |
| Sidebar.Reload | src/components/layout/AdminSidebar.tsx:359-367 | a sidebar mounted on the same store comes back with the same expanded groups and items (see also lines 397-403) |
| Sidebar.FirstMount | src/components/layout/AdminSidebar.tsx:359-367 | on a first visit every group is open, no parent is expanded, and every group lists its items (see also line 480) |
| Stepper.StatusOf | src/components/shared/StepperForm.tsx:55-67 | steps before the current one are done, the current one is active, and later ones are pending |
| Stepper.HighlightFollowsStatus | src/components/shared/StepperForm.tsx:85-89 | a title is highlighted exactly when its step is not pending, and a connector is filled exactly when its step is done (see also line 73) |
| Stepper.NextStep | src/components/shared/StepperForm.tsx:31-35 | `goNext` moves one step on unless on the last step, and stays within the steps |
| Stepper.PrevStep | src/components/shared/StepperForm.tsx:37-41 | `goPrev` moves one step back unless on the first step |
| Stepper.PrevUndoesNext | src/components/shared/StepperForm.tsx:31-41 | next then back returns to the step left, short of the last step |
| Stepper.NextUndoesPrev | src/components/shared/StepperForm.tsx:31-41 | back then next returns to the step left, after the first step |
| Stepper.StepperForm.constructor | src/components/shared/StepperForm.tsx:29 | the form opens on the first step |
| Stepper.StepperForm.Counter | src/components/shared/StepperForm.tsx:114 | "Step n / total" always has `1 <= n <= total` |
| Stepper.StepperForm.NextDisabled | src/components/shared/StepperForm.tsx:120 | the next button is disabled while loading or on a step marked invalid; a step that leaves `isValid` out does not hold it back |
| Stepper.StepperForm.GoNext | src/components/shared/StepperForm.tsx:31-35 | the step moves as `NextStep` says and stays a valid index |
| Stepper.StepperForm.GoPrev | src/components/shared/StepperForm.tsx:37-41 | the step moves as `PrevStep` says and stays a valid index |
| Stepper.StepperForm.ClickBack | src/components/shared/StepperForm.tsx:104-105 | ignored while loading; cancels on the first step; otherwise goes back one step |
| Stepper.StepperForm.ClickNext | src/components/shared/StepperForm.tsx:119-120 | ignored while loading or on a step marked invalid; completes on the last step; otherwise moves on one step |
| Stepper.WalkThrough | src/components/shared/StepperForm.tsx:119-120 | with no step marked invalid and nothing loading, pressing next repeatedly reaches the last step and then completes (see also line 43) |

## Left out

- Markup, styling, icons, avatars (the combobox image), descriptions, step content and every purely presentational component are not modelled.
- The sidebar's scroll position save and restore (`sidebar_scroll_position`, a timer and a scroll listener) is not modelled. It depends on layout and timing.
- The router is reduced to a `location` string. Clicks on links are `FollowLink`.
- `sessionStorage` is a map from keys to string lists. `JSON.stringify` and `JSON.parse` are taken to round-trip, and a saved value that is not valid JSON is not modelled.
- Callbacks (`onChange`, `onPageChange`, `onPageSizeChange`, `onComplete`, `onCancel`) become return values or outcomes. The controlled `value` props are parameters.
- `Text.LowerChar`: covers ASCII, Latin-1, Ă, Đ, Ĩ, Ũ, Ơ, Ư and the Vietnamese letters U+1EA0–U+1EF9, not the whole Unicode `toLowerCase`.
- `Text.Decompose`: NFD covers Latin-1, Ă, Ĩ, Ũ, Ơ, Ư and the Vietnamese letters with tone marks. Other characters are left as they are, and canonical reordering of marks is not modelled.
- The plain shared multi-select uses the command list's built-in fuzzy filter, which is not part of this model. Only its trigger, toggle and remove are modelled.
- `DataTable.FieldText`: a row is a map from field names to their `String()` text. `String()` of numbers, booleans, objects and `null` is not modelled. Row ids are strings; numeric ids are not distinguished from their text.
- `DataTable.Table.constructor`: requires a page size of at least 1. A page size of 0, or one that is not an integer, makes `Math.ceil` produce `Infinity` or `NaN` in the source, and is not modelled.
- `Pagination.TotalPages`: requires `pageSize >= 1` for the same reason.
- `Pagination.ChosenPageSize`: `Number()` is modelled only on the decimal text that `${size}` produces for a natural number.
- `Numbers.TrimStart`: the white-space set is the ECMA-262 WhiteSpace and LineTerminator code points. `parseInt` is called without a radix, as in the source.
- `Stepper.StepperForm.constructor`: requires at least one step, since the form reads `steps[currentStep]`. A `steps` prop that changes after mounting is not modelled.
- `DataTable.Table.ToggleSelectAll`: compares sizes only, as the source does. The model does not claim that the header checkbox reflects which rows are selected (see `DataTable.HeaderCheckedBySizeAlone`).
- `DataTable.Table`: the `searchable` and `selectable` props, which decide whether the search box and the checkboxes are rendered at all, are not modelled; the handlers are those of a table that shows both.
- The rich-text editor, the debounce hook, the dialogs and the stats card are not part of this model.
