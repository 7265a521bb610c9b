# WeWantWaste skip booking: a Dafny model

WeWantWaste is a single-page web app for hiring a waste skip. The customer goes
through six steps: Address, Waste Type, Skip Size, Permit, Delivery and Payment.
This project models the app's core and proves properties of that model:

- **The progress store** (`ProgressStore`). It holds the booking state:
  - the current step;
  - the address, the waste type and the chosen skip;
  - whether a permit is required, the delivery date and whether payment is complete.

  It has setters for each slot, step navigation, a reset and the per-step completion check. It is
  modelled as a class. Each method ensures the new abstract state `State()` in terms of the old one.
  Completion is a pure function of that state.
- **The Skip Size page** (`SkipSelection`):
  - it normalises the fetched skip records (the " Yard" suffix and a stock photo);
  - it has a token filter;
  - it runs a filter-and-sort pipeline over a copy of the list, paginates it eight per page, and
    picks the error, empty or list view;
  - it keeps its own state: current page, sort option and selected filters.

  The sort is JavaScript's stable `Array.prototype.sort`. It is modelled by a stable insertion sort
  (`Sorting`), which has both a functional specification and an in-place array method proved
  against it.
- **The filter bar** (`SkipFilters`). It collects the distinct sizes and the road-allowed flag in
  one loop, then sorts the sizes in place with the default string order. It also decides which
  buttons are shown and highlighted.
- **The grid** (`SkipGrid`). It toggles the selected skip. On confirmation it stores the selected
  skip and advances the step.
- **The pagination bar** (`SkipPagination`): Previous/Next targets, the first five page links, and
  the ellipsis.
- **The skip card** (`SkipCard`): the record itself, the VAT-inclusive price, the image fallback,
  the heading, the badge and the labels.
- **The step bar** (`ProgressBar`): six steps. A step counts as completed when its number is at
  most the current step. A click moves back to a completed step and never moves forward.

The helper modules are:

- `Strings`: ASCII lower-casing, first-occurrence replacement, and string order by character code;
- `Sequences`: JavaScript `filter`, and distinctness;
- `Wrappers`: `Option`.

Some of the code's behaviour is unusual for a booking wizard, and the model keeps it:

- The store starts at step 3 with the address ("LE10 1SH", "Hinckley") and the waste type
  ("Garden Waste") already filled in.
- The check `isStepComplete(3)` compares the skip with `undefined`. The slot holds `null` or a
  skip, never `undefined`, so step 3 is always complete, even after `reset`.
- `nextStep`, `prevStep` and `setCurrentStep` do not clamp the step to 1..6.
- The size token replaces only the first space (`replace(" ", "_")` with a string pattern).
- `filteredSkips`, the token filter, is computed but never displayed. The page shows
  `processedSkips`, which has a different filtering rule.
- The page passes `selectedFilters`/`setSelectedFilters` to a filter bar that expects
  `filterOption`/`setFilterOption`. So nothing ever changes `selectedFilters` from `["all"]`, and
  the list shown is always a permutation of all fetched skips.

## Model

| member | source | states |
|---|---|---|
| ProgressStore.StepComplete | wewantwaste-web/src/stores/useProgressStore.ts:71-88 | defines `isStepComplete` on a state snapshot: one test per step id 1 to 6, false for every other id; its meaning is stated by StepCompleteMeaning |
| ProgressStore.Store.IsStepComplete | wewantwaste-web/src/stores/useProgressStore.ts:71-88 | the store's query reads the current fields and answers as StepComplete does on them |
| ProgressStore.StepCompleteMeaning | wewantwaste-web/src/stores/useProgressStore.ts:71-88 | steps 1, 2 and 5 are complete iff their slot is set; step 3 is always complete; step 4 iff the permit flag is true or false; step 6 iff payment is complete; any other id is never complete |
| ProgressStore.InitialCompletion | wewantwaste-web/src/stores/useProgressStore.ts:37-49 | the initial state is on step 3, and exactly steps 1 to 3 are complete in it |
| ProgressStore.ClearedCompletion | wewantwaste-web/src/stores/useProgressStore.ts:60-69 | after a reset the step is 1, and step 3 is the only complete step |
| ProgressStore.SetterCompletesOwnStep | wewantwaste-web/src/stores/useProgressStore.ts:51-70 | setting the address, waste type, permit or delivery date completes its own step; setting the payment flag makes step 6's completion equal to the flag; no setter changes any other step's completion; setting the skip, or setting the step to any number, changes no completion at all |
| ProgressStore.Store.constructor | wewantwaste-web/src/stores/useProgressStore.ts:37-49 | the store starts in the prefilled initial state |
| ProgressStore.Store.SetAddress | wewantwaste-web/src/stores/useProgressStore.ts:51 | only the address changes, to the given one |
| ProgressStore.Store.SetWasteType | wewantwaste-web/src/stores/useProgressStore.ts:52 | only the waste type changes |
| ProgressStore.Store.SetSkip | wewantwaste-web/src/stores/useProgressStore.ts:53 | only the skip slot changes, to the given skip or to null |
| ProgressStore.Store.SetPermitRequired | wewantwaste-web/src/stores/useProgressStore.ts:54 | only the permit flag changes |
| ProgressStore.Store.SetDeliveryDate | wewantwaste-web/src/stores/useProgressStore.ts:55 | only the delivery date changes |
| ProgressStore.Store.SetPaymentComplete | wewantwaste-web/src/stores/useProgressStore.ts:56 | only the payment flag changes |
| ProgressStore.Store.NextStep | wewantwaste-web/src/stores/useProgressStore.ts:58 | the step goes up by one, with no bound; nothing else changes |
| ProgressStore.Store.PrevStep | wewantwaste-web/src/stores/useProgressStore.ts:59 | the step goes down by one, with no bound; nothing else changes |
| ProgressStore.Store.Reset | wewantwaste-web/src/stores/useProgressStore.ts:60-69 | every slot is cleared and the step is 1; afterwards a step is complete iff it is step 3 |
| ProgressStore.Store.SetCurrentStep | wewantwaste-web/src/stores/useProgressStore.ts:70 | the step becomes the given number; nothing else changes |
| ProgressStore.NextThenPrevRestores | wewantwaste-web/src/stores/useProgressStore.ts:58-59 | nextStep followed by prevStep leaves the whole state as it was |
| SkipCard.TotalPrice | wewantwaste-web/src/features/skip-selection/components/skip-card.tsx:24 | defines the card's total: the price before VAT plus that price times the VAT percentage over 100 |
| SkipCard.TotalPriceIsScaledPrice | wewantwaste-web/src/features/skip-selection/components/skip-card.tsx:24 | the total is the price times (1 + vat/100); with no VAT it is the price; it is never below a non-negative price |
| SkipCard.TotalPriceExample | wewantwaste-web/src/features/skip-selection/components/skip-card.tsx:24 | a price of 100 at 20% VAT totals 120 |
| SkipCard.ImageSource | wewantwaste-web/src/features/skip-selection/components/skip-card.tsx:31 | the card shows the skip's image when it is present and non-empty, and the placeholder otherwise; the source is never empty |
| SkipCard.Title | wewantwaste-web/src/features/skip-selection/components/skip-card.tsx:37 | the heading is the size followed by " Yards" |
| SkipCard.Badge | wewantwaste-web/src/features/skip-selection/components/skip-card.tsx:38-42 | the badge reads "Road Allowed" iff the skip is allowed on the road, and "Private Only" iff it is not |
| SkipCard.AreaLine | wewantwaste-web/src/features/skip-selection/components/skip-card.tsx:50-54 | a non-empty area gives "Common in" and the area; an empty one gives "Available in all areas" |
| SkipCard.ButtonLabel | wewantwaste-web/src/features/skip-selection/components/skip-card.tsx:67-69 | the button reads "Selected" iff the card is selected, and "Select" iff it is not |
| SkipSelection.GetSkipImage | wewantwaste-web/src/features/skip-selection/index.tsx:178-203 | a listed size gets its table photo, any other size the fallback photo; the result is never empty |
| SkipSelection.SkipImagesListed | wewantwaste-web/src/features/skip-selection/index.tsx:179-198 | the table lists exactly the sizes 4, 6, 8, 10, 12, 14, 16, 20 and 40 Yard |
| SkipSelection.Normalise | wewantwaste-web/src/features/skip-selection/index.tsx:26-30 | the size gains " Yard"; a present, non-empty image is kept, otherwise it is the stock photo for the new size; every other field is unchanged |
| SkipSelection.NormaliseAll | wewantwaste-web/src/features/skip-selection/index.tsx:25-30 | the list has the same length, and each record is its normalised input |
| SkipSelection.NormalisedImageShown | wewantwaste-web/src/features/skip-selection/index.tsx:29 | after normalisation the card never falls back to its placeholder, and it shows the fetched image whenever one was given |
| SkipSelection.SizeToken | wewantwaste-web/src/features/skip-selection/index.tsx:43 | the token is as long as the size |
| SkipSelection.SizeTokenEndsWithYard | wewantwaste-web/src/features/skip-selection/index.tsx:43 | the token of a normalised size ends in "yard" |
| SkipSelection.LowerYardSuffix | wewantwaste-web/src/features/skip-selection/index.tsx:43 | a normalised size lower-cases to a string ending in " yard" |
| SkipSelection.LowerOfNormalised | wewantwaste-web/src/features/skip-selection/index.tsx:43 | lower-casing a spaceless raw size plus " Yard" gives the lower-cased size, its only space, then "yard" |
| SkipSelection.SizeTokenNotReserved | wewantwaste-web/src/features/skip-selection/index.tsx:41-43 | no normalised size has the token "all" or "road_allowed" |
| SkipSelection.SizeTokenOfSpacelessSize | wewantwaste-web/src/features/skip-selection/index.tsx:43 | for a raw size without spaces, the token is the lower-cased size followed by "_yard", so "6 Yard" gets the token "6_yard" |
| SkipSelection.MatchesToken | wewantwaste-web/src/features/skip-selection/index.tsx:41-44 | defines when one token matches a skip: "road_allowed" tests the road flag, any other token is compared with the size token |
| SkipSelection.KeptBy | wewantwaste-web/src/features/skip-selection/index.tsx:38-45 | defines the `filteredSkips` predicate: an empty token list keeps every skip, otherwise some token must match |
| SkipSelection.FilteredSkips | wewantwaste-web/src/features/skip-selection/index.tsx:38-45 | defines `filteredSkips` as the filter of the skips by KeptBy; its meaning is stated by FilteredSkipsMeaning |
| SkipSelection.FilteredSkipsMeaning | wewantwaste-web/src/features/skip-selection/index.tsx:38-45 | with no tokens every skip is kept; otherwise a skip is kept iff some token matches it; the order is preserved |
| SkipSelection.AllTokenMatchesNothing | wewantwaste-web/src/features/skip-selection/index.tsx:41-44 | in the token filter, "all" matches no normalised skip |
| SkipSelection.ParseSortOption | wewantwaste-web/src/features/skip-selection/index.tsx:64-83 | each of the four option strings selects its own ordering, and nothing else selects one |
| SkipSelection.Compare | wewantwaste-web/src/features/skip-selection/index.tsx:64-82 | defines the four comparators: newest first, oldest first, cheapest first and dearest first, each as a difference |
| SkipSelection.After | wewantwaste-web/src/features/skip-selection/index.tsx:64-82 | defines "goes after" for the sort as a positive comparator result |
| SkipSelection.AfterIsStrictWeakOrder | wewantwaste-web/src/features/skip-selection/index.tsx:66-82 | each of the four comparators is a strict weak order |
| SkipSelection.SortOrder | wewantwaste-web/src/features/skip-selection/index.tsx:64-83 | each sort permutes its input, orders by creation time (newest or oldest first) or by price (lowest or highest first), and keeps the input order of ties |
| SkipSelection.RoadAllowed | wewantwaste-web/src/features/skip-selection/index.tsx:51-52 | defines the road-allowed filter of the list |
| SkipSelection.FilterStage | wewantwaste-web/src/features/skip-selection/index.tsx:48-62 | defines the filter stage of `processedSkips`: "all" keeps the copy, otherwise "road_allowed" keeps the road-allowed skips |
| SkipSelection.Processed | wewantwaste-web/src/features/skip-selection/index.tsx:47-86 | defines `processedSkips` as the filter stage followed by the stable sort the option names, or no sort |
| SkipSelection.ProcessedWithAll | wewantwaste-web/src/features/skip-selection/index.tsx:47-50 | with "all" selected the result is a permutation of the input; with no known sort option it is the input itself |
| SkipSelection.ProcessedRoadAllowed | wewantwaste-web/src/features/skip-selection/index.tsx:50-52 | with "road_allowed" and without "all", each road-allowed skip keeps its count and no other skip remains; unsorted, the input order is kept |
| SkipSelection.ProcessedWithoutTokens | wewantwaste-web/src/features/skip-selection/index.tsx:50-61 | with no filters selected the result is a permutation of the input |
| SkipSelection.ProcessedSorted | wewantwaste-web/src/features/skip-selection/index.tsx:64-85 | with a known sort option the result is sorted by it, and equal-ranked skips stay in filter order |
| SkipSelection.ProcessSkips | wewantwaste-web/src/features/skip-selection/index.tsx:47-86 | the copy-filter-sort-in-place method returns a fresh array holding exactly the processed list |
| SkipSelection.PriceLowExample | wewantwaste-web/src/features/skip-selection/index.tsx:77-79 | sorting by "price_low" puts an 80 skip before a 100 skip listed first, and the card total of the 100 skip at 20% VAT is 120 |
| SkipSelection.RelativeIndex | wewantwaste-web/src/features/skip-selection/index.tsx:90-93 | a slice bound lies in 0..n: the index itself inside that range, n above it, and for a negative index n + k counted from the end, floored at 0 |
| SkipSelection.TotalPages | wewantwaste-web/src/features/skip-selection/index.tsx:97 | the page count is the least number of eight-item pages that covers the list; it is zero iff the list is empty |
| SkipSelection.Slice | wewantwaste-web/src/features/skip-selection/index.tsx:90-93 | defines JavaScript `slice`: both ends read by RelativeIndex, and empty when the start is not before the end |
| SkipSelection.Page | wewantwaste-web/src/features/skip-selection/index.tsx:88-95 | defines `paginatedSkips` as the slice from (page - 1) times 8 to page times 8; PageWindow and PageAtMostEight state what it holds |
| SkipSelection.PagesFrom | wewantwaste-web/src/features/skip-selection/index.tsx:88-95 | defines the concatenation of pages p to last, which PagesFromRest and PagesPartition are about |
| SkipSelection.PageWindow | wewantwaste-web/src/features/skip-selection/index.tsx:88-95 | page p holds items 8(p-1) up to 8p (fewer on the last page), and nothing past the end |
| SkipSelection.PageAtMostEight | wewantwaste-web/src/features/skip-selection/index.tsx:88-95 | every page, whatever its number, holds at most eight items |
| SkipSelection.PageZeroEmpty | wewantwaste-web/src/features/skip-selection/index.tsx:90-93 | page 0, which Next reaches when there are no pages, is empty |
| SkipSelection.PagesFromRest | wewantwaste-web/src/features/skip-selection/index.tsx:88-97 | pages p to the last, concatenated, are the list from item 8(p-1) onwards |
| SkipSelection.PagesPartition | wewantwaste-web/src/features/skip-selection/index.tsx:88-97 | pages 1 to the last, concatenated, are exactly the processed list |
| SkipSelection.PageAfterLastEmpty | wewantwaste-web/src/features/skip-selection/index.tsx:88-97 | every page after the last is empty |
| SkipSelection.ChooseView | wewantwaste-web/src/features/skip-selection/index.tsx:104-132 | an error shows the error view; the empty view shows iff there is no error, loading is over and nothing is processed |
| SkipSelection.NoSkipsMeansNoPages | wewantwaste-web/src/features/skip-selection/index.tsx:97-116 | when the empty view shows there are no pages, and page 1 is empty |
| SkipSelection.SkipPage.constructor | wewantwaste-web/src/features/skip-selection/index.tsx:33-36 | the page starts on page 1, sorted by "latest", with ["all"] selected |
| SkipSelection.SkipPage.HandlePageChange | wewantwaste-web/src/features/skip-selection/index.tsx:99-102 | the current page becomes the given one, and the sort and the filters are unchanged |
| SkipSelection.SkipPage.SetSortOption | wewantwaste-web/src/features/skip-selection/components/skip-sort.tsx:18-26 | the sort option becomes the chosen one, and the page and the filters are unchanged |
| SkipSelection.SkipPage.Shown | wewantwaste-web/src/features/skip-selection/index.tsx:88-95 | the grid shows at most eight skips, all of them fetched skips |
| SkipSelection.PageElementsFromList | wewantwaste-web/src/features/skip-selection/index.tsx:90-93 | a page holds only items of the list it is cut from |
| SkipSelection.FilterStageElements | wewantwaste-web/src/features/skip-selection/index.tsx:50-52 | the filter stage keeps only input skips |
| Sorting.Insert | wewantwaste-web/src/features/skip-selection/index.tsx:64-83 | inserting into a list adds exactly one element |
| Sorting.InsertPermutes | wewantwaste-web/src/features/skip-selection/index.tsx:64-83 | insertion adds the element to the multiset and loses nothing |
| Sorting.Sort | wewantwaste-web/src/features/skip-selection/index.tsx:64-83 | the sort has the input's length and its multiset |
| Sorting.InsertInSortedIsSorted | wewantwaste-web/src/features/skip-selection/index.tsx:64-83 | inserting into a sorted list under a strict weak order keeps it sorted |
| Sorting.SortSorted | wewantwaste-web/src/features/skip-selection/index.tsx:64-83 | under a strict weak order the result is sorted |
| Sorting.InsertKeepsEquivalents | wewantwaste-web/src/features/skip-selection/index.tsx:64-83 | insertion places the new element after all equal-ranked ones already there |
| Sorting.SortStable | wewantwaste-web/src/features/skip-selection/index.tsx:64-83 | the sort is stable: equal-ranked elements keep their input order |
| Sorting.EquivalentToAppend | wewantwaste-web/src/features/skip-selection/index.tsx:64-83 | the equal-ranked elements of a concatenation are those of each part, in order |
| Sorting.SortInPlace | wewantwaste-web/src/features/skip-selection/index.tsx:66-82 | the in-place sort leaves the array holding the stable sort of its old contents |
| Sorting.InsertAt | wewantwaste-web/src/features/skip-selection/index.tsx:66-82 | one pass of the in-place sort inserts element i into the sorted prefix and leaves the rest alone |
| Sorting.ShiftGreater | wewantwaste-web/src/features/skip-selection/index.tsx:66-82 | the inner loop shifts right the prefix elements that go after the new one; the gap it leaves is where insertion puts the new element |
| Sorting.InsertAtGap | wewantwaste-web/src/features/skip-selection/index.tsx:66-82 | an element goes in the gap after which every element goes after it and before which the neighbour does not |
| Sequences.Filter | wewantwaste-web/src/features/skip-selection/index.tsx:52 | filtering never lengthens a list, and it keeps exactly the elements that satisfy the predicate |
| Sequences.FilterCounts | wewantwaste-web/src/features/skip-selection/index.tsx:52 | an element that satisfies the predicate keeps all its copies; any other element keeps none |
| Sequences.FilterIsSubsequence | wewantwaste-web/src/features/skip-selection/index.tsx:52 | the filtered list keeps the input's order |
| Sequences.FilterKeepsAll | wewantwaste-web/src/features/skip-selection/index.tsx:38-39 | a predicate true of every element keeps the list unchanged |
| Sequences.DistinctCountsAtMostOne | wewantwaste-web/src/features/skip-selection/components/skip-filters.tsx:20-24 | a list without repeats holds each element at most once |
| Sequences.DistinctPermutation | wewantwaste-web/src/features/skip-selection/components/skip-filters.tsx:29 | a permutation of a list without repeats has no repeats |
| Strings.LowerChar | wewantwaste-web/src/features/skip-selection/index.tsx:43 | an upper-case ASCII letter becomes the corresponding lower-case letter (code plus 32); every other character is unchanged |
| Strings.ToLower | wewantwaste-web/src/features/skip-selection/index.tsx:43 | lower-casing keeps the length and lower-cases each character |
| Strings.IndexOf | wewantwaste-web/src/features/skip-selection/index.tsx:43 | the result is the first position of the character, or the length when it is absent |
| Strings.ReplaceFirst | wewantwaste-web/src/features/skip-selection/index.tsx:43 | the result has the input's length; a string without the character is unchanged |
| Strings.ReplaceFirstMeaning | wewantwaste-web/src/features/skip-selection/index.tsx:43 | only the first occurrence of the character is replaced; every other position is unchanged |
| Strings.ReplaceFirstKeepsAfter | wewantwaste-web/src/features/skip-selection/index.tsx:43 | everything after any occurrence of the character is left alone |
| Strings.ReplaceFirstAt | wewantwaste-web/src/features/skip-selection/index.tsx:43 | when the first occurrence is at position m, exactly that character is replaced |
| Strings.ToLowerAppend | wewantwaste-web/src/features/skip-selection/index.tsx:43 | lower-casing a concatenation lower-cases each part |
| Strings.ToLowerKeepsNoSpace | wewantwaste-web/src/features/skip-selection/index.tsx:43 | lower-casing a string without spaces introduces none |
| Strings.StrLt | wewantwaste-web/src/features/skip-selection/components/skip-filters.tsx:29 | defines the default `sort()` order on strings: the first differing character decides, and a proper prefix comes first |
| Strings.StrLtIrreflexive | wewantwaste-web/src/features/skip-selection/components/skip-filters.tsx:29 | no string sorts before itself |
| Strings.StrLtTransitive | wewantwaste-web/src/features/skip-selection/components/skip-filters.tsx:29 | string order is transitive |
| Strings.StrLtTotal | wewantwaste-web/src/features/skip-selection/components/skip-filters.tsx:29 | of two different strings, one sorts before the other |
| Strings.StrLtAsymmetric | wewantwaste-web/src/features/skip-selection/components/skip-filters.tsx:29 | two strings never sort before each other |
| SkipFilters.StrGt | wewantwaste-web/src/features/skip-selection/components/skip-filters.tsx:29 | defines the default comparator as "goes after": the other string is smaller in StrLt |
| SkipFilters.StrGtIsStrictWeakOrder | wewantwaste-web/src/features/skip-selection/components/skip-filters.tsx:29 | the default string comparator is a strict weak order |
| SkipFilters.AvailableFilters | wewantwaste-web/src/features/skip-selection/components/skip-filters.tsx:19-32 | every skip's size is offered, only sizes of listed skips are offered, the sizes are strictly ascending with no repeats, and the road flag is set iff some skip is road-allowed |
| SkipFilters.CollectFacets | wewantwaste-web/src/features/skip-selection/components/skip-filters.tsx:20-26 | the loop collects each listed size exactly once, nothing else, and the road-allowed flag |
| SkipFilters.SortedSizes | wewantwaste-web/src/features/skip-selection/components/skip-filters.tsx:29 | sorting the distinct sizes gives the same strings, strictly ascending |
| SkipFilters.SizeTokens | wewantwaste-web/src/features/skip-selection/components/skip-filters.tsx:59-66 | each size button's token is that size's token |
| SkipFilters.FilterButtons | wewantwaste-web/src/features/skip-selection/components/skip-filters.tsx:48-84 | the bar shows "all" first, then one button per size in order, then "road_allowed" last when it is shown |
| SkipFilters.SizeTokensNotReserved | wewantwaste-web/src/features/skip-selection/components/skip-filters.tsx:49-84 | no size button carries the token of the All or the Road Allowed button |
| SkipFilters.RoadFacetShownIff | wewantwaste-web/src/features/skip-selection/components/skip-filters.tsx:73 | the Road Allowed button appears iff some listed skip is road-allowed |
| SkipFilters.IsActive | wewantwaste-web/src/features/skip-selection/components/skip-filters.tsx:51-78 | defines a filter button as highlighted when the filter option equals its token |
| SkipFilters.ActiveButtons | wewantwaste-web/src/features/skip-selection/components/skip-filters.tsx:51-76 | "all" highlights only the All button, "road_allowed" only the Road Allowed button, and a size button is highlighted iff the option is its token |
| SkipGrid.Toggled | wewantwaste-web/src/features/skip-selection/components/skip-grid.tsx:18-24 | clicking the selected skip deselects it; clicking any other skip selects that one |
| SkipGrid.IsSelected | wewantwaste-web/src/features/skip-selection/components/skip-grid.tsx:40 | defines the highlight: a card is highlighted when a skip is selected and has the card's id |
| SkipGrid.ConfirmDisabled | wewantwaste-web/src/features/skip-selection/components/skip-grid.tsx:50 | defines the Confirm button as disabled exactly when nothing is selected |
| SkipGrid.ToggleTwiceFromNone | wewantwaste-web/src/features/skip-selection/components/skip-grid.tsx:18-24 | two clicks on the same card leave nothing selected |
| SkipGrid.ToggleReplaces | wewantwaste-web/src/features/skip-selection/components/skip-grid.tsx:21-22 | clicking another card replaces the selection; clicking it again clears it |
| SkipGrid.ToggledSelection | wewantwaste-web/src/features/skip-selection/components/skip-grid.tsx:18-50 | after a click, a card is highlighted iff it shares the clicked skip's id and that skip was not already selected; Confirm is disabled iff the click deselected |
| SkipGrid.AtMostOneSelected | wewantwaste-web/src/features/skip-selection/components/skip-grid.tsx:36-43 | among cards with distinct ids, at most one is highlighted |
| SkipGrid.Grid.constructor | wewantwaste-web/src/features/skip-selection/components/skip-grid.tsx:14 | the grid starts with nothing selected |
| SkipGrid.Grid.HandleSkipToggle | wewantwaste-web/src/features/skip-selection/components/skip-grid.tsx:18-24 | the selection becomes the toggled selection |
| SkipGrid.Grid.HandleSubmit | wewantwaste-web/src/features/skip-selection/components/skip-grid.tsx:26-30 | with nothing selected the store is untouched; otherwise the store holds the selected skip and has advanced one step, and nothing else changes |
| SkipPagination.PrevTarget | wewantwaste-web/src/features/skip-selection/components/skip-pagination.tsx:36 | Previous goes one page back, but never below page 1 |
| SkipPagination.NextTarget | wewantwaste-web/src/features/skip-selection/components/skip-pagination.tsx:62-64 | Next goes one page on, but never past the page count |
| SkipPagination.PageLinks | wewantwaste-web/src/features/skip-selection/components/skip-pagination.tsx:40-41 | the links are pages 1 up to min(5, page count), and none when there are no pages |
| SkipPagination.LinkActive | wewantwaste-web/src/features/skip-selection/components/skip-pagination.tsx:45 | defines a page link as active when its number is the current page |
| SkipPagination.ShowEllipsis | wewantwaste-web/src/features/skip-selection/components/skip-pagination.tsx:54 | defines when the ellipsis shows: more than five pages and a current page past 3 |
| SkipPagination.EllipsisOnlyWhenLinksTruncated | wewantwaste-web/src/features/skip-selection/components/skip-pagination.tsx:54 | the ellipsis appears only when there are more than five pages and the current page is past 3, so some pages have no link |
| SkipPagination.LinksAreValidPages | wewantwaste-web/src/features/skip-selection/components/skip-pagination.tsx:40-46 | every link is a real page; a link is active iff it is the current page, so at most one is |
| SkipPagination.SomeLinkActive | wewantwaste-web/src/features/skip-selection/components/skip-pagination.tsx:40-46 | some link is active iff the current page is 1 to min(5, page count) |
| SkipPagination.PrevNextRoundTrip | wewantwaste-web/src/features/skip-selection/components/skip-pagination.tsx:36-64 | inside the page range, Previous then Next, or Next then Previous, returns to the same page |
| SkipPagination.TargetsNotNegative | wewantwaste-web/src/features/skip-selection/components/skip-pagination.tsx:36-64 | from a non-negative page with a non-negative page count, neither button targets a negative page |
| ProgressBar.StyleOf | wewantwaste-web/src/components/progress.tsx:59-65 | the current step gets the active style, an earlier step the completed style, and a later step the pending style |
| ProgressBar.StepAfterClick | wewantwaste-web/src/components/progress.tsx:58 | clicking a completed step goes to it, clicking another step does nothing, and no click moves forward |
| ProgressBar.IsCompleted | wewantwaste-web/src/components/progress.tsx:25 | defines a step as completed in the bar when its id is at most the current step |
| ProgressBar.IsActive | wewantwaste-web/src/components/progress.tsx:48 | defines a step as active when its id is the current step |
| ProgressBar.StepIconsNumbered | wewantwaste-web/src/components/progress.tsx:13-20 | there are six steps, numbered 1 to 6 in order |
| ProgressBar.ActiveSteps | wewantwaste-web/src/components/progress.tsx:25-48 | the active step is also completed, at most one step is active, and step i+1 is active iff it is the current step |
| ProgressBar.ClickStep | wewantwaste-web/src/components/progress.tsx:58 | a click changes only the store's current step, to the step the click leads to |

## Left out

- Fetching, caching and loading: the React Query call and the API client are left out. The fetched
  list is an input. The error and loading flags are parameters of `ChooseView`.
- Scrolling the results to the top on a page change, the reload on "Try Again", loading skeletons,
  icons, CSS classes and the width of the progress line are presentational or browser I/O.
- `processedSkips` is modelled only for selections containing "all" or "road_allowed", or empty
  ones (`ModelledFilters`). For any other selection the source pushes whole filtered arrays into the
  list of skips (index.tsx:54-60), so the list no longer holds only skips, and the type system
  cannot express it. The page as wired never reaches that branch, because `selectedFilters` stays
  `["all"]`.
- The "Reset Filters" button (index.tsx:121-129) calls `setFilterOption`, which is not defined on
  the page. Its effect is not modelled.
- The filter bar's `filterOption`/`setFilterOption` props are not supplied by the page. The bar is
  modelled with the filter option as a parameter. A button click, which would call that missing
  setter, is not modelled.
- `created_at` is modelled as an integer timestamp. Parsing dates with `new Date(...)` is not
  modelled, and neither is the `Date` held by `deliveryDate`.
- Prices are exact reals, so floating-point rounding is absent. The `toFixed(2)` formatting of the
  total is not modelled. `Math.ceil` on a float quotient is modelled as an exact integer ceiling.
- Strings.ToLower: only ASCII letters are lower-cased. JavaScript's full Unicode case mapping is not
  modelled.
- Strings.StrLt: compares Unicode scalar values. JavaScript compares UTF-16 code units, and the two
  orders differ only above U+FFFF.
- SkipSelection.GetSkipImage: the lookup `imageMap[size]` on a plain object would also find
  inherited keys such as "constructor". The model looks up only the nine listed sizes.
- SkipPagination.PageLinks: `Array.from({ length: n })` with a negative `n` is treated as length 0.
  Non-integer lengths cannot arise, because the page count is an integer.
- The JavaScript runtime's sort algorithm is not modelled. Any stable sort by a strict weak order
  gives the same result, so the model uses a stable insertion sort.
- `App.tsx`, `card.tsx`, `use-api.ts` and `axios.ts` are the app shell and plumbing, and they are
  not part of this model.
