# Recipe board — a Dafny model

The page script `app.js` shows a fixed list of three recipes as cards. The user can filter the list, sort it, search it and mark favourites. Favourites are kept in browser storage. The script keeps three pieces of state:

- the fixed list `recipes`;
- the current view `currentRecipes`;
- the favourite ids `favorites`.

It also keeps a debounce timer, `searchTimeout`, for the search bar.

This project gathers that state into one class, `Board.RecipeBoard`. Each event handler becomes a method. The selection logic is written as pure functions over `seq<Recipe>`, with lemmas about them.

- `Lists`: `Filter`, which is `Array.prototype.filter`. Also the subsequence relation, "each element once" (`Distinct`), and `SortInPlace`, an in-place insertion sort on an `array` under a comparator that is a total preorder.
- `Text`: the string operations the script uses. These are ASCII `toLowerCase`, `trim`, `includes` (`Contains`), and the decimal rendering of a count.
- `Recipes`: the `Recipe` record, the built-in `Catalog`, and two views computed from the full list. `Select` is what `filterRecipes(key)` computes. `Search` is what the search callback computes.
- `Favorites`: the heart-button toggle, and what storage holds under `"favorites"`.
- `Counter`: the label "Showing n of m recipes".
- `Debounce`: the search bar's text plus its timers. Each keystroke clears the pending timer and schedules a new one. Firing a timer stops it from being pending.
- `Board`: the class. `current` is an `array<Recipe>`. Filtering and searching allocate a fresh array. Sorting permutes the array in place. Every handler except the keystroke handler ends by rendering: it recomputes the cards and the counter from the list it shows. The keystroke handler only reschedules the search timer. The search bar's state is one `Debounce.SearchInput` field: the keystroke handler steps it with `Input`, the timer callback with `Fire`, and the heart button calls `Favorites.Toggle`. The invariant `Valid()` says six things:
  - the fixed list holds no recipe twice;
  - the view is a sub-multiset of the fixed list;
  - storage reloads to the current favourites;
  - the cards show the view with correct heart marks;
  - the counter shows the view's length out of the list's length;
  - at most the newest search timer is pending.

Filtering and searching ignore the previous view and start again from `recipes`, so an earlier sort is discarded. Sorting works on whatever view is current. `FilterRecipes`, `OnSearchTimer` and `SortRecipes` state this difference in their contracts. `SortFilterSession` runs a sort followed by a filter.

Four behaviours of the code are easy to miss:

- Startup reads storage with `JSON.parse` and has no `try`/`catch`. Stored text that is not JSON makes the script throw instead of falling back to an empty list. `Favorites.Load` returns `None` for that case, and the board's constructor requires a successful load.
- Toggling the same id twice restores the set of favourite ids. It does not always restore the stored list: an id that is removed and then added again moves to the end (`Favorites.ToggleTwiceMoves`).
- Un-marking a favourite while the "favorites" filter is active only re-renders the current view; it does not filter again. The card stays on screen with its heart cleared (`Board.RecipeBoard.ToggleFavorite` keeps `current`; `Board.FavoritesSession` shows it).
- Search looks only at the title and the ingredients, never at the category or the description (`Recipes.Matches`). A query that appears only in the category does not find the recipe.

## Model

| member | source | states |
|---|---|---|
| `Lists.Filter` | app.js:110-116 | the result is no longer than the input; it holds exactly the input's elements that satisfy the predicate |
| `Lists.FilterMultiplicity` | app.js:110-116 | each wanted element appears as often as in the input; every other element is absent |
| `Lists.FilterIsSubsequence` | app.js:110-116 | the filter result keeps the input's order (it is a subsequence) |
| `Lists.FilterKeepsAll` | app.js:163-166 | a filter whose test holds of every element returns the input unchanged |
| `Lists.FilterAppend` | app.js:90-92 | filtering distributes over concatenation |
| `Lists.FilterKeepsDistinct` | app.js:110-116 | a filter of a duplicate-free list is duplicate-free |
| `Lists.SubMultisetBounds` | app.js:100-101 | a view drawn from the list is no longer than the list, and is duplicate-free when the list is |
| `Lists.SortInPlace` | app.js:127-129 | the array ends ordered by the comparator and is a permutation of what it held |
| `Text.LowerIdempotent` | app.js:162 | lowering is idempotent and leaves no ASCII capital |
| `Text.TrimStart` | app.js:110 | drops exactly a run of leading white space |
| `Text.TrimEnd` | app.js:110 | drops exactly a run of trailing white space |
| `Text.Trim` | app.js:110 | the result is a slice of the input with only white space cut from each side, and neither starts nor ends with white space |
| `Text.TrimPadded` | app.js:110 | trimming a word padded with white space gives back exactly the word |
| `Text.ContainsIff` | app.js:164-165 | `includes` holds exactly when the query occurs at some position |
| `Text.ContainsEmpty` | app.js:162-166 | the empty query occurs in every string |
| `Text.ContainsLower` | app.js:162-165 | an exact occurrence is still an occurrence after lowering both sides |
| `Text.Decimal` | app.js:101 | a count renders as a non-empty string of digits, with a leading zero only for zero |
| `Text.DecimalRoundTrip` | app.js:101 | the rendered digits read back as the count |
| `Counter.CounterTextDetermines` | app.js:100-102 | the counter label determines both the shown count and the total |
| `Recipes.UniqueIdsDistinct` | app.js:3-35 | recipes with pairwise different ids are pairwise different |
| `Recipes.CatalogUniqueIds` | app.js:3-35 | the built-in list has unique ids and no repeated recipe |
| `Recipes.SelectExactly` | app.js:105-120 | "easy"/"medium"/"hard" keep the recipes whose trimmed difficulty equals the key, "quick" those under 30 minutes, "favorites" those whose id is a favourite; each is kept as often as in the full list, in the full list's order; any other key gives the full list unchanged |
| `Recipes.SelectWithin` | app.js:105-120 | the filtered view holds no recipe more often than the full list does |
| `Recipes.SelectDistinct` | app.js:105-120 | a filtered view of a list without repeats has no repeats |
| `Recipes.SearchExactly` | app.js:162-166 | the search result is the subsequence of the full list whose lowered title, or some lowered ingredient, contains the lowered query |
| `Recipes.SearchWithin` | app.js:162-166 | the search result holds no recipe more often than the full list does |
| `Recipes.SearchEmpty` | app.js:162-166 | an empty query returns every recipe in order |
| `Recipes.SearchFinds` | app.js:162-166 | a recipe whose title or some ingredient contains the query in any mix of case (some text that lowers to the same string as the query) is found |
| `Recipes.SearchLowered` | app.js:162-166 | lowering the query before searching changes nothing, because the search lowers it itself |
| `Recipes.CatalogQuick` | app.js:112-113 | on the built-in list, "quick" shows the carbonara and the salad but not the curry |
| `Recipes.CatalogFavorites` | app.js:115-116 | on the built-in list, with only id 2 marked, "favorites" shows only recipe 2 |
| `Favorites.Toggle` | app.js:89-93 | the toggled id's membership flips; every other id's membership is unchanged |
| `Favorites.ToggleKeepsDistinct` | app.js:89-93 | a duplicate-free favourites list stays duplicate-free |
| `Favorites.ToggleTwiceSameIds` | app.js:89-93 | toggling twice restores the set of ids |
| `Favorites.ToggleTwiceRestores` | app.js:89-93 | toggling an absent id twice restores the list exactly |
| `Favorites.ToggleTwiceMoves` | app.js:89-93 | toggling twice can reorder the list: [1, 2] becomes [2, 1] |
| `Favorites.SaveLoad` | app.js:94 | what a toggle saves loads back as the same list |
| `Debounce.Initial` | app.js:158 | before any keystroke, no search is pending |
| `Debounce.Input` | app.js:159-161 | after a keystroke the bar holds its text and exactly the new timer is pending; no earlier timer is still pending |
| `Debounce.Fire` | app.js:161-168 | a fired timer stops being pending, and then nothing is pending |
| `Debounce.AtMostOnePending` | app.js:158-161 | at most one search is ever pending |
| `Debounce.TypingLeavesLast` | app.js:158-168 | after a run of keystrokes, only the last keystroke's timer is pending and the bar holds the last text |
| `Board.ByTimeOrders` | app.js:129 | the comparator `a.time - b.time` orders recipes consistently |
| `Board.ByTitleOrders` | app.js:127 | comparing recipes by title is consistent whenever the title collation is |
| `Board.RecipeBoard.constructor` | app.js:41-42 | startup loads the favourites from storage and shows the full list with counter "n of n" |
| `Board.RecipeBoard.Render` | app.js:66-71 | the cards are the given list with heart marks taken from the favourites, and the counter shows the list's length of the total |
| `Board.RecipeBoard.FilterRecipes` | app.js:105-122 | the view becomes a fresh array holding `Select` of the full list, whatever it held before; favourites, storage and search state are unchanged |
| `Board.RecipeBoard.SortRecipes` | app.js:125-132 | "time" leaves the same array permuted with non-decreasing minutes; "name" leaves it permuted with titles ordered by the collation; any other key leaves it unchanged |
| `Board.RecipeBoard.ToggleFavorite` | app.js:87-96 | the favourites become `Toggle` of the old ones, storage holds them, and the same view is shown again with updated hearts |
| `Board.RecipeBoard.OnSearchInput` | app.js:159-161 | the search state takes one `Input` step; the view, the favourites and the screen are untouched |
| `Board.RecipeBoard.OnSearchTimer` | app.js:161-168 | a pending timer fires; the view becomes the search of the full list for the bar's current text |
| `Board.RecipeBoard.ViewBounds` | app.js:100-102 | the shown count never exceeds the total, and the view never holds a recipe twice |

## Left out

- Card markup is not modelled: the HTML strings, `innerHTML`, `querySelector` and `addEventListener` (app.js:45-64, 73-83, 135-155). A rendered card is reduced to its recipe and whether its heart is marked.
- The Show/Hide buttons for steps and ingredients (app.js:73-83) are not modelled. They only change what is visible on screen and are never persisted.
- `setActiveButton` (app.js:135-139) is not modelled: it only highlights a button.
- Browser storage is a value of type `StoredItem`, not real I/O. A stored JSON value that is truthy but is not an array of integers, such as an object, is not modelled.
- `localeCompare` (app.js:127) is locale-dependent collation. The model takes it as a parameter `titleLe`, which must be a total preorder.
- Lists.SortInPlace: does not state that the sort is stable, although `Array.prototype.sort` is stable and the insertion sort swaps only strictly out-of-order neighbours. Stability is not stated; the contract gives only order and permutation.
- Board.RecipeBoard.SortRecipes: does not state that the sort is stable, although `Array.prototype.sort` is stable. The contract gives only order and permutation.
- The 300 ms timer delay is not modelled. A timer is pending until it fires or is cleared, and the order in which timers fire is left open.
- Unicode case and white space: the model's `Lower` changes only the ASCII capitals A–Z, while JavaScript's `toLowerCase` lowers every Unicode capital. The model's `IsSpace` covers tab, LF, VT, FF, CR, space, NBSP, U+2028, U+2029 and U+FEFF; JavaScript's `trim` also removes U+1680, U+2000–U+200A, U+202F, U+205F and U+3000. The built-in recipes contain none of these characters, but a query that does can still give a different result: JavaScript lowers the Kelvin sign U+212A to `k`, and the model's `Lower` leaves it unchanged.
- `parseInt` on the button's `data-id` (app.js:88) is not modelled: the handler receives the id as an integer.
- `App.init` renders `recipes` itself rather than `currentRecipes` (app.js:174). The two hold the same list at that point, so the constructor renders the full list.
