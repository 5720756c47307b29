# Discover-movies page cache, as a Dafny model

This project models the state machine at the heart of a paginated, sortable
movie catalogue: the `discoverMovies` Redux slice. The slice keeps
`MovieState`. That state holds a cache of result pages keyed by page index,
each page tagged with the sort it was fetched under. It also holds the index
of the page on screen, the index of the page most recently asked for, the
chosen sort, the total page count and the user's favourites list.

The model is purely functional:

- `DiscoverMovies.Command` lists every reducer of the slice. `Step` applies one command to a `MovieState`.
- The fetch thunk is split in two. The `Pending(p)` command is dispatched at once. A later `Fulfilled(p, …)` or `Rejected(p, …)` command carries the page index captured at dispatch time.
- Overlapping fetches are arbitrary interleavings of these commands. `Run` dispatches a sequence of them.
- The decision thunk `requestMoviesPage` is the pure function `RequestMoviesPage`. It returns the commands it dispatches.
- A reducer that throws leaves the store unchanged. This happens when a settlement arrives for a page with no cache slot.
- The favourites are read from an already-parsed JSON value and written back as one. The text of JSON and the storage itself are outside the model.

Modules:

- `Common`: option and result types; `NoDup`; `IndexOf`.
- `JsonValue`: an abstract parsed JSON value.
- `EntityStore`: the id-keyed, insertion-ordered movie collection. Only `removeAll` and `addMany` are modelled.
- `Favorites`: `readFavorites`, the stored form of the list, and `setFavorite`.
- `DiscoverMovies`: the state, the reducers, `Step`, `Run`, `RequestMoviesPage` and the selectors.
- `MovieProperties`: invariants and properties over arbitrary interleavings.
- `Scenarios`: concrete end-to-end runs.

Where a reader's expectation and the code differ, the model follows the code:

- Stored favourites text that is not JSON makes `readFavorites` throw. Start-up then fails (`InitialState` is `Err`). Only JSON that parses but is not an all-number array gives the empty list. A missing entry reads as JSON `null` and also gives the empty list.
- A successful fetch puts its page on screen only when that page is still the requested one. It never clears the requested-page field; only `setCurrentPage` does.
- A rejection with an empty or missing message records "Request failed".
- The sort a new page is tagged with is the state's sort when `pending` runs.
- `SORT_CHANGED` is never assigned. The thunk treats it like `LOADING` and dispatches nothing. `MovieProperties.ReachableWaitsOnlyWhileLoading` shows that no reachable state has such a page.
- When a cached page has succeeded under another sort, the thunk's second test reads the same snapshot and does not fire. So exactly one fetch is dispatched (`RequestMoviesPage`'s `|r| <= 1`).
- Stored favourites may contain an id twice. Unstarring removes only the first copy, so the movie stays starred (`Scenarios.StoredDuplicateSurvivesUnstar`).
- Asking again for a page whose fetch is still in flight dispatches nothing. The requested-page field does not move to it, so an earlier request for another page can still win the screen (`Scenarios.ReclickOfLoadingPageIsIgnored`).

## Model

| member | source | states |
|---|---|---|
| Common.IndexOf | src/features/movies/slices/discoverMoviesSlice.ts:117 | `findIndex`: the position of the first occurrence of a present id; no earlier position holds it |
| EntityStore.AddOne | src/features/movies/slices/discoverMoviesSlice.ts:161 | one step of `addMany`: a record whose id is present is ignored; a new one is appended to the ids and filed under its id; the collection stays well-formed |
| EntityStore.AddMany | src/features/movies/slices/discoverMoviesSlice.ts:161 | adding many movies keeps the old collection as a prefix and adds each new id once, in first-occurrence order, filed with its first record; the collection stays well-formed |
| EntityStore.ReplaceAll | src/features/movies/slices/discoverMoviesSlice.ts:160-161 | after `removeAll` and `addMany` the page holds exactly the payload de-duplicated by id (first record kept, order kept, nothing left from before) |
| EntityStore.HoldsUnique | src/features/movies/slices/discoverMoviesSlice.ts:160-161 | the de-duplication property determines the collection completely, so two collections that both satisfy it are equal |
| EntityStore.HoldsIds | src/features/movies/slices/discoverMoviesSlice.ts:160-161 | the ids of the collection after `removeAll` and `addMany` are exactly the payload's distinct ids in first-occurrence order |
| Favorites.ReadFavorites | src/features/movies/slices/discoverMoviesSlice.ts:67-84 | unparsable text is an error and nothing else is; a non-empty result is exactly what the stored number array lists; any other JSON gives the empty list |
| Favorites.ReadAfterWrite | src/features/movies/slices/discoverMoviesSlice.ts:121-129 | the value written to storage reads back as the same list at the next start-up |
| Favorites.Serialize | src/features/movies/slices/discoverMoviesSlice.ts:123 | `JSON.stringify` of the list is an array of numbers of the same length holding the ids in order |
| Favorites.SetFavorite | src/features/movies/slices/discoverMoviesSlice.ts:105-130 | starring appends an absent id and ignores a present one; unstarring removes the first occurrence and keeps the rest in order, or does nothing; storage is written exactly when the list changed; other ids keep their membership; a list without duplicates keeps none |
| Favorites.StarThenUnstarRestores | src/features/movies/slices/discoverMoviesSlice.ts:108-118 | starring an absent id and then unstarring it restores the list and the stored value |
| DiscoverMovies.CreatePage | src/features/movies/slices/discoverMoviesSlice.ts:55-65 | a new page holds no movies and no error and carries the given status and sort tag |
| DiscoverMovies.InitialState | src/features/movies/slices/discoverMoviesSlice.ts:86-94 | start-up state: page 1, nothing requested, no pages, page count 0, default sort, favourites as read from storage; start-up fails exactly when the stored text is unparsable |
| DiscoverMovies.ReducePending | src/features/movies/slices/discoverMoviesSlice.ts:143-155 | the slot becomes an empty loading page without error, tagged with the state's sort; the page becomes the requested one; every other slot, the page on screen, the count and the favourites are unchanged |
| DiscoverMovies.ReduceFulfilled | src/features/movies/slices/discoverMoviesSlice.ts:156-166 | the page holds the de-duplicated payload and succeeds; the count comes from the payload; the page goes on screen only if it is the requested one; the requested-page field, the sort tag, the error and other slots are unchanged |
| DiscoverMovies.ErrorText | src/features/movies/slices/discoverMoviesSlice.ts:170 | a non-empty message is kept; otherwise the text is "Request failed", so the recorded error is never empty |
| DiscoverMovies.ReduceRejected | src/features/movies/slices/discoverMoviesSlice.ts:167-172 | the page fails with the error text; its movies, both page indices, the count, the sort and other slots are unchanged |
| DiscoverMovies.Step | src/features/movies/slices/discoverMoviesSlice.ts:104-173 | a reducer fails only for a settlement of a page with no slot; slots are added only by `pending`; only the named slot changes; each field changes only through the reducer that owns it; the page on screen moves only by `setCurrentPage` or by the success of the requested page; `setSortValue` and `setSortOrder` set the sort to the given value, `setCurrentPage` shows the given page and clears the request, and `setFavorite` gives the list `setFavorite` computes |
| DiscoverMovies.Apply | src/features/movies/slices/discoverMoviesSlice.ts:156-172 | a settlement for a page with no slot (a reducer that throws) leaves the store as it was; slots are added only by `pending`, and only the slot a command names can change |
| DiscoverMovies.RequestMoviesPage | src/features/movies/slices/discoverMoviesSlice.ts:180-220 | at most one command is dispatched; a succeeded page with the current sort is shown without a fetch; a missing, idle, failed or stale page is fetched once; a loading or sort-changed page gets nothing; each case holds in both directions |
| DiscoverMovies.SelectCurrentPage | src/features/movies/slices/discoverMoviesSlice.ts:251-254 | the page on screen, or an empty idle page with the default sort when its slot is missing |
| DiscoverMovies.SelectRequestedPage | src/features/movies/slices/discoverMoviesSlice.ts:255-259 | the requested page, or an empty idle page with the default sort when nothing is requested or the slot is missing |
| DiscoverMovies.SelectCurrentPageStatus | src/features/movies/slices/discoverMoviesSlice.ts:260-263 | the status of the page on screen, or idle when its slot is missing |
| DiscoverMovies.SelectRequestedPageStatus | src/features/movies/slices/discoverMoviesSlice.ts:264-267 | the status of the requested page, or idle when nothing is requested or its slot is missing |
| DiscoverMovies.SelectRequestedPageError | src/features/movies/slices/discoverMoviesSlice.ts:268-272 | an error is reported only for a requested page that exists and has failed, and then it is that page's error |
| DiscoverMovies.SelectMoviesData | src/features/movies/slices/discoverMoviesSlice.ts:273-279 | the movies on screen are empty unless the current page exists and has succeeded, and then they are its collection |
| DiscoverMovies.SelectMovieIds | src/features/movies/slices/discoverMoviesSlice.ts:281-282 | the ids of the page on screen in insertion order when it has succeeded, and no ids otherwise |
| DiscoverMovies.SelectMovieById | src/features/movies/slices/discoverMoviesSlice.ts:281-282 | a record is found exactly when its id is filed among the movies on screen, and it is the record filed there |
| DiscoverMovies.SelectMovieFavoriteFlag | src/features/movies/slices/discoverMoviesSlice.ts:284-287 | `favorites.includes(id)`: the flag is set exactly when some position of the list holds the id |
| MovieProperties.StepKeepsInv | src/features/movies/slices/discoverMoviesSlice.ts:142-173 | every reducer keeps each collection well-formed, never produces a sort-changed page, and keeps a slot for the requested page |
| MovieProperties.RunKeepsInv | src/features/movies/slices/discoverMoviesSlice.ts:142-173 | the invariant holds after any sequence of commands |
| MovieProperties.ReachableInv | src/features/movies/slices/discoverMoviesSlice.ts:86-94 | every state reachable from start-up satisfies the invariant |
| MovieProperties.ReachableWaitsOnlyWhileLoading | src/features/movies/slices/discoverMoviesSlice.ts:203-219 | in a reachable state the thunk dispatches nothing exactly when the page is loading |
| MovieProperties.RunKeepsSlots | src/features/movies/slices/discoverMoviesSlice.ts:143-172 | cache slots are never removed |
| MovieProperties.PendingSlotPersists | src/features/movies/slices/discoverMoviesSlice.ts:143-155 | once `pending` for a page has run, the page has a slot for good |
| MovieProperties.SettlementAfterPendingApplies | src/features/movies/slices/discoverMoviesSlice.ts:156-172 | the settlement of a fetch whose `pending` ran earlier never throws, whatever ran in between |
| MovieProperties.SlotsIndependent | src/features/movies/slices/discoverMoviesSlice.ts:143-172 | a slot that no command names keeps its contents, so fetches of different pages do not disturb each other |
| MovieProperties.LatestRequestWins | src/features/movies/slices/discoverMoviesSlice.ts:163-165 | while `q` is the requested page, settlements in any order leave the screen alone except the success of `q`, which puts `q` on screen; the requested-page field stays on `q` |
| MovieProperties.SecondRequestSupersedes | src/features/movies/slices/discoverMoviesSlice.ts:143-155 | requesting `q` after `p`, two distinct pages that each need a fetch (no slot, idle, failed, or cached under another sort), leaves `q` requested, both pages loading and the screen where it was |
| MovieProperties.SupersededFetchStaysOffScreen | src/features/movies/slices/discoverMoviesSlice.ts:154-165 | after requests for `p` and then `q`, two distinct pages that each need a fetch, any interleaving of settlements shows `q` exactly when `q`'s fetch succeeded and otherwise leaves the screen where it was, so the success of `p` never moves it |
| MovieProperties.ShowCachedPage | src/features/movies/slices/discoverMoviesSlice.ts:186-201 | requesting a page cached under the current sort shows it without a fetch, clears the request, leaves the cache alone and shows that page's movies |
| MovieProperties.FetchOnMiss | src/features/movies/slices/discoverMoviesSlice.ts:186-217 | requesting a missing, idle, failed or stale page makes it an empty loading page with the state's sort and adds no other slot; it becomes the requested page, no error is shown, and the screen, the sort and the favourites stay |
| MovieProperties.WaitWhileLoading | src/features/movies/slices/discoverMoviesSlice.ts:203-219 | requesting a loading page changes nothing |
| MovieProperties.SortChangeRefetches | src/features/movies/slices/discoverMoviesSlice.ts:186-197 | after the sort value or order changes, a page cached under the old sort is fetched again under the new sort |
| MovieProperties.SetCurrentPageClearsRequest | src/features/movies/slices/discoverMoviesSlice.ts:131-134 | `setCurrentPage` shows the page, clears the request and its error, and leaves the cache alone |
| MovieProperties.FulfilledRequestShowsMovies | src/features/movies/slices/discoverMoviesSlice.ts:156-165 | the success of the requested page puts exactly its de-duplicated movies on screen and records the page count |
| MovieProperties.FulfilledRequestShowsIds | src/features/movies/slices/discoverMoviesSlice.ts:156-165 | after the requested page's success, the ids on screen are the payload's distinct ids in first-occurrence order |
| MovieProperties.RejectedRequestShowsError | src/features/movies/slices/discoverMoviesSlice.ts:167-172 | the failure of the requested page reports its error text; the page on screen stays, and so do its movies when it is another page |
| MovieProperties.RetryAfterFailure | src/features/movies/slices/discoverMoviesSlice.ts:203-216 | requesting a failed page fetches it again and its error is no longer reported |
| MovieProperties.MovieByIdMatchesIds | src/features/movies/slices/discoverMoviesSlice.ts:281-282 | in a reachable state, a movie is found by id exactly when that id is listed on screen, and the record found carries that id |
| MovieProperties.FavoriteFlagFollowsSetFavorite | src/features/movies/slices/discoverMoviesSlice.ts:284-287 | on a favourites list without duplicates, the flag of the named id becomes the given flag, and every other id's flag is unchanged |
| MovieProperties.RunKeepsFavoritesNoDup | src/features/movies/slices/discoverMoviesSlice.ts:105-119 | a favourites list without duplicates never gains one, whatever is dispatched |
| Scenarios.FirstPageLoads | src/features/movies/slices/discoverMoviesSlice.ts:143-165 | cold start: page 1 is fetched, succeeds with two movies (ids 1 and 2) and 10 pages, and is on screen with ids 1, 2 while still named as requested |
| Scenarios.DuplicatePayloadKeepsFirst | src/features/movies/slices/discoverMoviesSlice.ts:160-161 | a payload with ids 7, 8, 7 is stored as ids 7, 8, and 7 is filed with its first record |
| Scenarios.SlowFirstPageDoesNotJump | src/features/movies/slices/discoverMoviesSlice.ts:163-165 | pages 1 then 2 requested, page 2 settles first: page 1 is cached but page 2 stays on screen |
| Scenarios.StoredFavoritesAtStartUp | src/features/movies/slices/discoverMoviesSlice.ts:67-84 | a stored `[5,9]` reads as 5, 9; an array with a string reads as empty; unparsable text fails start-up |
| Scenarios.StoredDuplicateSurvivesUnstar | src/features/movies/slices/discoverMoviesSlice.ts:108-118 | a stored duplicate id remains starred after one unstar |
| Scenarios.ReclickOfLoadingPageIsIgnored | src/features/movies/slices/discoverMoviesSlice.ts:203-219 | asking again for a page that is still loading does nothing, and the other requested page wins the screen |

## Left out

- The data source (`src/features/movies/moviesApi.ts`, HTTP `fetch` and field mapping) is opaque. Its result arrives as a `Fulfilled` command with movies and a page count, or as a `Rejected` command with an optional message. The repository's `fetchMoviesRequest(page: number)` in that file returns a bare `Movie[]`. The slice reads `payload.movies` and `payload.pages`, and the model follows the slice.
- Browser storage, `JSON.parse` and `JSON.stringify` are outside the model. Reading starts from the parsed value; writing yields the JSON value to store.
- The `JSON.stringify` failure branch (lines 121-127) is left out. It resets the favourites to an empty list, but the list holds only numbers, so that branch cannot be reached.
- JSON numbers and movie ids are integers. Non-integer numbers and string ids are left out.
- `createAsyncThunk` scheduling is not modelled as such. A fetch is its `Pending` command plus a later settlement command, interleaved freely. The thunk's `force` option is never read and is left out. So are the endpoint constant and the `sort_by` string built from the sort.
- `createSelector` memoisation is left out; selectors are plain functions. The selectors that only read one field (current index, page count, sort value and order, requested index) are the fields themselves.
- Rendering, effects and styling (`MoviesList.tsx`, `MovieCard.tsx`, `CustomPagination.tsx`, `App.tsx`) are left out.
- The entity adapter is modelled only through `removeAll` and `addMany`. JavaScript's coercion of object keys to strings is left out.
- The exception a failing reducer throws is not modelled beyond its effect. The error becomes `Step`'s `Err`, and the store keeps its state.
