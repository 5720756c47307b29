/** The discover-movies slice: a cache of result pages keyed by page index,
    the index of the page on screen, the index of the page most recently
    asked for, the sort the user has chosen, and the favourites list.

    Every reducer of the slice is a case of `Command`, and `Step` applies one
    of them to an explicit `MovieState`. The fetch thunk is split into the
    synchronous `Pending` command and a later `Fulfilled` or `Rejected`
    command carrying the page index captured when it was dispatched, so
    overlapping requests are arbitrary interleavings of commands. The
    decision thunk `requestMoviesPage` is the pure function
    `RequestMoviesPage`, which returns the commands it dispatches. */
module DiscoverMovies {
  import opened Common
  import opened EntityStore
  import Favorites

  /** `MoviesLoadingStatus`. `SortChanged` is declared but never assigned. */
  datatype Status = Idle | Loading | Succeeded | Failed | SortChanged

  datatype SortOrder = Asc | Desc

  /** The sort key sent to the data source, such as "popularity". */
  type SortValue = string

  const DefaultPage: int := 1
  const DefaultSortBy: SortValue := "popularity"
  const DefaultSortOrder: SortOrder := Desc

  /** The error a rejected fetch records when its message is missing or empty. */
  const RequestFailed: string := "Request failed"

  /** One cached result page, tagged with the sort it was fetched under. */
  datatype Page = Page(data: Store, status: Status, sortBy: SortValue, sortOrder: SortOrder, error: Option<string>)

  datatype MovieState = MovieState(
    currentPageIndex: int,
    requestedPage: Option<int>,
    sortBy: SortValue,
    sortOrder: SortOrder,
    pagesCount: int,
    pages: map<int, Page>,
    favorites: seq<MovieId>)

  /** `createPage`: a page holding no movies and no error, with the given
      status and sort tag. */
  function CreatePage(status: Status, sortBy: SortValue, sortOrder: SortOrder): (page: Page)
    ensures Holds(page.data, []) && page.error == None
    ensures page.status == status && page.sortBy == sortBy && page.sortOrder == sortOrder
  {
    Page(Empty, status, sortBy, sortOrder, None)
  }

  /** `createPage()` with every default: what a missing page reads as. */
  const BlankPage: Page := CreatePage(Idle, DefaultSortBy, DefaultSortOrder)

  /** The cached page was fetched under the sort the state now asks for. */
  predicate SortMatches(s: MovieState, page: Page)
  {
    page.sortBy == s.sortBy && page.sortOrder == s.sortOrder
  }

  /** The store's start-up state. Reading the favourites is the only thing
      that can go wrong, and it aborts start-up. */
  function InitialState(stored: Favorites.Stored): (r: Result<MovieState, Favorites.ReadError>)
    ensures r.Err? <==> stored.Malformed?
    ensures r.Ok? ==> Favorites.ReadFavorites(stored) == Ok(r.value.favorites)
    ensures r.Ok? ==> r.value.pages == map[] && r.value.requestedPage == None && r.value.pagesCount == 0
    ensures r.Ok? ==> r.value.currentPageIndex == DefaultPage
    ensures r.Ok? ==> r.value.sortBy == DefaultSortBy && r.value.sortOrder == DefaultSortOrder
  {
    match Favorites.ReadFavorites(stored)
    case Err(e) => Err(e)
    case Ok(favs) => Ok(MovieState(DefaultPage, None, DefaultSortBy, DefaultSortOrder, 0, map[], favs))
  }

  /** The actions the slice's reducers handle. */
  datatype Command =
    | SetFavorite(id: MovieId, flag: bool)
    | SetCurrentPage(page: int)
    | SetSortValue(value: SortValue)
    | SetSortOrder(order: SortOrder)
    | Pending(page: int)
    | Fulfilled(page: int, movies: seq<Movie>, total: int)
    | Rejected(page: int, message: Option<string>)

  /** The command writes into the cache slot of page `q`. */
  predicate Touches(c: Command, q: int)
  {
    (c.Pending? || c.Fulfilled? || c.Rejected?) && c.page == q
  }

  /** `fetchMovies.pending`: the slot is replaced by an empty loading page
      tagged with the state's sort, and the page becomes the requested one. */
  function ReducePending(s: MovieState, p: int): (r: MovieState)
    ensures r.pages.Keys == s.pages.Keys + {p}
    ensures r.pages[p].status == Loading && r.pages[p].data == Empty && r.pages[p].error == None
    ensures SortMatches(s, r.pages[p])
    ensures forall q :: q in s.pages && q != p ==> r.pages[q] == s.pages[q]
    ensures r.requestedPage == Some(p)
    ensures r.currentPageIndex == s.currentPageIndex && r.pagesCount == s.pagesCount
    ensures r.sortBy == s.sortBy && r.sortOrder == s.sortOrder && r.favorites == s.favorites
  {
    s.(pages := s.pages[p := CreatePage(Loading, s.sortBy, s.sortOrder)], requestedPage := Some(p))
  }

  /** `fetchMovies.fulfilled`: the page's movies are replaced by the
      de-duplicated payload, the page succeeds, the page count is taken from
      the payload, and the page goes on screen only if it is still the
      requested one. The requested-page field is left as it is. */
  function ReduceFulfilled(s: MovieState, p: int, movies: seq<Movie>, total: int): (r: MovieState)
    requires p in s.pages
    ensures r.pages.Keys == s.pages.Keys
    ensures Holds(r.pages[p].data, movies)
    ensures r.pages[p].status == Succeeded
    ensures r.pages[p].sortBy == s.pages[p].sortBy && r.pages[p].sortOrder == s.pages[p].sortOrder
    ensures r.pages[p].error == s.pages[p].error
    ensures forall q :: q in s.pages && q != p ==> r.pages[q] == s.pages[q]
    ensures r.pagesCount == total
    ensures s.requestedPage == Some(p) ==> r.currentPageIndex == p
    ensures s.requestedPage != Some(p) ==> r.currentPageIndex == s.currentPageIndex
    ensures r.requestedPage == s.requestedPage
    ensures r.sortBy == s.sortBy && r.sortOrder == s.sortOrder && r.favorites == s.favorites
  {
    var page := s.pages[p].(data := ReplaceAll(movies), status := Succeeded);
    s.(pagesCount := total,
       pages := s.pages[p := page],
       currentPageIndex := if s.requestedPage == Some(p) then p else s.currentPageIndex)
  }

  /** The error text a rejection records: JavaScript's `message || "Request failed"`. */
  function ErrorText(message: Option<string>): (e: string)
    ensures e != ""
    ensures message.Some? && message.value != "" ==> e == message.value
    ensures message.None? || message.value == "" ==> e == RequestFailed
  {
    if message.Some? && message.value != "" then message.value else RequestFailed
  }

  /** `fetchMovies.rejected`: the page fails with the error text; its movies,
      its sort tag, the page indices and the page count are untouched. */
  function ReduceRejected(s: MovieState, p: int, message: Option<string>): (r: MovieState)
    requires p in s.pages
    ensures r.pages.Keys == s.pages.Keys
    ensures r.pages[p].status == Failed
    ensures r.pages[p].error == Some(ErrorText(message))
    ensures r.pages[p].data == s.pages[p].data
    ensures r.pages[p].sortBy == s.pages[p].sortBy && r.pages[p].sortOrder == s.pages[p].sortOrder
    ensures forall q :: q in s.pages && q != p ==> r.pages[q] == s.pages[q]
    ensures r.(pages := s.pages) == s
  {
    s.(pages := s.pages[p := s.pages[p].(error := Some(ErrorText(message)), status := Failed)])
  }

  /** Why a reducer threw: `fulfilled` and `rejected` read the page's slot
      without checking that it exists. */
  datatype StepError = MissingPage(page: int)

  /** One reducer run. Only a settlement for a page that has no slot fails;
      besides that, each field changes only through the commands that own it,
      and only the slot a command names changes. */
  function Step(s: MovieState, c: Command): (r: Result<MovieState, StepError>)
    ensures r.Err? <==> (c.Fulfilled? || c.Rejected?) && c.page !in s.pages
    ensures r.Ok? ==> r.value.pages.Keys == if c.Pending? then s.pages.Keys + {c.page} else s.pages.Keys
    ensures r.Ok? ==> forall q :: q in s.pages && !Touches(c, q) ==> r.value.pages[q] == s.pages[q]
    ensures r.Ok? && !c.SetFavorite? ==> r.value.favorites == s.favorites
    ensures r.Ok? && !c.SetSortValue? ==> r.value.sortBy == s.sortBy
    ensures r.Ok? && !c.SetSortOrder? ==> r.value.sortOrder == s.sortOrder
    ensures r.Ok? && !c.Pending? && !c.SetCurrentPage? ==> r.value.requestedPage == s.requestedPage
    ensures r.Ok? && !c.Fulfilled? ==> r.value.pagesCount == s.pagesCount
    ensures r.Ok? && !c.SetCurrentPage? && r.value.currentPageIndex != s.currentPageIndex ==>
      c.Fulfilled? && s.requestedPage == Some(c.page) && r.value.currentPageIndex == c.page
    ensures r.Ok? && c.SetSortValue? ==> r.value.sortBy == c.value
    ensures r.Ok? && c.SetSortOrder? ==> r.value.sortOrder == c.order
    ensures r.Ok? && c.SetCurrentPage? ==> r.value.currentPageIndex == c.page && r.value.requestedPage == None
    ensures r.Ok? && c.SetFavorite? ==> r.value.favorites == Favorites.SetFavorite(s.favorites, c.id, c.flag).favorites
  {
    match c
    case SetFavorite(id, flag) => Ok(s.(favorites := Favorites.SetFavorite(s.favorites, id, flag).favorites))
    case SetCurrentPage(p) => Ok(s.(currentPageIndex := p, requestedPage := None))
    case SetSortValue(v) => Ok(s.(sortBy := v))
    case SetSortOrder(o) => Ok(s.(sortOrder := o))
    case Pending(p) => Ok(ReducePending(s, p))
    case Fulfilled(p, movies, total) =>
      if p in s.pages then Ok(ReduceFulfilled(s, p, movies, total)) else Err(MissingPage(p))
    case Rejected(p, message) =>
      if p in s.pages then Ok(ReduceRejected(s, p, message)) else Err(MissingPage(p))
  }

  /** Dispatching a command: a reducer that throws leaves the store as it was. */
  function Apply(s: MovieState, c: Command): (r: MovieState)
    ensures (c.Fulfilled? || c.Rejected?) && c.page !in s.pages ==> r == s
    ensures r.pages.Keys == if c.Pending? then s.pages.Keys + {c.page} else s.pages.Keys
    ensures forall q :: q in s.pages && !Touches(c, q) ==> r.pages[q] == s.pages[q]
  {
    match Step(s, c)
    case Ok(t) => t
    case Err(_) => s
  }

  /** Dispatching a sequence of commands, in order. */
  function Run(s: MovieState, cmds: seq<Command>): MovieState
    decreases |cmds|
  {
    if cmds == [] then s else Run(Apply(s, cmds[0]), cmds[1..])
  }

  /** `requestMoviesPage(page)`, reading one snapshot of the state. Its two
      tests are written as in the slice: the first handles a succeeded page
      (refetch when the sort differs, otherwise show it), the second fetches a
      missing, idle or failed page. A fetch is its `Pending` command. At most
      one command comes out, and which one depends only on the cached slot. */
  function RequestMoviesPage(s: MovieState, p: int): (r: seq<Command>)
    ensures |r| <= 1
    ensures r == [SetCurrentPage(p)] <==>
      p in s.pages && s.pages[p].status == Succeeded && SortMatches(s, s.pages[p])
    ensures r == [Pending(p)] <==>
      || p !in s.pages
      || s.pages[p].status == Idle
      || s.pages[p].status == Failed
      || (s.pages[p].status == Succeeded && !SortMatches(s, s.pages[p]))
    ensures r == [] <==> p in s.pages && (s.pages[p].status == Loading || s.pages[p].status == SortChanged)
  {
    var next := if p in s.pages then Some(s.pages[p]) else None;
    var first :=
      if next.Some? && next.value.status == Succeeded then
        if s.sortBy != next.value.sortBy || s.sortOrder != next.value.sortOrder then [Pending(p)]
        else [SetCurrentPage(p)]
      else [];
    var second := if next.None? || next.value.status in {Idle, Failed} then [Pending(p)] else [];
    assert next.Some? ==> (next.value.status in {Idle, Failed} <==> next.value.status == Idle || next.value.status == Failed);
    assert first == [] || second == [];
    assert first + second == if first == [] then second else first;
    first + second
  }

  /** The state right after `requestMoviesPage(p)` has been dispatched:
      the thunk's commands run at once, a fetch's settlement comes later. */
  function RequestPage(s: MovieState, p: int): MovieState
  {
    Run(s, RequestMoviesPage(s, p))
  }

  /** `selectCurrentPage`: the page on screen, or a blank idle page with the
      default sort when its slot is missing. */
  function SelectCurrentPage(s: MovieState): (r: Page)
    ensures s.currentPageIndex in s.pages ==> r == s.pages[s.currentPageIndex]
    ensures s.currentPageIndex !in s.pages ==>
      r.status == Idle && r.data == Empty && r.error == None && r.sortBy == DefaultSortBy && r.sortOrder == DefaultSortOrder
  {
    if s.currentPageIndex in s.pages then s.pages[s.currentPageIndex] else BlankPage
  }

  /** `selectRequestedPage`: the requested page, or a blank idle page when
      nothing is requested or its slot is missing. */
  function SelectRequestedPage(s: MovieState): (r: Page)
    ensures s.requestedPage.Some? && s.requestedPage.value in s.pages ==> r == s.pages[s.requestedPage.value]
    ensures s.requestedPage.None? || s.requestedPage.value !in s.pages ==>
      r.status == Idle && r.data == Empty && r.error == None && r.sortBy == DefaultSortBy && r.sortOrder == DefaultSortOrder
  {
    if s.requestedPage.Some? && s.requestedPage.value in s.pages then s.pages[s.requestedPage.value] else BlankPage
  }

  /** `selectCurrentPageStatus`: a missing page on screen reads as idle. */
  function SelectCurrentPageStatus(s: MovieState): (r: Status)
    ensures s.currentPageIndex in s.pages ==> r == s.pages[s.currentPageIndex].status
    ensures s.currentPageIndex !in s.pages ==> r == Idle
  {
    SelectCurrentPage(s).status
  }

  /** `selectRequestedPageStatus`: no request, or a missing page, reads as idle. */
  function SelectRequestedPageStatus(s: MovieState): (r: Status)
    ensures s.requestedPage.Some? && s.requestedPage.value in s.pages ==> r == s.pages[s.requestedPage.value].status
    ensures s.requestedPage.None? || s.requestedPage.value !in s.pages ==> r == Idle
  {
    SelectRequestedPage(s).status
  }

  /** `selectRequestedPageError`: an error is reported only for a requested
      page that exists and has failed, and then it is that page's error. */
  function SelectRequestedPageError(s: MovieState): (r: Option<string>)
    ensures r.Some? ==>
      && s.requestedPage.Some? && s.requestedPage.value in s.pages
      && s.pages[s.requestedPage.value].status == Failed
      && r == s.pages[s.requestedPage.value].error
    ensures s.requestedPage.Some? && s.requestedPage.value in s.pages && s.pages[s.requestedPage.value].status == Failed ==>
      r == s.pages[s.requestedPage.value].error
  {
    var page := SelectRequestedPage(s);
    if page.status == Failed then page.error else None
  }

  /** `selectMoviesData`: the movies on screen, which are empty unless the
      current page has succeeded. */
  function SelectMoviesData(s: MovieState): (r: Store)
    ensures s.currentPageIndex in s.pages && s.pages[s.currentPageIndex].status == Succeeded ==>
      r == s.pages[s.currentPageIndex].data
    ensures s.currentPageIndex !in s.pages || s.pages[s.currentPageIndex].status != Succeeded ==> r == Empty
  {
    var page := SelectCurrentPage(s);
    if page.status == Succeeded then page.data else Empty
  }

  /** `selectMovieIds`: the ids on screen, in insertion order; none unless
      the current page has succeeded. */
  function SelectMovieIds(s: MovieState): (r: seq<MovieId>)
    ensures s.currentPageIndex in s.pages && s.pages[s.currentPageIndex].status == Succeeded ==>
      r == s.pages[s.currentPageIndex].data.ids
    ensures s.currentPageIndex !in s.pages || s.pages[s.currentPageIndex].status != Succeeded ==> r == []
  {
    SelectMoviesData(s).ids
  }

  /** `selectMovieById`: the record filed under `id` among the movies on
      screen, if any. */
  function SelectMovieById(s: MovieState, id: MovieId): (r: Option<Movie>)
    ensures r.Some? <==> id in SelectMoviesData(s).entities
    ensures r.Some? ==> r.value == SelectMoviesData(s).entities[id]
  {
    var data := SelectMoviesData(s);
    if id in data.entities then Some(data.entities[id]) else None
  }

  /** `selectMovieFavoriteFlag`. */
  function SelectMovieFavoriteFlag(s: MovieState, id: MovieId): (r: bool)
    ensures r <==> exists i :: 0 <= i < |s.favorites| && s.favorites[i] == id
  {
    id in s.favorites
  }
}
