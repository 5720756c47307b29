/** Properties of the discover-movies slice over whole runs: what every
    reachable state satisfies, what a request leads to, and how overlapping
    fetches settle when their commands interleave in any order. */
module MovieProperties {
  import opened Common
  import opened EntityStore
  import Favorites
  import opened DiscoverMovies

  /** What every reachable state satisfies: each cached page holds a
      well-formed collection, no page is ever `SortChanged`, and the
      requested page always has a slot. */
  ghost predicate Inv(s: MovieState)
  {
    && (forall q :: q in s.pages ==> Valid(s.pages[q].data))
    && (forall q :: q in s.pages ==> s.pages[q].status != SortChanged)
    && (s.requestedPage.Some? ==> s.requestedPage.value in s.pages)
  }

  /** The state is obtained from start-up by dispatching `t`. */
  ghost predicate Reachable(s: MovieState, stored: Favorites.Stored, t: seq<Command>)
  {
    InitialState(stored).Ok? && s == Run(InitialState(stored).value, t)
  }

  lemma StepKeepsInv(s: MovieState, c: Command)
    requires Inv(s)
    ensures Inv(Apply(s, c))
  {
  }

  lemma {:induction false} RunKeepsInv(s: MovieState, t: seq<Command>)
    requires Inv(s)
    ensures Inv(Run(s, t))
    decreases |t|
  {
    if t != [] {
      StepKeepsInv(s, t[0]);
      RunKeepsInv(Apply(s, t[0]), t[1..]);
    }
  }

  /** Every state reachable from start-up satisfies the invariant. */
  lemma ReachableInv(s: MovieState, stored: Favorites.Stored, t: seq<Command>)
    requires Reachable(s, stored, t)
    ensures Inv(s)
  {
    RunKeepsInv(InitialState(stored).value, t);
  }

  /** In a reachable state the thunk dispatches nothing exactly when the
      page is loading: the `SortChanged` case never arises. */
  lemma ReachableWaitsOnlyWhileLoading(s: MovieState, stored: Favorites.Stored, t: seq<Command>, p: int)
    requires Reachable(s, stored, t)
    ensures RequestMoviesPage(s, p) == [] <==> p in s.pages && s.pages[p].status == Loading
  {
    ReachableInv(s, stored, t);
  }

  /** Dispatching one command. */
  lemma RunOne(s: MovieState, c: Command)
    ensures Run(s, [c]) == Apply(s, c)
  {
    assert [c][1..] == [];
  }

  /** Cache slots are never removed. */
  lemma {:induction false} RunKeepsSlots(s: MovieState, t: seq<Command>)
    ensures s.pages.Keys <= Run(s, t).pages.Keys
    decreases |t|
  {
    if t != [] {
      RunKeepsSlots(Apply(s, t[0]), t[1..]);
    }
  }

  /** Once `Pending(p)` has been dispatched, page `p` has a slot for good. */
  lemma {:induction false} PendingSlotPersists(s: MovieState, t: seq<Command>, i: nat)
    requires i < |t| && t[i].Pending?
    ensures t[i].page in Run(s, t).pages
    decreases |t|
  {
    if i == 0 {
      RunKeepsSlots(Apply(s, t[0]), t[1..]);
    } else {
      PendingSlotPersists(Apply(s, t[0]), t[1..], i - 1);
    }
  }

  /** The settlement of a fetch whose `Pending` was dispatched earlier never
      throws, whatever was dispatched in between. */
  lemma SettlementAfterPendingApplies(s: MovieState, t: seq<Command>, i: nat, c: Command)
    requires i < |t| && t[i].Pending?
    requires (c.Fulfilled? || c.Rejected?) && c.page == t[i].page
    ensures Step(Run(s, t), c).Ok?
  {
    PendingSlotPersists(s, t, i);
  }

  /** A slot no command names keeps its contents: fetches for different
      pages write into independent slots. */
  lemma {:induction false} SlotsIndependent(s: MovieState, t: seq<Command>, q: int)
    requires forall i :: 0 <= i < |t| ==> !Touches(t[i], q)
    ensures q in Run(s, t).pages <==> q in s.pages
    ensures q in s.pages ==> Run(s, t).pages[q] == s.pages[q]
    decreases |t|
  {
    if t != [] {
      SlotsIndependent(Apply(s, t[0]), t[1..], q);
    }
  }

  /** Some command of `t` is a successful fetch of page `q`. */
  ghost predicate Fulfills(t: seq<Command>, q: int)
  {
    exists i :: 0 <= i < |t| && t[i].Fulfilled? && t[i].page == q
  }

  /** Latest request wins. Once page `q` is the requested page, and until the
      next `Pending` or `SetCurrentPage`, settlements of any other fetches,
      in any order, leave the page on screen alone; it moves to `q` exactly
      when `q`'s own fetch succeeds, and the requested-page field stays on `q`. */
  lemma {:induction false} LatestRequestWins(s: MovieState, t: seq<Command>, q: int)
    requires s.requestedPage == Some(q) && q in s.pages
    requires forall i :: 0 <= i < |t| ==> !t[i].Pending? && !t[i].SetCurrentPage?
    ensures Run(s, t).requestedPage == Some(q)
    ensures Run(s, t).currentPageIndex == if Fulfills(t, q) then q else s.currentPageIndex
    decreases |t|
  {
    if t != [] {
      var c, rest := t[0], t[1..];
      var s1 := Apply(s, c);
      assert forall i :: 0 <= i < |rest| ==> rest[i] == t[i + 1];
      LatestRequestWins(s1, rest, q);
      if c.Fulfilled? && c.page == q {
        assert Fulfills(t, q);
      } else {
        assert s1.currentPageIndex == s.currentPageIndex;
        if Fulfills(t, q) {
          var i :| 0 <= i < |t| && t[i].Fulfilled? && t[i].page == q;
          assert rest[i - 1] == t[i];
        }
        if Fulfills(rest, q) {
          var i :| 0 <= i < |rest| && rest[i].Fulfilled? && rest[i].page == q;
          assert t[i + 1] == rest[i];
        }
      }
    }
  }

  /** Requesting `q` after `p`, two pages that each need a fetch, leaves `q`
      as the requested page with both fetches in flight. */
  lemma SecondRequestSupersedes(s: MovieState, p: int, q: int)
    requires p != q && NeedsFetch(s, p) && NeedsFetch(s, q)
    ensures
      var s2 := RequestPage(RequestPage(s, p), q);
      && s2.requestedPage == Some(q) && s2.currentPageIndex == s.currentPageIndex
      && p in s2.pages && q in s2.pages
      && s2.pages[p].status == Loading && s2.pages[q].status == Loading
  {
    FetchOnMiss(s, p);
    assert NeedsFetch(RequestPage(s, p), q);
    FetchOnMiss(RequestPage(s, p), q);
  }

  /** Supersession: request `p`, then `q`; however the settlements of the two
      fetches (and of any others) interleave, the page on screen becomes `q`
      exactly when `q`'s fetch succeeds and otherwise stays where it was, so
      the success of `p` never moves the screen. */
  lemma SupersededFetchStaysOffScreen(s: MovieState, p: int, q: int, t: seq<Command>)
    requires p != q && NeedsFetch(s, p) && NeedsFetch(s, q)
    requires forall i :: 0 <= i < |t| ==> !t[i].Pending? && !t[i].SetCurrentPage?
    ensures
      var s3 := Run(RequestPage(RequestPage(s, p), q), t);
      s3.currentPageIndex == if Fulfills(t, q) then q else s.currentPageIndex
  {
    SecondRequestSupersedes(s, p, q);
    LatestRequestWins(RequestPage(RequestPage(s, p), q), t, q);
  }

  /** A page cached under the current sort is shown at once: no fetch, the
      requested-page field is cleared, the cache is untouched, and its movies
      are what is on screen. */
  lemma ShowCachedPage(s: MovieState, p: int)
    requires p in s.pages && s.pages[p].status == Succeeded && SortMatches(s, s.pages[p])
    ensures
      var s' := RequestPage(s, p);
      && s'.currentPageIndex == p && s'.requestedPage == None && s'.pages == s.pages
      && SelectMovieIds(s') == s.pages[p].data.ids
      && SelectRequestedPageStatus(s') == Idle
  {
    assert RequestMoviesPage(s, p) == [SetCurrentPage(p)];
    RunOne(s, SetCurrentPage(p));
  }

  /** The page has no slot, or its slot is idle, failed, or succeeded under
      another sort than the state's: the cases in which it is fetched. */
  ghost predicate NeedsFetch(s: MovieState, p: int)
  {
    || p !in s.pages
    || s.pages[p].status == Idle
    || s.pages[p].status == Failed
    || (s.pages[p].status == Succeeded && !SortMatches(s, s.pages[p]))
  }

  /** A missing, idle, failed or stale page is fetched: its slot becomes an
      empty loading page tagged with the state's sort, it becomes the
      requested page, no error is reported, and the page on screen stays. */
  lemma FetchOnMiss(s: MovieState, p: int)
    requires NeedsFetch(s, p)
    ensures
      var s' := RequestPage(s, p);
      && p in s'.pages && s'.pages[p] == CreatePage(Loading, s.sortBy, s.sortOrder)
      && s'.pages.Keys == s.pages.Keys + {p}
      && (forall r :: r in s.pages && r != p ==> s'.pages[r] == s.pages[r])
      && s'.requestedPage == Some(p)
      && s'.currentPageIndex == s.currentPageIndex
      && s'.sortBy == s.sortBy && s'.sortOrder == s.sortOrder && s'.favorites == s.favorites
      && SelectRequestedPageStatus(s') == Loading
      && SelectRequestedPageError(s') == None
  {
    assert RequestMoviesPage(s, p) == [Pending(p)];
    RunOne(s, Pending(p));
  }

  /** A page whose fetch is in flight is not fetched again. */
  lemma WaitWhileLoading(s: MovieState, p: int)
    requires p in s.pages && s.pages[p].status == Loading
    ensures RequestPage(s, p) == s
  {
    assert RequestMoviesPage(s, p) == [];
  }

  /** Changing the sort makes a page cached under the old sort stale:
      requesting it again fetches it under the new sort. */
  lemma SortChangeRefetches(s: MovieState, p: int, c: Command)
    requires p in s.pages && s.pages[p].status == Succeeded && SortMatches(s, s.pages[p])
    requires (c.SetSortValue? && c.value != s.sortBy) || (c.SetSortOrder? && c.order != s.sortOrder)
    ensures
      var s1 := Apply(s, c);
      var s2 := RequestPage(s1, p);
      && RequestMoviesPage(s1, p) == [Pending(p)]
      && p in s2.pages && s2.pages[p].status == Loading
      && SortMatches(s1, s2.pages[p]) && !SortMatches(s1, s.pages[p])
  {
    FetchOnMiss(Apply(s, c), p);
  }

  /** `setCurrentPage` puts the page on screen and clears the request, so
      no requested page, and no requested-page error, is reported. */
  lemma SetCurrentPageClearsRequest(s: MovieState, p: int)
    ensures
      var s' := Apply(s, SetCurrentPage(p));
      && s'.currentPageIndex == p && s'.pages == s.pages
      && SelectRequestedPage(s') == BlankPage
      && SelectRequestedPageError(s') == None
      && (p in s.pages ==> SelectCurrentPage(s') == s.pages[p])
  {
  }

  /** A fetch that is the latest request and succeeds puts exactly its
      de-duplicated movies on screen and records the page count. */
  lemma FulfilledRequestShowsMovies(s: MovieState, p: int, movies: seq<Movie>, total: int)
    requires s.requestedPage == Some(p) && p in s.pages
    ensures
      var s' := Apply(s, Fulfilled(p, movies, total));
      && s'.currentPageIndex == p
      && Holds(SelectMoviesData(s'), movies)
      && s'.pagesCount == total
      && SelectCurrentPageStatus(s') == Succeeded
  {
  }

  /** The ids on screen after the requested page's success are the distinct
      ids of the payload in order of first occurrence. */
  lemma FulfilledRequestShowsIds(s: MovieState, p: int, movies: seq<Movie>, total: int, xs: seq<MovieId>)
    requires s.requestedPage == Some(p) && p in s.pages
    requires Ordered(movies, xs) && forall k :: k in xs <==> k in IdsOf(movies)
    ensures SelectMovieIds(Apply(s, Fulfilled(p, movies, total))) == xs
  {
    FulfilledRequestShowsMovies(s, p, movies, total);
    HoldsIds(SelectMoviesData(Apply(s, Fulfilled(p, movies, total))), movies, xs);
  }

  /** A fetch that is the latest request and fails reports its error for
      the requested page and leaves the page on screen alone. */
  lemma RejectedRequestShowsError(s: MovieState, p: int, message: Option<string>)
    requires s.requestedPage == Some(p) && p in s.pages
    ensures
      var s' := Apply(s, Rejected(p, message));
      && SelectRequestedPageError(s') == Some(ErrorText(message))
      && SelectRequestedPageStatus(s') == Failed
      && s'.currentPageIndex == s.currentPageIndex
      && (s.currentPageIndex != p ==> SelectMoviesData(s') == SelectMoviesData(s))
  {
  }

  /** A failed page is fetched again on the next request, and its error is
      no longer reported. */
  lemma RetryAfterFailure(s: MovieState, p: int)
    requires p in s.pages && s.pages[p].status == Failed
    ensures
      var s' := RequestPage(s, p);
      && p in s'.pages && s'.pages[p].status == Loading && s'.pages[p].error == None
      && SelectRequestedPageError(s') == None
  {
    FetchOnMiss(s, p);
  }

  /** In a reachable state, a movie is found by id exactly when its id is
      listed on screen, and the record found carries that id. */
  lemma MovieByIdMatchesIds(s: MovieState, id: MovieId)
    requires Inv(s)
    ensures SelectMovieById(s, id).Some? <==> id in SelectMovieIds(s)
    ensures SelectMovieById(s, id).Some? ==> SelectMovieById(s, id).value.id == id
  {
    assert Valid(SelectMoviesData(s));
  }

  /** The favourite flag follows `setFavorite` for the id it names and for
      no other id. */
  lemma FavoriteFlagFollowsSetFavorite(s: MovieState, id: MovieId, flag: bool, other: MovieId)
    requires NoDup(s.favorites) && other != id
    ensures SelectMovieFavoriteFlag(Apply(s, SetFavorite(id, flag)), id) == flag
    ensures SelectMovieFavoriteFlag(Apply(s, SetFavorite(id, flag)), other) == SelectMovieFavoriteFlag(s, other)
  {
  }

  /** A favourites list without duplicates keeps none, whatever is dispatched. */
  lemma {:induction false} RunKeepsFavoritesNoDup(s: MovieState, t: seq<Command>)
    requires NoDup(s.favorites)
    ensures NoDup(Run(s, t).favorites)
    decreases |t|
  {
    if t != [] {
      RunKeepsFavoritesNoDup(Apply(s, t[0]), t[1..]);
    }
  }
}
