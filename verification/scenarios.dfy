/** Concrete runs of the slice, each a small end-to-end story. */
module Scenarios {
  import opened Common
  import opened JsonValue
  import opened EntityStore
  import Favorites
  import opened DiscoverMovies
  import opened MovieProperties

  /** A movie with the given id and blank text fields. */
  function M(id: MovieId, title: string): Movie
  {
    Movie(id, "", title, "", "", "")
  }

  /** Cold start with nothing stored: page 1 is requested, loads, and its
      fetch brings two movies, ids 1 and 2, and a total of 10 pages; page 1
      is then on screen with those movies. The requested-page field still
      names page 1. */
  lemma FirstPageLoads(ms: seq<Movie>)
    requires |ms| == 2 && ms[0].id == 1 && ms[1].id == 2
    ensures
      var s0 := InitialState(Favorites.Missing).value;
      var s1 := RequestPage(s0, 1);
      var s2 := Apply(s1, Fulfilled(1, ms, 10));
      && RequestMoviesPage(s0, 1) == [Pending(1)]
      && SelectRequestedPageStatus(s1) == Loading
      && SelectCurrentPageStatus(s2) == Succeeded
      && s2.pagesCount == 10 && s2.currentPageIndex == 1
      && SelectMovieIds(s2) == [1, 2]
      && s2.requestedPage == Some(1)
  {
    var s0 := InitialState(Favorites.Missing).value;
    FetchOnMiss(s0, 1);
    var s1 := RequestPage(s0, 1);
    FulfilledRequestShowsMovies(s1, 1, ms, 10);
    TwoDistinctIds(ms);
    FulfilledRequestShowsIds(s1, 1, ms, 10, [1, 2]);
  }

  /** Two movies with ids 1 and 2 de-duplicate to the ids 1, 2. */
  lemma TwoDistinctIds(ms: seq<Movie>)
    requires |ms| == 2 && ms[0].id == 1 && ms[1].id == 2
    ensures Ordered(ms, [1, 2]) && forall k :: k in [1, 2] <==> k in IdsOf(ms)
  {
    assert IdsOf(ms) == [1, 2];
    assert FirstOf(ms, 1) == 0 && FirstOf(ms, 2) == 1;
  }

  /** A payload that lists a movie twice, as ids 7, 8, 7, keeps its first
      record, once. */
  lemma DuplicatePayloadKeepsFirst(ms: seq<Movie>)
    requires |ms| == 3 && ms[0].id == 7 && ms[1].id == 8 && ms[2].id == 7
    ensures var r := ReplaceAll(ms); r.ids == [7, 8] && r.entities[7] == ms[0]
  {
    RepeatedIds(ms);
    HoldsIds(ReplaceAll(ms), ms, [7, 8]);
  }

  /** Ids 7, 8, 7 de-duplicate to 7, 8, with 7 first seen at the start. */
  lemma RepeatedIds(ms: seq<Movie>)
    requires |ms| == 3 && ms[0].id == 7 && ms[1].id == 8 && ms[2].id == 7
    ensures Ordered(ms, [7, 8]) && (forall k :: k in [7, 8] <==> k in IdsOf(ms)) && FirstOf(ms, 7) == 0
  {
    assert IdsOf(ms) == [7, 8, 7];
    assert FirstOf(ms, 7) == 0 && FirstOf(ms, 8) == 1;
  }

  /** Requests for pages 1 and then 2; page 2's fetch succeeds first and
      page 1's afterwards. Page 1's slot is filled, but page 2 stays on
      screen. */
  lemma SlowFirstPageDoesNotJump()
    ensures
      var s0 := InitialState(Favorites.Missing).value;
      var s2 := RequestPage(RequestPage(s0, 1), 2);
      var s3 := Apply(Apply(s2, Fulfilled(2, [M(3, "c")], 10)), Fulfilled(1, [M(1, "a")], 10));
      && s3.currentPageIndex == 2
      && 1 in s3.pages && s3.pages[1].status == Succeeded
      && SelectMovieIds(s3) == [3]
  {
    var s0 := InitialState(Favorites.Missing).value;
    SecondRequestSupersedes(s0, 1, 2);
  }

  /** Stored favourites "[5,9]" are read back as the list 5, 9; text that is
      not JSON makes start-up fail. */
  lemma StoredFavoritesAtStartUp()
    ensures Favorites.ReadFavorites(Favorites.Parsed(JArray([JNumber(5), JNumber(9)]))) == Ok([5, 9])
    ensures Favorites.ReadFavorites(Favorites.Parsed(JArray([JNumber(5), JString("9")]))) == Ok([])
    ensures InitialState(Favorites.Malformed).Err?
  {
    Favorites.ReadAfterWrite([5, 9]);
    assert Favorites.Serialize([5, 9]) == JArray([JNumber(5), JNumber(9)]);
    assert !Favorites.IsNumberArray(JArray([JNumber(5), JString("9")])) by {
      assert !JArray([JNumber(5), JString("9")]).items[1].JNumber?;
    }
  }

  /** Storage may hold an id twice; unstarring it then removes only one
      copy, so the movie still shows as a favourite. */
  lemma StoredDuplicateSurvivesUnstar()
    ensures
      var s := InitialState(Favorites.Parsed(JArray([JNumber(5), JNumber(5)]))).value;
      && s.favorites == [5, 5]
      && SelectMovieFavoriteFlag(Apply(s, SetFavorite(5, false)), 5)
  {
    Favorites.ReadAfterWrite([5, 5]);
    assert Favorites.Serialize([5, 5]) == JArray([JNumber(5), JNumber(5)]);
  }

  /** Pages 1 and 2 are requested; while both load, page 1 is asked for
      again. That request dispatches nothing, so page 2 stays the requested
      page: when both fetches succeed, page 2 is on screen, not page 1. */
  lemma ReclickOfLoadingPageIsIgnored()
    ensures
      var s0 := InitialState(Favorites.Missing).value;
      var s2 := RequestPage(RequestPage(s0, 1), 2);
      var s3 := RequestPage(s2, 1);
      var s4 := Apply(Apply(s3, Fulfilled(1, [M(1, "a")], 10)), Fulfilled(2, [M(3, "c")], 10));
      && RequestMoviesPage(s2, 1) == []
      && s3 == s2
      && s4.currentPageIndex == 2
  {
    var s0 := InitialState(Favorites.Missing).value;
    SecondRequestSupersedes(s0, 1, 2);
    WaitWhileLoading(RequestPage(RequestPage(s0, 1), 2), 1);
  }
}
