/** The favourites list: the ids the user has starred, kept in the order they
    were starred, read once from browser storage at start-up and written back
    after every change. Storage access and JSON text are outside the model:
    reading takes the outcome of `JSON.parse`, writing returns the JSON value
    that `JSON.stringify` would print. */
module Favorites {
  import opened Common
  import opened JsonValue
  import opened EntityStore

  /** What the stored favourites entry turned out to be. */
  datatype Stored =
    | Missing              // `getItem` gave null; `String(null)` is "null", which parses to JSON null
    | Malformed            // the stored text is not JSON
    | Parsed(value: Json)  // the stored text parsed to this value

  /** The exception `readFavorites` throws ("Error with reading favorites"). */
  datatype ReadError = UnreadableFavorites

  /** A JSON array all of whose elements are numbers. */
  predicate IsNumberArray(v: Json)
  {
    v.JArray? && forall i :: 0 <= i < |v.items| ==> v.items[i].JNumber?
  }

  /** The JSON value written to storage for a favourites list. */
  function Serialize(favs: seq<MovieId>): (v: Json)
    ensures IsNumberArray(v) && |v.items| == |favs|
    ensures forall i :: 0 <= i < |favs| ==> v.items[i].n == favs[i]
  {
    JArray(seq(|favs|, i requires 0 <= i < |favs| => JNumber(favs[i])))
  }

  /** `readFavorites`: unparsable text is an error; a parsed array of numbers
      is taken as is (duplicates included); any other JSON value, and a
      missing entry, give the empty list. */
  function ReadFavorites(stored: Stored): (r: Result<seq<MovieId>, ReadError>)
    ensures r.Err? <==> stored.Malformed?
    ensures r.Ok? && r.value != [] ==> stored == Parsed(Serialize(r.value))
    ensures stored.Parsed? && !IsNumberArray(stored.value) ==> r == Ok([])
  {
    match stored
    case Missing => Ok([])
    case Malformed => Err(UnreadableFavorites)
    case Parsed(v) =>
      if IsNumberArray(v) then
        var favs := seq(|v.items|, i requires 0 <= i < |v.items| => v.items[i].n);
        assert v == Serialize(favs);
        Ok(favs)
      else Ok([])
  }

  /** Whatever is written can be read back: the list survives a restart. */
  lemma ReadAfterWrite(favs: seq<MovieId>)
    ensures ReadFavorites(Parsed(Serialize(favs))) == Ok(favs)
  {
    var v := Serialize(favs);
    var read := seq(|v.items|, i requires 0 <= i < |v.items| => v.items[i].n);
    assert read == favs;
  }

  /** The outcome of `setFavorite`: the new list and, when the list changed,
      the value written to storage. */
  datatype Update = Update(favorites: seq<MovieId>, write: Option<Json>)

  /** `setFavorite(id, flag)`. Starring appends an absent id at the end;
      unstarring removes the first occurrence of a present id and keeps the
      rest in order; any other call changes nothing and writes nothing. */
  function SetFavorite(favs: seq<MovieId>, id: MovieId, flag: bool): (r: Update)
    ensures r.write.Some? <==> flag != (id in favs)
    ensures r.write.Some? ==> r.write.value == Serialize(r.favorites)
    ensures r.write.None? ==> r.favorites == favs
    ensures flag && id !in favs ==> r.favorites == favs + [id]
    ensures !flag && id in favs ==>
      var k := IndexOf(favs, id);
      |r.favorites| == |favs| - 1 && r.favorites == favs[..k] + favs[k + 1..]
    ensures flag ==> id in r.favorites
    ensures forall x :: x != id ==> (x in r.favorites <==> x in favs)
    ensures NoDup(favs) ==> NoDup(r.favorites) && (id in r.favorites <==> flag)
  {
    if flag then
      if id in favs then Update(favs, None)
      else
        var f := favs + [id];
        Update(f, Some(Serialize(f)))
    else
      if id !in favs then Update(favs, None)
      else
        var k := IndexOf(favs, id);
        var f := favs[..k] + favs[k + 1..];
        RemovalKeepsOthers(favs, k);
        Update(f, Some(Serialize(f)))
  }

  /** Removing one position keeps every other element and keeps a list
      without duplicates free of them, and of the removed element. */
  lemma RemovalKeepsOthers(favs: seq<MovieId>, k: nat)
    requires k < |favs|
    ensures forall x :: x != favs[k] ==> (x in favs[..k] + favs[k + 1..] <==> x in favs)
    ensures NoDup(favs) ==> NoDup(favs[..k] + favs[k + 1..]) && favs[k] !in favs[..k] + favs[k + 1..]
  {
    var f := favs[..k] + favs[k + 1..];
    assert forall i :: 0 <= i < |f| ==> f[i] == favs[if i < k then i else i + 1];
    forall x | x != favs[k] && x in favs
      ensures x in f
    {
      var i :| 0 <= i < |favs| && favs[i] == x;
      assert f[if i < k then i else i - 1] == x;
    }
  }

  /** Starring an id that was not starred and unstarring it again restores
      both the list and what storage holds. */
  lemma StarThenUnstarRestores(favs: seq<MovieId>, id: MovieId)
    requires id !in favs
    ensures SetFavorite(SetFavorite(favs, id, true).favorites, id, false) == Update(favs, Some(Serialize(favs)))
  {
    var f := favs + [id];
    IndexOfAppendNew(favs, id);
    assert f[..|favs|] + f[|favs| + 1..] == favs;
  }
}
