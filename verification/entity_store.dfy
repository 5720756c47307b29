/** The id-keyed, insertion-ordered collection that holds the movies of one
    page (Redux Toolkit's entity adapter with no sort comparer, keyed by
    `movie.id`). Only the two operations the page cache uses are modelled:
    emptying the collection and adding many records at once. */
module EntityStore {
  import opened Common

  type MovieId = int

  /** A movie as the data source delivers it; only `id` matters to the store. */
  datatype Movie = Movie(id: MovieId, image: string, title: string, overview: string, rating: string, year: string)

  /** `ids` lists the keys in insertion order; `entities` maps each key to its record. */
  datatype Store = Store(ids: seq<MovieId>, entities: map<MovieId, Movie>)

  /** The adapter's initial state, which `removeAll` also returns to. */
  const Empty: Store := Store([], map[])

  /** The shape every store keeps: each key listed once, exactly the keys of
      `entities`, and every record filed under its own id. */
  ghost predicate Valid(s: Store)
  {
    && NoDup(s.ids)
    && (forall k :: k in s.entities <==> k in s.ids)
    && (forall k :: k in s.entities ==> s.entities[k].id == k)
  }

  /** The ids of a list of movies, position by position. */
  function IdsOf(ms: seq<Movie>): (ids: seq<MovieId>)
    ensures |ids| == |ms|
    ensures forall i :: 0 <= i < |ms| ==> ids[i] == ms[i].id
  {
    seq(|ms|, i requires 0 <= i < |ms| => ms[i].id)
  }

  /** Position of the first movie in `ms` whose id is `k`. */
  function FirstOf(ms: seq<Movie>, k: MovieId): nat
    requires k in IdsOf(ms)
  {
    IndexOf(IdsOf(ms), k)
  }

  /** `addOne`: a record whose id is already present is ignored. */
  function AddOne(s: Store, m: Movie): (r: Store)
    requires Valid(s)
    ensures Valid(r)
    ensures m.id in r.entities
    ensures m.id in s.entities ==> r == s
    ensures m.id !in s.entities ==> r.ids == s.ids + [m.id] && r.entities == s.entities[m.id := m]
  {
    if m.id in s.entities then s else Store(s.ids + [m.id], s.entities[m.id := m])
  }

  /** `r` is `s` with the movies `ms` added: the old store is kept as a
      prefix, each new id is added once, in the order of its first occurrence
      in `ms`, with that first occurrence filed under it. */
  ghost predicate Extends(s: Store, ms: seq<Movie>, r: Store)
  {
    && |s.ids| <= |r.ids| && r.ids[..|s.ids|] == s.ids
    && (forall k :: k in s.entities ==> k in r.entities && r.entities[k] == s.entities[k])
    && (forall k :: k in r.entities <==> k in s.entities || k in IdsOf(ms))
    && (forall i :: |s.ids| <= i < |r.ids| ==> r.ids[i] !in s.entities && r.ids[i] in IdsOf(ms))
    && (forall k :: k in r.entities && k !in s.entities ==> r.entities[k] == ms[FirstOf(ms, k)])
    && (forall i, j :: |s.ids| <= i < j < |r.ids| ==> FirstOf(ms, r.ids[i]) < FirstOf(ms, r.ids[j]))
  }

  /** `addMany`: the records are added one after the other, left to right. */
  function AddMany(s: Store, ms: seq<Movie>): (r: Store)
    requires Valid(s)
    ensures Valid(r) && Extends(s, ms, r)
    decreases |ms|
  {
    if ms == [] then
      s
    else
      var t := AddMany(s, ms[..|ms| - 1]);
      AddManyStep(s, ms, t);
      AddOne(t, ms[|ms| - 1])
  }

  /** The inductive step of `AddMany`: one more record on the right. */
  lemma AddManyStep(s: Store, ms: seq<Movie>, t: Store)
    requires Valid(s) && Valid(t) && ms != [] && Extends(s, ms[..|ms| - 1], t)
    ensures Extends(s, ms, AddOne(t, ms[|ms| - 1]))
  {
    var pre, m := ms[..|ms| - 1], ms[|ms| - 1];
    assert pre + [m] == ms;
    assert IdsOf(ms) == IdsOf(pre) + [m.id];
    forall k | k in IdsOf(pre)
      ensures FirstOf(ms, k) == FirstOf(pre, k) < |pre|
    {
      IndexOfAppend(IdsOf(pre), m.id, k);
    }
    if m.id in t.entities {
      KnownRecord(s, pre, m, t);
    } else {
      IndexOfAppendNew(IdsOf(pre), m.id);
      NewRecord(s, pre, m, t);
    }
  }

  /** A record whose id the store already holds leaves it as it is. */
  lemma KnownRecord(s: Store, pre: seq<Movie>, m: Movie, t: Store)
    requires Valid(s) && Valid(t) && Extends(s, pre, t) && m.id in t.entities
    requires IdsOf(pre + [m]) == IdsOf(pre) + [m.id]
    requires forall k :: k in IdsOf(pre) ==> FirstOf(pre + [m], k) == FirstOf(pre, k) < |pre|
    ensures Extends(s, pre + [m], AddOne(t, m))
  {
    var ms := pre + [m];
    forall k | k in t.entities && k !in s.entities
      ensures t.entities[k] == ms[FirstOf(ms, k)]
    {
      assert ms[FirstOf(pre, k)] == pre[FirstOf(pre, k)];
    }
  }

  /** A record with a new id goes to the end, after every id added before it. */
  lemma NewRecord(s: Store, pre: seq<Movie>, m: Movie, t: Store)
    requires Valid(s) && Valid(t) && Extends(s, pre, t) && m.id !in t.entities
    requires IdsOf(pre + [m]) == IdsOf(pre) + [m.id]
    requires forall k :: k in IdsOf(pre) ==> FirstOf(pre + [m], k) == FirstOf(pre, k) < |pre|
    requires FirstOf(pre + [m], m.id) == |pre|
    ensures Extends(s, pre + [m], AddOne(t, m))
  {
    var r := AddOne(t, m);
    assert r.ids[..|s.ids|] == t.ids[..|s.ids|];
    NewRecordEntities(s, pre, m, t);
    NewRecordPositions(s, pre, m, t);
  }

  /** Once a new id is appended, every id added since `s` is filed with its
      first record in `pre + [m]`. */
  lemma NewRecordEntities(s: Store, pre: seq<Movie>, m: Movie, t: Store)
    requires Extends(s, pre, t) && m.id !in t.entities
    requires IdsOf(pre + [m]) == IdsOf(pre) + [m.id]
    requires forall k :: k in IdsOf(pre) ==> FirstOf(pre + [m], k) == FirstOf(pre, k) < |pre|
    requires FirstOf(pre + [m], m.id) == |pre|
    ensures forall k :: k in t.entities[m.id := m] && k !in s.entities ==>
      t.entities[m.id := m][k] == (pre + [m])[FirstOf(pre + [m], k)]
  {
    var ms := pre + [m];
    forall k | k in t.entities[m.id := m] && k !in s.entities
      ensures t.entities[m.id := m][k] == ms[FirstOf(ms, k)]
    {
      if k != m.id {
        assert ms[FirstOf(pre, k)] == pre[FirstOf(pre, k)];
      }
    }
  }

  /** The positions after the old prefix, once a new id is appended: each
      holds a new id of `pre + [m]`, in first-occurrence order. */
  lemma NewRecordPositions(s: Store, pre: seq<Movie>, m: Movie, t: Store)
    requires Extends(s, pre, t) && m.id !in t.entities
    requires IdsOf(pre + [m]) == IdsOf(pre) + [m.id]
    requires forall k :: k in IdsOf(pre) ==> FirstOf(pre + [m], k) == FirstOf(pre, k) < |pre|
    requires FirstOf(pre + [m], m.id) == |pre|
    ensures forall i :: |s.ids| <= i < |t.ids| + 1 ==>
      (t.ids + [m.id])[i] !in s.entities && (t.ids + [m.id])[i] in IdsOf(pre + [m])
    ensures forall i, j :: |s.ids| <= i < j < |t.ids| + 1 ==>
      FirstOf(pre + [m], (t.ids + [m.id])[i]) < FirstOf(pre + [m], (t.ids + [m.id])[j])
  {
    var ms, ids := pre + [m], t.ids + [m.id];
    forall i | |s.ids| <= i < |ids|
      ensures ids[i] !in s.entities && ids[i] in IdsOf(ms)
    {
      if i < |t.ids| {
        assert ids[i] == t.ids[i];
      }
    }
    forall i, j | |s.ids| <= i < j < |ids|
      ensures FirstOf(ms, ids[i]) < FirstOf(ms, ids[j])
    {
      assert ids[i] == t.ids[i];
      if j < |t.ids| {
        assert ids[j] == t.ids[j];
      }
    }
  }

  /** `removeAll` followed by `addMany`: the page's collection becomes
      exactly the de-duplicated list of movies. */
  function ReplaceAll(ms: seq<Movie>): (r: Store)
    ensures Holds(r, ms)
  {
    AddMany(Empty, ms)
  }

  /** `s` holds exactly the movies `ms`, de-duplicated by id: one entry per
      distinct id, the first record with that id, in first-occurrence order,
      and nothing else. */
  ghost predicate Holds(s: Store, ms: seq<Movie>)
  {
    && Valid(s)
    && (forall k :: k in s.entities <==> k in IdsOf(ms))
    && (forall k :: k in s.entities ==> s.entities[k] == ms[FirstOf(ms, k)])
    && (forall i, j :: 0 <= i < j < |s.ids| ==> FirstOf(ms, s.ids[i]) < FirstOf(ms, s.ids[j]))
  }

  /** `Holds` pins the store down completely: two stores that both hold
      exactly `ms` are the same store. So `ReplaceAll`'s contract describes
      its result exactly. */
  lemma HoldsUnique(a: Store, b: Store, ms: seq<Movie>)
    requires Holds(a, ms) && Holds(b, ms)
    ensures a == b
  {
    forall k
      ensures k in a.entities <==> k in b.entities
      ensures k in a.entities ==> a.entities[k] == b.entities[k]
    {
    }
    assert a.entities.Keys == b.entities.Keys;
    assert a.entities == b.entities;
    OrderedUnique(ms, a.ids, b.ids);
  }

  /** The ids of a store that holds `ms` are the distinct ids of `ms` in
      order of first occurrence: any such list is exactly its `ids`. */
  lemma HoldsIds(s: Store, ms: seq<Movie>, xs: seq<MovieId>)
    requires Holds(s, ms) && Ordered(ms, xs)
    requires forall k :: k in xs <==> k in IdsOf(ms)
    ensures s.ids == xs
  {
    OrderedUnique(ms, s.ids, xs);
  }

  /** The ids of `xs` are strictly ordered by first occurrence in `ms`. */
  ghost predicate Ordered(ms: seq<Movie>, xs: seq<MovieId>)
  {
    && (forall k :: k in xs ==> k in IdsOf(ms))
    && (forall i, j :: 0 <= i < j < |xs| ==> FirstOf(ms, xs[i]) < FirstOf(ms, xs[j]))
  }

  /** Two lists of ids from `ms` with the same elements, both strictly
      ordered by first occurrence in `ms`, are equal. */
  lemma {:induction false} OrderedUnique(ms: seq<Movie>, xs: seq<MovieId>, ys: seq<MovieId>)
    requires Ordered(ms, xs) && Ordered(ms, ys)
    requires forall k :: k in xs <==> k in ys
    ensures xs == ys
    decreases |xs|
  {
    if xs == [] {
      var y := if |ys| > 0 then ys[0] else 0;
      assert |ys| > 0 ==> y in ys;
    } else {
      assert xs[0] in xs && xs[0] in ys;
      assert ys[0] in ys && ys[0] in xs;
      HeadIsLeast(ms, xs, ys[0]);
      HeadIsLeast(ms, ys, xs[0]);
      FirstOfInjective(ms, xs[0], ys[0]);
      forall k
        ensures k in xs[1..] <==> k in ys[1..]
      {
        TailMembers(ms, xs, k);
        TailMembers(ms, ys, k);
      }
      OrderedUnique(ms, xs[1..], ys[1..]);
    }
  }

  /** The head of an ordered list comes first in `ms`. */
  lemma HeadIsLeast(ms: seq<Movie>, xs: seq<MovieId>, k: MovieId)
    requires Ordered(ms, xs) && k in xs
    ensures FirstOf(ms, xs[0]) <= FirstOf(ms, k)
  {
    var i :| 0 <= i < |xs| && xs[i] == k;
    if i > 0 {
      assert FirstOf(ms, xs[0]) < FirstOf(ms, xs[i]);
    }
  }

  /** Distinct ids first occur at distinct positions. */
  lemma FirstOfInjective(ms: seq<Movie>, x: MovieId, y: MovieId)
    requires x in IdsOf(ms) && y in IdsOf(ms) && FirstOf(ms, x) == FirstOf(ms, y)
    ensures x == y
  {
    assert IdsOf(ms)[FirstOf(ms, x)] == x;
  }

  /** The tail of an ordered list holds everything but the head. */
  lemma TailMembers(ms: seq<Movie>, xs: seq<MovieId>, k: MovieId)
    requires Ordered(ms, xs) && xs != []
    ensures Ordered(ms, xs[1..])
    ensures k in xs[1..] <==> k in xs && k != xs[0]
  {
    if k in xs[1..] {
      var i :| 1 <= i < |xs| && xs[i] == k;
      assert FirstOf(ms, xs[0]) < FirstOf(ms, xs[i]);
    }
    if k in xs && k != xs[0] {
      var i :| 0 <= i < |xs| && xs[i] == k;
      assert xs[1..][i - 1] == k;
    }
  }
}
