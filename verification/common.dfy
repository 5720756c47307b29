/** Small shared vocabulary: optional values, results with an error side,
    and the sequence facts the rest of the model is stated in. */
module Common {

  /** JavaScript's `T | null`. */
  datatype Option<+T> = None | Some(value: T)

  /** A value, or the error a thrown exception would have carried. */
  datatype Result<+T, +E> = Ok(value: T) | Err(error: E)

  /** No element occurs twice. */
  predicate NoDup<T(==)>(xs: seq<T>)
  {
    forall i, j :: 0 <= i < j < |xs| ==> xs[i] != xs[j]
  }

  /** Position of the first occurrence of `x` (JavaScript's `findIndex` with `===`). */
  function IndexOf<T(==)>(xs: seq<T>, x: T): (i: nat)
    requires x in xs
    ensures i < |xs| && xs[i] == x
    ensures forall j :: 0 <= j < i ==> xs[j] != x
  {
    if xs[0] == x then 0 else 1 + IndexOf(xs[1..], x)
  }

  /** Appending an element does not move the first occurrence of an earlier one. */
  lemma IndexOfAppend<T>(xs: seq<T>, y: T, x: T)
    requires x in xs
    ensures IndexOf(xs + [y], x) == IndexOf(xs, x)
  {
    var b := IndexOf(xs, x);
    assert (xs + [y])[b] == x;
  }

  /** An element appended to a sequence that lacked it sits at the end. */
  lemma IndexOfAppendNew<T>(xs: seq<T>, x: T)
    requires x !in xs
    ensures IndexOf(xs + [x], x) == |xs|
  {
    assert (xs + [x])[|xs|] == x;
  }
}
