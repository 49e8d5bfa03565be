/** The helpers the preprocessor imports from its `util` module. Their source
    is not part of this model: `IndexDictionary` is modelled as "append, and an
    element's index is its position", and the name tests are injected. */
module Util {
  import opened Wrappers

  predicate Distinct<T(==)>(xs: seq<T>) {
    forall i, j | 0 <= i < j < |xs| :: xs[i] != xs[j]
  }

  /** Position of the first occurrence of `x` in `xs`. */
  function FirstIndex<T(==)>(xs: seq<T>, x: T): (r: Option<nat>)
    ensures r.None? <==> x !in xs
    ensures r.Some? ==> r.value < |xs| && xs[r.value] == x && x !in xs[..r.value]
    decreases |xs|
  {
    if |xs| == 0 then None
    else if xs[0] == x then Some(0)
    else match FirstIndex(xs[1..], x)
      case None => None
      case Some(i) =>
        assert xs[..i + 1] == [xs[0]] + xs[1..][..i];
        Some(i + 1)
  }

  /** An element's first index is the position before which it does not occur. */
  lemma FirstIndexAt<T>(xs: seq<T>, i: nat)
    requires i < |xs| && xs[i] !in xs[..i]
    ensures FirstIndex(xs, xs[i]) == Some(i)
  {
  }

  /** After a prefix that does not mention it, an element of a sequence without
      repetitions is found at its own position shifted by the prefix. */
  lemma FirstIndexAfterPrefix<T>(prefix: seq<T>, xs: seq<T>, i: nat)
    requires Distinct(xs) && i < |xs|
    requires forall k | 0 <= k < |prefix| :: prefix[k] != xs[i]
    ensures FirstIndex(prefix + xs, xs[i]) == Some(|prefix| + i)
  {
    var ys := prefix + xs;
    assert ys[|prefix| + i] == xs[i];
    assert ys[..|prefix| + i] == prefix + xs[..i];
    FirstIndexAt(ys, |prefix| + i);
  }

  /** Appending keeps the first index of an element already present. */
  lemma FirstIndexAppend<T>(xs: seq<T>, y: T, x: T)
    requires x in xs
    ensures FirstIndex(xs + [y], x) == FirstIndex(xs, x)
  {
    var i := FirstIndex(xs, x).value;
    assert (xs + [y])[..i] == xs[..i];
    FirstIndexAt(xs + [y], i);
  }

  /** In a sequence without repetitions every element's first index is its position. */
  lemma FirstIndexOfDistinct<T>(xs: seq<T>, i: nat)
    requires Distinct(xs)
    requires i < |xs|
    ensures FirstIndex(xs, xs[i]) == Some(i)
  {
  }

  /** Append-only name index; the index of a name is where it was added. */
  datatype IndexDictionary = IndexDictionary(elems: seq<string>) {

    function Add(name: string): (d: IndexDictionary)
      ensures |d.elems| == |elems| + 1 && d.elems[..|elems|] == elems
      ensures d.elems[|elems|] == name
    {
      IndexDictionary(elems + [name])
    }

    predicate Contains(name: string) {
      name in elems
    }

    function IndexOf(name: string): Option<nat> {
      FirstIndex(elems, name)
    }
  }

  /** The name tests the preprocessor calls but this model does not define:
      `util.is_external`, `util.is_int` together with `int`, and `util.normalize`. */
  datatype Helpers = Helpers(
    isExternal: string -> bool,
    asInt: string -> Option<int>,
    normalize: string -> string)
}
