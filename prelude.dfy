/** Small shared vocabulary: the outcome of an operation that may raise,
    and the sequence helpers the chunker and the batcher both speak in. */
module Prelude {

  /** The value an operation returns, or the exception it raises. */
  datatype Result<+T, +E> = Ok(value: T) | Err(error: E)

  /** A value that may be absent (Python's `None`). */
  datatype Option<+T> = None | Some(value: T)

  function Min(a: int, b: int): int { if a <= b then a else b }

  function Max(a: int, b: int): int { if a <= b then b else a }

  /** The concatenation of a list of lists, in order. */
  function Flatten<T>(xss: seq<seq<T>>): seq<T>
  {
    if xss == [] then [] else Flatten(xss[..|xss| - 1]) + xss[|xss| - 1]
  }

  lemma FlattenSnoc<T>(xss: seq<seq<T>>, xs: seq<T>)
    ensures Flatten(xss + [xs]) == Flatten(xss) + xs
  {
    assert (xss + [xs])[..|xss|] == xss;
  }

  lemma {:induction false} FlattenCons<T>(xs: seq<T>, xss: seq<seq<T>>)
    ensures Flatten([xs] + xss) == xs + Flatten(xss)
    decreases |xss|
  {
    if xss == [] {
      assert Flatten([xs]) == Flatten([xs][..0]) + xs;
    } else {
      var init, last := xss[..|xss| - 1], xss[|xss| - 1];
      assert xss == init + [last];
      assert [xs] + xss == ([xs] + init) + [last];
      FlattenSnoc([xs] + init, last);
      FlattenCons(xs, init);
      FlattenSnoc(init, last);
    }
  }

  /** A list of non-empty lists has no more members than its flattening. */
  lemma {:induction false} FlattenLength<T>(xss: seq<seq<T>>)
    requires forall j :: 0 <= j < |xss| ==> xss[j] != []
    ensures |xss| <= |Flatten(xss)|
    ensures xss != [] ==> Flatten(xss) != []
  {
    if xss != [] {
      FlattenLength(xss[..|xss| - 1]);
    }
  }
}
