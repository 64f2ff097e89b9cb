/** Optional values and the filter-map over sequences that the line-by-line
    converters are built from. */
module Options {

  datatype Option<T> = None | Some(value: T)

  /** The elements of `o` as a sequence of length zero or one. */
  function ToSeq<T>(o: Option<T>): seq<T>
  {
    match o
    case None => []
    case Some(v) => [v]
  }

  /** Applies `f` to every element of `xs` in order and keeps the results
      that are present: the shape of a loop that appends to a slice and
      `continue`s past the elements it drops. */
  function FilterMap<A, B>(f: A -> Option<B>, xs: seq<A>): (ys: seq<B>)
    ensures |ys| <= |xs|
  {
    if xs == [] then []
    else FilterMap(f, xs[..|xs| - 1]) + ToSeq(f(xs[|xs| - 1]))
  }

  lemma FilterMapSnoc<A, B>(f: A -> Option<B>, xs: seq<A>, x: A)
    ensures FilterMap(f, xs + [x]) == FilterMap(f, xs) + ToSeq(f(x))
  {
    assert (xs + [x])[..|xs|] == xs;
  }

  /** One more element of a prefix adds its image, if any. */
  lemma FilterMapPrefix<A, B>(f: A -> Option<B>, xs: seq<A>, i: nat)
    requires i < |xs|
    ensures FilterMap(f, xs[..i + 1]) == FilterMap(f, xs[..i]) + ToSeq(f(xs[i]))
  {
    assert xs[..i + 1] == xs[..i] + [xs[i]];
    FilterMapSnoc(f, xs[..i], xs[i]);
  }

  lemma {:induction false} FilterMapAppend<A, B>(f: A -> Option<B>, xs: seq<A>, zs: seq<A>)
    ensures FilterMap(f, xs + zs) == FilterMap(f, xs) + FilterMap(f, zs)
    decreases |zs|
  {
    if zs == [] {
      assert xs + zs == xs;
    } else {
      var zs', z := zs[..|zs| - 1], zs[|zs| - 1];
      calc {
        FilterMap(f, xs + zs);
        { assert xs + zs == (xs + zs') + [z]; }
        FilterMap(f, (xs + zs') + [z]);
        { FilterMapSnoc(f, xs + zs', z); }
        FilterMap(f, xs + zs') + ToSeq(f(z));
        { FilterMapAppend(f, xs, zs'); }
        FilterMap(f, xs) + FilterMap(f, zs') + ToSeq(f(z));
        { FilterMapSnoc(f, zs', z); assert zs == zs' + [z]; }
        FilterMap(f, xs) + FilterMap(f, zs);
      }
    }
  }

  /** A filter-map that maps every element to itself is the identity. */
  lemma {:induction false} FilterMapIdentity<A>(f: A -> Option<A>, xs: seq<A>)
    requires forall k :: 0 <= k < |xs| ==> f(xs[k]) == Some(xs[k])
    ensures FilterMap(f, xs) == xs
    decreases |xs|
  {
    if xs != [] {
      var init, last := xs[..|xs| - 1], xs[|xs| - 1];
      assert forall k :: 0 <= k < |init| ==> init[k] == xs[k];
      FilterMapIdentity(f, init);
      assert ToSeq(f(last)) == [last];
      assert init + [last] == xs;
    }
  }
}
