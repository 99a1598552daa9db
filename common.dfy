/** Shared vocabulary: optional values, a JavaScript-style outcome that may
    throw, and the first-match search behind `Array.prototype.find`. */
module Common {

  /** A JavaScript value that may be `undefined`. */
  datatype Option<T> = None | Some(value: T)

  /** What a JavaScript call does: return a value, or throw a `TypeError`. */
  datatype Outcome<T> = Returns(value: T) | Throws

  /** Index of the first element of `s` that satisfies `p`, if any. */
  function FirstIndex<T>(s: seq<T>, p: T -> bool): (r: Option<nat>)
    ensures r.Some? ==> r.value < |s| && p(s[r.value])
    ensures r.Some? ==> forall j :: 0 <= j < r.value ==> !p(s[j])
    ensures r.None? <==> forall j :: 0 <= j < |s| ==> !p(s[j])
  {
    if s == [] then None
    else if p(s[0]) then Some(0)
    else match FirstIndex(s[1..], p)
      case None => None
      case Some(i) => Some(i + 1)
  }

  /** `Array.prototype.find`: the first element satisfying `p`, or `undefined`. */
  function Find<T>(s: seq<T>, p: T -> bool): (r: Option<T>)
    ensures r.None? <==> forall j :: 0 <= j < |s| ==> !p(s[j])
    ensures r.Some? ==> exists i :: 0 <= i < |s| && s[i] == r.value && p(s[i]) &&
                                    forall j :: 0 <= j < i ==> !p(s[j])
  {
    match FirstIndex(s, p)
    case None => None
    case Some(i) => Some(s[i])
  }

  /** Whatever follows the first match does not change what `Find` returns. */
  lemma FindStopsAtFirstMatch<T>(pre: seq<T>, x: T, post: seq<T>, p: T -> bool)
    requires forall j :: 0 <= j < |pre| ==> !p(pre[j])
    requires p(x)
    ensures Find(pre + [x] + post, p) == Some(x)
  {
    var s := pre + [x] + post;
    assert s[|pre|] == x;
  }

  /** Concatenation is associative; stated once so that proofs about long
      lists of strings need not rediscover it element by element. */
  lemma ConcatAssoc<T>(a: seq<T>, b: seq<T>, c: seq<T>)
    ensures a + (b + c) == (a + b) + c
  {
  }

  /** The concatenation, in order, of what `f` yields for each element: the
      shape of a loop or a `reduce` that appends each element's contribution
      to an accumulator. */
  function Flatten<T, U>(xs: seq<T>, f: T -> seq<U>): seq<U>
  {
    if xs == [] then [] else Flatten(xs[..|xs| - 1], f) + f(xs[|xs| - 1])
  }

  /** A single element contributes exactly its own part. */
  lemma FlattenOne<T, U>(x: T, f: T -> seq<U>)
    ensures Flatten([x], f) == f(x)
  {
    assert [x][..0] == [];
  }

  /** Flattening keeps the order of the elements: the parts of a split list
      contribute in turn. */
  lemma {:induction false} FlattenAppend<T, U>(a: seq<T>, b: seq<T>, f: T -> seq<U>)
    ensures Flatten(a + b, f) == Flatten(a, f) + Flatten(b, f)
  {
    if b == [] {
      assert a + b == a;
    } else {
      FlattenAppend(a, b[..|b| - 1], f);
      assert (a + b)[..|a + b| - 1] == a + b[..|b| - 1];
      assert (a + b)[|a + b| - 1] == b[|b| - 1];
    }
  }

  /** Nothing is dropped or merged: the length is the sum of the parts' lengths. */
  lemma {:induction false} FlattenLength<T, U>(xs: seq<T>, f: T -> seq<U>)
    ensures |Flatten(xs, f)| == SumOfLengths(xs, f)
  {
    if xs != [] {
      FlattenLength(xs[..|xs| - 1], f);
    }
  }

  function SumOfLengths<T, U>(xs: seq<T>, f: T -> seq<U>): nat
  {
    if xs == [] then 0 else SumOfLengths(xs[..|xs| - 1], f) + |f(xs[|xs| - 1])|
  }

  /** An element of the flattening comes from some element's contribution, and
      every contribution is part of it. */
  lemma {:induction false} FlattenMembers<T, U>(xs: seq<T>, f: T -> seq<U>, u: U)
    ensures u in Flatten(xs, f) <==> exists i :: 0 <= i < |xs| && u in f(xs[i])
  {
    if xs != [] {
      FlattenMembers(xs[..|xs| - 1], f, u);
      var n := |xs| - 1;
      if u in f(xs[n]) {
        assert u in Flatten(xs, f);
      }
      if exists i :: 0 <= i < |xs| && u in f(xs[i]) {
        var i :| 0 <= i < |xs| && u in f(xs[i]);
        if i < n {
          assert xs[..n][i] == xs[i];
        }
      }
    }
  }

  /** When every element contributes at most what `g` does, so does the whole. */
  lemma {:induction false} SumOfLengthsMonotone<T, U, V>(xs: seq<T>, f: T -> seq<U>, g: T -> seq<V>)
    requires forall i :: 0 <= i < |xs| ==> |f(xs[i])| <= |g(xs[i])|
    ensures SumOfLengths(xs, f) <= SumOfLengths(xs, g)
  {
    if xs != [] {
      SumOfLengthsMonotone(xs[..|xs| - 1], f, g);
    }
  }
}
