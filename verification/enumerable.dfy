/** The three LINQ operators the prompt pipes its choices through
    (`Where`, `Select`, `Take`), over finite sequences. */
module Enumerable {

  /** The elements of `xs` that satisfy `keep`, in their original order. */
  function Where<T>(xs: seq<T>, keep: T -> bool): (r: seq<T>)
    ensures |r| <= |xs|
    ensures forall j :: 0 <= j < |r| ==> keep(r[j])
  {
    if |xs| == 0 then []
    else (if keep(xs[0]) then [xs[0]] else []) + Where(xs[1..], keep)
  }

  /** `f` applied to every element, keeping positions. */
  function Select<T, U>(xs: seq<T>, f: T -> U): (r: seq<U>)
    ensures |r| == |xs|
    ensures forall i :: 0 <= i < |xs| ==> r[i] == f(xs[i])
  {
    if |xs| == 0 then [] else [f(xs[0])] + Select(xs[1..], f)
  }

  /** The first `n` elements; a count of zero or less gives nothing and a
      count past the end gives everything, as `Enumerable.Take` does. */
  function Take<T>(xs: seq<T>, n: int): (r: seq<T>)
    ensures n <= 0 ==> r == []
    ensures 0 <= n <= |xs| ==> |r| == n
    ensures n > |xs| ==> r == xs
    ensures r == xs[..|r|]
  {
    if n <= 0 then [] else if n >= |xs| then xs else xs[..n]
  }

  /** The number of elements of `xs` before position `i` that `keep`
      accepts: the position `xs[i]` gets in `Where(xs, keep)`. */
  function Rank<T>(xs: seq<T>, keep: T -> bool, i: nat): nat
    requires i <= |xs|
  {
    |Where(xs[..i], keep)|
  }

  /** Filtering distributes over concatenation. */
  lemma {:induction false} WhereAppend<T>(a: seq<T>, b: seq<T>, keep: T -> bool)
    ensures Where(a + b, keep) == Where(a, keep) + Where(b, keep)
  {
    if |a| == 0 {
      assert a + b == b;
    } else {
      assert (a + b)[0] == a[0];
      assert (a + b)[1..] == a[1..] + b;
      WhereAppend(a[1..], b, keep);
    }
  }

  /** Every accepted element of `xs` appears in the filtered sequence, at
      the position given by the number of accepted elements before it. */
  lemma WhereRank<T>(xs: seq<T>, keep: T -> bool, i: nat)
    requires i < |xs| && keep(xs[i])
    ensures Rank(xs, keep, i) < |Where(xs, keep)|
    ensures Where(xs, keep)[Rank(xs, keep, i)] == xs[i]
  {
    assert xs == xs[..i] + xs[i..];
    WhereAppend(xs[..i], xs[i..], keep);
    assert xs[i..][0] == xs[i];
  }

  /** Conversely, every element of the filtered sequence is an accepted
      element of `xs` whose rank is its position. */
  lemma {:induction false} WhereSource<T>(xs: seq<T>, keep: T -> bool, j: nat)
    requires j < |Where(xs, keep)|
    ensures exists i :: 0 <= i < |xs| && keep(xs[i]) && Rank(xs, keep, i) == j
                        && Where(xs, keep)[j] == xs[i]
  {
    var tail := xs[1..];
    if keep(xs[0]) && j == 0 {
      assert xs[..0] == [];
      assert keep(xs[0]) && Rank(xs, keep, 0) == 0 && Where(xs, keep)[0] == xs[0];
    } else {
      var j' := if keep(xs[0]) then j - 1 else j;
      assert Where(xs, keep) == (if keep(xs[0]) then [xs[0]] else []) + Where(tail, keep);
      WhereSource(tail, keep, j');
      var i' :| 0 <= i' < |tail| && keep(tail[i']) && Rank(tail, keep, i') == j'
                && Where(tail, keep)[j'] == tail[i'];
      assert xs[..i' + 1] == [xs[0]] + tail[..i'];
      WhereAppend([xs[0]], tail[..i'], keep);
      assert Where([xs[0]], keep) == (if keep(xs[0]) then [xs[0]] else []) + Where([xs[0]][1..], keep);
      assert Rank(xs, keep, i' + 1) == j;
      assert keep(xs[i' + 1]) && Where(xs, keep)[j] == xs[i' + 1];
    }
  }

  /** Filtering by a narrower test after a wider one is the same as filtering
      by the narrower test alone: the narrow result is a subsequence of the
      wide one. */
  lemma {:induction false} WhereNarrow<T>(xs: seq<T>, wide: T -> bool, narrow: T -> bool)
    requires forall i :: 0 <= i < |xs| && narrow(xs[i]) ==> wide(xs[i])
    ensures Where(Where(xs, wide), narrow) == Where(xs, narrow)
  {
    if |xs| > 0 {
      var head := if wide(xs[0]) then [xs[0]] else [];
      WhereNarrow(xs[1..], wide, narrow);
      WhereAppend(head, Where(xs[1..], wide), narrow);
      if wide(xs[0]) {
        assert Where(head, narrow) == (if narrow(xs[0]) then [xs[0]] else []) + Where(head[1..], narrow);
      }
    }
  }

  /** Taking a prefix commutes with mapping. */
  lemma TakeSelect<T, U>(xs: seq<T>, f: T -> U, n: int)
    ensures Take(Select(xs, f), n) == Select(Take(xs, n), f)
  {
  }
}
