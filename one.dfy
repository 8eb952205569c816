/**
 * Day one: two columns of location ids. Part one pairs the columns up after
 * sorting each ascending and sums the distances of the pairs; part two
 * weighs every left id by how often it occurs in the right column.
 */
module One {
  import Arith

  datatype Pair = Pair(a: int, b: int)

  function Lefts(input: seq<Pair>): (r: seq<int>)
    ensures |r| == |input| && forall i :: 0 <= i < |input| ==> r[i] == input[i].a
  {
    if input == [] then [] else Lefts(input[..|input| - 1]) + [input[|input| - 1].a]
  }

  function Rights(input: seq<Pair>): (r: seq<int>)
    ensures |r| == |input| && forall i :: 0 <= i < |input| ==> r[i] == input[i].b
  {
    if input == [] then [] else Rights(input[..|input| - 1]) + [input[|input| - 1].b]
  }

  predicate Sorted(s: seq<int>)
  {
    forall i, j :: 0 <= i < j < |s| ==> s[i] <= s[j]
  }

  /** Places `x` into the sorted list `s`. */
  function Insert(x: int, s: seq<int>): (r: seq<int>)
    requires Sorted(s)
    ensures Sorted(r) && multiset(r) == multiset(s) + multiset{x}
  {
    if s == [] || x <= s[0] then
      SortedCons(x, s);
      [x] + s
    else
      var rest := Insert(x, s[1..]);
      SortedTail(s);
      BelowAll(s[0], rest);
      SortedCons(s[0], rest);
      [s[0]] + rest
  }

  lemma SortedTail(s: seq<int>)
    requires Sorted(s) && s != []
    ensures Sorted(s[1..]) && s == [s[0]] + s[1..]
    ensures forall v :: v in multiset(s[1..]) ==> s[0] <= v
  {
    forall v | v in multiset(s[1..])
      ensures s[0] <= v
    {
      var k :| 0 <= k < |s[1..]| && s[1..][k] == v;
      assert s[k + 1] == v;
    }
  }

  /** A list stays sorted when an element no larger than all of it is put in front. */
  lemma SortedCons(y: int, r: seq<int>)
    requires Sorted(r) && forall k :: 0 <= k < |r| ==> y <= r[k]
    ensures Sorted([y] + r)
  {
  }

  /** A bound on every element of a multiset bounds every entry of the list. */
  lemma BelowAll(y: int, r: seq<int>)
    requires forall v :: v in multiset(r) ==> y <= v
    ensures forall k :: 0 <= k < |r| ==> y <= r[k]
  {
    forall k | 0 <= k < |r|
      ensures y <= r[k]
    {
      assert r[k] in multiset(r);
    }
  }

  /** The ascending order `Vec::sort` leaves a column in. */
  function Sort(s: seq<int>): (r: seq<int>)
    ensures Sorted(r) && multiset(r) == multiset(s) && |r| == |s|
  {
    if s == [] then []
    else
      assert s == [s[0]] + s[1..];
      Insert(s[0], Sort(s[1..]))
  }

  /** The smallest element of a sorted list is the one at its head. */
  lemma SortedHeadIsMinimum(s: seq<int>, x: int)
    requires Sorted(s) && x in multiset(s)
    ensures s[0] <= x
  {
    var k :| 0 <= k < |s| && s[k] == x;
  }

  /** A sorted list is determined by its multiset of elements. */
  lemma {:induction false} SortedUnique(s: seq<int>, t: seq<int>)
    requires Sorted(s) && Sorted(t) && multiset(s) == multiset(t)
    ensures s == t
  {
    if s != [] {
      assert s[0] in multiset(t) && t[0] in multiset(s);
      SortedHeadIsMinimum(t, s[0]);
      SortedHeadIsMinimum(s, t[0]);
      assert s[0] == t[0];
      assert s == [s[0]] + s[1..] && t == [t[0]] + t[1..];
      assert multiset(s) == multiset{s[0]} + multiset(s[1..]);
      assert multiset(t) == multiset{s[0]} + multiset(t[1..]);
      forall v
        ensures multiset(s[1..])[v] == multiset(t[1..])[v]
      {
        assert multiset(s)[v] == multiset{s[0]}[v] + multiset(s[1..])[v];
        assert multiset(t)[v] == multiset{s[0]}[v] + multiset(t[1..])[v];
      }
      assert multiset(s[1..]) == multiset(t[1..]);
      SortedUnique(s[1..], t[1..]);
    } else {
      assert |t| == |multiset(t)| == 0;
    }
  }

  /** The sum of `|x - y|` over the pairs of two equally long lists. */
  function Distance(xs: seq<int>, ys: seq<int>): (r: int)
    requires |xs| == |ys|
    ensures r >= 0
  {
    if xs == [] then 0
    else Distance(xs[..|xs| - 1], ys[..|ys| - 1]) + Arith.Abs(xs[|xs| - 1] - ys[|ys| - 1])
  }

  /** The distance of two lists is zero exactly when they are equal. */
  lemma {:induction false} DistanceZero(xs: seq<int>, ys: seq<int>)
    requires |xs| == |ys|
    ensures Distance(xs, ys) == 0 <==> xs == ys
  {
    if xs != [] {
      var n := |xs| - 1;
      DistanceZero(xs[..n], ys[..n]);
      assert xs == xs[..n] + [xs[n]] && ys == ys[..n] + [ys[n]];
      if xs == ys {
        assert xs[..n] == ys[..n];
      }
    }
  }

  /** `part_one`: both columns sorted ascending, then the distances of the pairs summed. */
  function PartOne(input: seq<Pair>): (r: int)
    ensures r >= 0
  {
    Distance(Sort(Lefts(input)), Sort(Rights(input)))
  }

  /**
   * Part one depends only on which ids each column holds and how often, not on
   * the order of the lines nor on how the ids are paired up in the input.
   */
  lemma PartOneOrderIndependent(input: seq<Pair>, other: seq<Pair>)
    requires multiset(Lefts(input)) == multiset(Lefts(other))
    requires multiset(Rights(input)) == multiset(Rights(other))
    ensures PartOne(input) == PartOne(other)
  {
    SortedUnique(Sort(Lefts(input)), Sort(Lefts(other)));
    SortedUnique(Sort(Rights(input)), Sort(Rights(other)));
  }

  /** The total distance is zero exactly when the two columns hold the same multiset of ids. */
  lemma PartOneZero(input: seq<Pair>)
    ensures PartOne(input) == 0 <==> multiset(Lefts(input)) == multiset(Rights(input))
  {
    var l, r := Sort(Lefts(input)), Sort(Rights(input));
    assert |l| == |multiset(l)| == |input| == |multiset(r)| == |r|;
    DistanceZero(l, r);
    if multiset(Lefts(input)) == multiset(Rights(input)) {
      SortedUnique(l, r);
    }
  }

  /** The similarity score: every left id times its number of occurrences on the right. */
  function Similarity(left: seq<int>, right: seq<int>): int
  {
    if left == [] then 0
    else Similarity(left[..|left| - 1], right) + left[|left| - 1] * multiset(right)[left[|left| - 1]]
  }

  /** An id that does not occur on the right adds nothing to the score. */
  lemma SimilarityAbsent(left: seq<int>, right: seq<int>, x: int)
    requires x !in right
    ensures Similarity(left + [x], right) == Similarity(left, right)
  {
    assert (left + [x])[..|left|] == left;
  }

  lemma {:induction false} SimilarityAppendRight(left: seq<int>, right: seq<int>, x: int)
    ensures Similarity(left, right + [x]) == Similarity(left, right) + x * multiset(left)[x]
  {
    if left != [] {
      var n := |left| - 1;
      var a, init := left[n], left[..n];
      SimilarityAppendRight(init, right, x);
      assert left == init + [a];
      assert multiset(left) == multiset(init) + multiset{a};
      assert multiset(right + [x]) == multiset(right) + multiset{x};
      var m, l := multiset(right)[a], multiset(init)[x];
      if a == x {
        Arith.MulSucc(a, m);
        Arith.MulSucc(x, l);
      }
    }
  }

  /**
   * The score counts `x` once for every pair of equal ids, one from each
   * column, so it does not matter which column is on the left.
   */
  lemma {:induction false} SimilaritySymmetric(left: seq<int>, right: seq<int>)
    ensures Similarity(left, right) == Similarity(right, left)
  {
    if right != [] {
      var n := |right| - 1;
      SimilaritySymmetric(left, right[..n]);
      assert right == right[..n] + [right[n]];
      SimilarityAppendRight(left, right[..n], right[n]);
    } else {
      SimilarityEmptyRight(left);
    }
  }

  lemma {:induction false} SimilarityEmptyRight(left: seq<int>)
    ensures Similarity(left, []) == 0
  {
    if left != [] {
      SimilarityEmptyRight(left[..|left| - 1]);
    }
  }

  /** The occurrence counts `part_two` collects into its map, one entry per distinct right id. */
  method CountOccurrences(right: seq<int>) returns (counts: map<int, nat>)
    ensures forall n :: n in counts <==> n in right
    ensures forall n :: n in counts ==> counts[n] == multiset(right)[n]
  {
    counts := map[];
    var i := 0;
    while i < |right|
      invariant 0 <= i <= |right|
      invariant forall n :: n in counts <==> n in right[..i]
      invariant forall n :: n in counts ==> counts[n] == multiset(right[..i])[n]
    {
      var n := right[i];
      assert right[..i + 1] == right[..i] + [n];
      counts := counts[n := (if n in counts then counts[n] else 0) + 1];
      i := i + 1;
    }
    assert right[..i] == right;
  }

  /** `part_two`: the similarity score of the two columns, read through the count map. */
  method PartTwo(input: seq<Pair>) returns (score: int)
    ensures score == Similarity(Lefts(input), Rights(input))
  {
    var left, right := Lefts(input), Rights(input);
    var counts := CountOccurrences(right);
    score := 0;
    var i := 0;
    while i < |left|
      invariant 0 <= i <= |left|
      invariant score == Similarity(left[..i], right)
    {
      var e := left[i];
      assert left[..i + 1][..i] == left[..i];
      score := score + e * (if e in counts then counts[e] else 0);
      i := i + 1;
    }
    assert left[..i] == left;
  }
}
