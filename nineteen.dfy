/**
 * Day nineteen: towels are stripes of colours; a design is possible when it
 * is a concatenation of towels. The towels are stored in a trie, and each
 * design is checked (part one) and its decompositions counted (part two) by
 * a memoised recursion over suffixes.
 *
 * A trie node is identified by the colours on the path from the root to it,
 * so the trie is the set of those paths (`nodes`) and the set of paths whose
 * node has `end` set (`ends`).
 */
module Nineteen {
  import opened Grids

  datatype Color = White | Blue | Black | Red | Green

  /** All prefixes of `t`, the empty one and `t` itself included. */
  function Prefixes(t: seq<Color>): set<seq<Color>>
  {
    set k | 0 <= k <= |t| :: t[..k]
  }

  lemma PrefixesSnoc(t: seq<Color>, i: nat)
    requires i < |t|
    ensures Prefixes(t[..i + 1]) == Prefixes(t[..i]) + {t[..i + 1]}
  {
    var u, v := t[..i + 1], t[..i];
    forall k | 0 <= k <= i
      ensures u[..k] == v[..k]
    {
    }
    assert u == u[..i + 1];
    assert forall p :: p in Prefixes(u) <==> exists k :: 0 <= k <= i + 1 && p == u[..k];
    assert forall p :: p in Prefixes(v) <==> exists k :: 0 <= k <= i && p == v[..k];
  }

  class Trie {
    var nodes: set<seq<Color>>
    var ends: set<seq<Color>>

    /** The root exists, every node's parent exists, and every end is a node. */
    ghost predicate Valid()
      reads this
    {
      [] in nodes && ends <= nodes && forall p, c :: p + [c] in nodes ==> p in nodes
    }

    /** `ColorTrieNode::default()`: a root without children, not an end. */
    constructor ()
      ensures Valid() && nodes == {[]} && ends == {}
    {
      nodes, ends := {[]}, {};
    }

    /**
     * `add`: walks down the towel's colours, creating each missing child,
     * and marks the node reached as an end. Nothing is removed.
     */
    method Add(towel: seq<Color>)
      requires Valid()
      modifies this
      ensures Valid()
      ensures nodes == old(nodes) + Prefixes(towel) && ends == old(ends) + {towel}
    {
      var node: seq<Color> := [];
      for i := 0 to |towel|
        invariant Valid() && node == towel[..i] && node in nodes
        invariant nodes == old(nodes) + Prefixes(towel[..i]) && ends == old(ends)
      {
        var next := node + [towel[i]];
        assert next == towel[..i + 1] && next[..|next| - 1] == node;
        if next !in nodes {
          nodes := nodes + {next};
        }
        node := next;
        PrefixesSnoc(towel, i);
      }
      assert node == towel;
      ends := ends + {node};
    }

    /** `look_up`: the child of `node` under colour `c`, when there is one. */
    function LookUp(node: seq<Color>, c: Color): (r: Option<seq<Color>>)
      reads this
      ensures r.Some? <==> node + [c] in nodes
      ensures r.Some? ==> r.value == node + [c]
    {
      if node + [c] in nodes then Some(node + [c]) else None
    }
  }

  /** `pattern[index..]` is a concatenation of towels from `ends` (the empty suffix is). */
  ghost predicate Possible(ends: set<seq<Color>>, pattern: seq<Color>, index: nat)
    decreases |pattern| - index
  {
    index >= |pattern| ||
    exists j :: index < j <= |pattern| && pattern[index..j] in ends && Possible(ends, pattern, j)
  }

  /** The number of ways to split `pattern[index..]` into towels; one for the empty suffix. */
  function Ways(ends: set<seq<Color>>, pattern: seq<Color>, index: nat): nat
    decreases |pattern| - index, 1, 0
  {
    if index >= |pattern| then 1 else PartialWays(ends, pattern, index, |pattern|)
  }

  /** The splits whose first towel is `pattern[index..j]` for some `j` up to `i`. */
  function PartialWays(ends: set<seq<Color>>, pattern: seq<Color>, index: nat, i: nat): nat
    requires index <= i <= |pattern|
    decreases |pattern| - index, 0, i - index
  {
    if i == index then 0
    else PartialWays(ends, pattern, index, i - 1) + if pattern[index..i] in ends then Ways(ends, pattern, i) else 0
  }

  /** A splitting exists exactly when it can be written as a list of towels. */
  function Concat(ws: seq<seq<Color>>): seq<Color>
  {
    if ws == [] then [] else ws[0] + Concat(ws[1..])
  }

  /** A possible suffix has a list of non-empty towels that spells it. */
  lemma {:induction false} SplitOf(ends: set<seq<Color>>, pattern: seq<Color>, index: nat) returns (ws: seq<seq<Color>>)
    requires Possible(ends, pattern, index) && index <= |pattern|
    ensures forall k :: 0 <= k < |ws| ==> ws[k] in ends && ws[k] != []
    ensures Concat(ws) == pattern[index..]
    decreases |pattern| - index
  {
    if index == |pattern| {
      ws := [];
    } else {
      var j :| index < j <= |pattern| && pattern[index..j] in ends && Possible(ends, pattern, j);
      var rest := SplitOf(ends, pattern, j);
      ws := [pattern[index..j]] + rest;
      assert ws[1..] == rest;
      assert pattern[index..] == pattern[index..j] + pattern[j..];
    }
  }

  /** Conversely, a suffix spelt by non-empty towels is possible. */
  lemma {:induction false} SplitIsPossible(ends: set<seq<Color>>, pattern: seq<Color>, index: nat, ws: seq<seq<Color>>)
    requires index <= |pattern|
    requires forall k :: 0 <= k < |ws| ==> ws[k] in ends && ws[k] != []
    requires Concat(ws) == pattern[index..]
    ensures Possible(ends, pattern, index)
    decreases |ws|
  {
    if ws != [] {
      var j := index + |ws[0]|;
      assert pattern[index..] == ws[0] + Concat(ws[1..]);
      assert pattern[index..j] == ws[0];
      assert pattern[j..] == Concat(ws[1..]);
      SplitIsPossible(ends, pattern, j, ws[1..]);
    } else {
      assert |pattern[index..]| == 0;
    }
  }

  /** Counting and deciding agree: there is a way exactly when the suffix is possible. */
  lemma {:induction false} WaysPositive(ends: set<seq<Color>>, pattern: seq<Color>, index: nat)
    ensures Ways(ends, pattern, index) > 0 <==> Possible(ends, pattern, index)
    decreases |pattern| - index, 1, 0
  {
    if index < |pattern| {
      PartialPositive(ends, pattern, index, |pattern|);
    }
  }

  lemma {:induction false} PartialPositive(ends: set<seq<Color>>, pattern: seq<Color>, index: nat, i: nat)
    requires index <= i <= |pattern|
    ensures PartialWays(ends, pattern, index, i) > 0 <==>
      exists j :: index < j <= i && pattern[index..j] in ends && Possible(ends, pattern, j)
    decreases |pattern| - index, 0, i - index
  {
    if i > index {
      PartialPositive(ends, pattern, index, i - 1);
      WaysPositive(ends, pattern, i);
    }
  }

  /** Every cached answer is the uncached one. */
  ghost predicate CacheOk(ends: set<seq<Color>>, pattern: seq<Color>, cache: map<nat, bool>)
  {
    forall k :: k in cache ==> cache[k] == Possible(ends, pattern, k)
  }

  ghost predicate CountCacheOk(ends: set<seq<Color>>, pattern: seq<Color>, cache: map<nat, nat>)
  {
    forall k :: k in cache ==> cache[k] == Ways(ends, pattern, k)
  }

  /** Once the trie has no node for `pattern[index..i + 1]`, no longer slice is a towel. */
  lemma NoLongerTowel(t: Trie, pattern: seq<Color>, index: nat, i: nat)
    requires t.Valid() && index <= i < |pattern| && pattern[index..i + 1] !in t.nodes
    ensures forall j :: i < j <= |pattern| ==> pattern[index..j] !in t.ends
  {
    forall j | i < j <= |pattern|
      ensures pattern[index..j] !in t.nodes
    {
      var k := j;
      while k > i + 1 && pattern[index..k] in t.nodes
        invariant i + 1 <= k <= j
        invariant pattern[index..j] in t.nodes ==> pattern[index..k] in t.nodes
      {
        assert pattern[index..k] == pattern[index..k - 1] + [pattern[k - 1]];
        k := k - 1;
      }
    }
  }

  /**
   * `is_possible`: a cached answer is returned at once; otherwise the trie is
   * walked along `pattern[index..]`, and at every end node the rest of the
   * pattern is tried recursively. Every computed answer is cached.
   */
  method IsPossible(cache: map<nat, bool>, t: Trie, index: nat, pattern: seq<Color>)
    returns (r: bool, cache': map<nat, bool>)
    requires t.Valid() && CacheOk(t.ends, pattern, cache)
    ensures r == Possible(t.ends, pattern, index)
    ensures CacheOk(t.ends, pattern, cache') && cache.Keys <= cache'.Keys && index in cache'
    decreases |pattern| - index
  {
    if index in cache {
      return cache[index], cache;
    }
    if index >= |pattern| {
      return true, cache[index := true];
    }
    cache' := cache;
    var node: seq<Color> := [];
    for i := index to |pattern|
      invariant node == pattern[index..i] && node in t.nodes
      invariant NoSplitUpTo(t.ends, pattern, index, i)
      invariant CacheOk(t.ends, pattern, cache') && cache.Keys <= cache'.Keys
    {
      var next := t.LookUp(node, pattern[i]);
      assert pattern[index..i + 1] == node + [pattern[i]];
      if next.None? {
        NoLongerTowel(t, pattern, index, i);
        NotPossible(t.ends, pattern, index, i);
        return false, cache'[index := false];
      }
      if next.value in t.ends {
        var rest;
        rest, cache' := IsPossible(cache', t, i + 1, pattern);
        if rest {
          FoundSplit(t.ends, pattern, index, i + 1);
          return true, cache'[index := true];
        }
      }
      node := next.value;
    }
    NotPossible(t.ends, pattern, index, |pattern|);
    cache' := cache'[index := false];
    r := false;
  }

  /** No towel starting at `index` and ending by `i` leaves a possible rest. */
  ghost predicate NoSplitUpTo(ends: set<seq<Color>>, pattern: seq<Color>, index: nat, i: nat)
    requires index <= i <= |pattern|
  {
    forall j :: index < j <= i ==> !(pattern[index..j] in ends && Possible(ends, pattern, j))
  }

  /** With no split up to `i` and no towel past it, the suffix is not possible. */
  lemma NotPossible(ends: set<seq<Color>>, pattern: seq<Color>, index: nat, i: nat)
    requires index <= i <= |pattern| && index < |pattern| && NoSplitUpTo(ends, pattern, index, i)
    requires forall j :: i < j <= |pattern| ==> pattern[index..j] !in ends
    ensures !Possible(ends, pattern, index)
  {
  }

  /** A towel followed by a possible rest makes the suffix possible. */
  lemma FoundSplit(ends: set<seq<Color>>, pattern: seq<Color>, index: nat, j: nat)
    requires index < j <= |pattern| && pattern[index..j] in ends && Possible(ends, pattern, j)
    ensures Possible(ends, pattern, index)
  {
  }

  /**
   * `num_ways`: the same walk, adding up the ways to finish the pattern after
   * every end node met, until the trie has no node for the next colour.
   */
  method NumWays(cache: map<nat, nat>, t: Trie, index: nat, pattern: seq<Color>)
    returns (r: nat, cache': map<nat, nat>)
    requires t.Valid() && CountCacheOk(t.ends, pattern, cache)
    ensures r == Ways(t.ends, pattern, index)
    ensures CountCacheOk(t.ends, pattern, cache') && cache.Keys <= cache'.Keys && index in cache'
    decreases |pattern| - index
  {
    if index in cache {
      return cache[index], cache;
    }
    if index >= |pattern| {
      return 1, cache[index := 1];
    }
    cache' := cache;
    var node: seq<Color> := [];
    var total := 0;
    var i := index;
    while i < |pattern|
      invariant index <= i <= |pattern|
      invariant node == pattern[index..i] && node in t.nodes
      invariant total == PartialWays(t.ends, pattern, index, i)
      invariant CountCacheOk(t.ends, pattern, cache') && cache.Keys <= cache'.Keys
    {
      var next := t.LookUp(node, pattern[i]);
      assert pattern[index..i + 1] == node + [pattern[i]];
      if next.None? {
        NoLongerTowel(t, pattern, index, i);
        PartialWaysFlat(t.ends, pattern, index, i, |pattern|);
        break;
      }
      if next.value in t.ends {
        var w;
        w, cache' := NumWays(cache', t, i + 1, pattern);
        total := total + w;
      }
      node := next.value;
      i := i + 1;
    }
    r := total;
    cache' := cache'[index := total];
  }

  /** Past a slice that is not a towel prefix, the partial count stops growing. */
  lemma {:induction false} PartialWaysFlat(ends: set<seq<Color>>, pattern: seq<Color>, index: nat, i: nat, m: nat)
    requires index <= i <= m <= |pattern|
    requires forall j :: i < j <= |pattern| ==> pattern[index..j] !in ends
    ensures PartialWays(ends, pattern, index, m) == PartialWays(ends, pattern, index, i)
    decreases m
  {
    if m > i {
      PartialWaysFlat(ends, pattern, index, i, m - 1);
    }
  }

  /** The towels as the trie's ends hold them. */
  function TowelSet(towels: seq<seq<Color>>): set<seq<Color>>
  {
    set k | 0 <= k < |towels| :: towels[k]
  }

  /** The trie `part_one` and `part_two` build first, holding every towel. */
  method BuildTrie(towels: seq<seq<Color>>) returns (t: Trie)
    ensures fresh(t) && t.Valid() && t.ends == TowelSet(towels)
  {
    t := new Trie();
    for i := 0 to |towels|
      invariant t.Valid() && t.ends == TowelSet(towels[..i])
    {
      t.Add(towels[i]);
      assert TowelSet(towels[..i + 1]) == TowelSet(towels[..i]) + {towels[i]} by {
        assert forall k :: 0 <= k < i ==> towels[..i + 1][k] == towels[..i][k];
      }
    }
    assert towels[..|towels|] == towels;
  }

  /** The number of designs that are possible with these towels. */
  ghost function CountPossible(ends: set<seq<Color>>, patterns: seq<seq<Color>>): nat
  {
    if patterns == [] then 0
    else CountPossible(ends, patterns[..|patterns| - 1]) + if Possible(ends, patterns[|patterns| - 1], 0) then 1 else 0
  }

  function SumWays(ends: set<seq<Color>>, patterns: seq<seq<Color>>): nat
  {
    if patterns == [] then 0
    else SumWays(ends, patterns[..|patterns| - 1]) + Ways(ends, patterns[|patterns| - 1], 0)
  }

  /** `part_one`: the designs that are possible, each checked with a fresh cache. */
  method PartOne(towels: seq<seq<Color>>, patterns: seq<seq<Color>>) returns (total: nat)
    ensures total == CountPossible(TowelSet(towels), patterns)
  {
    var t := BuildTrie(towels);
    total := 0;
    for i := 0 to |patterns|
      invariant t.Valid() && t.ends == TowelSet(towels)
      invariant total == CountPossible(t.ends, patterns[..i])
    {
      assert patterns[..i + 1][..i] == patterns[..i];
      var ok, _ := IsPossible(map[], t, 0, patterns[i]);
      if ok {
        total := total + 1;
      }
    }
    assert patterns[..|patterns|] == patterns;
  }

  /** `part_two`: the ways to make every design, added up, each counted with a fresh cache. */
  method PartTwo(towels: seq<seq<Color>>, patterns: seq<seq<Color>>) returns (total: nat)
    ensures total == SumWays(TowelSet(towels), patterns)
  {
    var t := BuildTrie(towels);
    total := 0;
    for i := 0 to |patterns|
      invariant t.Valid() && t.ends == TowelSet(towels)
      invariant total == SumWays(t.ends, patterns[..i])
    {
      assert patterns[..i + 1][..i] == patterns[..i];
      var w, _ := NumWays(map[], t, 0, patterns[i]);
      total := total + w;
    }
    assert patterns[..|patterns|] == patterns;
  }

  /** Part one counts exactly the designs that part two finds at least one way for. */
  lemma {:induction false} PartsAgree(ends: set<seq<Color>>, patterns: seq<seq<Color>>)
    ensures CountPossible(ends, patterns) <= SumWays(ends, patterns)
    ensures CountPossible(ends, patterns) == 0 <==> SumWays(ends, patterns) == 0
  {
    if patterns != [] {
      PartsAgree(ends, patterns[..|patterns| - 1]);
      WaysPositive(ends, patterns[|patterns| - 1], 0);
    }
  }
}
