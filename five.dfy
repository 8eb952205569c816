/**
 * Day five: print-queue updates. A rule `a|b` says page `a` must come before
 * page `b` whenever both occur in an update; an update is a list of pages.
 * Part one sums the middle page of every update that already obeys the
 * rules; part two reorders the others by swapping and sums their middle pages.
 */
module Five {

  datatype Rule = Rule(before: nat, after: nat)

  /** `p` occurs at index `i` of `s` and nowhere after it. */
  predicate LastAt(s: seq<nat>, p: nat, i: int)
  {
    0 <= i < |s| && s[i] == p && forall k :: i < k < |s| ==> s[k] != p
  }

  /** A map from pages to indexes that names an index holding each page of `s`, and no other page. */
  ghost predicate Consistent(m: map<nat, nat>, s: seq<nat>)
  {
    (forall p :: p in m <==> p in s) && forall p :: p in m ==> m[p] < |s| && s[m[p]] == p
  }

  predicate Distinct(s: seq<nat>)
  {
    forall i, j :: 0 <= i < j < |s| ==> s[i] != s[j]
  }

  /**
   * `index_map`: every page mapped to its index; a page that occurs twice
   * ends up with its last index, since later entries overwrite earlier ones.
   */
  function IndexMap(s: seq<nat>): (m: map<nat, nat>)
    ensures Consistent(m, s)
    ensures forall p :: p in m ==> LastAt(s, p, m[p])
  {
    if s == [] then map[]
    else
      var n := |s| - 1;
      var m0 := IndexMap(s[..n]);
      assert s == s[..n] + [s[n]];
      assert forall k :: 0 <= k < n ==> s[..n][k] == s[k];
      assert forall p :: p in m0 && p != s[n] ==> LastAt(s, p, m0[p]);
      m0[s[n] := n]
  }

  /** A page has one last occurrence, and `index_map` holds it. */
  lemma LastAtIndexMap(s: seq<nat>)
    ensures forall p, i :: LastAt(s, p, i) <==> p in IndexMap(s) && IndexMap(s)[p] == i
  {
    var m := IndexMap(s);
    forall p, i | LastAt(s, p, i)
      ensures p in m && m[p] == i
    {
      assert p in s;
      assert LastAt(s, p, m[p]);
    }
  }

  /** A rule is obeyed by an index map unless both its pages are present in the wrong order. */
  predicate RuleHolds(m: map<nat, nat>, r: Rule)
  {
    r.before in m && r.after in m ==> m[r.before] <= m[r.after]
  }

  /** The scan of `is_valid`: the rules in order, stopping at the first one broken. */
  function CheckRules(m: map<nat, nat>, rules: seq<Rule>): (ok: bool)
    ensures ok <==> AllHold(m, rules)
  {
    if rules == [] then true
    else if !RuleHolds(m, rules[0]) then false
    else
      assert forall k :: 1 <= k < |rules| ==> rules[1..][k - 1] == rules[k];
      CheckRules(m, rules[1..])
  }

  /** `is_valid`: the rules checked against `index_map`. */
  function IsValid(numbers: seq<nat>, rules: seq<Rule>): bool
  {
    CheckRules(IndexMap(numbers), rules)
  }

  /**
   * An update is valid exactly when no rule names two pages that are both
   * present with the first one (by its last occurrence) after the second.
   */
  lemma IsValidMeans(numbers: seq<nat>, rules: seq<Rule>)
    ensures IsValid(numbers, rules) <==> forall k, i, j ::
      (0 <= k < |rules| && LastAt(numbers, rules[k].before, i) && LastAt(numbers, rules[k].after, j)) ==> i <= j
  {
    LastAtIndexMap(numbers);
  }

  /** Without repeated pages, validity means: every occurrence of `a` precedes every occurrence of `b`. */
  lemma ValidDistinct(numbers: seq<nat>, rules: seq<Rule>)
    requires Distinct(numbers)
    ensures IsValid(numbers, rules) <==> forall k, i, j ::
      (0 <= k < |rules| && 0 <= i < |numbers| && 0 <= j < |numbers| &&
       numbers[i] == rules[k].before && numbers[j] == rules[k].after) ==> i <= j
  {
    IsValidMeans(numbers, rules);
    assert forall p, i :: 0 <= i < |numbers| && numbers[i] == p ==> LastAt(numbers, p, i);
  }

  /** Without repeated pages, the only consistent index map is `index_map` itself. */
  lemma ConsistentIsIndexMap(m: map<nat, nat>, s: seq<nat>)
    requires Distinct(s) && Consistent(m, s)
    ensures m == IndexMap(s)
  {
    var im := IndexMap(s);
    forall p | p in m
      ensures im[p] == m[p]
    {
      assert s[im[p]] == p == s[m[p]];
    }
  }

  /** Swapping two entries leaves the multiset of a list as it was. */
  lemma SwapMultiset(s: seq<nat>, i: nat, j: nat)
    requires i < |s| && j < |s|
    ensures multiset(s[i := s[j]][j := s[i]]) == multiset(s)
  {
  }

  /** Every rule is obeyed by the index map `m`. */
  predicate AllHold(m: map<nat, nat>, rules: seq<Rule>)
  {
    forall k :: 0 <= k < |rules| ==> RuleHolds(m, rules[k])
  }

  lemma AllHoldSnoc(m: map<nat, nat>, rules: seq<Rule>, i: nat)
    requires i < |rules|
    ensures AllHold(m, rules[..i + 1]) <==> AllHold(m, rules[..i]) && RuleHolds(m, rules[i])
  {
    assert rules[..i + 1] == rules[..i] + [rules[i]];
  }

  /** The swap of one wrongly ordered rule keeps the index map consistent with the list and the list's pages. */
  lemma SwapStep(s: seq<nat>, m: map<nat, nat>, a: nat, b: nat)
    requires Consistent(m, s) && a in m && b in m && m[a] > m[b]
    ensures var ia, ib := m[a], m[b];
      var s' := s[ia := s[ib]][ib := s[ia]];
      Consistent(m[a := ib][b := ia], s') && multiset(s') == multiset(s) && (Distinct(s) ==> Distinct(s'))
  {
    var ia, ib := m[a], m[b];
    var s' := s[ia := s[ib]][ib := s[ia]];
    SwapMultiset(s, ia, ib);
    forall p
      ensures p in s <==> p in s'
    {
      assert p in s <==> p in multiset(s);
      assert p in s' <==> p in multiset(s');
    }
  }

  /** What a pass over the rules carries: the pages, the tracked index map and the number of swaps so far. */
  datatype PassState = PassState(pages: seq<nat>, index: map<nat, nat>, swaps: nat)

  /** Every index in `m` is an index of a list of length `n`. */
  predicate InRange(m: map<nat, nat>, n: nat)
  {
    forall p :: p in m ==> m[p] < n
  }

  /**
   * One rule of a pass: when both its pages are tracked and the first one's
   * index is after the second one's, the two entries are swapped, in the
   * list and in the index map, and the swap is counted.
   */
  function SwapRule(p: PassState, r: Rule): (q: PassState)
    requires InRange(p.index, |p.pages|)
    ensures |q.pages| == |p.pages| && InRange(q.index, |q.pages|)
  {
    if r.before in p.index && r.after in p.index && p.index[r.before] > p.index[r.after] then
      var ia, ib := p.index[r.before], p.index[r.after];
      PassState(p.pages[ia := p.pages[ib]][ib := p.pages[ia]], p.index[r.before := ib][r.after := ia], p.swaps + 1)
    else p
  }

  /** One pass of `reorder_page_numbers`: the rules applied in order, starting with no swaps counted. */
  function PassSpec(s: seq<nat>, m: map<nat, nat>, rules: seq<Rule>): (p: PassState)
    requires InRange(m, |s|)
    ensures |p.pages| == |s| && InRange(p.index, |p.pages|)
  {
    if rules == [] then PassState(s, m, 0)
    else SwapRule(PassSpec(s, m, rules[..|rules| - 1]), rules[|rules| - 1])
  }

  /** A pass keeps the pages of the list, and keeps them distinct. */
  lemma {:induction false} PassKeeps(s: seq<nat>, m: map<nat, nat>, rules: seq<Rule>)
    requires Consistent(m, s)
    ensures Consistent(PassSpec(s, m, rules).index, PassSpec(s, m, rules).pages)
    ensures multiset(PassSpec(s, m, rules).pages) == multiset(s)
    ensures Distinct(s) ==> Distinct(PassSpec(s, m, rules).pages)
  {
    if rules != [] {
      var n := |rules| - 1;
      PassKeeps(s, m, rules[..n]);
      var p := PassSpec(s, m, rules[..n]);
      var a, b := rules[n].before, rules[n].after;
      if a in p.index && b in p.index && p.index[a] > p.index[b] {
        SwapStep(p.pages, p.index, a, b);
      }
    }
  }

  /** A pass swaps nothing exactly when every rule already holds, and then it changes nothing. */
  lemma {:induction false} PassNoSwap(s: seq<nat>, m: map<nat, nat>, rules: seq<Rule>)
    requires Consistent(m, s)
    ensures PassSpec(s, m, rules).swaps == 0 <==> AllHold(m, rules)
    ensures PassSpec(s, m, rules).swaps == 0 ==> PassSpec(s, m, rules) == PassState(s, m, 0)
  {
    if rules != [] {
      var n := |rules| - 1;
      PassNoSwap(s, m, rules[..n]);
      AllHoldSnoc(m, rules, n);
      assert rules[..n + 1] == rules;
    }
  }

  /**
   * One pass over the rules, in place: the list and the index map end as
   * `PassSpec` says, and `swaps` counts the swaps made.
   */
  method Pass(numbers: array<nat>, rules: seq<Rule>, m: map<nat, nat>) returns (m': map<nat, nat>, swaps: nat)
    requires InRange(m, numbers.Length)
    modifies numbers
    ensures PassState(numbers[..], m', swaps) == PassSpec(old(numbers[..]), m, rules)
  {
    m' := m;
    swaps := 0;
    for i := 0 to |rules|
      invariant PassState(numbers[..], m', swaps) == PassSpec(old(numbers[..]), m, rules[..i])
    {
      assert rules[..i + 1][..i] == rules[..i];
      var a, b := rules[i].before, rules[i].after;
      if a !in m' || b !in m' {
        continue;
      }
      var ia, ib := m'[a], m'[b];
      if ia > ib {
        numbers[ia], numbers[ib] := numbers[ib], numbers[ia];
        m' := m'[a := ib][b := ia];
        swaps := swaps + 1;
      }
    }
    assert rules[..|rules|] == rules;
  }

  /** What reordering one update gives: the final pages, whether any pass swapped, and whether a pass ended without swaps. */
  datatype Outcome = Outcome(pages: seq<nat>, didSwap: bool, finished: bool)

  /**
   * The loop of `reorder_page_numbers` from pages `s` and index map `m`:
   * passes until one makes no swap. Whether that happens depends on the
   * rules (a cycle among them swaps forever), so at most `fuel` passes run.
   */
  function Passes(s: seq<nat>, m: map<nat, nat>, rules: seq<Rule>, fuel: nat): Outcome
    requires InRange(m, |s|)
    decreases fuel
  {
    if fuel == 0 then Outcome(s, false, false)
    else
      var p := PassSpec(s, m, rules);
      if p.swaps == 0 then Outcome(p.pages, false, true)
      else Passes(p.pages, p.index, rules, fuel - 1).(didSwap := true)
  }

  /** `reorder_page_numbers` on one update, starting from its index map. */
  function ReorderSpec(update: seq<nat>, rules: seq<Rule>, fuel: nat): Outcome
  {
    Passes(update, IndexMap(update), rules, fuel)
  }

  /**
   * Passes keep the pages, change nothing unless they swap, and swap
   * exactly when a rule is broken in the starting index map.
   */
  lemma {:induction false} PassesKeep(s: seq<nat>, m: map<nat, nat>, rules: seq<Rule>, fuel: nat)
    requires Consistent(m, s)
    ensures var o := Passes(s, m, rules, fuel);
      multiset(o.pages) == multiset(s) && (!o.didSwap ==> o.pages == s) &&
      (fuel > 0 ==> (o.didSwap <==> !AllHold(m, rules)))
    decreases fuel
  {
    if fuel > 0 {
      PassKeeps(s, m, rules);
      PassNoSwap(s, m, rules);
      var p := PassSpec(s, m, rules);
      if p.swaps > 0 {
        PassesKeep(p.pages, p.index, rules, fuel - 1);
      }
    }
  }

  /** Without repeated pages, rules that all hold in a consistent index map make the list valid. */
  lemma HoldingIsValid(s: seq<nat>, m: map<nat, nat>, rules: seq<Rule>)
    requires Consistent(m, s) && Distinct(s) && AllHold(m, rules)
    ensures IsValid(s, rules)
  {
    ConsistentIsIndexMap(m, s);
  }

  /** On a list without repeated pages, passes finish only on a valid order. */
  lemma {:induction false} PassesValid(s: seq<nat>, m: map<nat, nat>, rules: seq<Rule>, fuel: nat)
    requires Consistent(m, s) && Distinct(s)
    ensures var o := Passes(s, m, rules, fuel); o.finished ==> IsValid(o.pages, rules)
    decreases fuel
  {
    if fuel > 0 {
      var p := PassSpec(s, m, rules);
      if p.swaps == 0 {
        PassNoSwap(s, m, rules);
        HoldingIsValid(s, m, rules);
      } else {
        PassKeeps(s, m, rules);
        assert Consistent(p.index, p.pages) && Distinct(p.pages);
        PassesValid(p.pages, p.index, rules, fuel - 1);
      }
    }
  }

  /**
   * `reorder_page_numbers`, in place: the list ends as `ReorderSpec` says,
   * `didSwap` is its return value, and `finished` says whether the last pass
   * made no swap.
   */
  method Reorder(numbers: array<nat>, rules: seq<Rule>, fuel: nat) returns (didSwap: bool, finished: bool)
    modifies numbers
    ensures Outcome(numbers[..], didSwap, finished) == ReorderSpec(old(numbers[..]), rules, fuel)
  {
    didSwap, finished := false, false;
    var m := IndexMap(numbers[..]);
    var passes := 0;
    while passes < fuel
      invariant passes <= fuel
      invariant InRange(m, numbers.Length)
      invariant passes == 0 ==> numbers[..] == old(numbers[..]) && m == IndexMap(old(numbers[..])) && !didSwap
      invariant ReorderSpec(old(numbers[..]), rules, fuel) ==
        var o := Passes(numbers[..], m, rules, fuel - passes); o.(didSwap := didSwap || o.didSwap)
    {
      var swaps;
      m, swaps := Pass(numbers, rules, m);
      passes := passes + 1;
      if swaps > 0 {
        didSwap := true;
      } else {
        finished := true;
        break;
      }
    }
  }

  /** The middle page of an update. */
  function Middle(numbers: seq<nat>): nat
    requires |numbers| > 0
  {
    numbers[|numbers| / 2]
  }

  /** The middle pages of the non-empty updates flagged in `pick`, summed. */
  function MiddleSum(updates: seq<seq<nat>>, pick: seq<bool>): nat
    requires |pick| == |updates|
  {
    if updates == [] then 0
    else
      var n := |updates| - 1;
      MiddleSum(updates[..n], pick[..n]) + if pick[n] && |updates[n]| > 0 then Middle(updates[n]) else 0
  }

  /** Which updates already obey the rules. */
  function ValidFlags(updates: seq<seq<nat>>, rules: seq<Rule>): seq<bool>
  {
    seq(|updates|, i requires 0 <= i < |updates| => IsValid(updates[i], rules))
  }

  /** Summing over a prefix one more update at a time. */
  lemma MiddleSumSnoc(updates: seq<seq<nat>>, pick: seq<bool>, i: nat)
    requires |pick| == |updates| && i < |updates|
    ensures MiddleSum(updates[..i + 1], pick[..i + 1]) ==
      MiddleSum(updates[..i], pick[..i]) + if pick[i] && |updates[i]| > 0 then Middle(updates[i]) else 0
  {
    assert updates[..i + 1][..i] == updates[..i] && pick[..i + 1][..i] == pick[..i];
  }

  /** `part_one`: the middle pages of the updates that are already valid. */
  method PartOne(updates: seq<seq<nat>>, rules: seq<Rule>) returns (total: nat)
    requires forall i :: 0 <= i < |updates| ==> |updates[i]| > 0
    ensures total == MiddleSum(updates, ValidFlags(updates, rules))
  {
    var flags := ValidFlags(updates, rules);
    total := 0;
    for i := 0 to |updates|
      invariant total == MiddleSum(updates[..i], flags[..i])
    {
      MiddleSumSnoc(updates, flags, i);
      if IsValid(updates[i], rules) {
        total := total + Middle(updates[i]);
      }
    }
    assert updates[..|updates|] == updates && flags[..|updates|] == flags;
  }

  /**
   * What `part_two` gets back for one update: a rearrangement of its pages,
   * the update itself when it was valid, and a valid one when the update
   * repeats no page and the reordering ran to a pass without swaps.
   */
  predicate ReorderedFrom(update: seq<nat>, r: seq<nat>, rules: seq<Rule>, finished: bool)
  {
    multiset(r) == multiset(update) && |r| == |update| &&
    (IsValid(update, rules) ==> r == update) &&
    (finished && Distinct(update) ==> IsValid(r, rules))
  }

  /**
   * Reordering reports a swap exactly when the update was not valid, and
   * its pages are a reordering of the update as `ReorderedFrom` describes.
   */
  lemma ReorderSpecMeans(update: seq<nat>, rules: seq<Rule>, fuel: nat)
    requires fuel > 0
    ensures var o := ReorderSpec(update, rules, fuel);
      (o.didSwap <==> !IsValid(update, rules)) && ReorderedFrom(update, o.pages, rules, o.finished)
  {
    PassesKeep(update, IndexMap(update), rules, fuel);
    if Distinct(update) {
      PassesValid(update, IndexMap(update), rules, fuel);
    }
    var o := ReorderSpec(update, rules, fuel);
    assert |o.pages| == |multiset(o.pages)| == |multiset(update)| == |update|;
  }

  /** The index map of the update `3,1,2`. */
  lemma IndexMapExample()
    ensures IndexMap([3, 1, 2]) == map[3 := 0, 1 := 1, 2 := 2]
  {
    var s: seq<nat> := [3, 1, 2];
    assert s[..2] == [3, 1] && s[..2][..1] == [3] && s[..2][..1][..0] == [];
  }

  /** With the one rule `2|3`, a pass over `3,1,2` swaps its first and last pages. */
  lemma PassExample()
    ensures PassSpec([3, 1, 2], map[3 := 0, 1 := 1, 2 := 2], [Rule(2, 3)]) ==
      PassState([2, 1, 3], map[3 := 2, 1 := 1, 2 := 0], 1)
  {
    var rules := [Rule(2, 3)];
    assert rules[..0] == [];
  }

  /** The next pass over `2,1,3` finds the rule `2|3` obeyed and swaps nothing. */
  lemma NextPassExample()
    ensures PassSpec([2, 1, 3], map[3 := 2, 1 := 1, 2 := 0], [Rule(2, 3)]).swaps == 0
  {
    var rules := [Rule(2, 3)];
    assert rules[..0] == [];
  }

  /**
   * The order the swaps leave is fixed by the order of the rules: with the
   * one rule `2|3`, the update `3,1,2` becomes `2,1,3`, whose middle page is 1.
   */
  lemma ReorderExample()
    ensures ReorderSpec([3, 1, 2], [Rule(2, 3)], 2) == Outcome([2, 1, 3], true, true)
    ensures Middle(ReorderSpec([3, 1, 2], [Rule(2, 3)], 2).pages) == 1
  {
    IndexMapExample();
    PassExample();
    NextPassExample();
    var m: map<nat, nat> := map[3 := 2, 1 := 1, 2 := 0];
    assert Passes([2, 1, 3], m, [Rule(2, 3)], 1) == Outcome([2, 1, 3], false, true);
  }

  /** The loop body of `part_two`: an update copied into a fresh vector, which is then reordered. */
  method ReorderCopy(update: seq<nat>, rules: seq<Rule>, fuel: nat)
    returns (r: seq<nat>, didSwap: bool, finished: bool)
    ensures Outcome(r, didSwap, finished) == ReorderSpec(update, rules, fuel)
  {
    var numbers := new nat[|update|](k requires 0 <= k < |update| => update[k]);
    assert numbers[..] == update;
    didSwap, finished := Reorder(numbers, rules, fuel);
    r := numbers[..];
  }

  /** Every update reordered as `reorder_page_numbers` does. */
  function ReorderAll(updates: seq<seq<nat>>, rules: seq<Rule>, fuel: nat): (r: seq<seq<nat>>)
    ensures |r| == |updates|
  {
    seq(|updates|, i requires 0 <= i < |updates| => ReorderSpec(updates[i], rules, fuel).pages)
  }

  /** Every reordering ran to a pass without swaps. */
  predicate AllFinished(updates: seq<seq<nat>>, rules: seq<Rule>, fuel: nat)
  {
    forall i :: 0 <= i < |updates| ==> ReorderSpec(updates[i], rules, fuel).finished
  }

  lemma AllFinishedSnoc(updates: seq<seq<nat>>, rules: seq<Rule>, fuel: nat, i: nat)
    requires i < |updates|
    ensures AllFinished(updates[..i + 1], rules, fuel) <==>
      AllFinished(updates[..i], rules, fuel) && ReorderSpec(updates[i], rules, fuel).finished
  {
    assert forall k :: 0 <= k < i ==> updates[..i + 1][k] == updates[..i][k];
  }

  /** Each update and its reordering are related as `ReorderedFrom` says, with `finished` when all finished. */
  lemma ReorderAllFrom(updates: seq<seq<nat>>, rules: seq<Rule>, fuel: nat, finished: bool)
    requires fuel > 0 && (finished ==> AllFinished(updates, rules, fuel))
    ensures forall i :: 0 <= i < |updates| ==> ReorderedFrom(updates[i], ReorderAll(updates, rules, fuel)[i], rules, finished)
  {
    forall i | 0 <= i < |updates|
      ensures ReorderedFrom(updates[i], ReorderAll(updates, rules, fuel)[i], rules, finished)
    {
      ReorderSpecMeans(updates[i], rules, fuel);
    }
  }

  /**
   * `part_two`: every update reordered in a copy; the middle page of the
   * copy counts when the reordering swapped anything, which is exactly when
   * the update was not valid. `finished` says that every reordering ran to
   * a pass without swaps within `fuel` passes.
   */
  method PartTwo(updates: seq<seq<nat>>, rules: seq<Rule>, fuel: nat) returns (total: nat, finished: bool)
    requires fuel > 0
    ensures total == MiddleSum(ReorderAll(updates, rules, fuel), Negate(ValidFlags(updates, rules)))
    ensures finished <==> AllFinished(updates, rules, fuel)
    ensures forall i :: 0 <= i < |updates| ==> ReorderedFrom(updates[i], ReorderAll(updates, rules, fuel)[i], rules, finished)
  {
    var flags := Negate(ValidFlags(updates, rules));
    ghost var reordered := ReorderAll(updates, rules, fuel);
    total, finished := 0, true;
    for i := 0 to |updates|
      invariant total == MiddleSum(reordered[..i], flags[..i])
      invariant finished <==> AllFinished(updates[..i], rules, fuel)
    {
      var copy, didSwap, done := ReorderCopy(updates[i], rules, fuel);
      ReorderSpecMeans(updates[i], rules, fuel);
      MiddleSumSnoc(reordered, flags, i);
      AllFinishedSnoc(updates, rules, fuel, i);
      if didSwap {
        total := total + Middle(copy);
      }
      finished := finished && done;
    }
    assert reordered[..|updates|] == reordered && flags[..|updates|] == flags && updates[..|updates|] == updates;
    ReorderAllFrom(updates, rules, fuel, finished);
  }

  function Negate(flags: seq<bool>): (r: seq<bool>)
    ensures |r| == |flags| && forall i :: 0 <= i < |flags| ==> r[i] == !flags[i]
  {
    if flags == [] then [] else Negate(flags[..|flags| - 1]) + [!flags[|flags| - 1]]
  }
}
