/**
 * Day two: reactor reports. A report is a list of levels; it is safe when the
 * levels fall by 1 to 3 at every step, or rise by 1 to 3 at every step. The
 * "problem dampener" of part two also accepts a report that becomes safe once
 * a single level is removed.
 */
module Two {

  /** The differences `line[i] - line[i + 1]` of consecutive levels. */
  function Diffs(line: seq<int>): (r: seq<int>)
    ensures |r| == if |line| == 0 then 0 else |line| - 1
    ensures forall i :: 0 <= i < |r| ==> r[i] == line[i] - line[i + 1]
  {
    if |line| < 2 then [] else [line[0] - line[1]] + Diffs(line[1..])
  }

  predicate AllIn(ds: seq<int>, lo: int, hi: int)
  {
    forall i :: 0 <= i < |ds| ==> lo <= ds[i] <= hi
  }

  /**
   * `is_safe`: every difference lies in 1..=3, or every one lies in -3..=-1.
   * A report with fewer than two levels has no differences and is safe.
   */
  function IsSafe(line: seq<int>): (r: bool)
    ensures |line| < 2 ==> r
  {
    var ds := Diffs(line);
    AllIn(ds, 1, 3) || AllIn(ds, -3, -1)
  }

  /**
   * A safe report is strictly monotone, and levels `j - i` steps apart differ
   * by at least `j - i` and at most `3 * (j - i)`.
   */
  lemma {:induction false} SafeIsMonotone(line: seq<int>, i: int, j: int)
    requires IsSafe(line) && 0 <= i < j < |line|
    ensures (j - i <= line[i] - line[j] <= 3 * (j - i)) || (j - i <= line[j] - line[i] <= 3 * (j - i))
    ensures AllIn(Diffs(line), 1, 3) ==> line[j] < line[i]
    ensures AllIn(Diffs(line), -3, -1) ==> line[i] < line[j]
  {
    var ds := Diffs(line);
    assert ds[j - 1] == line[j - 1] - line[j];
    if i < j - 1 {
      SafeIsMonotone(line, i, j - 1);
    }
  }

  /** Dropping the first or the last level of a safe report keeps it safe. */
  lemma SafeWithoutEnd(line: seq<int>)
    requires IsSafe(line) && |line| >= 1
    ensures IsSafe(line[1..]) && IsSafe(line[..|line| - 1])
  {
    var ds, tail, init := Diffs(line), Diffs(line[1..]), Diffs(line[..|line| - 1]);
    forall i | 0 <= i < |tail|
      ensures tail[i] == ds[i + 1]
    {
      assert line[1..][i] == line[i + 1] && line[1..][i + 1] == line[i + 2];
    }
    forall i | 0 <= i < |init|
      ensures init[i] == ds[i]
    {
      assert line[..|line| - 1][i] == line[i] && line[..|line| - 1][i + 1] == line[i + 1];
    }
    if AllIn(ds, 1, 3) {
      assert AllIn(tail, 1, 3) && AllIn(init, 1, 3);
    } else {
      assert AllIn(tail, -3, -1) && AllIn(init, -3, -1);
    }
  }

  /** The number of safe reports among `input`. */
  function CountSafe(input: seq<seq<int>>): (r: nat)
    ensures r <= |input|
  {
    if input == [] then 0
    else CountSafe(input[..|input| - 1]) + (if IsSafe(input[|input| - 1]) then 1 else 0)
  }

  /** `part_one`: counts the safe reports. */
  method PartOne(input: seq<seq<int>>) returns (safe: nat)
    ensures safe == CountSafe(input)
  {
    safe := 0;
    var i := 0;
    while i < |input|
      invariant 0 <= i <= |input|
      invariant safe == CountSafe(input[..i])
    {
      if IsSafe(input[i]) {
        safe := safe + 1;
      }
      assert input[..i + 1][..i] == input[..i];
      i := i + 1;
    }
    assert input[..i] == input;
  }

  /** The report with the level at index `r` removed, as `Vec::remove` leaves it. */
  function Remove(line: seq<int>, r: nat): (s: seq<int>)
    requires r < |line|
    ensures |s| == |line| - 1
    ensures forall k :: 0 <= k < |s| ==> s[k] == if k < r then line[k] else line[k + 1]
  {
    line[..r] + line[r + 1..]
  }

  /** Accepted by the dampener: safe, or safe after removing one level. */
  predicate Tolerable(line: seq<int>)
  {
    IsSafe(line) || exists r :: 0 <= r < |line| && IsSafe(Remove(line, r))
  }

  function CountTolerable(input: seq<seq<int>>): (r: nat)
    ensures r <= |input|
  {
    if input == [] then 0
    else CountTolerable(input[..|input| - 1]) + (if Tolerable(input[|input| - 1]) then 1 else 0)
  }

  /**
   * `part_two`: a safe report is counted at once; otherwise each single
   * removal is tried in index order and the report is counted, once, at the
   * first removal that makes it safe.
   */
  method PartTwo(input: seq<seq<int>>) returns (safe: nat)
    ensures safe == CountTolerable(input)
  {
    safe := 0;
    var i := 0;
    while i < |input|
      invariant 0 <= i <= |input|
      invariant safe == CountTolerable(input[..i])
    {
      var line := input[i];
      CountTolerableSnoc(input, i);
      if IsSafe(line) {
        safe := safe + 1;
      } else {
        var found := TryRemovals(line);
        if found {
          safe := safe + 1;
        }
      }
      i := i + 1;
    }
    assert input[..i] == input;
  }

  /** The inner loop of `part_two`: tries each single removal in index order, stopping at the first safe one. */
  method TryRemovals(line: seq<int>) returns (found: bool)
    ensures found <==> exists r :: 0 <= r < |line| && IsSafe(Remove(line, r))
  {
    found := false;
    var r := 0;
    while r < |line|
      invariant 0 <= r <= |line|
      invariant forall k :: 0 <= k < r ==> !IsSafe(Remove(line, k))
    {
      if IsSafe(Remove(line, r)) {
        found := true;
        return;
      }
      r := r + 1;
    }
  }

  lemma CountTolerableSnoc(input: seq<seq<int>>, i: nat)
    requires i < |input|
    ensures CountTolerable(input[..i + 1]) == CountTolerable(input[..i]) + if Tolerable(input[i]) then 1 else 0
  {
    assert input[..i + 1][..i] == input[..i];
  }

  /** The dampener never rejects a report part one accepts: part one <= part two <= reports. */
  lemma {:induction false} PartsOrdered(input: seq<seq<int>>)
    ensures CountSafe(input) <= CountTolerable(input) <= |input|
  {
    if input != [] {
      PartsOrdered(input[..|input| - 1]);
    }
  }
}
