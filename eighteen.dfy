/**
 * Day eighteen: falling bytes block cells of a square memory grid, and the
 * question is how many unit steps separate the top-left corner (0, 0) from
 * the bottom-right one. `shortest_path` is a label-correcting search: a
 * stack of cells to explore and a grid of best-known counts that is
 * relaxed in place until nothing improves.
 */
module Eighteen {
  import opened Grids
  import Decimal

  datatype Cell = Empty | Byte

  /** A falling byte, given as `x,y`. */
  datatype Point = Point(x: nat, y: nat)

  /** `usize::MAX`, the count of a cell not reached yet. */
  const Unreached: int := 0xFFFF_FFFF_FFFF_FFFF

  /** The side of the memory grid of both parts. */
  const Side: nat := 71

  /**
   * A walk from the corner (0, 0): orthogonal unit steps inside the grid,
   * every cell after the first one free of bytes. Its length is |p| - 1.
   * The first cell is not checked, as the search starts there whatever
   * occupies it.
   */
  ghost predicate IsWalk(m: seq<seq<Cell>>, width: nat, height: nat, p: seq<(int, int)>)
    requires IsGrid(m, width, height)
  {
    |p| >= 1 && p[0] == (0, 0) &&
    (forall i :: 0 <= i < |p| ==> InBounds(p[i].0, p[i].1, width, height)) &&
    (forall i :: 1 <= i < |p| ==> m[p[i].0][p[i].1] == Empty && Adjacent(p[i - 1], p[i]))
  }

  ghost predicate IsWalkTo(m: seq<seq<Cell>>, width: nat, height: nat, p: seq<(int, int)>, c: (int, int))
    requires IsGrid(m, width, height)
  {
    IsWalk(m, width, height, p) && p[|p| - 1] == c
  }

  /** A walk that ends on the far corner (height - 1, width - 1). */
  ghost predicate IsWalkToCorner(m: seq<seq<Cell>>, width: nat, height: nat, p: seq<(int, int)>)
    requires IsGrid(m, width, height)
  {
    |p| >= 1 && IsWalkTo(m, width, height, p, (height - 1, width - 1))
  }

  /**
   * `r` is what the search promises to report: the length of a shortest
   * walk to the far corner, or `usize::MAX` when no walk is shorter than
   * that.
   */
  ghost predicate IsShortest(m: seq<seq<Cell>>, width: nat, height: nat, r: int)
    requires IsGrid(m, width, height) && width > 0 && height > 0
  {
    0 <= r <= Unreached &&
    (r < Unreached ==> exists p :: IsWalkToCorner(m, width, height, p) && |p| - 1 == r) &&
    (forall p :: IsWalkToCorner(m, width, height, p) ==> r <= |p| - 1)
  }

  /** No walk at all reaches the far corner. */
  ghost predicate Disconnected(m: seq<seq<Cell>>, width: nat, height: nat)
    requires IsGrid(m, width, height) && width > 0 && height > 0
  {
    !exists p :: IsWalkToCorner(m, width, height, p)
  }

  // ---------------------------------------------------------------------
  // Invariants of the search

  /** Every finite count is the length of a walk, kept as a ghost witness. */
  ghost predicate Sound(m: seq<seq<Cell>>, width: nat, height: nat, counts: seq<seq<int>>,
                        wit: map<(int, int), seq<(int, int)>>)
    requires IsGrid(m, width, height) && IsGrid(counts, width, height)
  {
    forall y, x :: InBounds(y, x, width, height) && counts[y][x] < Unreached ==>
      (y, x) in wit && IsWalkTo(m, width, height, wit[(y, x)], (y, x)) && |wit[(y, x)]| == counts[y][x] + 1
  }

  /** Stepping from (y, x) in direction d cannot improve the neighbour. */
  ghost predicate RelaxedDir(m: seq<seq<Cell>>, width: nat, height: nat, counts: seq<seq<int>>,
                             y: nat, x: nat, d: Direction)
    requires IsGrid(m, width, height) && IsGrid(counts, width, height) && width > 0 && height > 0
    requires InBounds(y, x, width, height)
  {
    var n := Advance(d, y, x, width, height);
    n.Some? && m[n.value.0][n.value.1] == Empty ==> counts[n.value.0][n.value.1] <= counts[y][x] + 1
  }

  ghost predicate Relaxed(m: seq<seq<Cell>>, width: nat, height: nat, counts: seq<seq<int>>, y: nat, x: nat)
    requires IsGrid(m, width, height) && IsGrid(counts, width, height) && width > 0 && height > 0
    requires InBounds(y, x, width, height)
  {
    forall d :: RelaxedDir(m, width, height, counts, y, x, d)
  }

  ghost predicate CountsInRange(counts: seq<seq<int>>, width: nat, height: nat)
    requires IsGrid(counts, width, height)
  {
    forall y, x :: InBounds(y, x, width, height) ==> 0 <= counts[y][x] <= Unreached
  }

  ghost predicate OnStack(stack: seq<(nat, nat)>, counts: seq<seq<int>>, width: nat, height: nat)
    requires IsGrid(counts, width, height)
  {
    forall i :: 0 <= i < |stack| ==>
      InBounds(stack[i].0, stack[i].1, width, height) && counts[stack[i].0][stack[i].1] < Unreached
  }

  /** Every finite cell off the stack, other than `skip`, is relaxed. */
  ghost predicate RelaxedOffStack(m: seq<seq<Cell>>, width: nat, height: nat, counts: seq<seq<int>>,
                                  stack: seq<(nat, nat)>, skip: Option<(nat, nat)>)
    requires IsGrid(m, width, height) && IsGrid(counts, width, height) && width > 0 && height > 0
  {
    forall y: nat, x: nat {:trigger Relaxed(m, width, height, counts, y, x)} ::
      (InBounds(y, x, width, height) && counts[y][x] < Unreached && (y, x) !in stack && skip != Some((y, x)))
      ==> Relaxed(m, width, height, counts, y, x)
  }

  lemma ExtendWalk(m: seq<seq<Cell>>, width: nat, height: nat, p: seq<(int, int)>, c: (int, int), n: (nat, nat))
    requires IsGrid(m, width, height)
    requires IsWalkTo(m, width, height, p, c)
    requires InBounds(n.0, n.1, width, height) && m[n.0][n.1] == Empty && Adjacent(c, n)
    ensures IsWalkTo(m, width, height, p + [n], n)
  {
  }

  /** What holds of the search state between steps; `skip` is the cell being expanded. */
  ghost predicate Inv(m: seq<seq<Cell>>, width: nat, height: nat, counts: seq<seq<int>>,
                      stack: seq<(nat, nat)>, wit: map<(int, int), seq<(int, int)>>, skip: Option<(nat, nat)>)
    requires IsGrid(m, width, height) && width > 0 && height > 0
  {
    IsGrid(counts, width, height) && CountsInRange(counts, width, height) && counts[0][0] == 0 &&
    OnStack(stack, counts, width, height) && Sound(m, width, height, counts, wit) &&
    RelaxedOffStack(m, width, height, counts, stack, skip)
  }

  /** Lowering the count of cell n keeps every other cell's relaxation. */
  lemma LowerKeepsRelaxed(m: seq<seq<Cell>>, width: nat, height: nat, counts: seq<seq<int>>,
                          stack: seq<(nat, nat)>, skip: Option<(nat, nat)>, n: (nat, nat), v: int)
    requires IsGrid(m, width, height) && IsGrid(counts, width, height) && width > 0 && height > 0
    requires InBounds(n.0, n.1, width, height) && v < counts[n.0][n.1]
    requires RelaxedOffStack(m, width, height, counts, stack, skip)
    ensures RelaxedOffStack(m, width, height, Set(counts, n.0, n.1, v), stack + [n], skip)
  {
    var c' := Set(counts, n.0, n.1, v);
    forall y: nat, x: nat | InBounds(y, x, width, height) && c'[y][x] < Unreached &&
      (y, x) !in stack + [n] && skip != Some((y, x))
      ensures Relaxed(m, width, height, c', y, x)
    {
      assert (y, x) != n;
      assert Relaxed(m, width, height, counts, y, x);
      forall d
        ensures RelaxedDir(m, width, height, c', y, x, d)
      {
        LowerKeepsRelaxedDir(m, width, height, counts, y, x, d, n, v);
      }
    }
  }

  lemma LowerKeepsRelaxedDir(m: seq<seq<Cell>>, width: nat, height: nat, counts: seq<seq<int>>,
                             y: nat, x: nat, d: Direction, n: (nat, nat), v: int)
    requires IsGrid(m, width, height) && IsGrid(counts, width, height) && width > 0 && height > 0
    requires InBounds(y, x, width, height) && InBounds(n.0, n.1, width, height)
    requires n != (y, x) && v < counts[n.0][n.1]
    requires RelaxedDir(m, width, height, counts, y, x, d)
    ensures RelaxedDir(m, width, height, Set(counts, n.0, n.1, v), y, x, d)
  {
  }

  /** The witness of n becomes the witness of (y, x) extended by one step. */
  lemma ImproveKeepsSound(m: seq<seq<Cell>>, width: nat, height: nat, counts: seq<seq<int>>,
                          wit: map<(int, int), seq<(int, int)>>, y: nat, x: nat, n: (nat, nat))
    requires IsGrid(m, width, height) && IsGrid(counts, width, height) && width > 0 && height > 0
    requires Sound(m, width, height, counts, wit)
    requires InBounds(y, x, width, height) && counts[y][x] < Unreached
    requires InBounds(n.0, n.1, width, height) && Adjacent((y, x), n) && m[n.0][n.1] == Empty
    ensures Sound(m, width, height, Set(counts, n.0, n.1, counts[y][x] + 1), wit[n := wit[(y, x)] + [n]])
  {
    var c' := Set(counts, n.0, n.1, counts[y][x] + 1);
    var w' := wit[n := wit[(y, x)] + [n]];
    ExtendWalk(m, width, height, wit[(y, x)], (y, x), n);
    forall y', x' | InBounds(y', x', width, height) && c'[y'][x'] < Unreached
      ensures (y', x') in w' && IsWalkTo(m, width, height, w'[(y', x')], (y', x')) &&
              |w'[(y', x')]| == c'[y'][x'] + 1
    {
      if (y', x') != n {
        assert c'[y'][x'] == counts[y'][x'];
      }
    }
  }

  /** One improvement: cell n, free and next to (y, x), gets count counts[y][x] + 1 and is pushed. */
  lemma ImproveKeepsInv(m: seq<seq<Cell>>, width: nat, height: nat, counts: seq<seq<int>>,
                        stack: seq<(nat, nat)>, wit: map<(int, int), seq<(int, int)>>,
                        y: nat, x: nat, n: (nat, nat), v: int,
                        counts': seq<seq<int>>, stack': seq<(nat, nat)>, wit': map<(int, int), seq<(int, int)>>)
    requires IsGrid(m, width, height) && width > 0 && height > 0
    requires Inv(m, width, height, counts, stack, wit, Some((y, x)))
    requires InBounds(y, x, width, height) && counts[y][x] < Unreached
    requires InBounds(n.0, n.1, width, height) && Adjacent((y, x), n) && m[n.0][n.1] == Empty
    requires v == counts[y][x] + 1 && v < counts[n.0][n.1]
    requires counts' == Set(counts, n.0, n.1, v) && stack' == stack + [n] && wit' == wit[n := wit[(y, x)] + [n]]
    ensures Inv(m, width, height, counts', stack', wit', Some((y, x)))
    ensures counts'[y][x] == counts[y][x] && GridSum(counts') < GridSum(counts)
    ensures forall d :: RelaxedDir(m, width, height, counts, y, x, d) ==> RelaxedDir(m, width, height, counts', y, x, d)
  {
    LowerKeepsRelaxed(m, width, height, counts, stack, Some((y, x)), n, v);
    GridSumUpdate(counts, n.0, n.1, v);
    ImproveKeepsSound(m, width, height, counts, wit, y, x, n);
    LowerKeepsRange(counts, stack, width, height, n, v);
    forall d | RelaxedDir(m, width, height, counts, y, x, d)
      ensures RelaxedDir(m, width, height, counts', y, x, d)
    {
      LowerKeepsRelaxedDir(m, width, height, counts, y, x, d, n, v);
    }
  }

  lemma LowerKeepsRange(counts: seq<seq<int>>, stack: seq<(nat, nat)>, width: nat, height: nat, n: (nat, nat), v: int)
    requires IsGrid(counts, width, height) && CountsInRange(counts, width, height)
    requires OnStack(stack, counts, width, height)
    requires InBounds(n.0, n.1, width, height) && 0 <= v < counts[n.0][n.1]
    ensures CountsInRange(Set(counts, n.0, n.1, v), width, height)
    ensures OnStack(stack + [n], Set(counts, n.0, n.1, v), width, height)
  {
  }

  /** Popping the top of the stack leaves the popped cell as the one being expanded. */
  lemma PopKeepsInv(m: seq<seq<Cell>>, width: nat, height: nat, counts: seq<seq<int>>,
                    stack: seq<(nat, nat)>, wit: map<(int, int), seq<(int, int)>>)
    requires IsGrid(m, width, height) && width > 0 && height > 0
    requires Inv(m, width, height, counts, stack, wit, None) && stack != []
    ensures var top := stack[|stack| - 1];
      Inv(m, width, height, counts, stack[..|stack| - 1], wit, Some(top)) &&
      InBounds(top.0, top.1, width, height) && counts[top.0][top.1] < Unreached
  {
    var top := stack[|stack| - 1];
    var rest := stack[..|stack| - 1];
    forall y: nat, x: nat | InBounds(y, x, width, height) && counts[y][x] < Unreached &&
      (y, x) !in rest && Some(top) != Some((y, x))
      ensures Relaxed(m, width, height, counts, y, x)
    {
      assert stack == rest + [top];
    }
  }

  /** Once the expanded cell is relaxed in every direction it needs no special place. */
  lemma CloseKeepsInv(m: seq<seq<Cell>>, width: nat, height: nat, counts: seq<seq<int>>,
                      stack: seq<(nat, nat)>, wit: map<(int, int), seq<(int, int)>>, y: nat, x: nat)
    requires IsGrid(m, width, height) && width > 0 && height > 0
    requires Inv(m, width, height, counts, stack, wit, Some((y, x))) && InBounds(y, x, width, height)
    requires forall j :: 0 <= j < 4 ==> RelaxedDir(m, width, height, counts, y, x, AllDirections[j])
    ensures Inv(m, width, height, counts, stack, wit, None)
  {
    forall d
      ensures RelaxedDir(m, width, height, counts, y, x, d)
    {
      AllDirectionsComplete(d);
    }
  }

  /** Once nothing is left to explore, no walk beats the counts. */
  lemma {:induction false} WalkBound(m: seq<seq<Cell>>, width: nat, height: nat, counts: seq<seq<int>>,
                                     p: seq<(int, int)>, i: nat)
    requires IsGrid(m, width, height) && IsGrid(counts, width, height) && width > 0 && height > 0
    requires CountsInRange(counts, width, height) && counts[0][0] == 0
    requires RelaxedOffStack(m, width, height, counts, [], None)
    requires IsWalk(m, width, height, p) && i < |p|
    ensures counts[p[i].0][p[i].1] <= i
  {
    if i > 0 {
      WalkBound(m, width, height, counts, p, i - 1);
      var a: (nat, nat), b: (nat, nat) := p[i - 1], p[i];
      if counts[a.0][a.1] < Unreached {
        var d := AdjacentHasDirection(a, b, width, height);
        assert Relaxed(m, width, height, counts, a.0, a.1);
        assert RelaxedDir(m, width, height, counts, a.0, a.1, d);
      }
    }
  }

  /**
   * Iteration i of the `for d in Direction::iter()` loop of `shortest_path`:
   * the neighbour of (y, x) in direction d, when it is on the grid and not a
   * byte, gets count myCount + 1 and is pushed if that is strictly smaller
   * than its current count.
   */
  method RelaxNeighbour(m: seq<seq<Cell>>, width: nat, height: nat, counts: seq<seq<int>>,
                        stack: seq<(nat, nat)>, ghost wit: map<(int, int), seq<(int, int)>>,
                        y: nat, x: nat, myCount: int, i: nat)
    returns (counts': seq<seq<int>>, stack': seq<(nat, nat)>, ghost wit': map<(int, int), seq<(int, int)>>)
    requires IsGrid(m, width, height) && width > 0 && height > 0 && i < 4
    requires Inv(m, width, height, counts, stack, wit, Some((y, x)))
    requires InBounds(y, x, width, height) && counts[y][x] == myCount < Unreached
    requires forall j :: 0 <= j < i ==> RelaxedDir(m, width, height, counts, y, x, AllDirections[j])
    ensures Inv(m, width, height, counts', stack', wit', Some((y, x)))
    ensures counts'[y][x] == myCount
    ensures forall j :: 0 <= j <= i ==> RelaxedDir(m, width, height, counts', y, x, AllDirections[j])
    ensures GridSum(counts') < GridSum(counts) || (counts' == counts && stack' == stack)
  {
    var d := AllDirections[i];
    counts', stack', wit' := counts, stack, wit;
    var next := Advance(d, y, x, width, height);
    if next.Some? {
      var (ny, nx) := next.value;
      AdvanceAdjacent(d, y, x, width, height);
      if m[ny][nx] != Byte {
        var newScore := myCount + 1;
        if newScore < counts[ny][nx] {
          counts', stack' := Set(counts, ny, nx, newScore), stack + [(ny, nx)];
          wit' := wit[(ny, nx) := wit[(y, x)] + [(ny, nx)]];
          ImproveKeepsInv(m, width, height, counts, stack, wit, y, x, (ny, nx), newScore, counts', stack', wit');
        }
      }
    }
    assert RelaxedDir(m, width, height, counts', y, x, d);
  }

  /** The body of the `while let` loop for the popped cell (y, x): relax all four neighbours. */
  method Expand(m: seq<seq<Cell>>, width: nat, height: nat, counts: seq<seq<int>>,
                stack: seq<(nat, nat)>, ghost wit: map<(int, int), seq<(int, int)>>, y: nat, x: nat)
    returns (counts': seq<seq<int>>, stack': seq<(nat, nat)>, ghost wit': map<(int, int), seq<(int, int)>>)
    requires IsGrid(m, width, height) && width > 0 && height > 0
    requires Inv(m, width, height, counts, stack, wit, Some((y, x)))
    requires InBounds(y, x, width, height) && counts[y][x] < Unreached
    ensures Inv(m, width, height, counts', stack', wit', None)
    ensures GridSum(counts') < GridSum(counts) || (counts' == counts && stack' == stack)
  {
    var myCount := counts[y][x];
    counts', stack', wit' := counts, stack, wit;
    for i := 0 to 4
      invariant Inv(m, width, height, counts', stack', wit', Some((y, x)))
      invariant counts'[y][x] == myCount
      invariant forall j :: 0 <= j < i ==> RelaxedDir(m, width, height, counts', y, x, AllDirections[j])
      invariant GridSum(counts') < GridSum(counts) || (counts' == counts && stack' == stack)
    {
      counts', stack', wit' := RelaxNeighbour(m, width, height, counts', stack', wit', y, x, myCount, i);
    }
    CloseKeepsInv(m, width, height, counts', stack', wit', y, x);
  }

  /** With nothing left to explore, the far corner's count is the shortest walk length. */
  lemma ResultIsShortest(m: seq<seq<Cell>>, width: nat, height: nat, counts: seq<seq<int>>,
                         wit: map<(int, int), seq<(int, int)>>)
    requires IsGrid(m, width, height) && width > 0 && height > 0
    requires Inv(m, width, height, counts, [], wit, None)
    ensures IsShortest(m, width, height, counts[height - 1][width - 1])
  {
    var r := counts[height - 1][width - 1];
    forall p | IsWalkToCorner(m, width, height, p)
      ensures r <= |p| - 1
    {
      WalkBound(m, width, height, counts, p, |p| - 1);
    }
    if r < Unreached {
      assert IsWalkToCorner(m, width, height, wit[(height - 1, width - 1)]);
    }
  }

  /** The state before the first pop: only the corner (0, 0) is reached, with count 0. */
  lemma InitialInv(m: seq<seq<Cell>>, width: nat, height: nat)
    requires IsGrid(m, width, height) && width > 0 && height > 0
    ensures var counts := Set(Filled(width, height, Unreached), 0, 0, 0);
      Inv(m, width, height, counts, [(0, 0)], map[(0, 0) := [(0, 0)]], None) && GridSum(counts) >= 0
  {
    var counts := Set(Filled(width, height, Unreached), 0, 0, 0);
    GridSumNonnegative(counts);
    assert forall y: nat, x: nat :: InBounds(y, x, width, height) && counts[y][x] < Unreached ==> (y, x) == (0, 0);
  }

  /**
   * `shortest_path`: relax counts from a stack until it is empty, then read
   * the far corner.
   */
  method ShortestPath(m: seq<seq<Cell>>, width: nat, height: nat) returns (r: int)
    requires IsGrid(m, width, height) && width > 0 && height > 0
    ensures IsShortest(m, width, height, r)
  {
    var counts := Set(Filled(width, height, Unreached), 0, 0, 0);
    var stack: seq<(nat, nat)> := [(0, 0)];
    ghost var wit: map<(int, int), seq<(int, int)>> := map[(0, 0) := [(0, 0)]];
    InitialInv(m, width, height);
    while stack != []
      invariant Inv(m, width, height, counts, stack, wit, None)
      invariant GridSum(counts) >= 0
      decreases GridSum(counts), |stack|
    {
      PopKeepsInv(m, width, height, counts, stack, wit);
      var (y, x) := stack[|stack| - 1];
      stack := stack[..|stack| - 1];
      counts, stack, wit := Expand(m, width, height, counts, stack, wit, y, x);
      GridSumNonnegative(counts);
    }
    ResultIsShortest(m, width, height, counts, wit);
    r := counts[height - 1][width - 1];
  }
  // ---------------------------------------------------------------------
  // What the reported count means

  /** Cutting out the loop between two visits of one cell leaves a walk with the same ends. */
  lemma CutLoop(m: seq<seq<Cell>>, width: nat, height: nat, p: seq<(int, int)>, c: (int, int), i: nat, j: nat)
    requires IsGrid(m, width, height) && IsWalkTo(m, width, height, p, c)
    requires i < j < |p| && p[i] == p[j]
    ensures IsWalkTo(m, width, height, p[..i + 1] + p[j + 1..], c)
  {
    var q := p[..i + 1] + p[j + 1..];
    var shift := j - i;
    assert forall k :: 0 <= k <= i ==> q[k] == p[k];
    assert forall k :: i < k < |q| ==> q[k] == p[k + shift];
    forall k | 1 <= k < |q|
      ensures m[q[k].0][q[k].1] == Empty && Adjacent(q[k - 1], q[k])
    {
      if k <= i {
      } else if k == i + 1 {
        assert q[k - 1] == p[j];
      } else {
        assert q[k - 1] == p[k - 1 + shift];
      }
    }
    if j == |p| - 1 {
      assert q[|q| - 1] == p[i];
    } else {
      assert q[|q| - 1] == p[|p| - 1];
    }
  }

  /** Some walk to c that visits no cell twice, hence has at most width * height cells. */
  lemma {:induction false} ShortWalk(m: seq<seq<Cell>>, width: nat, height: nat, p: seq<(int, int)>, c: (int, int))
    returns (q: seq<(int, int)>)
    requires IsGrid(m, width, height) && IsWalkTo(m, width, height, p, c)
    ensures IsWalkTo(m, width, height, q, c) && |q| <= width * height
    decreases |p|
  {
    if i, j :| 0 <= i < j < |p| && p[i] == p[j] {
      CutLoop(m, width, height, p, c, i, j);
      q := ShortWalk(m, width, height, p[..i + 1] + p[j + 1..], c);
    } else {
      DistinctCard(p);
      assert (set e | e in p) <= Cells(width, height);
      SubsetCard((set e | e in p), Cells(width, height));
      CellsCard(width, height);
      q := p;
    }
  }

  /**
   * On a grid of at most `usize::MAX` cells the sentinel is reported
   * exactly when the far corner cannot be reached.
   */
  lemma UnreachedIffDisconnected(m: seq<seq<Cell>>, width: nat, height: nat, r: int)
    requires IsGrid(m, width, height) && width > 0 && height > 0 && width * height <= Unreached
    requires IsShortest(m, width, height, r)
    ensures r == Unreached <==> Disconnected(m, width, height)
  {
    if p :| IsWalkToCorner(m, width, height, p) {
      var q := ShortWalk(m, width, height, p, (height - 1, width - 1));
      assert IsWalkToCorner(m, width, height, q);
    }
  }

  /** The search's answer is determined by the grid. */
  lemma ShortestUnique(m: seq<seq<Cell>>, width: nat, height: nat, r: int, r': int)
    requires IsGrid(m, width, height) && width > 0 && height > 0
    requires IsShortest(m, width, height, r) && IsShortest(m, width, height, r')
    ensures r == r'
  {
    if r < Unreached {
      var p :| IsWalkToCorner(m, width, height, p) && |p| - 1 == r;
    }
    if r' < Unreached {
      var p :| IsWalkToCorner(m, width, height, p) && |p| - 1 == r';
    }
  }

  /** A byte on the far corner, when it is not also the start, makes it unreachable. */
  lemma ByteCornerUnreached(m: seq<seq<Cell>>, width: nat, height: nat, r: int)
    requires IsGrid(m, width, height) && width > 0 && height > 0
    requires (height, width) != (1, 1) && m[height - 1][width - 1] == Byte
    requires IsShortest(m, width, height, r)
    ensures r == Unreached
  {
  }

  /** On a one-cell grid the answer is 0, even when that cell holds a byte. */
  lemma SingleCellIsZero(m: seq<seq<Cell>>, r: int)
    requires IsGrid(m, 1, 1) && IsShortest(m, 1, 1, r)
    ensures r == 0
  {
    assert IsWalkToCorner(m, 1, 1, [(0, 0)]);
  }

  // ---------------------------------------------------------------------
  // Placing bytes

  /** Every cell free in m' is free in m: m' holds at least m's bytes. */
  ghost predicate MoreBlocked(m: seq<seq<Cell>>, m': seq<seq<Cell>>, width: nat, height: nat)
    requires IsGrid(m, width, height) && IsGrid(m', width, height)
  {
    forall y, x :: InBounds(y, x, width, height) && m'[y][x] == Empty ==> m[y][x] == Empty
  }

  /** Adding bytes can only make the shortest walk longer (`part_two` relies on it). */
  lemma MoreBytesNeverShorter(m: seq<seq<Cell>>, m': seq<seq<Cell>>, width: nat, height: nat, r: int, r': int)
    requires IsGrid(m, width, height) && IsGrid(m', width, height) && width > 0 && height > 0
    requires MoreBlocked(m, m', width, height)
    requires IsShortest(m, width, height, r) && IsShortest(m', width, height, r')
    ensures r <= r'
  {
    if r' < Unreached {
      var p :| IsWalkToCorner(m', width, height, p) && |p| - 1 == r';
      assert IsWalkToCorner(m, width, height, p);
    }
  }

  lemma MoreBlockedKeepsDisconnected(m: seq<seq<Cell>>, m': seq<seq<Cell>>, width: nat, height: nat)
    requires IsGrid(m, width, height) && IsGrid(m', width, height) && width > 0 && height > 0
    requires MoreBlocked(m, m', width, height) && Disconnected(m, width, height)
    ensures Disconnected(m', width, height)
  {
    if p :| IsWalkToCorner(m', width, height, p) {
      assert IsWalkToCorner(m, width, height, p);
    }
  }

  predicate InGrid(b: Point, width: nat, height: nat)
  {
    b.x < width && b.y < height
  }

  /** `map[b.y][b.x] = Cell::Byte` for each b of `bs` in turn. */
  function WithBytes(m: seq<seq<Cell>>, width: nat, height: nat, bs: seq<Point>): (r: seq<seq<Cell>>)
    requires IsGrid(m, width, height)
    requires forall i :: 0 <= i < |bs| ==> InGrid(bs[i], width, height)
    ensures IsGrid(r, width, height)
  {
    if bs == [] then m
    else
      var b := bs[|bs| - 1];
      var before := WithBytes(m, width, height, bs[..|bs| - 1]);
      assert InGrid(b, width, height);
      assert |before[b.y]| == width;
      Set(before, b.y, b.x, Byte)
  }

  /** A cell holds a byte afterwards exactly when it did before or some listed point names it. */
  lemma {:induction false} WithBytesCells(m: seq<seq<Cell>>, width: nat, height: nat, bs: seq<Point>, y: nat, x: nat)
    requires IsGrid(m, width, height) && InBounds(y, x, width, height)
    requires forall i :: 0 <= i < |bs| ==> InGrid(bs[i], width, height)
    ensures WithBytes(m, width, height, bs)[y][x] == Byte <==>
      (m[y][x] == Byte || exists i :: 0 <= i < |bs| && bs[i] == Point(x, y))
  {
    if bs != [] {
      var k := |bs| - 1;
      WithBytesCells(m, width, height, bs[..k], y, x);
      assert forall i :: 0 <= i < k ==> bs[..k][i] == bs[i];
    }
  }

  /** Placing a longer prefix of the list blocks at least the cells a shorter one does. */
  lemma PrefixMoreBlocked(m: seq<seq<Cell>>, width: nat, height: nat, bs: seq<Point>, j: nat, k: nat)
    requires IsGrid(m, width, height)
    requires forall i :: 0 <= i < |bs| ==> InGrid(bs[i], width, height)
    requires j <= k <= |bs|
    ensures MoreBlocked(WithBytes(m, width, height, bs[..j]), WithBytes(m, width, height, bs[..k]), width, height)
  {
    forall y, x | InBounds(y, x, width, height) && WithBytes(m, width, height, bs[..k])[y][x] == Empty
      ensures WithBytes(m, width, height, bs[..j])[y][x] == Empty
    {
      WithBytesCells(m, width, height, bs[..j], y, x);
      WithBytesCells(m, width, height, bs[..k], y, x);
      assert forall i :: 0 <= i < k ==> bs[..k][i] != Point(x, y);
      assert forall i :: 0 <= i < j ==> bs[..j][i] == bs[..k][i];
    }
  }

  /** One more loop iteration places one more point. */
  lemma WithBytesStep(m: seq<seq<Cell>>, width: nat, height: nat, bs: seq<Point>, i: nat)
    requires IsGrid(m, width, height)
    requires forall j :: 0 <= j < |bs| ==> InGrid(bs[j], width, height)
    requires i < |bs|
    ensures WithBytes(m, width, height, bs[..i + 1]) ==
            Set(WithBytes(m, width, height, bs[..i]), bs[i].y, bs[i].x, Byte)
  {
    assert bs[..i + 1][..i] == bs[..i];
  }

  /** The empty 71 x 71 memory both parts start from. */
  function Blank(): (g: seq<seq<Cell>>)
    ensures IsGrid(g, Side, Side)
  {
    Filled(Side, Side, Empty)
  }

  /** `part_one`: block the first 1024 listed points and search. */
  method PartOne(bytes: seq<Point>) returns (r: int)
    requires forall i :: 0 <= i < |bytes| && i < 1024 ==> InGrid(bytes[i], Side, Side)
    ensures var n := if |bytes| < 1024 then |bytes| else 1024;
      IsShortest(WithBytes(Blank(), Side, Side, bytes[..n]), Side, Side, r)
  {
    var n := if |bytes| < 1024 then |bytes| else 1024;
    var m := Blank();
    for i := 0 to n
      invariant m == WithBytes(Blank(), Side, Side, bytes[..i])
    {
      WithBytesStep(Blank(), Side, Side, bytes[..n], i);
      assert bytes[..n][..i + 1] == bytes[..i + 1] && bytes[..n][..i] == bytes[..i];
      m := Set(m, bytes[i].y, bytes[i].x, Byte);
    }
    r := ShortestPath(m, Side, Side);
  }

  /** The far corner is cut off once the first k + 1 points are blocked. */
  ghost predicate DisconnectedAfter(bytes: seq<Point>, k: nat)
    requires forall i :: 0 <= i < |bytes| ==> InGrid(bytes[i], Side, Side)
    requires k < |bytes|
  {
    Disconnected(WithBytes(Blank(), Side, Side, bytes[..k + 1]), Side, Side)
  }

  /** Once cut off, the corner stays cut off as more points fall. */
  lemma DisconnectedStays(bytes: seq<Point>, k: nat, j: nat)
    requires forall i :: 0 <= i < |bytes| ==> InGrid(bytes[i], Side, Side)
    requires k <= j < |bytes| && DisconnectedAfter(bytes, k)
    ensures DisconnectedAfter(bytes, j)
  {
    PrefixMoreBlocked(Blank(), Side, Side, bytes, k + 1, j + 1);
    MoreBlockedKeepsDisconnected(WithBytes(Blank(), Side, Side, bytes[..k + 1]),
                                 WithBytes(Blank(), Side, Side, bytes[..j + 1]), Side, Side);
  }

  /** `format!("{},{}", b.x, b.y)`. */
  function Format(b: Point): string
  {
    Decimal.ToDecimal(b.x) + "," + Decimal.ToDecimal(b.y)
  }

  /** The answer text names one point only. */
  lemma FormatInjective(a: Point, b: Point)
    requires Format(a) == Format(b)
    ensures a == b
  {
    var ax, bx := Decimal.ToDecimal(a.x), Decimal.ToDecimal(b.x);
    var s := Format(a);
    assert s == bx + "," + Decimal.ToDecimal(b.y);
    assert s[|ax|] == ',' && s[|bx|] == ',';
    assert forall i :: 0 <= i < |ax| ==> s[i] == ax[i] && Decimal.IsDigit(s[i]);
    assert forall i :: 0 <= i < |bx| ==> s[i] == bx[i] && Decimal.IsDigit(s[i]);
    assert ax == s[..|ax|] == bx;
    Decimal.ToDecimalInjective(a.x, b.x);
    assert Decimal.ToDecimal(a.y) == s[|ax| + 1..] == Decimal.ToDecimal(b.y);
    Decimal.ToDecimalInjective(a.y, b.y);
  }

  /** The test `shortest_path(&map) == usize::MAX` after the first k + 1 points. */
  lemma CountTellsDisconnected(bytes: seq<Point>, k: nat, m: seq<seq<Cell>>, count: int)
    requires forall i :: 0 <= i < |bytes| ==> InGrid(bytes[i], Side, Side)
    requires k < |bytes| && m == WithBytes(Blank(), Side, Side, bytes[..k + 1])
    requires IsShortest(m, Side, Side, count)
    ensures count == Unreached <==> DisconnectedAfter(bytes, k)
  {
    UnreachedIffDisconnected(m, Side, Side, count);
  }

  /** No prefix of the first n points cuts the corner off. */
  ghost predicate NoneDisconnected(bytes: seq<Point>, n: nat)
    requires forall i :: 0 <= i < |bytes| ==> InGrid(bytes[i], Side, Side)
    requires n <= |bytes|
  {
    forall j :: 0 <= j < n ==> !DisconnectedAfter(bytes, j)
  }

  lemma NoneDisconnectedStep(bytes: seq<Point>, n: nat)
    requires forall i :: 0 <= i < |bytes| ==> InGrid(bytes[i], Side, Side)
    requires n < |bytes| && NoneDisconnected(bytes, n) && !DisconnectedAfter(bytes, n)
    ensures NoneDisconnected(bytes, n + 1)
  {
  }

  /**
   * `part_two`: block the points one by one and report the first after
   * which the corner cannot be reached. None stands for the final panic.
   */
  method PartTwo(bytes: seq<Point>) returns (r: Option<string>)
    requires forall i :: 0 <= i < |bytes| ==> InGrid(bytes[i], Side, Side)
    ensures r.Some? ==> exists k :: 0 <= k < |bytes| && r.value == Format(bytes[k]) &&
                                    DisconnectedAfter(bytes, k) && NoneDisconnected(bytes, k)
    ensures r.None? <==> NoneDisconnected(bytes, |bytes|)
  {
    var m := Blank();
    for i := 0 to |bytes|
      invariant m == WithBytes(Blank(), Side, Side, bytes[..i])
      invariant NoneDisconnected(bytes, i)
    {
      WithBytesStep(Blank(), Side, Side, bytes, i);
      m := Set(m, bytes[i].y, bytes[i].x, Byte);
      var count := ShortestPath(m, Side, Side);
      CountTellsDisconnected(bytes, i, m, count);
      if count == Unreached {
        r := Some(Format(bytes[i]));
        return;
      }
      NoneDisconnectedStep(bytes, i);
    }
    r := None;
  }
}
