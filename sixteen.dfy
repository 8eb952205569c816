/**
 * Day sixteen: the reindeer maze. A reindeer stands on a cell facing one of
 * four directions; a step to an orthogonal neighbour that is not a wall costs
 * 1 when it keeps the facing and 1001 when the facing changes (a flat penalty,
 * the same for a quarter turn and for a reversal).
 *
 * `min_path` (part one) keeps one cost per cell; `min_path2` (part two) keeps
 * one cost and a tie-aware predecessor list per (cell, facing) state, then
 * walks the predecessor lists back from the End cell and counts the cells it
 * meets. Both are stack-driven label-correcting relaxations.
 */
module Sixteen {
  import opened Grids
  import Arith

  datatype Cell = Wall | Empty | Start | End

  /** `usize::MAX`, the cost of a state not reached yet. */
  const Unreached: int := 0xFFFF_FFFF_FFFF_FFFF

  /** `d as usize`: the slot of a facing in the cost table. */
  function Index(d: Direction): (i: nat)
    ensures i < 4 && AllDirections[i] == d
  {
    match d
    case Up => 0
    case Down => 1
    case Left => 2
    case Right => 3
  }

  /** Cost of a step taken facing `nd` by a reindeer that was facing `d`. */
  function StepCost(d: Direction, nd: Direction): nat
  {
    if nd == d then 1 else 1001
  }

  /**
   * The search problem: the map and its size, the start cell and facing
   * handed to the search, and the End cell that `map.position` finds.
   */
  datatype Maze = Maze(grid: seq<seq<Cell>>, width: nat, height: nat,
                       sy: nat, sx: nat, facing: Direction, ey: nat, ex: nat)

  ghost predicate ValidMaze(z: Maze)
  {
    IsGrid(z.grid, z.width, z.height) &&
    InBounds(z.sy, z.sx, z.width, z.height) &&
    InBounds(z.ey, z.ex, z.width, z.height)
  }

  /** A search state `(y, x, d)`: the reindeer on (y, x) facing `d`. */
  datatype State = State(y: nat, x: nat, d: Direction)

  predicate InMaze(z: Maze, s: State)
  {
    s.y < z.height && s.x < z.width
  }

  predicate IsStartCell(z: Maze, s: State)
  {
    s.y == z.sy && s.x == z.sx
  }

  predicate IsEndCell(z: Maze, s: State)
  {
    s.y == z.ey && s.x == z.ex
  }

  /**
   * The states the second search expands: none at the End cell, and at the
   * start cell only the initial facing (the other three start facings are
   * pinned at cost 0 and never pushed).
   */
  predicate Expanded(z: Maze, s: State)
  {
    !IsEndCell(z, s) && (IsStartCell(z, s) ==> s.d == z.facing)
  }

  /**
   * The state reached by stepping from `p` in direction `nd`: `advance`
   * followed by the wall test of the relaxation loop.
   */
  function Step(z: Maze, p: State, nd: Direction): (r: Option<State>)
    requires ValidMaze(z) && InMaze(z, p)
    ensures var a := Advance(nd, p.y, p.x, z.width, z.height);
      r.Some? <==> (a.Some? && z.grid[a.value.0][a.value.1] != Wall)
    ensures r.Some? ==>
      (InMaze(z, r.value) && r.value.d == nd && z.grid[r.value.y][r.value.x] != Wall &&
       Adjacent((p.y, p.x), (r.value.y, r.value.x)))
  {
    match Advance(nd, p.y, p.x, z.width, z.height)
    case None => None
    case Some(n) => if z.grid[n.0][n.1] == Wall then None else Some(State(n.0, n.1, nd))
  }

  // ---------------------------------------------------------------------
  // The cost table of `min_path2`: `costs[d as usize][y][x]`.
  // ---------------------------------------------------------------------

  /** `CostEntry`: the best cost found for a state and the states it was reached from at that cost. */
  datatype CostEntry = CostEntry(cost: int, positions: seq<State>)

  /** `CostEntry::new()`. */
  const Fresh: CostEntry := CostEntry(Unreached, [])

  type Table = seq<seq<seq<CostEntry>>>

  ghost predicate Shaped(z: Maze, t: Table)
  {
    |t| == 4 && forall i :: 0 <= i < 4 ==> IsGrid(t[i], z.width, z.height)
  }

  function Entry(z: Maze, t: Table, s: State): CostEntry
    requires Shaped(z, t) && InMaze(z, s)
  {
    t[Index(s.d)][s.y][s.x]
  }

  function Cost(z: Maze, t: Table, s: State): int
    requires Shaped(z, t) && InMaze(z, s)
  {
    Entry(z, t, s).cost
  }

  function Preds(z: Maze, t: Table, s: State): seq<State>
    requires Shaped(z, t) && InMaze(z, s)
  {
    Entry(z, t, s).positions
  }

  /** The table with the entry of `s` replaced by `e`. */
  function Put(z: Maze, t: Table, s: State, e: CostEntry): (r: Table)
    requires Shaped(z, t) && InMaze(z, s)
    ensures Shaped(z, r)
    ensures Entry(z, r, s) == e
    ensures forall q :: InMaze(z, q) && q != s ==> Entry(z, r, q) == Entry(z, t, q)
  {
    t[Index(s.d) := Set(t[Index(s.d)], s.y, s.x, e)]
  }

  // ---------------------------------------------------------------------
  // Invariant of the relaxation loop of `min_path2`.
  // ---------------------------------------------------------------------

  /** The edge from `p` in direction `nd` is relaxed, ties included. */
  ghost predicate RelaxedDir(z: Maze, t: Table, p: State, nd: Direction)
    requires ValidMaze(z) && Shaped(z, t) && InMaze(z, p)
  {
    match Step(z, p, nd)
    case None => true
    case Some(s) =>
      Cost(z, t, s) <= Cost(z, t, p) + StepCost(p.d, nd) &&
      (Cost(z, t, s) == Cost(z, t, p) + StepCost(p.d, nd) ==> p in Preds(z, t, s))
  }

  ghost predicate Relaxed(z: Maze, t: Table, p: State)
    requires ValidMaze(z) && Shaped(z, t) && InMaze(z, p)
  {
    forall nd :: RelaxedDir(z, t, p, nd)
  }

  /** `p` is being expanded and its edge facing `s.d` has not been relaxed yet. */
  predicate Pending(cur: Option<(State, nat)>, p: State, s: State)
  {
    cur.Some? && cur.value.0 == p && Index(s.d) >= cur.value.1
  }

  /**
   * `p`, recorded as a predecessor of `s`, is an expanded state with an edge
   * to `s` whose cost is at most that of `s`, and exactly that unless `p`
   * still waits to be expanded.
   */
  ghost predicate PredOk(z: Maze, t: Table, stack: seq<State>, cur: Option<(State, nat)>, s: State, p: State)
    requires ValidMaze(z) && Shaped(z, t)
  {
    InMaze(z, p) && Expanded(z, p) && Step(z, p, s.d) == Some(s) &&
    Cost(z, t, p) < Unreached && Cost(z, t, p) + StepCost(p.d, s.d) <= Cost(z, t, s) &&
    (Cost(z, t, p) + StepCost(p.d, s.d) == Cost(z, t, s) || p in stack || Pending(cur, p, s))
  }

  /** Facts about the costs alone: range, the pinned start facings, walls, predecessor lists of reached states. */
  ghost predicate CostsOk(z: Maze, t: Table)
    requires ValidMaze(z) && Shaped(z, t)
  {
    (forall s :: InMaze(z, s) ==> 0 <= Cost(z, t, s) <= Unreached) &&
    (forall s :: InMaze(z, s) && IsStartCell(z, s) ==> Cost(z, t, s) == 0 && Preds(z, t, s) == []) &&
    (forall s {:trigger Cost(z, t, s)} :: InMaze(z, s) && !IsStartCell(z, s) && z.grid[s.y][s.x] == Wall ==> Cost(z, t, s) == Unreached) &&
    (forall s :: InMaze(z, s) && !IsStartCell(z, s) && Cost(z, t, s) < Unreached ==> |Preds(z, t, s)| > 0)
  }

  ghost predicate StackOk(z: Maze, stack: seq<State>)
  {
    forall k :: 0 <= k < |stack| ==>
      InMaze(z, stack[k]) && (IsStartCell(z, stack[k]) ==> stack[k].d == z.facing)
  }

  ghost predicate OnMaze(z: Maze, stack: seq<State>)
  {
    forall k :: 0 <= k < |stack| ==> InMaze(z, stack[k])
  }

  ghost predicate PredsOk(z: Maze, t: Table, stack: seq<State>, cur: Option<(State, nat)>)
    requires ValidMaze(z) && Shaped(z, t)
  {
    forall s :: InMaze(z, s) ==>
      forall k :: 0 <= k < |Preds(z, t, s)| ==> PredOk(z, t, stack, cur, s, Preds(z, t, s)[k])
  }

  /** Every reached expanded state that is neither on the stack nor being expanded has all its edges relaxed. */
  ghost predicate RelaxedOff(z: Maze, t: Table, stack: seq<State>, cur: Option<(State, nat)>)
    requires ValidMaze(z) && Shaped(z, t)
  {
    forall p {:trigger Relaxed(z, t, p)} ::
      (InMaze(z, p) && Expanded(z, p) && Cost(z, t, p) < Unreached && p !in stack &&
       !(cur.Some? && cur.value.0 == p)) ==> Relaxed(z, t, p)
  }

  ghost predicate CurOk(z: Maze, t: Table, cur: Option<(State, nat)>)
    requires ValidMaze(z) && Shaped(z, t)
  {
    cur.Some? ==>
      InMaze(z, cur.value.0) && Expanded(z, cur.value.0) && cur.value.1 <= 4 &&
      forall j :: 0 <= j < cur.value.1 ==> RelaxedDir(z, t, cur.value.0, AllDirections[j])
  }

  ghost predicate Inv(z: Maze, t: Table, stack: seq<State>, cur: Option<(State, nat)>)
  {
    ValidMaze(z) && Shaped(z, t) && CostsOk(z, t) && StackOk(z, stack) &&
    PredsOk(z, t, stack, cur) && RelaxedOff(z, t, stack, cur) && CurOk(z, t, cur)
  }

  // ---------------------------------------------------------------------
  // Termination measure: the sum of all costs, then a weight of the stack.
  // ---------------------------------------------------------------------

  function CostGrid(g: seq<seq<CostEntry>>): seq<seq<int>>
  {
    seq(|g|, y requires 0 <= y < |g| => seq(|g[y]|, x requires 0 <= x < |g[y]| => g[y][x].cost))
  }

  function TotalCost(t: Table): int
    requires |t| == 4
  {
    GridSum(CostGrid(t[0])) + GridSum(CostGrid(t[1])) + GridSum(CostGrid(t[2])) + GridSum(CostGrid(t[3]))
  }

  lemma {:induction false} CostGridSet(g: seq<seq<CostEntry>>, y: nat, x: nat, e: CostEntry)
    requires y < |g| && x < |g[y]|
    ensures CostGrid(Set(g, y, x, e)) == Set(CostGrid(g), y, x, e.cost)
  {
    var a, b := CostGrid(Set(g, y, x, e)), Set(CostGrid(g), y, x, e.cost);
    assert |a| == |b|;
    forall i | 0 <= i < |a|
      ensures a[i] == b[i]
    {
      assert |a[i]| == |b[i]|;
    }
  }

  lemma {:induction false} TotalCostPut(z: Maze, t: Table, s: State, e: CostEntry)
    requires Shaped(z, t) && InMaze(z, s)
    ensures TotalCost(Put(z, t, s, e)) == TotalCost(t) - Cost(z, t, s) + e.cost
  {
    var i := Index(s.d);
    var g := t[i];
    CostGridSet(g, s.y, s.x, e);
    GridSumUpdate(CostGrid(g), s.y, s.x, e.cost);
    var r := Put(z, t, s, e);
    forall j | 0 <= j < 4 && j != i
      ensures r[j] == t[j]
    {
    }
  }

  lemma {:induction false} TotalCostNonnegative(z: Maze, t: Table)
    requires Shaped(z, t)
    requires forall s :: InMaze(z, s) ==> 0 <= Cost(z, t, s)
    ensures TotalCost(t) >= 0
  {
    forall i | 0 <= i < 4
      ensures GridSum(CostGrid(t[i])) >= 0
    {
      var g := CostGrid(t[i]);
      forall y, x | 0 <= y < |g| && 0 <= x < |g[y]|
        ensures g[y][x] >= 0
      {
        assert Cost(z, t, State(y, x, AllDirections[i])) == g[y][x];
      }
      GridSumNonnegative(g);
    }
  }

  function Pow5(k: int): (p: nat)
    ensures p >= 1
  {
    if k <= 0 then 1 else 5 * Pow5(k - 1)
  }

  lemma {:induction false} Pow5Monotone(i: int, j: int)
    requires i <= j
    ensures Pow5(i) <= Pow5(j)
    decreases j - i
  {
    if i < j {
      Pow5Monotone(i, j - 1);
      assert Pow5(j - 1) <= Pow5(j);
    }
  }

  /** A stack entry weighs more the cheaper its state is. */
  function Rank(c: int): nat
  {
    Pow5(Unreached + 1 - c)
  }

  lemma {:induction false} RankStep(c: int, c': int)
    requires c <= Unreached && c < c'
    ensures Rank(c) == 5 * Rank(c + 1) && Rank(c') <= Rank(c + 1)
  {
    Pow5Monotone(Unreached + 1 - c', Unreached - c);
  }

  /** Two tables that agree on every cost (they may differ in predecessor lists). */
  ghost predicate SameCosts(z: Maze, t: Table, t': Table)
    requires Shaped(z, t) && Shaped(z, t')
  {
    forall s {:trigger Cost(z, t', s)} :: InMaze(z, s) ==> Cost(z, t', s) == Cost(z, t, s)
  }

  lemma {:induction false} SameCostsTrans(z: Maze, t: Table, t': Table, t'': Table)
    requires Shaped(z, t) && Shaped(z, t') && Shaped(z, t'')
    requires SameCosts(z, t, t') && SameCosts(z, t', t'')
    ensures SameCosts(z, t, t'')
  {
  }

  ghost function Weight(z: Maze, t: Table, stack: seq<State>): nat
    requires Shaped(z, t) && OnMaze(z, stack)
  {
    if stack == [] then 0
    else Weight(z, t, stack[..|stack| - 1]) + Rank(Cost(z, t, stack[|stack| - 1]))
  }

  lemma {:induction false} WeightPush(z: Maze, t: Table, stack: seq<State>, s: State)
    requires Shaped(z, t) && OnMaze(z, stack) && InMaze(z, s)
    ensures OnMaze(z, stack + [s])
    ensures Weight(z, t, stack + [s]) == Weight(z, t, stack) + Rank(Cost(z, t, s))
  {
    assert (stack + [s])[..|stack|] == stack;
  }

  lemma {:induction false} WeightAppend(z: Maze, t: Table, a: seq<State>, b: seq<State>)
    requires Shaped(z, t) && OnMaze(z, a) && OnMaze(z, b)
    ensures OnMaze(z, a + b)
    ensures Weight(z, t, a + b) == Weight(z, t, a) + Weight(z, t, b)
    decreases |b|
  {
    if b != [] {
      var k := |b| - 1;
      assert (a + b)[..|a + b| - 1] == a + b[..k];
      WeightAppend(z, t, a, b[..k]);
    } else {
      assert a + b == a;
    }
  }

  /** Entries that all cost more than `c` weigh at most a fifth of `Rank(c)` each. */
  lemma {:induction false} HeavierBound(z: Maze, t: Table, b: seq<State>, c: int)
    requires Shaped(z, t) && OnMaze(z, b) && c <= Unreached
    requires forall k :: 0 <= k < |b| ==> Cost(z, t, b[k]) > c
    ensures Weight(z, t, b) <= |b| * Rank(c + 1)
  {
    if b != [] {
      var k := |b| - 1;
      HeavierBound(z, t, b[..k], c);
      RankStep(c, Cost(z, t, b[k]));
      Arith.MulSuccLeft(k, Rank(c + 1));
    }
  }

  /** After an expansion that lowered no cost, the stack weighs less than before the pop. */
  lemma {:induction false} PushedWeight(z: Maze, t: Table, t': Table, stack: seq<State>, pushed: seq<State>, c: int)
    requires Shaped(z, t) && Shaped(z, t') && OnMaze(z, stack) && c <= Unreached
    requires |pushed| <= 4 && OnMaze(z, stack + pushed)
    requires Progress(z, t, stack, c, t', stack + pushed, pushed)
    ensures TotalCost(t') == TotalCost(t) ==> Weight(z, t', stack + pushed) < Weight(z, t, stack) + Rank(c)
  {
    if TotalCost(t') == TotalCost(t) {
      WeightSame(z, t, t', stack + pushed);
      WeightAppend(z, t, stack, pushed);
      HeavierBound(z, t, pushed, c);
      RankStep(c, c + 1);
      Arith.MulLess(|pushed|, 5, Rank(c + 1));
    }
  }

  lemma {:induction false} WeightSame(z: Maze, t: Table, t': Table, stack: seq<State>)
    requires Shaped(z, t) && Shaped(z, t') && OnMaze(z, stack) && SameCosts(z, t, t')
    ensures Weight(z, t', stack) == Weight(z, t, stack)
  {
    if stack != [] {
      WeightSame(z, t, t', stack[..|stack| - 1]);
    }
  }

  // ---------------------------------------------------------------------
  // One relaxation step keeps the invariant.
  // ---------------------------------------------------------------------

  /** Lowering the cost of `s` keeps every other relaxed edge relaxed. */
  lemma {:induction false} LowerKeepsRelaxedDir(z: Maze, t: Table, t': Table, s: State, e: CostEntry, q: State, nd: Direction)
    requires ValidMaze(z) && Shaped(z, t) && InMaze(z, s) && InMaze(z, q) && q != s
    requires t' == Put(z, t, s, e)
    requires e.cost < Cost(z, t, s) || (e.cost == Cost(z, t, s) && forall r :: r in Preds(z, t, s) ==> r in e.positions)
    requires RelaxedDir(z, t, q, nd)
    ensures RelaxedDir(z, t', q, nd)
  {
  }

  /** The entry `min_path2` writes for `s` when stepping from `p` costs `v`, no more than the cost of `s`. */
  function Improved(z: Maze, t: Table, p: State, s: State, v: int): CostEntry
    requires Shaped(z, t) && InMaze(z, s)
  {
    if v < Cost(z, t, s) then CostEntry(v, [p]) else CostEntry(Cost(z, t, s), Preds(z, t, s) + [p])
  }

  lemma {:induction false} UpdatePreds(z: Maze, t: Table, stack: seq<State>, p: State, i: nat, s: State, t': Table)
    requires Inv(z, t, stack, Some((p, i))) && i < 4
    requires Step(z, p, AllDirections[i]) == Some(s)
    requires Cost(z, t, p) + StepCost(p.d, s.d) <= Cost(z, t, s)
    requires t' == Put(z, t, s, Improved(z, t, p, s, Cost(z, t, p) + StepCost(p.d, s.d)))
    ensures PredsOk(z, t', stack + [s], Some((p, i + 1)))
  {
    forall q | InMaze(z, q)
      ensures forall k :: 0 <= k < |Preds(z, t', q)| ==> PredOk(z, t', stack + [s], Some((p, i + 1)), q, Preds(z, t', q)[k])
    {
      forall k | 0 <= k < |Preds(z, t', q)|
        ensures PredOk(z, t', stack + [s], Some((p, i + 1)), q, Preds(z, t', q)[k])
      {
        UpdatePred(z, t, stack, p, i, s, t', q, k);
      }
    }
  }

  /** One entry of the predecessor lists after the update, recorded earlier or just now. */
  lemma UpdatePred(z: Maze, t: Table, stack: seq<State>, p: State, i: nat, s: State, t': Table, q: State, k: nat)
    requires Inv(z, t, stack, Some((p, i))) && i < 4
    requires Step(z, p, AllDirections[i]) == Some(s)
    requires Cost(z, t, p) + StepCost(p.d, s.d) <= Cost(z, t, s)
    requires t' == Put(z, t, s, Improved(z, t, p, s, Cost(z, t, p) + StepCost(p.d, s.d)))
    requires InMaze(z, q) && k < |Preds(z, t', q)|
    ensures PredOk(z, t', stack + [s], Some((p, i + 1)), q, Preds(z, t', q)[k])
  {
    var v := Cost(z, t, p) + StepCost(p.d, s.d);
    var e := Improved(z, t, p, s, v);
    assert s != p;
    PutKeeps(z, t, s, e, p);
    var stack' := stack + [s];
    assert s in stack';
    if q != s || (v == Cost(z, t, s) && k < |Preds(z, t, q)|) {
      var r := Preds(z, t, q)[k];
      assert Preds(z, t', q)[k] == r;
      assert PredOk(z, t, stack, Some((p, i)), q, r);
      if r != s {
        PutKeeps(z, t, s, e, r);
      }
      if q != s {
        PutKeeps(z, t, s, e, q);
      }
      var j: nat := i + 1;
      var cur, cur' := Some((p, i)), Some((p, j));
      if r == p && Index(q.d) == i {
        assert AllDirections[i] == q.d && q == s;
      }
      KeptPredOk(z, t, t', stack, stack', cur, cur', q, r);
    } else {
      assert Preds(z, t', q)[k] == p;
    }
  }

  /**
   * A recorded predecessor stays well recorded when its target keeps its cost,
   * it gets no dearer, and it is pushed again if it got cheaper.
   */
  lemma KeptPredOk(z: Maze, t: Table, t': Table, stack: seq<State>, stack': seq<State>,
                   cur: Option<(State, nat)>, cur': Option<(State, nat)>, q: State, r: State)
    requires ValidMaze(z) && Shaped(z, t) && Shaped(z, t') && InMaze(z, q)
    requires PredOk(z, t, stack, cur, q, r)
    requires Cost(z, t', q) == Cost(z, t, q) && Cost(z, t', r) <= Cost(z, t, r)
    requires Cost(z, t', r) < Cost(z, t, r) ==> r in stack'
    requires r in stack ==> r in stack'
    requires Pending(cur, r, q) ==> Pending(cur', r, q) || Cost(z, t, r) + StepCost(r.d, q.d) == Cost(z, t, q)
    ensures PredOk(z, t', stack', cur', q, r)
  {
  }

  lemma {:induction false} UpdateRelaxed(z: Maze, t: Table, stack: seq<State>, p: State, i: nat, s: State, t': Table)
    requires Inv(z, t, stack, Some((p, i))) && i < 4
    requires Step(z, p, AllDirections[i]) == Some(s)
    requires Cost(z, t, p) + StepCost(p.d, s.d) <= Cost(z, t, s)
    requires t' == Put(z, t, s, Improved(z, t, p, s, Cost(z, t, p) + StepCost(p.d, s.d)))
    ensures RelaxedOff(z, t', stack + [s], Some((p, i + 1))) && CurOk(z, t', Some((p, i + 1)))
  {
    var stack', cur, cur' := stack + [s], Some((p, i)), Some((p, i + 1));
    var e := Improved(z, t, p, s, Cost(z, t, p) + StepCost(p.d, s.d));
    assert s != p;
    forall q {:trigger Relaxed(z, t', q)} | InMaze(z, q) && Expanded(z, q) && Cost(z, t', q) < Unreached &&
      q !in stack' && !(cur'.Some? && cur'.value.0 == q)
      ensures Relaxed(z, t', q)
    {
      assert Relaxed(z, t, q);
      forall nd
        ensures RelaxedDir(z, t', q, nd)
      {
        assert RelaxedDir(z, t, q, nd);
        LowerKeepsRelaxedDir(z, t, t', s, e, q, nd);
      }
    }
    forall j | 0 <= j < i + 1
      ensures RelaxedDir(z, t', p, AllDirections[j])
    {
      if j < i {
        LowerKeepsRelaxedDir(z, t, t', s, e, p, AllDirections[j]);
      }
    }
  }

  /** Relaxing the edge from `p` to `s` when it does not lose: overwrite or append, and push `s`. */
  lemma {:induction false} UpdateStep(z: Maze, t: Table, stack: seq<State>, p: State, i: nat, s: State, t': Table)
    requires Inv(z, t, stack, Some((p, i))) && i < 4
    requires Step(z, p, AllDirections[i]) == Some(s)
    requires Cost(z, t, p) + StepCost(p.d, s.d) <= Cost(z, t, s)
    requires t' == Put(z, t, s, Improved(z, t, p, s, Cost(z, t, p) + StepCost(p.d, s.d)))
    ensures Inv(z, t', stack + [s], Some((p, i + 1)))
  {
    assert s != p;
    UpdatePreds(z, t, stack, p, i, s, t');
    UpdateRelaxed(z, t, stack, p, i, s, t');
  }

  /** Relaxing an edge that loses, or a step into a wall or off the map, changes nothing. */
  lemma {:induction false} SkipStep(z: Maze, t: Table, stack: seq<State>, p: State, i: nat)
    requires Inv(z, t, stack, Some((p, i))) && i < 4
    requires Step(z, p, AllDirections[i]).Some? ==>
      Cost(z, t, p) + StepCost(p.d, AllDirections[i]) > Cost(z, t, Step(z, p, AllDirections[i]).value)
    ensures Inv(z, t, stack, Some((p, i + 1)))
  {
    var cur, cur' := Some((p, i)), Some((p, i + 1));
    forall q | InMaze(z, q)
      ensures forall k :: 0 <= k < |Preds(z, t, q)| ==> PredOk(z, t, stack, cur', q, Preds(z, t, q)[k])
    {
      forall k | 0 <= k < |Preds(z, t, q)|
        ensures PredOk(z, t, stack, cur', q, Preds(z, t, q)[k])
      {
        var r := Preds(z, t, q)[k];
        assert PredOk(z, t, stack, cur, q, r);
        assert r == p && Index(q.d) == i ==> Step(z, p, AllDirections[i]) == Some(q);
      }
    }
  }

  lemma {:induction false} PopStep(z: Maze, t: Table, stack: seq<State>)
    requires Inv(z, t, stack, None) && stack != [] && !IsEndCell(z, stack[|stack| - 1])
    ensures Inv(z, t, stack[..|stack| - 1], Some((stack[|stack| - 1], 0)))
  {
    var p, rest := stack[|stack| - 1], stack[..|stack| - 1];
    assert stack == rest + [p];
    forall q | InMaze(z, q)
      ensures forall k :: 0 <= k < |Preds(z, t, q)| ==> PredOk(z, t, rest, Some((p, 0)), q, Preds(z, t, q)[k])
    {
      forall k | 0 <= k < |Preds(z, t, q)|
        ensures PredOk(z, t, rest, Some((p, 0)), q, Preds(z, t, q)[k])
      {
        assert PredOk(z, t, stack, None, q, Preds(z, t, q)[k]);
      }
    }
  }

  /** A state at the End cell is popped and dropped. */
  lemma {:induction false} PopEndStep(z: Maze, t: Table, stack: seq<State>)
    requires Inv(z, t, stack, None) && stack != [] && IsEndCell(z, stack[|stack| - 1])
    ensures Inv(z, t, stack[..|stack| - 1], None)
  {
    var p, rest := stack[|stack| - 1], stack[..|stack| - 1];
    assert stack == rest + [p];
    forall q | InMaze(z, q)
      ensures forall k :: 0 <= k < |Preds(z, t, q)| ==> PredOk(z, t, rest, None, q, Preds(z, t, q)[k])
    {
      forall k | 0 <= k < |Preds(z, t, q)|
        ensures PredOk(z, t, rest, None, q, Preds(z, t, q)[k])
      {
        assert PredOk(z, t, stack, None, q, Preds(z, t, q)[k]);
      }
    }
  }

  lemma {:induction false} CloseStep(z: Maze, t: Table, stack: seq<State>, p: State)
    requires Inv(z, t, stack, Some((p, 4)))
    ensures Inv(z, t, stack, None)
  {
    forall q | InMaze(z, q)
      ensures forall k :: 0 <= k < |Preds(z, t, q)| ==> PredOk(z, t, stack, None, q, Preds(z, t, q)[k])
    {
      forall k | 0 <= k < |Preds(z, t, q)|
        ensures PredOk(z, t, stack, None, q, Preds(z, t, q)[k])
      {
        assert PredOk(z, t, stack, Some((p, 4)), q, Preds(z, t, q)[k]);
      }
    }
    assert Relaxed(z, t, p) by {
      forall nd
        ensures RelaxedDir(z, t, p, nd)
      {
        assert AllDirections[Index(nd)] == nd;
      }
    }
  }

  /**
   * The invariant while `p` is being expanded, its first `i` edges relaxed.
   */
  ghost predicate Expanding(z: Maze, t: Table, stack: seq<State>, p: State, i: nat)
  {
    Inv(z, t, stack, Some((p, i)))
  }

  /** Relaxes the edge from `p` in the `i`-th direction of `Direction::iter()`. */
  method Relax(z: Maze, t: Table, stack: seq<State>, p: State, i: nat)
    returns (t': Table, stack': seq<State>, ghost added: seq<State>)
    requires Expanding(z, t, stack, p, i) && i < 4
    ensures Expanding(z, t', stack', p, i + 1)
    ensures Cost(z, t', p) == Cost(z, t, p)
    ensures TotalCost(t') <= TotalCost(t)
    ensures TotalCost(t') < TotalCost(t) || SameCosts(z, t, t')
    ensures stack' == stack + added && |added| <= 1
    ensures forall k :: 0 <= k < |added| ==> InMaze(z, added[k]) && Cost(z, t', added[k]) > Cost(z, t, p)
  {
    var nd := AllDirections[i];
    var next := Step(z, p, nd);
    if next.None? {
      SkipStep(z, t, stack, p, i);
      return t, stack, [];
    }
    var s := next.value;
    assert s != p;
    var score := Cost(z, t, p);
    var newScore := score + StepCost(p.d, nd);
    if newScore < Cost(z, t, s) {
      var e := CostEntry(newScore, [p]);
      t' := Put(z, t, s, e);
      stack', added := stack + [s], [s];
      UpdateStep(z, t, stack, p, i, s, t');
      TotalCostPut(z, t, s, e);
      PutKeeps(z, t, s, e, p);
    } else if newScore == Cost(z, t, s) {
      var e := CostEntry(Cost(z, t, s), Preds(z, t, s) + [p]);
      t' := Put(z, t, s, e);
      stack', added := stack + [s], [s];
      UpdateStep(z, t, stack, p, i, s, t');
      TotalCostPut(z, t, s, e);
      PutKeeps(z, t, s, e, p);
      PutSameCosts(z, t, s, e);
    } else {
      SkipStep(z, t, stack, p, i);
      t', stack', added := t, stack, [];
    }
  }

  /** Replacing the entry of `s` leaves the cost of every other state alone. */
  lemma PutKeeps(z: Maze, t: Table, s: State, e: CostEntry, q: State)
    requires Shaped(z, t) && InMaze(z, s) && InMaze(z, q) && q != s
    ensures Cost(z, Put(z, t, s, e), q) == Cost(z, t, q)
  {
  }

  /** Replacing the entry of `s` by one of the same cost changes no cost. */
  lemma PutSameCosts(z: Maze, t: Table, s: State, e: CostEntry)
    requires Shaped(z, t) && InMaze(z, s) && e.cost == Cost(z, t, s)
    ensures SameCosts(z, t, Put(z, t, s, e))
  {
  }

  /**
   * What an expansion of `p` at cost `c` has done so far, from table `t` and
   * stack `stack`: it pushed `pushed` and lowered no cost, or lowered the total.
   */
  ghost predicate Progress(z: Maze, t: Table, stack: seq<State>, c: int, t': Table, stack': seq<State>, pushed: seq<State>)
    requires Shaped(z, t) && Shaped(z, t')
  {
    TotalCost(t') <= TotalCost(t) && stack' == stack + pushed &&
    (TotalCost(t') == TotalCost(t) ==>
      SameCosts(z, t, t') && forall k :: 0 <= k < |pushed| ==> InMaze(z, pushed[k]) && Cost(z, t, pushed[k]) > c)
  }

  lemma {:induction false} ProgressStep(z: Maze, t: Table, stack: seq<State>, c: int, t1: Table, pushed: seq<State>,
                     t2: Table, stack2: seq<State>, added: seq<State>)
    requires Shaped(z, t) && Shaped(z, t1) && Shaped(z, t2)
    requires Progress(z, t, stack, c, t1, stack + pushed, pushed)
    requires TotalCost(t2) <= TotalCost(t1) && (TotalCost(t2) < TotalCost(t1) || SameCosts(z, t1, t2))
    requires stack2 == stack + pushed + added
    requires forall k :: 0 <= k < |added| ==> InMaze(z, added[k]) && Cost(z, t2, added[k]) > c
    ensures Progress(z, t, stack, c, t2, stack2, pushed + added)
  {
    assert (stack + pushed) + added == stack + (pushed + added);
    if TotalCost(t2) == TotalCost(t) {
      SameCostsTrans(z, t, t1, t2);
    }
  }

  /** Pops nothing itself: relaxes the four edges of the popped state `p`, in `Direction::iter()` order. */
  method Expand(z: Maze, t: Table, stack: seq<State>, p: State)
    returns (t': Table, stack': seq<State>, ghost pushed: seq<State>)
    requires Expanding(z, t, stack, p, 0)
    ensures Expanding(z, t', stack', p, 4)
    ensures Progress(z, t, stack, Cost(z, t, p), t', stack', pushed) && |pushed| <= 4
  {
    ghost var c := Cost(z, t, p);
    t', stack', pushed := t, stack, [];
    for i := 0 to 4
      invariant Expanding(z, t', stack', p, i) && Cost(z, t', p) == c
      invariant Progress(z, t, stack, c, t', stack', pushed) && |pushed| <= i
    {
      ghost var t1, added := t', [];
      t', stack', added := Relax(z, t', stack', p, i);
      ProgressStep(z, t, stack, c, t1, pushed, t', stack', added);
      pushed := pushed + added;
    }
  }

  /**
   * The table of the first search of `min_path2`: every start facing at
   * cost 0, every other state unreached, all predecessor lists empty.
   */
  method InitialTable(z: Maze) returns (t: Table)
    requires ValidMaze(z)
    ensures Shaped(z, t)
    ensures forall s :: InMaze(z, s) ==>
      Entry(z, t, s) == if IsStartCell(z, s) then CostEntry(0, []) else Fresh
  {
    var blank := Filled(z.width, z.height, Fresh);
    t := [blank, blank, blank, blank];
    for i := 0 to 4
      invariant Shaped(z, t)
      invariant forall s {:trigger Entry(z, t, s)} :: InMaze(z, s) ==>
        Entry(z, t, s) == if IsStartCell(z, s) && Index(s.d) < i then CostEntry(0, []) else Fresh
    {
      var s := State(z.sy, z.sx, AllDirections[i]);
      t := Put(z, t, s, Entry(z, t, s).(cost := 0));
    }
  }

  lemma {:induction false} InitialInv(z: Maze, t: Table)
    requires ValidMaze(z) && Shaped(z, t)
    requires forall s :: InMaze(z, s) ==>
      Entry(z, t, s) == if IsStartCell(z, s) then CostEntry(0, []) else Fresh
    ensures Inv(z, t, [State(z.sy, z.sx, z.facing)], None)
  {
    var stack := [State(z.sy, z.sx, z.facing)];
    assert forall p :: InMaze(z, p) && Expanded(z, p) && p !in stack ==> Cost(z, t, p) == Unreached;
  }

  /** The facts the relaxation loop of `min_path2` leaves behind once the stack is empty. */
  ghost predicate Solved(z: Maze, t: Table)
  {
    ValidMaze(z) && Shaped(z, t) && CostsOk(z, t) &&
    (forall s :: InMaze(z, s) ==>
      forall k :: 0 <= k < |Preds(z, t, s)| ==> Tight(z, t, s, Preds(z, t, s)[k])) &&
    AllRelaxed(z, t)
  }

  /** The part of `Solved` that bounds costs from above: costs in range, every reached edge relaxed. */
  ghost predicate Complete(z: Maze, t: Table)
  {
    ValidMaze(z) && Shaped(z, t) && CostsOk(z, t) && AllRelaxed(z, t)
  }

  /** Every reached expanded state has all its edges relaxed. */
  ghost predicate AllRelaxed(z: Maze, t: Table)
    requires ValidMaze(z) && Shaped(z, t)
  {
    forall p {:trigger Relaxed(z, t, p)} ::
      InMaze(z, p) && Expanded(z, p) && Cost(z, t, p) < Unreached ==> Relaxed(z, t, p)
  }

  /** `p` is an expanded state with an edge to `s` and cost(p) + step(p -> s) == cost(s). */
  ghost predicate Tight(z: Maze, t: Table, s: State, p: State)
    requires ValidMaze(z) && Shaped(z, t)
  {
    InMaze(z, p) && Expanded(z, p) && Step(z, p, s.d) == Some(s) &&
    Cost(z, t, p) + StepCost(p.d, s.d) == Cost(z, t, s)
  }

  lemma {:induction false} FinalSolved(z: Maze, t: Table)
    requires Inv(z, t, [], None)
    ensures Solved(z, t)
  {
    forall q | InMaze(z, q)
      ensures forall k :: 0 <= k < |Preds(z, t, q)| ==> Tight(z, t, q, Preds(z, t, q)[k])
    {
      forall k | 0 <= k < |Preds(z, t, q)|
        ensures Tight(z, t, q, Preds(z, t, q)[k])
      {
        assert PredOk(z, t, [], None, q, Preds(z, t, q)[k]);
      }
    }
  }

  /** The work-list loop of `min_path2`: the tie-aware relaxation from the start state. */
  method SearchTable(z: Maze) returns (t: Table)
    requires ValidMaze(z)
    ensures Solved(z, t)
  {
    t := InitialTable(z);
    var stack := [State(z.sy, z.sx, z.facing)];
    InitialInv(z, t);
    while stack != []
      invariant Inv(z, t, stack, None)
      decreases TotalCost(t), Weight(z, t, stack)
    {
      TotalCostNonnegative(z, t);
      var p := stack[|stack| - 1];
      var rest := stack[..|stack| - 1];
      assert Weight(z, t, stack) == Weight(z, t, rest) + Rank(Cost(z, t, p));
      if IsEndCell(z, p) {
        PopEndStep(z, t, stack);
        stack := rest;
      } else {
        PopStep(z, t, stack);
        ghost var t0 := t;
        ghost var pushed;
        t, stack, pushed := Expand(z, t, rest, p);
        CloseStep(z, t, stack, p);
        PushedWeight(z, t0, t, rest, pushed, Cost(z, t0, p));
      }
    }
    FinalSolved(z, t);
  }

  // ---------------------------------------------------------------------
  // Paths through the maze and what the solved table says about them.
  // ---------------------------------------------------------------------

  /**
   * A move of the second search: from an expanded state to a non-wall
   * neighbour, facing the direction of the step, never back onto the start cell.
   */
  ghost predicate Edge(z: Maze, p: State, s: State)
    requires ValidMaze(z) && InMaze(z, p)
  {
    Expanded(z, p) && Step(z, p, s.d) == Some(s) && !IsStartCell(z, s)
  }

  /** A sequence of moves, starting anywhere. */
  ghost predicate IsWalk(z: Maze, w: seq<State>)
    requires ValidMaze(z)
  {
    |w| >= 1 && (forall i :: 0 <= i < |w| ==> InMaze(z, w[i])) &&
    forall i :: 1 <= i < |w| ==> Edge(z, w[i - 1], w[i])
  }

  /** The score of a walk: 1 per step that keeps the facing, 1001 per step that changes it. */
  function WalkCost(w: seq<State>): nat
  {
    if |w| <= 1 then 0 else WalkCost(w[..|w| - 1]) + StepCost(w[|w| - 2].d, w[|w| - 1].d)
  }

  /** A walk from the initial state. */
  ghost predicate IsPath(z: Maze, w: seq<State>)
    requires ValidMaze(z)
  {
    IsWalk(z, w) && w[0] == State(z.sy, z.sx, z.facing)
  }

  /** A path that ends on the End cell, the first time it gets there. */
  ghost predicate ToEnd(z: Maze, w: seq<State>)
    requires ValidMaze(z)
  {
    IsPath(z, w) && IsEndCell(z, w[|w| - 1])
  }

  /** `m` is the lowest score of a path to the End cell. */
  ghost predicate OptimalCost(z: Maze, m: int)
    requires ValidMaze(z)
  {
    (exists w :: ToEnd(z, w) && WalkCost(w) == m) &&
    forall w :: ToEnd(z, w) ==> m <= WalkCost(w)
  }

  /** Cell `c` lies on some path to the End cell whose score is `m`. */
  ghost predicate OnPathOfCost(z: Maze, m: int, c: (int, int))
    requires ValidMaze(z)
  {
    exists w: seq<State>, i: int :: ToEnd(z, w) && WalkCost(w) == m && 0 <= i < |w| && (w[i].y, w[i].x) == c
  }

  /** The tiles that are part of at least one best path through the maze. */
  ghost function OptimalTiles(z: Maze, m: int): set<(int, int)>
    requires ValidMaze(z)
  {
    set c | c in Cells(z.width, z.height) && OnPathOfCost(z, m, c)
  }

  lemma {:induction false} WalkCostSplit(w: seq<State>, i: nat)
    requires i < |w|
    ensures WalkCost(w[..i + 1]) + WalkCost(w[i..]) == WalkCost(w)
    decreases |w|
  {
    if i < |w| - 1 {
      var k := |w| - 1;
      WalkCostSplit(w[..k], i);
      assert w[..k][..i + 1] == w[..i + 1];
      assert w[i..][..|w[i..]| - 1] == w[..k][i..];
    } else {
      assert w[..i + 1] == w;
    }
  }

  lemma {:induction false} WalkAppend(z: Maze, w: seq<State>, s: State)
    requires ValidMaze(z) && IsWalk(z, w) && InMaze(z, s) && Edge(z, w[|w| - 1], s)
    ensures IsWalk(z, w + [s])
    ensures WalkCost(w + [s]) == WalkCost(w) + StepCost(w[|w| - 1].d, s.d)
  {
    var u := w + [s];
    forall i | 0 <= i < |u|
      ensures InMaze(z, u[i])
    {
      if i < |w| {
        assert u[i] == w[i];
      }
    }
    forall i | 1 <= i < |u|
      ensures Edge(z, u[i - 1], u[i])
    {
      if i < |w| {
        assert u[i - 1] == w[i - 1] && u[i] == w[i];
      }
    }
    WalkCostAppend(w, s);
  }

  lemma {:induction false} WalkCostAppend(w: seq<State>, s: State)
    requires |w| >= 1
    ensures WalkCost(w + [s]) == WalkCost(w) + StepCost(w[|w| - 1].d, s.d)
  {
    assert (w + [s])[..|w|] == w;
  }

  lemma {:induction false} WalkSlice(z: Maze, w: seq<State>, i: nat, j: nat)
    requires ValidMaze(z) && IsWalk(z, w) && i < j <= |w|
    ensures IsWalk(z, w[i..j])
  {
    var u := w[i..j];
    forall k | 0 <= k < |u|
      ensures InMaze(z, u[k])
    {
      assert u[k] == w[i + k];
    }
    forall k | 1 <= k < |u|
      ensures Edge(z, u[k - 1], u[k])
    {
      assert u[k - 1] == w[i + k - 1] && u[k] == w[i + k];
    }
  }

  /**
   * Completeness of the solved table: no walk leads to a cost lower than the
   * cost of its first state plus the walk's score.
   */
  lemma NoCheaperWalk(z: Maze, t: Table, w: seq<State>)
    requires Complete(z, t) && IsWalk(z, w)
    ensures Cost(z, t, w[|w| - 1]) <= Cost(z, t, w[0]) + WalkCost(w)
  {
    NoCheaperPrefix(z, t, w, |w|);
    assert w[..|w|] == w;
  }

  /** The same bound for the walk's first `n` states, by induction on `n`. */
  lemma {:induction false} NoCheaperPrefix(z: Maze, t: Table, w: seq<State>, n: nat)
    requires Complete(z, t) && IsWalk(z, w) && 1 <= n <= |w|
    ensures Cost(z, t, w[n - 1]) <= Cost(z, t, w[0]) + WalkCost(w[..n])
  {
    if n > 1 {
      NoCheaperPrefix(z, t, w, n - 1);
      PrefixStep(w, n - 2);
      var p, s := w[n - 2], w[n - 1];
      assert Edge(z, p, s);
      if Cost(z, t, p) < Unreached {
        assert Relaxed(z, t, p);
        assert RelaxedDir(z, t, p, s.d);
      }
    }
  }

  /** Soundness of the solved table: a reached state off the start cell is reached by a path of exactly its cost. */
  lemma {:induction false} PathOfCost(z: Maze, t: Table, s: State) returns (w: seq<State>)
    requires Solved(z, t) && InMaze(z, s) && !IsStartCell(z, s) && Cost(z, t, s) < Unreached
    ensures IsPath(z, w) && w[|w| - 1] == s && WalkCost(w) == Cost(z, t, s)
    decreases Cost(z, t, s)
  {
    var p := Preds(z, t, s)[0];
    assert Tight(z, t, s, p);
    if IsStartCell(z, p) {
      w := [p, s];
      assert w[..1] == [p];
    } else {
      var v := PathOfCost(z, t, p);
      WalkAppend(z, v, s);
      w := v + [s];
    }
  }

  /** The first `n` states of a predecessor chain: `c[0]` is the seed and `c[i]` a predecessor of `c[i - 1]`. */
  ghost predicate Chain(z: Maze, t: Table, c: seq<State>)
    requires Shaped(z, t)
  {
    |c| >= 1 && (forall i :: 0 <= i < |c| ==> InMaze(z, c[i])) &&
    forall i :: 1 <= i < |c| ==> c[i] in Preds(z, t, c[i - 1])
  }

  /** `v` is met by the backward walk seeded at `e`. */
  ghost predicate Reached(z: Maze, t: Table, e: State, v: State)
    requires Shaped(z, t)
  {
    exists c :: Chain(z, t, c) && c[0] == e && c[|c| - 1] == v
  }

  lemma {:induction false} ReachedSeed(z: Maze, t: Table, e: State)
    requires Shaped(z, t) && InMaze(z, e)
    ensures Reached(z, t, e, e)
  {
    assert Chain(z, t, [e]);
  }

  lemma {:induction false} ReachedPred(z: Maze, t: Table, e: State, v: State, p: State)
    requires Shaped(z, t) && Reached(z, t, e, v) && InMaze(z, v) && p in Preds(z, t, v) && InMaze(z, p)
    ensures Reached(z, t, e, p)
  {
    var c: seq<State> :| Chain(z, t, c) && c[0] == e && c[|c| - 1] == v;
    assert Chain(z, t, c + [p]);
    assert (c + [p])[0] == e;
  }

  /** Read backwards, a chain of tight predecessors is a walk whose score is the drop in cost. */
  lemma {:induction false} ChainWalk(z: Maze, t: Table, c: seq<State>)
    requires Solved(z, t) && Chain(z, t, c)
    ensures IsWalk(z, Reverse(c))
    ensures Cost(z, t, c[|c| - 1]) + WalkCost(Reverse(c)) == Cost(z, t, c[0])
    decreases |c|
  {
    if |c| > 1 {
      var r := Reverse(c);
      var tail := c[1..];
      assert Chain(z, t, tail) by {
        forall i | 1 <= i < |tail|
          ensures tail[i] in Preds(z, t, tail[i - 1])
        {
          assert tail[i] == c[i + 1] && tail[i - 1] == c[i];
        }
      }
      ChainWalk(z, t, tail);
      var rt := Reverse(tail);
      assert r == rt + [c[0]];
      assert c[1] in Preds(z, t, c[0]);
      var k :| 0 <= k < |Preds(z, t, c[0])| && Preds(z, t, c[0])[k] == c[1];
      assert Tight(z, t, c[0], c[1]);
      assert rt[|rt| - 1] == c[1];
      assert !IsStartCell(z, c[0]);
      WalkAppend(z, rt, c[0]);
    }
  }

  function Reverse<T>(s: seq<T>): (r: seq<T>)
    ensures |r| == |s| && forall i :: 0 <= i < |s| ==> r[i] == s[|s| - 1 - i]
  {
    if s == [] then [] else Reverse(s[1..]) + [s[0]]
  }

  lemma {:induction false} WalkConcat(z: Maze, a: seq<State>, b: seq<State>)
    requires ValidMaze(z) && IsWalk(z, a) && IsWalk(z, b) && a[|a| - 1] == b[0]
    ensures IsWalk(z, a + b[1..])
    ensures WalkCost(a + b[1..]) == WalkCost(a) + WalkCost(b)
  {
    var u := a + b[1..];
    forall i | 1 <= i < |u|
      ensures Edge(z, u[i - 1], u[i])
    {
      if i >= |a| {
        assert u[i - 1] == b[i - |a|] && u[i] == b[i - |a| + 1];
      }
    }
    WalkCostConcat(a, b);
  }

  lemma {:induction false} WalkCostConcat(a: seq<State>, b: seq<State>)
    requires |a| >= 1 && |b| >= 1 && a[|a| - 1] == b[0]
    ensures WalkCost(a + b[1..]) == WalkCost(a) + WalkCost(b)
    decreases |b|
  {
    if |b| == 1 {
      assert a + b[1..] == a;
    } else {
      var k := |b| - 1;
      var b' := b[..k];
      WalkCostConcat(a, b');
      var u := a + b'[1..];
      assert b[1..] == b'[1..] + [b[k]];
      assert a + b[1..] == u + [b[k]];
      assert u[|u| - 1] == b[k - 1];
      WalkCostAppend(u, b[k]);
      WalkCostAppend(b', b[k]);
      assert b' + [b[k]] == b;
    }
  }

  // ---------------------------------------------------------------------
  // The best paths and the backward walk over the predecessor lists.
  // ---------------------------------------------------------------------

  /** The state at the End cell facing the `j`-th direction. */
  function EndState(z: Maze, j: nat): State
    requires j < 4
  {
    State(z.ey, z.ex, AllDirections[j])
  }

  /** `Direction::iter().map(|d| costs[d][end_y][end_x].cost).min()`. */
  function MinEndCost(z: Maze, t: Table): (m: int)
    requires ValidMaze(z) && Shaped(z, t)
    ensures forall j :: 0 <= j < 4 ==> m <= Cost(z, t, EndState(z, j))
    ensures exists j :: 0 <= j < 4 && m == Cost(z, t, EndState(z, j))
  {
    var c0, c1 := Cost(z, t, EndState(z, 0)), Cost(z, t, EndState(z, 1));
    var c2, c3 := Cost(z, t, EndState(z, 2)), Cost(z, t, EndState(z, 3));
    var a := if c1 < c0 then c1 else c0;
    var b := if c2 < a then c2 else a;
    if c3 < b then c3 else b
  }

  /** The solved table tells the best score: the cheapest End facing. */
  lemma {:induction false} MinEndIsOptimal(z: Maze, t: Table)
    requires Solved(z, t) && MinEndCost(z, t) < Unreached
    ensures OptimalCost(z, MinEndCost(z, t))
  {
    var m := MinEndCost(z, t);
    var j :| 0 <= j < 4 && m == Cost(z, t, EndState(z, j));
    var e := EndState(z, j);
    if IsStartCell(z, e) {
      var w := [State(z.sy, z.sx, z.facing)];
      assert ToEnd(z, w) && WalkCost(w) == m;
    } else {
      var w := PathOfCost(z, t, e);
      assert ToEnd(z, w);
    }
    forall w: seq<State> | ToEnd(z, w)
      ensures m <= WalkCost(w)
    {
      NoCheaperWalk(z, t, w);
      var l := w[|w| - 1];
      assert l == EndState(z, Index(l.d));
    }
  }

  /** Only one score is the best, and a best score below `usize::MAX` is the cheapest End facing. */
  lemma {:induction false} OptimalIsMinEnd(z: Maze, t: Table, m: int)
    requires Solved(z, t) && OptimalCost(z, m) && m < Unreached
    ensures MinEndCost(z, t) == m
  {
    var w: seq<State> :| ToEnd(z, w) && WalkCost(w) == m;
    NoCheaperWalk(z, t, w);
    var l := w[|w| - 1];
    assert l == EndState(z, Index(l.d));
    MinEndIsOptimal(z, t);
    var w': seq<State> :| ToEnd(z, w') && WalkCost(w') == MinEndCost(z, t);
  }

  /** Every state the backward walk meets from a cheapest End facing lies on a best path. */
  lemma {:induction false} ReachedOnBestPath(z: Maze, t: Table, j: nat, v: State)
    requires Solved(z, t) && j < 4 && Cost(z, t, EndState(z, j)) == MinEndCost(z, t) < Unreached
    requires Reached(z, t, EndState(z, j), v)
    ensures OnPathOfCost(z, MinEndCost(z, t), (v.y, v.x))
  {
    var c: seq<State> :| Chain(z, t, c) && c[0] == EndState(z, j) && c[|c| - 1] == v;
    if IsStartCell(z, v) {
      StartOnBestPath(z, t);
    } else {
      ChainOnBestPath(z, t, c);
    }
  }

  /** When the End is reachable, the start tile is on a best path. */
  lemma {:induction false} StartOnBestPath(z: Maze, t: Table)
    requires Solved(z, t) && MinEndCost(z, t) < Unreached
    ensures OnPathOfCost(z, MinEndCost(z, t), (z.sy, z.sx))
  {
    MinEndIsOptimal(z, t);
    var w: seq<State> :| ToEnd(z, w) && WalkCost(w) == MinEndCost(z, t);
    OnPathWitness(z, MinEndCost(z, t), w, 0);
  }

  /** A path of least cost to the last state of a chain, then the chain backwards, is a best path. */
  lemma {:induction false} ChainOnBestPath(z: Maze, t: Table, c: seq<State>)
    requires Solved(z, t) && Chain(z, t, c) && IsEndCell(z, c[0]) && Cost(z, t, c[0]) == MinEndCost(z, t) < Unreached
    requires !IsStartCell(z, c[|c| - 1])
    ensures OnPathOfCost(z, MinEndCost(z, t), (c[|c| - 1].y, c[|c| - 1].x))
  {
    var v := c[|c| - 1];
    ChainWalk(z, t, c);
    var back := Reverse(c);
    var q := PathOfCost(z, t, v);
    WalkConcat(z, q, back);
    var w := q + back[1..];
    assert w[|w| - 1] == c[0];
    assert w[|q| - 1] == v;
    OnPathWitness(z, MinEndCost(z, t), w, |q| - 1);
  }

  lemma {:induction false} OnPathWitness(z: Maze, m: int, w: seq<State>, i: nat)
    requires ValidMaze(z) && ToEnd(z, w) && WalkCost(w) == m && i < |w|
    ensures OnPathOfCost(z, m, (w[i].y, w[i].x))
  {
  }

  /** Along a best path, every state costs exactly the score of the path so far. */
  lemma {:induction false} BestPathTight(z: Maze, t: Table, w: seq<State>, i: nat)
    requires Solved(z, t) && ToEnd(z, w) && WalkCost(w) == MinEndCost(z, t) && i < |w|
    ensures Cost(z, t, w[i]) == WalkCost(w[..i + 1])
  {
    var l := w[|w| - 1];
    assert l == EndState(z, Index(l.d));
    assert Cost(z, t, l) >= WalkCost(w);
    PrefixBound(z, t, w, i);
    SuffixBound(z, t, w, i);
    WalkCostSplit(w, i);
  }

  /** A state on a path costs at most the score of the path up to it. */
  lemma PrefixBound(z: Maze, t: Table, w: seq<State>, i: nat)
    requires Complete(z, t) && IsPath(z, w) && i < |w|
    ensures Cost(z, t, w[i]) <= WalkCost(w[..i + 1])
  {
    WalkSlice(z, w, 0, i + 1);
    NoCheaperWalk(z, t, w[..i + 1]);
    assert w[..i + 1][0] == w[0] && IsStartCell(z, w[0]);
  }

  /** The last state of a walk costs at most a state on it plus the score of the rest. */
  lemma SuffixBound(z: Maze, t: Table, w: seq<State>, i: nat)
    requires Complete(z, t) && IsWalk(z, w) && i < |w|
    ensures Cost(z, t, w[|w| - 1]) <= Cost(z, t, w[i]) + WalkCost(w[i..])
  {
    WalkSlice(z, w, i, |w|);
    NoCheaperWalk(z, t, w[i..]);
  }

  /** Each state of a best path is a recorded predecessor of the next one. */
  lemma {:induction false} BestPathPred(z: Maze, t: Table, w: seq<State>, i: nat)
    requires Solved(z, t) && ToEnd(z, w) && WalkCost(w) == MinEndCost(z, t) < Unreached
    requires i + 1 < |w|
    ensures w[i] in Preds(z, t, w[i + 1])
  {
    BestPathTight(z, t, w, i);
    BestPathTight(z, t, w, i + 1);
    PrefixStep(w, i);
    TightEdgeIsPred(z, t, w[i], w[i + 1]);
  }

  /** One more step of a walk adds its cost to the score of the prefix, which never exceeds the whole score. */
  lemma PrefixStep(w: seq<State>, i: nat)
    requires i + 1 < |w|
    ensures WalkCost(w[..i + 2]) == WalkCost(w[..i + 1]) + StepCost(w[i].d, w[i + 1].d)
    ensures WalkCost(w[..i + 1]) <= WalkCost(w)
  {
    assert w[..i + 2][..i + 1] == w[..i + 1];
    WalkCostSplit(w, i);
  }

  /** An edge out of a reached state along which the cost grows by exactly the step is recorded. */
  lemma TightEdgeIsPred(z: Maze, t: Table, p: State, s: State)
    requires Complete(z, t) && InMaze(z, p) && Edge(z, p, s)
    requires Cost(z, t, p) < Unreached && Cost(z, t, s) == Cost(z, t, p) + StepCost(p.d, s.d)
    ensures p in Preds(z, t, s)
  {
    assert Relaxed(z, t, p);
    assert RelaxedDir(z, t, p, s.d);
  }

  /** The backward walk from the last state of a best path meets every state of it. */
  lemma {:induction false} BestPathReached(z: Maze, t: Table, w: seq<State>, i: nat)
    requires Solved(z, t) && ToEnd(z, w) && WalkCost(w) == MinEndCost(z, t) < Unreached
    requires i < |w|
    ensures Reached(z, t, w[|w| - 1], w[i])
    decreases |w| - i
  {
    if i == |w| - 1 {
      ReachedSeed(z, t, w[i]);
    } else {
      BestPathReached(z, t, w, i + 1);
      BestPathPred(z, t, w, i);
      ReachedPred(z, t, w[|w| - 1], w[i + 1], w[i]);
    }
  }

  /** The states met from the cheapest End facings. */
  ghost predicate MetFrom(z: Maze, t: Table, k: nat, v: State)
    requires ValidMaze(z) && Shaped(z, t) && k <= 4
  {
    exists j :: 0 <= j < k && Cost(z, t, EndState(z, j)) <= MinEndCost(z, t) && Reached(z, t, EndState(z, j), v)
  }

  /** One more end facing seeded: the states met grow by those reached from it, if it is a best end. */
  lemma MetStep(z: Maze, t: Table, j: nat, met: set<State>, visited: set<State>)
    requires ValidMaze(z) && Shaped(z, t) && j < 4
    requires forall v :: v in met <==> InMaze(z, v) && MetFrom(z, t, j, v)
    requires Cost(z, t, EndState(z, j)) <= MinEndCost(z, t) ==>
      forall v :: v in visited <==> InMaze(z, v) && Reached(z, t, EndState(z, j), v)
    requires Cost(z, t, EndState(z, j)) > MinEndCost(z, t) ==> visited == {}
    ensures forall v :: v in met + visited <==> InMaze(z, v) && MetFrom(z, t, j + 1, v)
  {
    forall v
      ensures v in met + visited <==> InMaze(z, v) && MetFrom(z, t, j + 1, v)
    {
      if InMaze(z, v) && MetFrom(z, t, j + 1, v) {
        var i :| 0 <= i < j + 1 && Cost(z, t, EndState(z, i)) <= MinEndCost(z, t) && Reached(z, t, EndState(z, i), v);
        if i < j {
          assert MetFrom(z, t, j, v);
        } else {
          assert v in visited;
        }
      }
      if v in met {
        var i :| 0 <= i < j && Cost(z, t, EndState(z, i)) <= MinEndCost(z, t) && Reached(z, t, EndState(z, i), v);
        assert MetFrom(z, t, j + 1, v);
      }
      if v in visited {
        assert Cost(z, t, EndState(z, j)) <= MinEndCost(z, t) && Reached(z, t, EndState(z, j), v);
      }
    }
  }

  function CellsOf(v: set<State>): set<(int, int)>
  {
    set s | s in v :: (s.y, s.x)
  }

  lemma {:induction false} CellsOfAdd(v: set<State>, s: State)
    ensures CellsOf(v + {s}) == CellsOf(v) + {(s.y, s.x)}
  {
  }

  lemma {:induction false} CellsOfUnion(v: set<State>, w: set<State>)
    ensures CellsOf(v + w) == CellsOf(v) + CellsOf(w)
  {
  }

  /** The cells met by the backward walk from all cheapest End facings are exactly the tiles of the best paths. */
  lemma {:induction false} TilesAreBest(z: Maze, t: Table, seen: set<State>)
    requires Solved(z, t) && MinEndCost(z, t) < Unreached
    requires forall v :: v in seen <==> InMaze(z, v) && MetFrom(z, t, 4, v)
    ensures CellsOf(seen) == OptimalTiles(z, MinEndCost(z, t))
  {
    var m := MinEndCost(z, t);
    forall c | c in CellsOf(seen)
      ensures c in OptimalTiles(z, m)
    {
      var v: State :| v in seen && c == (v.y, v.x);
      MetOnBestPath(z, t, v);
      InCells(v.y, v.x, z.width, z.height);
    }
    forall c | c in OptimalTiles(z, m)
      ensures c in CellsOf(seen)
    {
      var v := BestTileMet(z, t, c);
    }
  }

  lemma {:induction false} MetOnBestPath(z: Maze, t: Table, v: State)
    requires Solved(z, t) && MinEndCost(z, t) < Unreached && InMaze(z, v) && MetFrom(z, t, 4, v)
    ensures OnPathOfCost(z, MinEndCost(z, t), (v.y, v.x))
  {
    var j :| 0 <= j < 4 && Cost(z, t, EndState(z, j)) <= MinEndCost(z, t) && Reached(z, t, EndState(z, j), v);
    ReachedOnBestPath(z, t, j, v);
  }

  lemma {:induction false} BestTileMet(z: Maze, t: Table, c: (int, int)) returns (v: State)
    requires Solved(z, t) && MinEndCost(z, t) < Unreached && c in OptimalTiles(z, MinEndCost(z, t))
    ensures InMaze(z, v) && MetFrom(z, t, 4, v) && c == (v.y, v.x)
  {
    var w: seq<State>, i: int :| ToEnd(z, w) && WalkCost(w) == MinEndCost(z, t) && 0 <= i < |w| && (w[i].y, w[i].x) == c;
    BestPathReached(z, t, w, i);
    var l := w[|w| - 1];
    var j := Index(l.d);
    assert l == EndState(z, j);
    EndBound(z, t, w);
    v := w[i];
    MetWitness(z, t, j, v);
  }

  /** The End state a path reaches costs at most the score of the path. */
  lemma EndBound(z: Maze, t: Table, w: seq<State>)
    requires Complete(z, t) && IsPath(z, w)
    ensures Cost(z, t, w[|w| - 1]) <= WalkCost(w)
  {
    NoCheaperWalk(z, t, w);
    assert IsStartCell(z, w[0]);
  }

  lemma MetWitness(z: Maze, t: Table, j: nat, v: State)
    requires ValidMaze(z) && Shaped(z, t) && j < 4
    requires Cost(z, t, EndState(z, j)) <= MinEndCost(z, t) && Reached(z, t, EndState(z, j), v)
    ensures MetFrom(z, t, 4, v)
  {
  }

  /** Every state of the maze: the backward walk visits each at most once. */
  ghost function AllStates(z: Maze): set<State>
  {
    set y: nat, x: nat, k | y < z.height && x < z.width && 0 <= k < 4 :: State(y, x, AllDirections[k])
  }

  lemma {:induction false} InAllStates(z: Maze, s: State)
    requires InMaze(z, s)
    ensures s in AllStates(z)
  {
    assert s == State(s.y, s.x, AllDirections[Index(s.d)]);
  }

  lemma {:induction false} FewerUnvisited(all: set<State>, seen: set<State>, s: State)
    requires s in all && s !in seen
    ensures |all - (seen + {s})| < |all - seen|
  {
    assert all - seen == (all - (seen + {s})) + {s};
  }

  /** Every recorded predecessor is a state of the maze. */
  ghost predicate PredsInMaze(z: Maze, t: Table)
    requires Shaped(z, t)
  {
    forall s, k :: InMaze(z, s) && 0 <= k < |Preds(z, t, s)| ==> InMaze(z, Preds(z, t, s)[k])
  }

  lemma {:induction false} SolvedPredsInMaze(z: Maze, t: Table)
    requires Solved(z, t)
    ensures PredsInMaze(z, t)
  {
    forall s, k | InMaze(z, s) && 0 <= k < |Preds(z, t, s)|
      ensures InMaze(z, Preds(z, t, s)[k])
    {
      assert Tight(z, t, s, Preds(z, t, s)[k]);
    }
  }

  /** Everything on the stack of the backward walk from `e`, or visited by it, is met from `e`. */
  ghost predicate WalkMet(z: Maze, t: Table, e: State, stack: seq<State>, visited: set<State>)
    requires Shaped(z, t)
  {
    (forall k :: 0 <= k < |stack| ==> InMaze(z, stack[k]) && Reached(z, t, e, stack[k])) &&
    (forall v :: v in visited ==> InMaze(z, v) && Reached(z, t, e, v))
  }

  /** The seed is visited or pending, and so is every predecessor of a visited state. */
  ghost predicate WalkClosed(z: Maze, t: Table, e: State, stack: seq<State>, visited: set<State>)
    requires Shaped(z, t)
  {
    (e in visited || e in stack) &&
    forall v, k :: v in visited && InMaze(z, v) && 0 <= k < |Preds(z, t, v)| ==>
      Preds(z, t, v)[k] in visited || Preds(z, t, v)[k] in stack
  }

  lemma {:induction false} PopVisited(z: Maze, t: Table, e: State, stack: seq<State>, visited: set<State>)
    requires Shaped(z, t) && WalkClosed(z, t, e, stack, visited) && stack != []
    requires stack[|stack| - 1] in visited
    ensures WalkClosed(z, t, e, stack[..|stack| - 1], visited)
  {
    PopKeeps(stack, visited, []);
  }

  /** What was on the stack is, after popping its last element `s`, still there or visited. */
  lemma {:induction false} PopKeeps(stack: seq<State>, visited: set<State>, ps: seq<State>)
    requires stack != []
    ensures forall q :: q in stack ==> q in visited + {stack[|stack| - 1]} || q in stack[..|stack| - 1] + ps
  {
    var rest := stack[..|stack| - 1];
    forall q | q in stack
      ensures q in visited + {stack[|stack| - 1]} || q in rest + ps
    {
      var k :| 0 <= k < |stack| && stack[k] == q;
      if k < |rest| {
        assert (rest + ps)[k] == q;
      }
    }
  }

  lemma {:induction false} PopUnvisited(z: Maze, t: Table, e: State, stack: seq<State>, visited: set<State>)
    requires Shaped(z, t) && WalkClosed(z, t, e, stack, visited) && stack != [] && InMaze(z, stack[|stack| - 1])
    ensures var s := stack[|stack| - 1];
      WalkClosed(z, t, e, stack[..|stack| - 1] + Preds(z, t, s), visited + {s})
  {
    var s := stack[|stack| - 1];
    var ps := Preds(z, t, s);
    var stack' := stack[..|stack| - 1] + ps;
    PopKeeps(stack, visited, ps);
    forall k | 0 <= k < |ps|
      ensures ps[k] in stack'
    {
      assert stack'[|stack| - 1 + k] == ps[k];
    }
  }

  lemma {:induction false} PopMet(z: Maze, t: Table, e: State, stack: seq<State>, visited: set<State>)
    requires Shaped(z, t) && PredsInMaze(z, t) && WalkMet(z, t, e, stack, visited) && stack != []
    ensures var s := stack[|stack| - 1];
      WalkMet(z, t, e, stack[..|stack| - 1] + Preds(z, t, s), visited + {s})
  {
    var s := stack[|stack| - 1];
    var rest := stack[..|stack| - 1];
    var ps := Preds(z, t, s);
    forall k | 0 <= k < |rest + ps|
      ensures InMaze(z, (rest + ps)[k]) && Reached(z, t, e, (rest + ps)[k])
    {
      if k >= |rest| {
        ReachedPred(z, t, e, s, ps[k - |rest|]);
      } else {
        assert (rest + ps)[k] == stack[k];
      }
    }
  }

  /** Once the stack is empty, the visited set holds everything met from `e`. */
  lemma {:induction false} ChainVisited(z: Maze, t: Table, e: State, visited: set<State>, c: seq<State>)
    requires Shaped(z, t) && WalkClosed(z, t, e, [], visited) && forall v :: v in visited ==> InMaze(z, v)
    requires Chain(z, t, c) && c[0] == e
    ensures c[|c| - 1] in visited
    decreases |c|
  {
    if |c| > 1 {
      var k := |c| - 1;
      assert Chain(z, t, c[..k]);
      ChainVisited(z, t, e, visited, c[..k]);
      var p := c[k - 1];
      assert c[..k][k - 1] == p && p in visited;
      assert c[k] in Preds(z, t, p);
      var i :| 0 <= i < |Preds(z, t, p)| && Preds(z, t, p)[i] == c[k];
    }
  }

  /** The inner loop of `min_path2`'s last stage: the visited-guarded walk back from `e`, adding the cells it visits. */
  method WalkBack(z: Maze, t: Table, e: State, positions: set<(int, int)>)
    returns (positions': set<(int, int)>, ghost visited: set<State>)
    requires Shaped(z, t) && PredsInMaze(z, t) && InMaze(z, e)
    ensures forall v :: v in visited <==> InMaze(z, v) && Reached(z, t, e, v)
    ensures positions' == positions + CellsOf(visited)
  {
    var stack := [e];
    var seen: set<State> := {};
    positions' := positions;
    ReachedSeed(z, t, e);
    while stack != []
      invariant WalkMet(z, t, e, stack, seen) && WalkClosed(z, t, e, stack, seen)
      invariant positions' == positions + CellsOf(seen)
      decreases |AllStates(z) - seen|, |stack|
    {
      var s := stack[|stack| - 1];
      if s in seen {
        PopVisited(z, t, e, stack, seen);
        stack := stack[..|stack| - 1];
        continue;
      }
      PopUnvisited(z, t, e, stack, seen);
      PopMet(z, t, e, stack, seen);
      InAllStates(z, s);
      FewerUnvisited(AllStates(z), seen, s);
      CellsOfAdd(seen, s);
      positions' := positions' + {(s.y, s.x)};
      stack := stack[..|stack| - 1] + Preds(z, t, s);
      seen := seen + {s};
    }
    visited := seen;
    forall v | InMaze(z, v) && Reached(z, t, e, v)
      ensures v in visited
    {
      var c: seq<State> :| Chain(z, t, c) && c[0] == e && c[|c| - 1] == v;
      ChainVisited(z, t, e, visited, c);
    }
  }

  /** A tight predecessor of a state off the start cell extends to a path of exactly that state's cost. */
  lemma {:induction false} PathThrough(z: Maze, t: Table, s: State, p: State) returns (w: seq<State>)
    requires Solved(z, t) && InMaze(z, s) && !IsStartCell(z, s) && Tight(z, t, s, p)
    ensures IsPath(z, w) && w[|w| - 1] == s && WalkCost(w) == Cost(z, t, s)
  {
    if IsStartCell(z, p) {
      w := [p, s];
      assert w[..1] == [p];
    } else {
      var v := PathOfCost(z, t, p);
      WalkAppend(z, v, s);
      w := v + [s];
    }
  }

  /**
   * When no path reaches the End cell within `usize::MAX` (in particular when
   * none reaches it at all), every End facing keeps the unreached cost and
   * has no predecessors.
   */
  lemma {:induction false} DeadEnd(z: Maze, t: Table, e: State)
    requires Solved(z, t) && InMaze(z, e) && IsEndCell(z, e)
    requires forall w :: ToEnd(z, w) ==> WalkCost(w) > Unreached
    ensures Cost(z, t, e) == Unreached && Preds(z, t, e) == []
  {
    var s0 := State(z.sy, z.sx, z.facing);
    assert IsPath(z, [s0]) && WalkCost([s0]) == 0;
    assert !IsStartCell(z, e);
    if Cost(z, t, e) < Unreached {
      var w := PathOfCost(z, t, e);
      assert ToEnd(z, w);
    }
    if Preds(z, t, e) != [] {
      assert Tight(z, t, e, Preds(z, t, e)[0]);
      var w := PathThrough(z, t, e, Preds(z, t, e)[0]);
      assert ToEnd(z, w);
    }
  }

  lemma {:induction false} ChainLink(z: Maze, t: Table, c: seq<State>, i: nat)
    requires Shaped(z, t) && Chain(z, t, c) && 1 <= i < |c|
    ensures c[i] in Preds(z, t, c[i - 1])
  {
  }

  /** A seed without predecessors meets only itself. */
  lemma {:induction false} ReachedOnlySeed(z: Maze, t: Table, e: State, v: State)
    requires Shaped(z, t) && InMaze(z, e) && Preds(z, t, e) == [] && Reached(z, t, e, v)
    ensures v == e
  {
    var c: seq<State> :| Chain(z, t, c) && c[0] == e && c[|c| - 1] == v;
    if |c| > 1 {
      ChainLink(z, t, c, 1);
    }
  }

  /** With the End cell out of reach, the backward walks from the four End facings meet only the End cell. */
  lemma {:induction false} DeadEndTiles(z: Maze, t: Table, met: set<State>)
    requires Solved(z, t)
    requires forall w :: ToEnd(z, w) ==> WalkCost(w) > Unreached
    requires forall v :: v in met <==> InMaze(z, v) && MetFrom(z, t, 4, v)
    ensures CellsOf(met) == {(z.ey, z.ex)}
  {
    forall j | 0 <= j < 4
      ensures Preds(z, t, EndState(z, j)) == [] && Cost(z, t, EndState(z, j)) == Unreached
    {
      DeadEnd(z, t, EndState(z, j));
    }
    assert MinEndCost(z, t) == Unreached;
    ReachedSeed(z, t, EndState(z, 0));
    assert MetFrom(z, t, 4, EndState(z, 0));
    assert EndState(z, 0) in met;
    forall v | v in met
      ensures (v.y, v.x) == (z.ey, z.ex)
    {
      var j :| 0 <= j < 4 && Cost(z, t, EndState(z, j)) <= MinEndCost(z, t) && Reached(z, t, EndState(z, j), v);
      ReachedOnlySeed(z, t, EndState(z, j), v);
    }
  }

  /** `min_path2`: the number of tiles on at least one best path from the start state to the End cell. */
  method MinPath2(z: Maze) returns (r: nat)
    requires ValidMaze(z)
    ensures forall m :: OptimalCost(z, m) && m < Unreached ==> r == |OptimalTiles(z, m)|
    ensures (forall w :: ToEnd(z, w) ==> WalkCost(w) > Unreached) ==> r == 1
  {
    var t := SearchTable(z);
    var minCost := MinEndCost(z, t);
    SolvedPredsInMaze(z, t);
    var positions: set<(int, int)> := {};
    ghost var met: set<State> := {};
    for j := 0 to 4
      invariant positions == CellsOf(met)
      invariant forall v :: v in met <==> InMaze(z, v) && MetFrom(z, t, j, v)
    {
      var e := EndState(z, j);
      ghost var visited: set<State> := {};
      if Cost(z, t, e) <= minCost {
        positions, visited := WalkBack(z, t, e, positions);
      }
      CellsOfUnion(met, visited);
      MetStep(z, t, j, met, visited);
      met := met + visited;
    }
    r := |positions|;
    forall m | OptimalCost(z, m) && m < Unreached
      ensures r == |OptimalTiles(z, m)|
    {
      OptimalIsMinEnd(z, t, m);
      TilesAreBest(z, t, met);
    }
    if forall w :: ToEnd(z, w) ==> WalkCost(w) > Unreached {
      DeadEndTiles(z, t, met);
    }
  }

  // ---------------------------------------------------------------------
  // `min_path` (part one): one cost per cell, whatever the facing.
  // ---------------------------------------------------------------------

  /**
   * Facts about the cost grid of `min_path`: every cost is in range, the
   * start cell costs 0, every other cell at least 1, and a wall anywhere but
   * the start cell keeps `usize::MAX`.
   */
  ghost predicate CellCostsOk(z: Maze, costs: seq<seq<int>>)
  {
    ValidMaze(z) && IsGrid(costs, z.width, z.height) && costs[z.sy][z.sx] == 0 &&
    (forall y, x :: 0 <= y < z.height && 0 <= x < z.width ==> 0 <= costs[y][x] <= Unreached) &&
    forall y, x :: 0 <= y < z.height && 0 <= x < z.width && (y, x) != (z.sy, z.sx) ==>
      costs[y][x] >= 1 && (z.grid[y][x] == Wall ==> costs[y][x] == Unreached)
  }

  /** The edge from `p` toward `nd` is relaxed in the cost grid, for the facing `p.d`. */
  ghost predicate CellRelaxedDir(z: Maze, costs: seq<seq<int>>, p: State, nd: Direction)
    requires CellCostsOk(z, costs) && InMaze(z, p)
  {
    match Step(z, p, nd)
    case None => true
    case Some(s) => costs[s.y][s.x] <= costs[p.y][p.x] + StepCost(p.d, nd)
  }

  ghost predicate CellRelaxed(z: Maze, costs: seq<seq<int>>, p: State)
    requires CellCostsOk(z, costs) && InMaze(z, p)
  {
    forall nd :: CellRelaxedDir(z, costs, p, nd)
  }

  /**
   * Every reached cell, taken with the facing `last` records for it (the
   * facing of its latest improvement), is on the stack, being expanded, or
   * has all its edges relaxed.
   */
  ghost predicate Settled(z: Maze, costs: seq<seq<int>>, last: seq<seq<Direction>>, stack: seq<State>,
                          cur: Option<(State, nat)>)
    requires CellCostsOk(z, costs) && IsGrid(last, z.width, z.height)
  {
    forall y: nat, x: nat {:trigger last[y][x]} :: y < z.height && x < z.width && costs[y][x] < Unreached ==>
      (State(y, x, last[y][x]) in stack || CellRelaxed(z, costs, State(y, x, last[y][x])) ||
       (cur.Some? && cur.value.0 == State(y, x, last[y][x])))
  }

  ghost predicate CellInv(z: Maze, costs: seq<seq<int>>, last: seq<seq<Direction>>, stack: seq<State>,
                          cur: Option<(State, nat)>)
  {
    CellCostsOk(z, costs) && IsGrid(last, z.width, z.height) &&
    (forall k :: 0 <= k < |stack| ==> InMaze(z, stack[k])) &&
    Settled(z, costs, last, stack, cur) &&
    (cur.Some? ==>
      InMaze(z, cur.value.0) && cur.value.1 <= 4 &&
      forall j :: 0 <= j < cur.value.1 ==> CellRelaxedDir(z, costs, cur.value.0, AllDirections[j]))
  }

  /** Lowering the cost of cell `s` keeps every relaxed edge relaxed, except those leaving `s`. */
  lemma {:induction false} LowerKeepsCellRelaxedDir(z: Maze, costs: seq<seq<int>>, s: State, v: int, q: State, nd: Direction)
    requires CellCostsOk(z, costs) && InMaze(z, s) && InMaze(z, q) && (q.y, q.x) != (s.y, s.x)
    requires CellCostsOk(z, Set(costs, s.y, s.x, v)) && v <= costs[s.y][s.x]
    requires CellRelaxedDir(z, costs, q, nd)
    ensures CellRelaxedDir(z, Set(costs, s.y, s.x, v), q, nd)
  {
  }

  /** Lowering the cost of `s` from the expansion of `p` in the `i`-th direction keeps the invariant. */
  lemma {:induction false} CellUpdateStep(z: Maze, costs: seq<seq<int>>, last: seq<seq<Direction>>,
                                          stack: seq<State>, p: State, i: nat, s: State,
                                          costs': seq<seq<int>>, last': seq<seq<Direction>>, stack': seq<State>)
    requires CellInv(z, costs, last, stack, Some((p, i))) && i < 4
    requires Step(z, p, AllDirections[i]) == Some(s)
    requires costs[p.y][p.x] + StepCost(p.d, s.d) < costs[s.y][s.x]
    requires costs' == Set(costs, s.y, s.x, costs[p.y][p.x] + StepCost(p.d, s.d))
    requires last' == Set(last, s.y, s.x, s.d) && stack' == stack + [s]
    ensures CellInv(z, costs', last', stack', Some((p, i + 1)))
  {
    var v := costs[p.y][p.x] + StepCost(p.d, s.d);
    assert (s.y, s.x) != (p.y, p.x);
    assert (s.y, s.x) != (z.sy, z.sx);
    assert CellCostsOk(z, costs');
    forall j | 0 <= j <= i
      ensures CellRelaxedDir(z, costs', p, AllDirections[j])
    {
      if j < i {
        LowerKeepsCellRelaxedDir(z, costs, s, v, p, AllDirections[j]);
      }
    }
    CellUpdateSettled(z, costs, last, stack, p, i, s, costs', last', stack');
  }

  lemma {:induction false} CellUpdateSettled(z: Maze, costs: seq<seq<int>>, last: seq<seq<Direction>>,
                                             stack: seq<State>, p: State, i: nat, s: State,
                                             costs': seq<seq<int>>, last': seq<seq<Direction>>, stack': seq<State>)
    requires CellCostsOk(z, costs) && IsGrid(last, z.width, z.height) && Settled(z, costs, last, stack, Some((p, i)))
    requires InMaze(z, p) && InMaze(z, s) && z.grid[s.y][s.x] != Wall && (s.y, s.x) != (z.sy, z.sx)
    requires 1 <= costs[p.y][p.x] + StepCost(p.d, s.d) < costs[s.y][s.x]
    requires costs' == Set(costs, s.y, s.x, costs[p.y][p.x] + StepCost(p.d, s.d))
    requires last' == Set(last, s.y, s.x, s.d) && stack' == stack + [s]
    requires CellCostsOk(z, costs') && IsGrid(last', z.width, z.height)
    ensures Settled(z, costs', last', stack', Some((p, i + 1)))
  {
    var v := costs[p.y][p.x] + StepCost(p.d, s.d);
    forall y: nat, x: nat | y < z.height && x < z.width && costs'[y][x] < Unreached
      ensures State(y, x, last'[y][x]) in stack' || CellRelaxed(z, costs', State(y, x, last'[y][x])) ||
        State(y, x, last'[y][x]) == p
    {
      var q := State(y, x, last'[y][x]);
      if (y, x) == (s.y, s.x) {
        assert q == s;
        assert stack'[|stack|] == s;
      } else {
        assert q == State(y, x, last[y][x]);
        if q in stack {
          assert q in stack';
        } else if CellRelaxed(z, costs, q) {
          forall nd
            ensures CellRelaxedDir(z, costs', q, nd)
          {
            LowerKeepsCellRelaxedDir(z, costs, s, v, q, nd);
          }
        }
      }
    }
  }

  /** An edge that does not improve its target changes nothing. */
  lemma {:induction false} CellSkipStep(z: Maze, costs: seq<seq<int>>, last: seq<seq<Direction>>,
                                        stack: seq<State>, p: State, i: nat)
    requires CellInv(z, costs, last, stack, Some((p, i))) && i < 4
    requires Step(z, p, AllDirections[i]).Some? ==>
      var s := Step(z, p, AllDirections[i]).value;
      costs[p.y][p.x] + StepCost(p.d, s.d) >= costs[s.y][s.x]
    ensures CellInv(z, costs, last, stack, Some((p, i + 1)))
  {
    assert forall y: nat, x: nat :: y < z.height && x < z.width ==> last[y][x] == last[y][x];
  }

  lemma {:induction false} CellPopStep(z: Maze, costs: seq<seq<int>>, last: seq<seq<Direction>>, stack: seq<State>)
    requires CellInv(z, costs, last, stack, None) && stack != []
    ensures CellInv(z, costs, last, stack[..|stack| - 1], Some((stack[|stack| - 1], 0)))
  {
    var p, rest := stack[|stack| - 1], stack[..|stack| - 1];
    assert stack == rest + [p];
    forall y: nat, x: nat | y < z.height && x < z.width && costs[y][x] < Unreached
      ensures State(y, x, last[y][x]) in rest || CellRelaxed(z, costs, State(y, x, last[y][x])) ||
        State(y, x, last[y][x]) == p
    {
      var q := State(y, x, last[y][x]);
      if q in stack && q != p {
        var k :| 0 <= k < |stack| && stack[k] == q;
        assert k < |rest| && rest[k] == q;
      }
    }
  }

  lemma {:induction false} CellCloseStep(z: Maze, costs: seq<seq<int>>, last: seq<seq<Direction>>,
                                         stack: seq<State>, p: State)
    requires CellInv(z, costs, last, stack, Some((p, 4)))
    ensures CellInv(z, costs, last, stack, None)
  {
    assert CellRelaxed(z, costs, p) by {
      forall nd
        ensures CellRelaxedDir(z, costs, p, nd)
      {
        assert AllDirections[Index(nd)] == nd;
      }
    }
  }

  /** One edge of the expansion of `p` in `min_path`. */
  method CellRelax(z: Maze, costs: seq<seq<int>>, stack: seq<State>, p: State, i: nat, ghost last: seq<seq<Direction>>)
    returns (costs': seq<seq<int>>, stack': seq<State>, ghost last': seq<seq<Direction>>)
    requires CellInv(z, costs, last, stack, Some((p, i))) && i < 4
    ensures CellInv(z, costs', last', stack', Some((p, i + 1)))
    ensures costs'[p.y][p.x] == costs[p.y][p.x]
    ensures GridSum(costs') < GridSum(costs) || (costs' == costs && stack' == stack)
  {
    var nd := AllDirections[i];
    var next := Step(z, p, nd);
    if next.None? {
      CellSkipStep(z, costs, last, stack, p, i);
      return costs, stack, last;
    }
    var s := next.value;
    var newScore := costs[p.y][p.x] + StepCost(p.d, nd);
    if newScore < costs[s.y][s.x] {
      costs', stack', last' := Set(costs, s.y, s.x, newScore), stack + [s], Set(last, s.y, s.x, nd);
      CellUpdateStep(z, costs, last, stack, p, i, s, costs', last', stack');
      GridSumUpdate(costs, s.y, s.x, newScore);
      assert (s.y, s.x) != (p.y, p.x);
    } else {
      CellSkipStep(z, costs, last, stack, p, i);
      costs', stack', last' := costs, stack, last;
    }
  }

  /** The `for new_d in Direction::iter()` loop of `min_path`. */
  method CellExpand(z: Maze, costs: seq<seq<int>>, stack: seq<State>, p: State, ghost last: seq<seq<Direction>>)
    returns (costs': seq<seq<int>>, stack': seq<State>, ghost last': seq<seq<Direction>>)
    requires CellInv(z, costs, last, stack, Some((p, 0)))
    ensures CellInv(z, costs', last', stack', Some((p, 4)))
    ensures GridSum(costs') < GridSum(costs) || (costs' == costs && stack' == stack)
  {
    costs', stack', last' := costs, stack, last;
    for i := 0 to 4
      invariant CellInv(z, costs', last', stack', Some((p, i)))
      invariant GridSum(costs') < GridSum(costs) || (costs' == costs && stack' == stack)
    {
      costs', stack', last' := CellRelax(z, costs', stack', p, i, last');
    }
  }

  /**
   * The work-list loop of `min_path`. The costs it leaves are not the cheapest path
   * costs (a cell keeps one cost, and its older stack entries are expanded
   * with their own, stale, facing); what holds is the fixpoint below.
   */
  method SearchCosts(z: Maze) returns (costs: seq<seq<int>>, ghost last: seq<seq<Direction>>)
    requires ValidMaze(z)
    ensures CellCostsOk(z, costs) && IsGrid(last, z.width, z.height)
    ensures forall y: nat, x: nat :: y < z.height && x < z.width && costs[y][x] < Unreached ==>
      CellRelaxed(z, costs, State(y, x, last[y][x]))
  {
    costs := Set(Filled(z.width, z.height, Unreached), z.sy, z.sx, 0);
    last := Set(Filled(z.width, z.height, z.facing), z.sy, z.sx, z.facing);
    var stack := [State(z.sy, z.sx, z.facing)];
    assert CellInv(z, costs, last, stack, None) by {
      forall y: nat, x: nat | y < z.height && x < z.width && costs[y][x] < Unreached
        ensures State(y, x, last[y][x]) in stack
      {
        assert (y, x) == (z.sy, z.sx);
      }
    }
    while stack != []
      invariant CellInv(z, costs, last, stack, None)
      decreases GridSum(costs), |stack|
    {
      GridSumNonnegative(costs);
      var p := stack[|stack| - 1];
      CellPopStep(z, costs, last, stack);
      costs, stack, last := CellExpand(z, costs, stack[..|stack| - 1], p, last);
      CellCloseStep(z, costs, last, stack, p);
    }
  }

  /** `min_path`: the cost the single-cost search leaves on the End cell. */
  method MinPath(z: Maze) returns (r: int)
    requires ValidMaze(z)
    ensures 0 <= r <= Unreached
    ensures r == 0 <==> (z.ey, z.ex) == (z.sy, z.sx)
    ensures (z.ey, z.ex) != (z.sy, z.sx) && z.grid[z.ey][z.ex] == Wall ==> r == Unreached
  {
    var costs;
    ghost var last;
    costs, last := SearchCosts(z);
    r := costs[z.ey][z.ex];
  }

  /** The maze of a puzzle map: start and end where `position` finds them, facing Right (East). */
  function MazeOf(grid: seq<seq<Cell>>, width: nat, height: nat): (z: Maze)
    requires IsGrid(grid, width, height)
    requires Position(grid, Start).Some? && Position(grid, End).Some?
    ensures ValidMaze(z) && z.grid[z.sy][z.sx] == Start && z.grid[z.ey][z.ex] == End
  {
    var (sy, sx) := Position(grid, Start).value;
    var (ey, ex) := Position(grid, End).value;
    Maze(grid, width, height, sy, sx, Right, ey, ex)
  }

  method PartOne(grid: seq<seq<Cell>>, width: nat, height: nat) returns (r: int)
    requires IsGrid(grid, width, height)
    requires Position(grid, Start).Some? && Position(grid, End).Some?
    ensures 0 < r <= Unreached
  {
    r := MinPath(MazeOf(grid, width, height));
  }

  method PartTwo(grid: seq<seq<Cell>>, width: nat, height: nat) returns (r: nat)
    requires IsGrid(grid, width, height)
    requires Position(grid, Start).Some? && Position(grid, End).Some?
    ensures forall m :: OptimalCost(MazeOf(grid, width, height), m) && m < Unreached ==>
      r == |OptimalTiles(MazeOf(grid, width, height), m)|
    ensures (forall w :: ToEnd(MazeOf(grid, width, height), w) ==> WalkCost(w) > Unreached) ==> r == 1
  {
    r := MinPath2(MazeOf(grid, width, height));
  }
}
