/*
 * Day six: a guard patrols a lab. The guard walks straight ahead, turns
 * right whenever the cell ahead is obstructed, and leaves on stepping off
 * the map. Part one counts the cells visited; part two counts the cells on
 * the route where one new obstruction would trap the guard in a loop.
 */
module Six {
  import opened Grids
  import Arith

  datatype MapCell = Empty | Obstruction | Guard

  /** `PathCell`; its `Obstruction` is called `Obstructed` here. */
  datatype PathCell = Unvisited | Obstructed | Visited

  /** Where the guard stands and which way the guard faces (North is `Up`, East is `Right`). */
  datatype State = State(y: nat, x: nat, facing: Direction)

  /** A right turn: North, East, South, West, North. */
  function TurnRight(d: Direction): Direction
  {
    match d
    case Up => Right
    case Right => Down
    case Down => Left
    case Left => Up
  }

  function PathOf(c: MapCell): PathCell
  {
    match c
    case Empty => Unvisited
    case Obstruction => Obstructed
    case Guard => Visited
  }

  /** `path_from_grid`: same shape; empty cells unvisited, obstructions kept, the guard's cell visited. */
  function PathFromGrid(g: seq<seq<MapCell>>): (r: seq<seq<PathCell>>)
    ensures |r| == |g| && forall i :: 0 <= i < |g| ==> |r[i]| == |g[i]|
  {
    seq(|g|, i requires 0 <= i < |g| => seq(|g[i]|, j requires 0 <= j < |g[i]| => PathOf(g[i][j])))
  }

  /** Each cell of the path grid says what the map cell was: obstructed, the guard's (visited) or empty (unvisited). */
  lemma PathFromGridCells(g: seq<seq<MapCell>>)
    ensures forall i, j :: 0 <= i < |g| && 0 <= j < |g[i]| ==>
      (PathFromGrid(g)[i][j] == Obstructed <==> g[i][j] == Obstruction) &&
      (PathFromGrid(g)[i][j] == Visited <==> g[i][j] == Guard) &&
      (PathFromGrid(g)[i][j] == Unvisited <==> g[i][j] == Empty)
  {
  }

  /**
   * One call of `walk` on the guard's state: None when the guard stands on the edge
   * facing out (and leaves); otherwise the guard turns right in place if the cell
   * ahead is obstructed, or steps onto it keeping the facing.
   */
  function Step(p: seq<seq<PathCell>>, w: nat, h: nat, s: State): (r: Option<State>)
    requires IsGrid(p, w, h) && InBounds(s.y, s.x, w, h)
    ensures r.None? <==> !InBounds(Neighbour(s.facing, s.y, s.x).0, Neighbour(s.facing, s.y, s.x).1, w, h)
    ensures r.Some? ==> InBounds(r.value.y, r.value.x, w, h)
    ensures r.Some? && p[s.y][s.x] != Obstructed ==> p[r.value.y][r.value.x] != Obstructed
  {
    match Advance(s.facing, s.y, s.x, w, h)
    case None => None
    case Some(n) =>
      if p[n.0][n.1] == Obstructed then Some(State(s.y, s.x, TurnRight(s.facing)))
      else Some(State(n.0, n.1, s.facing))
  }

  /** The step the guard takes from a free cell: a right turn in place, or a move to a free neighbour. */
  lemma StepMoves(p: seq<seq<PathCell>>, w: nat, h: nat, s: State)
    requires IsGrid(p, w, h) && InBounds(s.y, s.x, w, h) && Step(p, w, h, s).Some?
    ensures var r := Step(p, w, h, s).value;
      ((r.y, r.x) == (s.y, s.x) && r.facing == TurnRight(s.facing))
      || ((r.y, r.x) == Neighbour(s.facing, s.y, s.x) && r.facing == s.facing && p[r.y][r.x] != Obstructed)
    ensures var r := Step(p, w, h, s).value;
      r.facing == TurnRight(s.facing) <==> p[Neighbour(s.facing, s.y, s.x).0][Neighbour(s.facing, s.y, s.x).1] == Obstructed
  {
  }

  ghost predicate SameObstructions(p: seq<seq<PathCell>>, q: seq<seq<PathCell>>, w: nat, h: nat)
    requires IsGrid(p, w, h) && IsGrid(q, w, h)
  {
    forall i, j :: 0 <= i < h && 0 <= j < w ==> (p[i][j] == Obstructed <==> q[i][j] == Obstructed)
  }

  /** Only the obstructions of the path grid steer the guard: visited marks do not. */
  lemma StepSameObstructions(p: seq<seq<PathCell>>, q: seq<seq<PathCell>>, w: nat, h: nat, s: State)
    requires IsGrid(p, w, h) && IsGrid(q, w, h) && SameObstructions(p, q, w, h)
    requires InBounds(s.y, s.x, w, h)
    ensures Step(p, w, h, s) == Step(q, w, h, s)
  {
  }

  /** The arguments `walk` mutates: the path grid, the facing and the position. */
  class Patrol {
    var path: seq<seq<PathCell>>
    var direction: Direction
    var y: nat
    var x: nat
    const width: nat
    const height: nat

    constructor (path: seq<seq<PathCell>>, direction: Direction, y: nat, x: nat, width: nat, height: nat)
      ensures this.path == path && this.direction == direction && this.y == y && this.x == x
      ensures this.width == width && this.height == height
    {
      this.path := path;
      this.direction := direction;
      this.y := y;
      this.x := x;
      this.width := width;
      this.height := height;
    }

    function Current(): State
      reads this
    {
      State(y, x, direction)
    }

    ghost predicate Valid()
      reads this
    {
      IsGrid(path, width, height) && InBounds(y, x, width, height)
    }

    /**
     * `walk`: marks the current cell visited, then takes one step. True, with
     * position and facing unchanged, when the guard leaves the map.
     */
    method Walk() returns (out: bool)
      requires Valid()
      modifies this
      ensures Valid()
      ensures path == Set(old(path), old(y), old(x), Visited)
      ensures out <==> Step(old(path), width, height, old(Current())).None?
      ensures out ==> Current() == old(Current())
      ensures !out ==> Current() == Step(old(path), width, height, old(Current())).value
    {
      path := Set(path, y, x, Visited);
      match direction {
        case Up =>
          if y == 0 {
            return true;
          }
          if path[y - 1][x] == Obstructed {
            direction := Right;
            return false;
          }
          y := y - 1;
        case Down =>
          if y == height - 1 {
            return true;
          }
          if path[y + 1][x] == Obstructed {
            direction := Left;
            return false;
          }
          y := y + 1;
        case Right =>
          if x == width - 1 {
            return true;
          }
          if path[y][x + 1] == Obstructed {
            direction := Down;
            return false;
          }
          x := x + 1;
        case Left =>
          if x == 0 {
            return true;
          }
          if path[y][x - 1] == Obstructed {
            direction := Up;
            return false;
          }
          x := x - 1;
      }
      out := false;
    }
  }


  /** The guard after `n` calls of `walk` from `s0` on the obstructions of `p`; None once the guard has left. */
  ghost function StateAt(p: seq<seq<PathCell>>, w: nat, h: nat, s0: State, n: nat): (r: Option<State>)
    requires IsGrid(p, w, h) && InBounds(s0.y, s0.x, w, h)
    ensures r.Some? ==> InBounds(r.value.y, r.value.x, w, h)
  {
    if n == 0 then Some(s0)
    else
      match StateAt(p, w, h, s0, n - 1)
      case None => None
      case Some(s) => Step(p, w, h, s)
  }

  /** Once the guard has left, the guard stays gone. */
  lemma {:induction false} GoneStaysGone(p: seq<seq<PathCell>>, w: nat, h: nat, s0: State, n: nat, m: nat)
    requires IsGrid(p, w, h) && InBounds(s0.y, s0.x, w, h)
    requires n <= m && StateAt(p, w, h, s0, n).None?
    ensures StateAt(p, w, h, s0, m).None?
    decreases m - n
  {
    if n < m {
      GoneStaysGone(p, w, h, s0, n + 1, m);
    }
  }

  /** A guard still on the map after `m` calls was on it after every earlier call. */
  lemma {:induction false} StillThere(p: seq<seq<PathCell>>, w: nat, h: nat, s0: State, n: nat, m: nat)
    requires IsGrid(p, w, h) && InBounds(s0.y, s0.x, w, h)
    requires n <= m && StateAt(p, w, h, s0, m).Some?
    ensures StateAt(p, w, h, s0, n).Some?
    decreases m - n
  {
    if n < m {
      StillThere(p, w, h, s0, n, m - 1);
    }
  }

  ghost predicate Escapes(p: seq<seq<PathCell>>, w: nat, h: nat, s0: State)
    requires IsGrid(p, w, h) && InBounds(s0.y, s0.x, w, h)
  {
    exists n: nat :: StateAt(p, w, h, s0, n).None?
  }

  /** The walk is deterministic: equal states after `a` and `b` calls stay equal one call later. */
  lemma SameAfter(p: seq<seq<PathCell>>, w: nat, h: nat, s0: State, a: nat, b: nat)
    requires IsGrid(p, w, h) && InBounds(s0.y, s0.x, w, h)
    requires StateAt(p, w, h, s0, a) == StateAt(p, w, h, s0, b)
    ensures StateAt(p, w, h, s0, a + 1) == StateAt(p, w, h, s0, b + 1)
  {
    assert StateAt(p, w, h, s0, a + 1) == match StateAt(p, w, h, s0, a) case None => None case Some(s) => Step(p, w, h, s);
  }

  /**
   * A state that comes back makes the walk a cycle: the state after any
   * number `m` of calls is one of the first `n`.
   */
  lemma {:induction false} CycleCovers(p: seq<seq<PathCell>>, w: nat, h: nat, s0: State, k: nat, n: nat, m: nat)
    returns (j: nat)
    requires IsGrid(p, w, h) && InBounds(s0.y, s0.x, w, h)
    requires k < n && StateAt(p, w, h, s0, n) == StateAt(p, w, h, s0, k)
    ensures j < n && StateAt(p, w, h, s0, m) == StateAt(p, w, h, s0, j)
  {
    if m == 0 {
      j := 0;
    } else {
      var prev := m - 1;
      var i := CycleCovers(p, w, h, s0, k, n, prev);
      SameAfter(p, w, h, s0, prev, i);
      assert prev + 1 == m;
      if i + 1 < n {
        j := i + 1;
      } else {
        j := k;
      }
    }
  }

  /** A state seen twice traps the guard: the guard never leaves. */
  lemma RecurrenceTraps(p: seq<seq<PathCell>>, w: nat, h: nat, s0: State, k: nat, n: nat)
    requires IsGrid(p, w, h) && InBounds(s0.y, s0.x, w, h)
    requires k < n && StateAt(p, w, h, s0, n).Some? && StateAt(p, w, h, s0, n) == StateAt(p, w, h, s0, k)
    ensures !Escapes(p, w, h, s0)
  {
    forall m: nat
      ensures StateAt(p, w, h, s0, m).Some?
    {
      var j := CycleCovers(p, w, h, s0, k, n, m);
      StillThere(p, w, h, s0, j, n);
    }
  }

  /** The states of the first `n` calls of `walk`. */
  ghost function Seen(p: seq<seq<PathCell>>, w: nat, h: nat, s0: State, n: nat): set<State>
    requires IsGrid(p, w, h) && InBounds(s0.y, s0.x, w, h)
  {
    if n == 0 then {}
    else
      if StateAt(p, w, h, s0, n - 1).Some? then Seen(p, w, h, s0, n - 1) + {StateAt(p, w, h, s0, n - 1).value}
      else Seen(p, w, h, s0, n - 1)
  }

  /** A state in `Seen(n)` is the guard's state after some call before the `n`-th. */
  lemma {:induction false} SeenWhen(p: seq<seq<PathCell>>, w: nat, h: nat, s0: State, n: nat, s: State) returns (k: nat)
    requires IsGrid(p, w, h) && InBounds(s0.y, s0.x, w, h)
    requires s in Seen(p, w, h, s0, n)
    ensures k < n && StateAt(p, w, h, s0, k) == Some(s)
  {
    if s in Seen(p, w, h, s0, n - 1) {
      k := SeenWhen(p, w, h, s0, n - 1, s);
    } else {
      k := n - 1;
    }
  }

  /** The cells the guard stood on during the first `n` calls of `walk`. */
  ghost function Route(p: seq<seq<PathCell>>, w: nat, h: nat, s0: State, n: nat): set<(int, int)>
    requires IsGrid(p, w, h) && InBounds(s0.y, s0.x, w, h)
  {
    if n == 0 then {}
    else
      var s := StateAt(p, w, h, s0, n - 1);
      if s.Some? then Route(p, w, h, s0, n - 1) + {(s.value.y, s.value.x)} else Route(p, w, h, s0, n - 1)
  }

  /** After the guard has left, the route no longer grows. */
  lemma {:induction false} RouteStable(p: seq<seq<PathCell>>, w: nat, h: nat, s0: State, n: nat, m: nat)
    requires IsGrid(p, w, h) && InBounds(s0.y, s0.x, w, h)
    requires n <= m && StateAt(p, w, h, s0, n).None?
    ensures Route(p, w, h, s0, m) == Route(p, w, h, s0, n)
    decreases m - n
  {
    if n < m {
      RouteStable(p, w, h, s0, n, m - 1);
      GoneStaysGone(p, w, h, s0, n, m - 1);
    }
  }

  /** Starting on a free cell, the guard only ever stands on free cells inside the map. */
  lemma {:induction false} RouteFree(p: seq<seq<PathCell>>, w: nat, h: nat, s0: State, n: nat)
    requires IsGrid(p, w, h) && InBounds(s0.y, s0.x, w, h) && p[s0.y][s0.x] != Obstructed
    ensures StateAt(p, w, h, s0, n).Some? ==> p[StateAt(p, w, h, s0, n).value.y][StateAt(p, w, h, s0, n).value.x] != Obstructed
    ensures forall c :: c in Route(p, w, h, s0, n) ==> InBounds(c.0, c.1, w, h) && p[c.0][c.1] != Obstructed
  {
    if n > 0 {
      RouteFree(p, w, h, s0, n - 1);
    }
  }

  /** Every cell the guard stands on before leaving. */
  ghost function Walked(p: seq<seq<PathCell>>, w: nat, h: nat, s0: State): set<(int, int)>
    requires IsGrid(p, w, h) && InBounds(s0.y, s0.x, w, h) && Escapes(p, w, h, s0)
  {
    var n: nat :| StateAt(p, w, h, s0, n).None?;
    Route(p, w, h, s0, n)
  }

  /** Any number of calls after which the guard has left gives the whole route. */
  lemma WalkedIs(p: seq<seq<PathCell>>, w: nat, h: nat, s0: State, n: nat)
    requires IsGrid(p, w, h) && InBounds(s0.y, s0.x, w, h) && StateAt(p, w, h, s0, n).None?
    ensures Escapes(p, w, h, s0) && Walked(p, w, h, s0) == Route(p, w, h, s0, n)
  {
    assert Escapes(p, w, h, s0);
    var m: nat :| StateAt(p, w, h, s0, m).None? && Walked(p, w, h, s0) == Route(p, w, h, s0, m);
    var later := n + m;
    RouteStable(p, w, h, s0, n, later);
    RouteStable(p, w, h, s0, m, later);
  }

  /** The path grid is `p` with every cell of `route` marked visited. */
  ghost predicate Trail(path: seq<seq<PathCell>>, p: seq<seq<PathCell>>, w: nat, h: nat, route: set<(int, int)>)
    requires IsGrid(path, w, h) && IsGrid(p, w, h)
  {
    forall i, j :: 0 <= i < h && 0 <= j < w ==> path[i][j] == if (i, j) in route then Visited else p[i][j]
  }

  /** One call of `walk` on a marked path grid: it extends the trail and follows the walk on `p`. */
  lemma TrailStep(p: seq<seq<PathCell>>, w: nat, h: nat, s0: State, n: nat, path: seq<seq<PathCell>>, cur: State)
    requires IsGrid(p, w, h) && InBounds(s0.y, s0.x, w, h) && p[s0.y][s0.x] != Obstructed
    requires IsGrid(path, w, h) && StateAt(p, w, h, s0, n) == Some(cur)
    requires Trail(path, p, w, h, Route(p, w, h, s0, n))
    ensures Trail(Set(path, cur.y, cur.x, Visited), p, w, h, Route(p, w, h, s0, n + 1))
    ensures Step(path, w, h, cur) == StateAt(p, w, h, s0, n + 1)
  {
    RouteFree(p, w, h, s0, n);
    assert SameObstructions(path, p, w, h);
    StepSameObstructions(path, p, w, h, cur);
    assert Route(p, w, h, s0, n + 1) == Route(p, w, h, s0, n) + {(cur.y, cur.x)};
  }

  /** The patrol after `n` calls of `walk`: in the walk's state, with the route so far marked. */
  ghost predicate OnTrail(patrol: Patrol, p: seq<seq<PathCell>>, w: nat, h: nat, s0: State, n: nat)
    requires IsGrid(p, w, h) && InBounds(s0.y, s0.x, w, h)
    reads patrol
  {
    patrol.Valid() && patrol.width == w && patrol.height == h &&
    StateAt(p, w, h, s0, n) == Some(patrol.Current()) &&
    Trail(patrol.path, p, w, h, Route(p, w, h, s0, n))
  }

  /** The loop of `part_one_inner`, from any state on a free cell: calls `walk` until the guard leaves. */
  method WalkOut(p: seq<seq<PathCell>>, w: nat, h: nat, s0: State) returns (path: seq<seq<PathCell>>)
    requires IsGrid(p, w, h) && InBounds(s0.y, s0.x, w, h) && p[s0.y][s0.x] != Obstructed
    requires Escapes(p, w, h, s0)
    ensures IsGrid(path, w, h) && Trail(path, p, w, h, Walked(p, w, h, s0))
  {
    var patrol := new Patrol(p, s0.facing, s0.y, s0.x, w, h);
    ghost var n: nat := 0;
    ghost var last: nat :| StateAt(p, w, h, s0, last).None?;
    while true
      invariant OnTrail(patrol, p, w, h, s0, n)
      decreases last - n
    {
      if last <= n {
        GoneStaysGone(p, w, h, s0, last, n);
      }
      TrailStep(p, w, h, s0, n, patrol.path, patrol.Current());
      var out := patrol.Walk();
      n := n + 1;
      if out {
        break;
      }
    }
    path := patrol.path;
    WalkedIs(p, w, h, s0, n);
  }

  /** The guard's starting state: the first `^` in row-major order, facing North. */
  function Start(g: seq<seq<MapCell>>): State
    requires Position(g, Guard).Some?
  {
    State(Position(g, Guard).value.0, Position(g, Guard).value.1, Up)
  }

  /** The map has a guard, and the guard walks off it after finitely many steps. */
  ghost predicate Leaves(g: seq<seq<MapCell>>, w: nat, h: nat)
    requires IsGrid(g, w, h)
  {
    Position(g, Guard).Some? && Escapes(PathFromGrid(g), w, h, Start(g))
  }

  /** Every cell the guard of `g` stands on before leaving. */
  ghost function Visits(g: seq<seq<MapCell>>, w: nat, h: nat): set<(int, int)>
    requires IsGrid(g, w, h) && Leaves(g, w, h)
  {
    Walked(PathFromGrid(g), w, h, Start(g))
  }

  /** What a cell of the final path grid holds: obstructions and the guard's cell as drawn, empty cells visited when walked. */
  function Expected(c: MapCell, walked: bool): PathCell
  {
    match c
    case Obstruction => Obstructed
    case Guard => Visited
    case Empty => if walked then Visited else Unvisited
  }

  ghost predicate Marked(path: seq<seq<PathCell>>, g: seq<seq<MapCell>>, w: nat, h: nat, route: set<(int, int)>)
    requires IsGrid(path, w, h) && IsGrid(g, w, h)
  {
    forall i, j :: 0 <= i < h && 0 <= j < w ==> path[i][j] == Expected(g[i][j], (i, j) in route)
  }

  /** `part_one_inner`: the path grid once the guard has left, with every cell the guard stood on visited. */
  method PartOneInner(g: seq<seq<MapCell>>, w: nat, h: nat) returns (path: seq<seq<PathCell>>)
    requires IsGrid(g, w, h) && Leaves(g, w, h)
    ensures IsGrid(path, w, h) && Marked(path, g, w, h, Visits(g, w, h))
  {
    var (y, x) := Position(g, Guard).value;
    PathFromGridCells(g);
    path := WalkOut(PathFromGrid(g), w, h, State(y, x, Up));
    TrailMarked(g, w, h, path);
  }

  /** The route of the guard avoids obstructions, so marking it on `path_from_grid` gives `Expected` in every cell. */
  lemma TrailMarked(g: seq<seq<MapCell>>, w: nat, h: nat, path: seq<seq<PathCell>>)
    requires IsGrid(g, w, h) && Leaves(g, w, h) && IsGrid(path, w, h)
    requires Trail(path, PathFromGrid(g), w, h, Visits(g, w, h))
    ensures Marked(path, g, w, h, Visits(g, w, h))
  {
    PathFromGridCells(g);
    var p, s0 := PathFromGrid(g), Start(g);
    var n: nat :| StateAt(p, w, h, s0, n).None? && Walked(p, w, h, s0) == Route(p, w, h, s0, n);
    RouteFree(p, w, h, s0, n);
  }

  /** `part_one` (`num_visited` of `part_one_inner`): the guard's starting cell and every cell of the route. */
  method PartOne(g: seq<seq<MapCell>>, w: nat, h: nat) returns (count: nat)
    requires IsGrid(g, w, h) && Leaves(g, w, h)
    ensures count == |CellsWith(g, Guard) + Visits(g, w, h)|
  {
    var path := PartOneInner(g, w, h);
    MarkedVisited(path, g, w, h);
    count := CountCells(path, Visited);
  }

  lemma MarkedVisited(path: seq<seq<PathCell>>, g: seq<seq<MapCell>>, w: nat, h: nat)
    requires IsGrid(g, w, h) && Leaves(g, w, h)
    requires IsGrid(path, w, h) && Marked(path, g, w, h, Visits(g, w, h))
    ensures CellsWith(path, Visited) == CellsWith(g, Guard) + Visits(g, w, h)
  {
    PathFromGridCells(g);
    var p, s0 := PathFromGrid(g), Start(g);
    var n: nat :| StateAt(p, w, h, s0, n).None? && Walked(p, w, h, s0) == Route(p, w, h, s0, n);
    RouteFree(p, w, h, s0, n);
  }

  /** A code for each in-bounds state, below 4·w·h and different for different states. */
  function Code(s: State, w: nat): nat
  {
    (s.y * w + s.x) * 4 + match s.facing case Up => 0 case Right => 1 case Down => 2 case Left => 3
  }

  lemma CodeBelow(s: State, w: nat, h: nat)
    requires InBounds(s.y, s.x, w, h)
    ensures Code(s, w) < 4 * (h * w)
  {
    Arith.MulSuccLeft(s.y, w);
    if s.y + 1 < h {
      Arith.MulLess(s.y + 1, h, w);
    }
  }

  lemma CodeInjective(a: State, b: State, w: nat)
    requires a.x < w && b.x < w && Code(a, w) == Code(b, w)
    ensures a == b
  {
    var da := Code(a, w) - (a.y * w + a.x) * 4;
    var db := Code(b, w) - (b.y * w + b.x) * 4;
    Arith.DivModUnique(Code(a, w), 4, a.y * w + a.x, da);
    Arith.DivModUnique(Code(b, w), 4, b.y * w + b.x, db);
    Arith.DivModUnique(a.y * w + a.x, w, a.y, a.x);
    Arith.DivModUnique(b.y * w + b.x, w, b.y, b.x);
  }

  ghost function Codes(states: set<State>, w: nat): set<nat>
  {
    set s | s in states :: Code(s, w)
  }

  lemma {:induction false} CodesCard(states: set<State>, w: nat)
    requires forall s :: s in states ==> s.x < w
    ensures |Codes(states, w)| == |states|
    decreases |states|
  {
    if states != {} {
      var s :| s in states;
      var rest := states - {s};
      CodesCard(rest, w);
      assert Codes(states, w) == Codes(rest, w) + {Code(s, w)};
      forall t | t in rest
        ensures Code(t, w) != Code(s, w)
      {
        if Code(t, w) == Code(s, w) {
          CodeInjective(t, s, w);
        }
      }
    } else {
      assert Codes(states, w) == {};
    }
  }

  lemma {:induction false} BelowCard(c: set<nat>, bound: nat)
    requires forall k :: k in c ==> k < bound
    ensures |c| <= bound
  {
    if bound > 0 {
      BelowCard(c - {bound - 1}, bound - 1);
    } else {
      assert c == {};
    }
  }

  /** There are at most 4·w·h guard states: the bound that makes `stuck_in_loop` terminate. */
  lemma StatesBound(states: set<State>, w: nat, h: nat)
    requires forall s :: s in states ==> InBounds(s.y, s.x, w, h)
    ensures |states| <= 4 * (h * w)
  {
    CodesCard(states, w);
    forall k | k in Codes(states, w)
      ensures k < 4 * (h * w)
    {
      var s :| s in states && Code(s, w) == k;
      CodeBelow(s, w, h);
    }
    BelowCard(Codes(states, w), 4 * (h * w));
  }


  /** The patrol after `n` calls of `walk` in `stuck_in_loop`: on the trail, with `visited` the `n` distinct states seen before. */
  ghost predicate Circling(patrol: Patrol, p: seq<seq<PathCell>>, w: nat, h: nat, s0: State, n: nat, visited: set<State>)
    requires IsGrid(p, w, h) && InBounds(s0.y, s0.x, w, h)
    reads patrol
  {
    OnTrail(patrol, p, w, h, s0, n) && visited == Seen(p, w, h, s0, n) &&
    |visited| == n && patrol.Current() !in visited
  }

  /** A call of `walk` from a state not seen before adds that state: one more distinct state. */
  lemma SeenStep(p: seq<seq<PathCell>>, w: nat, h: nat, s0: State, n: nat, cur: State)
    requires IsGrid(p, w, h) && InBounds(s0.y, s0.x, w, h)
    requires StateAt(p, w, h, s0, n) == Some(cur) && |Seen(p, w, h, s0, n)| == n && cur !in Seen(p, w, h, s0, n)
    ensures Seen(p, w, h, s0, n + 1) == Seen(p, w, h, s0, n) + {cur}
    ensures |Seen(p, w, h, s0, n + 1)| == n + 1
  {
  }

  /** `n` distinct states seen and one more: at most 4·w·h states exist, so fewer than 4·w·h calls have been made. */
  lemma SeenBound(p: seq<seq<PathCell>>, w: nat, h: nat, s0: State, n: nat, s: State)
    requires IsGrid(p, w, h) && InBounds(s0.y, s0.x, w, h) && InBounds(s.y, s.x, w, h)
    requires |Seen(p, w, h, s0, n)| == n && s !in Seen(p, w, h, s0, n)
    ensures n < 4 * (h * w)
  {
    forall t | t in Seen(p, w, h, s0, n) + {s}
      ensures InBounds(t.y, t.x, w, h)
    {
      if t != s {
        var k := SeenWhen(p, w, h, s0, n, t);
      }
    }
    StatesBound(Seen(p, w, h, s0, n) + {s}, w, h);
  }

  /** The loop of `stuck_in_loop`, from any state on a free cell: true exactly when the guard never leaves. */
  method Circles(p: seq<seq<PathCell>>, w: nat, h: nat, s0: State) returns (stuck: bool)
    requires IsGrid(p, w, h) && InBounds(s0.y, s0.x, w, h) && p[s0.y][s0.x] != Obstructed
    ensures stuck <==> !Escapes(p, w, h, s0)
  {
    var patrol := new Patrol(p, s0.facing, s0.y, s0.x, w, h);
    var visited: set<State> := {};
    ghost var n: nat := 0;
    while true
      invariant Circling(patrol, p, w, h, s0, n, visited)
      decreases 4 * (h * w) - n
    {
      SeenBound(p, w, h, s0, n, patrol.Current());
      SeenStep(p, w, h, s0, n, patrol.Current());
      TrailStep(p, w, h, s0, n, patrol.path, patrol.Current());
      visited := visited + {patrol.Current()};
      var out := patrol.Walk();
      n := n + 1;
      if out {
        assert StateAt(p, w, h, s0, n).None?;
        return false;
      }
      if patrol.Current() in visited {
        var k := SeenWhen(p, w, h, s0, n, patrol.Current());
        RecurrenceTraps(p, w, h, s0, k, n);
        return true;
      }
    }
  }

  /** `stuck_in_loop`: true exactly when the guard of `g` never leaves the map. */
  method StuckInLoop(g: seq<seq<MapCell>>, w: nat, h: nat) returns (stuck: bool)
    requires IsGrid(g, w, h) && Position(g, Guard).Some?
    ensures stuck <==> !Leaves(g, w, h)
  {
    var (y, x) := Position(g, Guard).value;
    PathFromGridCells(g);
    stuck := Circles(PathFromGrid(g), w, h, State(y, x, Up));
  }

  /** Cell `c` of route `route` counts for part two: it was empty, and one more obstruction there keeps the guard from leaving. */
  ghost predicate Trap(g: seq<seq<MapCell>>, w: nat, h: nat, route: set<(int, int)>, c: Pos)
  {
    IsGrid(g, w, h) && InBounds(c.0, c.1, w, h) && g[c.0][c.1] == Empty &&
    c in route && !Leaves(Set(g, c.0, c.1, Obstruction), w, h)
  }

  ghost function TrapTest(g: seq<seq<MapCell>>, w: nat, h: nat, route: set<(int, int)>): Pos -> bool
  {
    c => Trap(g, w, h, route, c)
  }

  /** The cells of the guard's route that count for part two. */
  ghost function TrapCells(g: seq<seq<MapCell>>, w: nat, h: nat): set<Pos>
    requires IsGrid(g, w, h) && Leaves(g, w, h)
  {
    CellsWhere(w, h, TrapTest(g, w, h, Visits(g, w, h)))
  }

  /** How many of the cells `cs` count for part two. */
  ghost function Trials(g: seq<seq<MapCell>>, w: nat, h: nat, route: set<(int, int)>, cs: seq<Pos>): nat
  {
    CountWhere(cs, TrapTest(g, w, h, route))
  }

  /** Reaching cell (y, x) of the scan adds one exactly when that cell traps the guard. */
  lemma TrialStep(g: seq<seq<MapCell>>, w: nat, h: nat, route: set<(int, int)>, y: nat, x: nat)
    requires x < w
    ensures Trials(g, w, h, route, Prefix(w, y, x + 1))
      == Trials(g, w, h, route, Prefix(w, y, x)) + (if Trap(g, w, h, route, (y, x)) then 1 else 0)
  {
    var q := Prefix(w, y, x + 1);
    assert q[..|q| - 1] == Prefix(w, y, x);
    assert q[|q| - 1] == (y, x);
  }

  /** Placing an obstruction on an empty cell leaves the guard where the guard was. */
  lemma ObstructedGuard(g: seq<seq<MapCell>>, w: nat, h: nat, y: nat, x: nat)
    requires IsGrid(g, w, h) && InBounds(y, x, w, h) && g[y][x] == Empty
    ensures IsGrid(Set(g, y, x, Obstruction), w, h)
    ensures Position(Set(g, y, x, Obstruction), Guard) == Position(g, Guard)
  {
    PositionSame(g, Set(g, y, x, Obstruction), Guard);
  }

  /**
   * The body of `part_two`'s loops at cell (y, x) of a path grid marked with
   * `route`: a visited cell that was empty gets an obstruction, and
   * `stuck_in_loop` runs on the changed map.
   */
  method Trial(g: seq<seq<MapCell>>, w: nat, h: nat, path: seq<seq<PathCell>>, ghost route: set<(int, int)>, y: nat, x: nat)
    returns (hit: bool)
    requires IsGrid(g, w, h) && Position(g, Guard).Some? && IsGrid(path, w, h) && Marked(path, g, w, h, route)
    requires InBounds(y, x, w, h)
    ensures hit <==> Trap(g, w, h, route, (y, x))
  {
    hit := false;
    if path[y][x] == Visited && g[y][x] == Empty {
      var test := Set(g, y, x, Obstruction);
      ObstructedGuard(g, w, h, y, x);
      hit := StuckInLoop(test, w, h);
    }
  }

  /** The loops of `part_two` over a path grid marked with `route`: every cell in `positions()` order. */
  method Scan(g: seq<seq<MapCell>>, w: nat, h: nat, path: seq<seq<PathCell>>, ghost route: set<(int, int)>)
    returns (total: nat)
    requires IsGrid(g, w, h) && Position(g, Guard).Some? && IsGrid(path, w, h) && Marked(path, g, w, h, route)
    ensures total == |CellsWhere(w, h, TrapTest(g, w, h, route))|
  {
    total := 0;
    for y := 0 to h
      invariant total == Trials(g, w, h, route, Positions(w, y))
    {
      RowBounds(w, h, y);
      for x := 0 to w
        invariant total == Trials(g, w, h, route, Prefix(w, y, x))
      {
        TrialStep(g, w, h, route, y, x);
        var hit := Trial(g, w, h, path, route, y, x);
        if hit {
          total := total + 1;
        }
      }
    }
    CountPositions(w, h, TrapTest(g, w, h, route));
  }

  /**
   * `part_two`: for each cell of the route that was empty, puts an obstruction
   * there and counts the maps on which the guard gets stuck.
   */
  method PartTwo(g: seq<seq<MapCell>>, w: nat, h: nat) returns (total: nat)
    requires IsGrid(g, w, h) && Leaves(g, w, h)
    ensures total == |TrapCells(g, w, h)|
  {
    var path := PartOneInner(g, w, h);
    total := Scan(g, w, h, path, Visits(g, w, h));
  }
}
