/*
 * Day fifteen: a robot pushes boxes around a warehouse. A push moves the
 * whole chain of boxes ahead of the mover by one cell, or nothing at all when
 * the chain ends at a wall or the edge. Part two doubles the width: boxes are
 * two cells wide, and a vertical push of one half drags the other half along.
 */
module Fifteen {
  import opened Grids

  datatype Cell = Wall | Box | Empty | Robot

  /** What a call of `attempt_move` or `attempt_move2` ends in: `None`, `Some((ny, nx))`, or a panic. */
  datatype Move = Blocked | MovedTo(y: nat, x: nat) | Panicked

  /** Cells left between (y, x) and the edge it faces: what each recursive push uses up. */
  function Room(d: Direction, y: nat, x: nat, w: nat, h: nat): nat
  {
    match d
    case Up => y
    case Down => if h > y then h - y else 0
    case Left => x
    case Right => if w > x then w - x else 0
  }

  /** Cell (i, j) lies strictly ahead of (y, x) in direction `d`, on the same row or column. */
  predicate Ahead(d: Direction, y: int, x: int, i: int, j: int)
  {
    match d
    case Up => j == x && i < y
    case Down => j == x && i > y
    case Left => i == y && j < x
    case Right => i == y && j > x
  }

  /**
   * The last step of `attempt_move` (and of `attempt_move2`): the
   * asserted-empty cell ahead receives the mover and (y, x) is emptied.
   */
  function Shift<T(==)>(m: seq<seq<T>>, w: nat, h: nat, y: nat, x: nat, ny: nat, nx: nat, empty: T): (r: (Move, seq<seq<T>>))
    requires IsGrid(m, w, h) && InBounds(y, x, w, h) && InBounds(ny, nx, w, h) && (y, x) != (ny, nx)
    ensures IsGrid(r.1, w, h) && (r.0.Panicked? || r.0 == MovedTo(ny, nx))
    ensures r.0.Panicked? <==> m[ny][nx] != empty
    ensures r.0.Panicked? ==> r.1 == m
    ensures r.0.MovedTo? ==> r.1[ny][nx] == m[y][x] && r.1[y][x] == empty
    ensures r.0.MovedTo? ==> forall i, j :: 0 <= i < h && 0 <= j < w && (i, j) != (y, x) && (i, j) != (ny, nx) ==> r.1[i][j] == m[i][j]
  {
    if m[ny][nx] != empty then (Panicked, m)
    else (MovedTo(ny, nx), Set(Set(m, ny, nx, m[y][x]), y, x, empty))
  }

  /**
   * `attempt_move` on an immutable map: the outcome and the map afterwards.
   * A push fails, changing nothing, at the edge or a wall; a box ahead is
   * pushed first; the mover then steps onto the emptied cell.
   */
  function Push(m: seq<seq<Cell>>, w: nat, h: nat, y: nat, x: nat, d: Direction): (r: (Move, seq<seq<Cell>>))
    requires IsGrid(m, w, h) && InBounds(y, x, w, h)
    ensures IsGrid(r.1, w, h)
    ensures r.0.Blocked? ==> r.1 == m
    ensures r.0.MovedTo? ==> (r.0.y, r.0.x) == Neighbour(d, y, x) && InBounds(r.0.y, r.0.x, w, h)
    ensures r.0.MovedTo? ==> r.1[y][x] == Empty
    decreases Room(d, y, x, w, h)
  {
    match Advance(d, y, x, w, h)
    case None => (Blocked, m)
    case Some(n) =>
      if m[n.0][n.1] == Wall then (Blocked, m)
      else if m[n.0][n.1] == Box then
        var inner := Push(m, w, h, n.0, n.1, d);
        if !inner.0.MovedTo? then inner else Shift(inner.1, w, h, y, x, n.0, n.1, Empty)
      else Shift(m, w, h, y, x, n.0, n.1, Empty)
  }

  /** A push only writes to (y, x) and the cells ahead of it. */
  lemma {:induction false} PushFrame(m: seq<seq<Cell>>, w: nat, h: nat, y: nat, x: nat, d: Direction)
    requires IsGrid(m, w, h) && InBounds(y, x, w, h)
    ensures forall i, j :: 0 <= i < h && 0 <= j < w && !Ahead(d, y, x, i, j) && (i, j) != (y, x) ==>
      Push(m, w, h, y, x, d).1[i][j] == m[i][j]
    decreases Room(d, y, x, w, h)
  {
    match Advance(d, y, x, w, h)
    case None =>
    case Some(n) =>
      if m[n.0][n.1] == Box {
        PushFrame(m, w, h, n.0, n.1, d);
      }
  }

  /** A successful push leaves the mover on the cell ahead. */
  lemma PushMover(m: seq<seq<Cell>>, w: nat, h: nat, y: nat, x: nat, d: Direction)
    requires IsGrid(m, w, h) && InBounds(y, x, w, h)
    ensures var r := Push(m, w, h, y, x, d); r.0.MovedTo? ==> r.1[r.0.y][r.0.x] == m[y][x]
  {
    var n := Advance(d, y, x, w, h);
    if n.Some? && m[n.value.0][n.value.1] == Box {
      PushFrame(m, w, h, n.value.0, n.value.1, d);
    }
  }

  /** No robot stands anywhere ahead of (y, x): then the asserted-empty cell is always empty. */
  ghost predicate NoRobotAhead(m: seq<seq<Cell>>, w: nat, h: nat, d: Direction, y: nat, x: nat)
    requires IsGrid(m, w, h)
  {
    forall i, j :: 0 <= i < h && 0 <= j < w && Ahead(d, y, x, i, j) ==> m[i][j] != Robot
  }

  /** The `assert_eq!` of `attempt_move` only fires when another robot is in the way. */
  lemma {:induction false} PushNoPanic(m: seq<seq<Cell>>, w: nat, h: nat, y: nat, x: nat, d: Direction)
    requires IsGrid(m, w, h) && InBounds(y, x, w, h) && NoRobotAhead(m, w, h, d, y, x)
    ensures !Push(m, w, h, y, x, d).0.Panicked?
    decreases Room(d, y, x, w, h)
  {
    match Advance(d, y, x, w, h)
    case None =>
    case Some(n) =>
      if m[n.0][n.1] == Box {
        PushNoPanic(m, w, h, n.0, n.1, d);
      }
  }

  /** A push that does not panic keeps the number of walls, boxes, empty cells and robots. */
  lemma {:induction false} PushContents(m: seq<seq<Cell>>, w: nat, h: nat, y: nat, x: nat, d: Direction)
    requires IsGrid(m, w, h) && InBounds(y, x, w, h)
    ensures !Push(m, w, h, y, x, d).0.Panicked? ==> Contents(Push(m, w, h, y, x, d).1) == Contents(m)
    decreases Room(d, y, x, w, h)
  {
    match Advance(d, y, x, w, h)
    case None =>
    case Some(n) =>
      if m[n.0][n.1] == Wall {
      } else if m[n.0][n.1] == Box {
        PushContents(m, w, h, n.0, n.1, d);
        var m1 := Push(m, w, h, n.0, n.1, d).1;
        if m1[n.0][n.1] == Empty {
          ContentsSwap(m1, n, (y, x), Empty);
        }
      } else if m[n.0][n.1] == Empty {
        ContentsSwap(m, n, (y, x), Empty);
      }
  }

  /** The cell `t` steps from (y, x) in direction `d`. */
  function Far(d: Direction, y: int, x: int, t: int): (int, int)
  {
    match d
    case Up => (y - t, x)
    case Down => (y + t, x)
    case Left => (y, x - t)
    case Right => (y, x + t)
  }

  /** One step further from (y, x) is one step from its neighbour. */
  lemma FarStep(d: Direction, y: int, x: int, n: (int, int), t: int)
    requires n == Neighbour(d, y, x)
    ensures Far(d, y, x, t + 1) == Far(d, n.0, n.1, t)
  {
  }

  /** How many boxes stand in an unbroken line directly ahead of (y, x). */
  function BoxesAhead(m: seq<seq<Cell>>, w: nat, h: nat, y: nat, x: nat, d: Direction): nat
    requires IsGrid(m, w, h) && InBounds(y, x, w, h)
    decreases Room(d, y, x, w, h)
  {
    match Advance(d, y, x, w, h)
    case None => 0
    case Some(n) => if m[n.0][n.1] == Box then 1 + BoxesAhead(m, w, h, n.0, n.1, d) else 0
  }

  /** What lies just past the line of boxes ahead of (y, x): a cell, or None at the edge. */
  function PastLine(m: seq<seq<Cell>>, w: nat, h: nat, y: nat, x: nat, d: Direction): (r: Option<Cell>)
    requires IsGrid(m, w, h) && InBounds(y, x, w, h)
    ensures r != Some(Box)
    decreases Room(d, y, x, w, h)
  {
    match Advance(d, y, x, w, h)
    case None => None
    case Some(n) => if m[n.0][n.1] == Box then PastLine(m, w, h, n.0, n.1, d) else Some(m[n.0][n.1])
  }

  /**
   * The outcome depends only on what lies just past the line of boxes: the
   * edge or a wall blocks the push, a robot makes the assertion fail, and an
   * empty cell lets the whole line move.
   */
  lemma {:induction false} PushOutcome(m: seq<seq<Cell>>, w: nat, h: nat, y: nat, x: nat, d: Direction)
    requires IsGrid(m, w, h) && InBounds(y, x, w, h)
    ensures Push(m, w, h, y, x, d).0.Blocked? <==> PastLine(m, w, h, y, x, d) in {None, Some(Wall)}
    ensures Push(m, w, h, y, x, d).0.Panicked? <==> PastLine(m, w, h, y, x, d) == Some(Robot)
    decreases Room(d, y, x, w, h)
  {
    match Advance(d, y, x, w, h)
    case None =>
    case Some(n) =>
      if m[n.0][n.1] == Box {
        PushOutcome(m, w, h, n.0, n.1, d);
      }
  }

  /**
   * A successful push shifts the line of boxes and the mover one cell
   * forward: cell `t` of the line (up to the cell just past it) now holds
   * what cell `t - 1` held.
   */
  lemma {:induction false} PushShiftAt(m: seq<seq<Cell>>, w: nat, h: nat, y: nat, x: nat, d: Direction, t: int)
    requires IsGrid(m, w, h) && InBounds(y, x, w, h) && Push(m, w, h, y, x, d).0.MovedTo?
    requires 1 <= t <= BoxesAhead(m, w, h, y, x, d) + 1
    ensures var c, b := Far(d, y, x, t), Far(d, y, x, t - 1);
      InBounds(c.0, c.1, w, h) && InBounds(b.0, b.1, w, h) && Push(m, w, h, y, x, d).1[c.0][c.1] == m[b.0][b.1]
    decreases Room(d, y, x, w, h)
  {
    var n := Advance(d, y, x, w, h).value;
    var r := Push(m, w, h, y, x, d).1;
    if t == 1 {
      PushMover(m, w, h, y, x, d);
      assert Push(m, w, h, y, x, d).0 == MovedTo(n.0, n.1);
      assert Far(d, y, x, 0) == (y, x) && Far(d, y, x, 1) == n;
    } else {
      assert m[n.0][n.1] == Box;
      var m1 := Push(m, w, h, n.0, n.1, d).1;
      PushShiftAt(m, w, h, n.0, n.1, d, t - 1);
      FarStep(d, y, x, n, t - 1);
      FarStep(d, y, x, n, t - 2);
      var c, b := Far(d, y, x, t), Far(d, y, x, t - 1);
      assert c == Far(d, n.0, n.1, t - 1) && b == Far(d, n.0, n.1, t - 2);
      assert c != n && c != (y, x);
      PushStepFrame(m, w, h, y, x, d, n, c);
      assert r[c.0][c.1] == m1[c.0][c.1] == m[b.0][b.1];
    }
  }

  /** One level of `attempt_move`: off (y, x) and the next cell, the map is what the inner push left. */
  lemma PushStepFrame(m: seq<seq<Cell>>, w: nat, h: nat, y: nat, x: nat, d: Direction, n: (nat, nat), c: (int, int))
    requires IsGrid(m, w, h) && InBounds(y, x, w, h) && Advance(d, y, x, w, h) == Some(n)
    requires InBounds(c.0, c.1, w, h) && c != n && c != (y, x)
    ensures Push(m, w, h, y, x, d).1[c.0][c.1] ==
      if m[n.0][n.1] == Box then Push(m, w, h, n.0, n.1, d).1[c.0][c.1] else m[c.0][c.1]
  {
    var r := Push(m, w, h, y, x, d).1;
    if m[n.0][n.1] == Box {
      var inner := Push(m, w, h, n.0, n.1, d);
      if inner.0.MovedTo? {
        assert r == Shift(inner.1, w, h, y, x, n.0, n.1, Empty).1;
      } else {
        assert r == inner.1;
      }
    } else if m[n.0][n.1] == Wall {
      assert r == m;
    } else {
      assert r == Shift(m, w, h, y, x, n.0, n.1, Empty).1;
    }
  }

  /** Past the cell just beyond the line of boxes, a push changes nothing along its way. */
  lemma {:induction false} PushBeyondAt(m: seq<seq<Cell>>, w: nat, h: nat, y: nat, x: nat, d: Direction, t: int)
    requires IsGrid(m, w, h) && InBounds(y, x, w, h)
    requires t > BoxesAhead(m, w, h, y, x, d) + 1 && InBounds(Far(d, y, x, t).0, Far(d, y, x, t).1, w, h)
    ensures var c := Far(d, y, x, t); Push(m, w, h, y, x, d).1[c.0][c.1] == m[c.0][c.1]
    decreases Room(d, y, x, w, h)
  {
    var n := Advance(d, y, x, w, h).value;
    FarStep(d, y, x, n, t - 1);
    var c := Far(d, y, x, t);
    assert c != n && c != (y, x);
    PushStepFrame(m, w, h, y, x, d, n, c);
    if m[n.0][n.1] == Box {
      PushBeyondAt(m, w, h, n.0, n.1, d, t - 1);
    }
  }

  /** The warehouse map `attempt_move` mutates in place. */
  class Warehouse {
    var floor: seq<seq<Cell>>
    const width: nat
    const height: nat

    constructor (floor: seq<seq<Cell>>, width: nat, height: nat)
      ensures this.floor == floor && this.width == width && this.height == height
    {
      this.floor := floor;
      this.width := width;
      this.height := height;
    }

    /** `attempt_move`: pushes from (y, x) in direction `d`, writing into the map as it returns. */
    method AttemptMove(y: nat, x: nat, d: Direction) returns (r: Move)
      requires IsGrid(floor, width, height) && InBounds(y, x, width, height)
      modifies this
      ensures (r, floor) == Push(old(floor), width, height, y, x, d)
      decreases Room(d, y, x, width, height)
    {
      var next := Advance(d, y, x, width, height);
      if next.None? {
        return Blocked;
      }
      var (ny, nx) := next.value;
      if floor[ny][nx] == Wall {
        return Blocked;
      }
      if floor[ny][nx] == Box {
        var inner := AttemptMove(ny, nx, d);
        if !inner.MovedTo? {
          return inner;
        }
      }
      if floor[ny][nx] != Empty {
        return Panicked;
      }
      floor := Set(floor, ny, nx, floor[y][x]);
      floor := Set(floor, y, x, Empty);
      return MovedTo(ny, nx);
    }
  }

  /** The robot at (y, x) follows `moves` from the front; None when an assertion panics. */
  function Run(m: seq<seq<Cell>>, w: nat, h: nat, y: nat, x: nat, moves: seq<Direction>): (r: Option<(seq<seq<Cell>>, nat, nat)>)
    requires IsGrid(m, w, h) && InBounds(y, x, w, h)
    ensures r.Some? ==> IsGrid(r.value.0, w, h) && InBounds(r.value.1, r.value.2, w, h)
    decreases |moves|
  {
    if moves == [] then Some((m, y, x))
    else
      var (outcome, m1) := Push(m, w, h, y, x, moves[0]);
      match outcome
      case Panicked => None
      case Blocked => Run(m1, w, h, y, x, moves[1..])
      case MovedTo(ny, nx) => Run(m1, w, h, ny, nx, moves[1..])
  }

  /** The robot at (y, x) is the map's only robot. */
  ghost predicate SoleRobot(m: seq<seq<Cell>>, w: nat, h: nat, y: nat, x: nat)
  {
    IsGrid(m, w, h) && InBounds(y, x, w, h) && m[y][x] == Robot && Contents(m)[Robot] == 1
  }

  /** With one robot, nothing ahead of it is a robot. */
  lemma SoleRobotAhead(m: seq<seq<Cell>>, w: nat, h: nat, y: nat, x: nat, d: Direction)
    requires SoleRobot(m, w, h, y, x)
    ensures NoRobotAhead(m, w, h, d, y, x)
  {
    forall i, j | 0 <= i < h && 0 <= j < w && Ahead(d, y, x, i, j)
      ensures m[i][j] != Robot
    {
      if m[i][j] == Robot {
        TwoCopies(m, (y, x), (i, j), Empty);
      }
    }
  }

  /** One instruction keeps the robot the only one, never panics, and keeps every cell kind's count. */
  lemma RunStep(m: seq<seq<Cell>>, w: nat, h: nat, y: nat, x: nat, d: Direction)
    requires SoleRobot(m, w, h, y, x)
    ensures !Push(m, w, h, y, x, d).0.Panicked?
    ensures Contents(Push(m, w, h, y, x, d).1) == Contents(m)
    ensures var (outcome, m1) := Push(m, w, h, y, x, d);
      if outcome.MovedTo? then SoleRobot(m1, w, h, outcome.y, outcome.x) else SoleRobot(m1, w, h, y, x)
  {
    SoleRobotAhead(m, w, h, y, x, d);
    PushMover(m, w, h, y, x, d);
    PushNoPanic(m, w, h, y, x, d);
    PushContents(m, w, h, y, x, d);
  }

  /** With a single robot, no instruction ever panics and the counts of every cell kind never change. */
  lemma {:induction false} RunSafe(m: seq<seq<Cell>>, w: nat, h: nat, y: nat, x: nat, moves: seq<Direction>)
    requires SoleRobot(m, w, h, y, x)
    ensures Run(m, w, h, y, x, moves).Some?
    ensures var (m1, y1, x1) := Run(m, w, h, y, x, moves).value; SoleRobot(m1, w, h, y1, x1) && Contents(m1) == Contents(m)
    decreases |moves|
  {
    if moves != [] {
      RunStep(m, w, h, y, x, moves[0]);
      var (outcome, m1) := Push(m, w, h, y, x, moves[0]);
      if outcome.MovedTo? {
        RunSafe(m1, w, h, outcome.y, outcome.x, moves[1..]);
      } else {
        RunSafe(m1, w, h, y, x, moves[1..]);
      }
    }
  }

  /** The GPS coordinate 100·y + x summed over the cells of `ps` holding `v`. */
  function Gps<T(==)>(m: seq<seq<T>>, v: T, ps: seq<Pos>): (r: nat)
  {
    if ps == [] then 0
    else
      var p := ps[|ps| - 1];
      Gps(m, v, ps[..|ps| - 1]) + if p.0 < |m| && p.1 < |m[p.0]| && m[p.0][p.1] == v then 100 * p.0 + p.1 else 0
  }

  /** The sum only looks at which cells hold `v`. */
  lemma {:induction false} GpsSame<T>(m: seq<seq<T>>, n: seq<seq<T>>, v: T, ps: seq<Pos>)
    requires |m| == |n| && forall i :: 0 <= i < |m| ==> |m[i]| == |n[i]|
    requires forall i, j :: 0 <= i < |m| && 0 <= j < |m[i]| ==> (m[i][j] == v <==> n[i][j] == v)
    ensures Gps(m, v, ps) == Gps(n, v, ps)
  {
    if ps != [] {
      GpsSame(m, n, v, ps[..|ps| - 1]);
    }
  }

  /** The robot and its remaining instructions equal the whole run from the start. */
  ghost predicate Driving(wh: Warehouse, m: seq<seq<Cell>>, w: nat, h: nat, y0: nat, x0: nat,
                          moves: seq<Direction>, i: nat, y: nat, x: nat)
    reads wh
  {
    wh.width == w && wh.height == h && i <= |moves| && IsGrid(wh.floor, w, h) && InBounds(y, x, w, h) &&
    IsGrid(m, w, h) && InBounds(y0, x0, w, h) &&
    Run(wh.floor, w, h, y, x, moves[i..]) == Run(m, w, h, y0, x0, moves)
  }

  /**
   * `part_one`: the robot starts at the map's first robot cell and follows
   * every instruction; the answer is the GPS sum over the boxes, or None
   * where the program would panic. With a single robot it never panics.
   */
  method PartOne(m: seq<seq<Cell>>, w: nat, h: nat, moves: seq<Direction>) returns (score: Option<nat>)
    requires IsGrid(m, w, h) && Position(m, Robot).Some?
    ensures var (y0, x0) := Position(m, Robot).value;
      score == match Run(m, w, h, y0, x0, moves)
        case None => None
        case Some(end) => Some(Gps(end.0, Box, Positions(w, h)))
    ensures Contents(m)[Robot] == 1 ==> score.Some?
  {
    var (y0, x0) := Position(m, Robot).value;
    if Contents(m)[Robot] == 1 {
      RunSafe(m, w, h, y0, x0, moves);
    }
    var wh := new Warehouse(m, w, h);
    var y, x := y0, x0;
    for i := 0 to |moves|
      invariant Driving(wh, m, w, h, y0, x0, moves, i, y, x)
    {
      assert moves[i..][1..] == moves[i + 1..];
      var r := wh.AttemptMove(y, x, moves[i]);
      if r.Panicked? {
        return None;
      }
      if r.MovedTo? {
        y, x := r.y, r.x;
      }
    }
    assert moves[|moves|..] == [];
    score := Some(Gps(wh.floor, Box, Positions(w, h)));
  }
}
