/*
 * Day fifteen, part two: the warehouse is drawn twice as wide, so every box
 * covers two cells, `[` then `]`. Sideways pushes behave as before; an up or
 * down push of one half of a box also pushes the other half, so a push can
 * fan out over many boxes.
 */
module FifteenWide {
  import opened Grids
  import Fifteen

  /** `Cell2`: a wall, the left or right half of a box, floor, or the robot. */
  datatype Cell2 = Wall | Box1 | Box2 | Empty | Robot

  /** The left one of the two cells `map2_from_map2` makes of a cell. */
  function LeftHalf(c: Fifteen.Cell): Cell2
  {
    match c
    case Wall => Wall
    case Box => Box1
    case Empty => Empty
    case Robot => Robot
  }

  /** The right one of the two cells `map2_from_map2` makes of a cell. */
  function RightHalf(c: Fifteen.Cell): Cell2
  {
    match c
    case Wall => Wall
    case Box => Box2
    case Empty => Empty
    case Robot => Empty
  }

  /** A row drawn twice as wide: cell `j` becomes cells 2j and 2j + 1. */
  function WideRow(src: seq<Fifteen.Cell>): (r: seq<Cell2>)
    ensures |r| == 2 * |src|
    ensures forall j :: 0 <= j < |src| ==> r[2 * j] == LeftHalf(src[j]) && r[2 * j + 1] == RightHalf(src[j])
  {
    if src == [] then []
    else WideRow(src[..|src| - 1]) + [LeftHalf(src[|src| - 1]), RightHalf(src[|src| - 1])]
  }

  /** The whole map drawn twice as wide, row by row. */
  function Wide(m: seq<seq<Fifteen.Cell>>): seq<seq<Cell2>>
  {
    seq(|m|, i requires 0 <= i < |m| => WideRow(m[i]))
  }

  /** The wide map keeps the height, doubles the width, and draws each cell as its two halves. */
  lemma WideShape(m: seq<seq<Fifteen.Cell>>, w: nat, h: nat)
    requires IsGrid(m, w, h)
    ensures IsGrid(Wide(m), 2 * w, h)
    ensures forall i, j :: 0 <= i < h && 0 <= j < w ==>
      Wide(m)[i][2 * j] == LeftHalf(m[i][j]) && Wide(m)[i][2 * j + 1] == RightHalf(m[i][j])
  {
    forall i, j | 0 <= i < h && 0 <= j < w
      ensures Wide(m)[i][2 * j] == LeftHalf(m[i][j]) && Wide(m)[i][2 * j + 1] == RightHalf(m[i][j])
    {
      assert Wide(m)[i] == WideRow(m[i]);
    }
  }

  /** The wide map's first robot sits at the left half of the original robot's cell. */
  lemma WidePosition(m: seq<seq<Fifteen.Cell>>, w: nat, h: nat)
    requires IsGrid(m, w, h) && Position(m, Fifteen.Robot).Some?
    ensures var (y, x) := Position(m, Fifteen.Robot).value; Position(Wide(m), Robot) == Some((y, 2 * x))
  {
    var (y, x) := Position(m, Fifteen.Robot).value;
    var g := Wide(m);
    WideShape(m, w, h);
    forall i, j | 0 <= i < |g| && 0 <= j < |g[i]| && (i < y || (i == y && j < 2 * x))
      ensures g[i][j] != Robot
    {
      var k := j / 2;
      assert k < w && (i < y || (i == y && k < x));
      assert m[i][k] != Fifteen.Robot;
      if j == 2 * k {
        assert g[i][j] == LeftHalf(m[i][k]);
      } else {
        assert j == 2 * k + 1;
        assert g[i][j] == RightHalf(m[i][k]);
      }
    }
    PositionIs(g, Robot, y, 2 * x);
  }

  /** `map2_from_map2`: builds the wide map row by row, pushing two cells for every cell. */
  method Map2FromMap(m: seq<seq<Fifteen.Cell>>) returns (r: seq<seq<Cell2>>)
    ensures r == Wide(m)
  {
    var rows: seq<seq<Cell2>> := [];
    for y := 0 to |m|
      invariant |rows| == y && forall i :: 0 <= i < y ==> rows[i] == WideRow(m[i])
    {
      var row := m[y];
      var newRow: seq<Cell2> := [];
      for x := 0 to |row|
        invariant newRow == WideRow(row[..x])
      {
        assert row[..x + 1][..x] == row[..x];
        newRow := newRow + [LeftHalf(row[x]), RightHalf(row[x])];
      }
      assert row[..|row|] == row;
      rows := rows + [newRow];
    }
    r := rows;
  }

  function IsBox(c: Cell2): bool
  {
    c == Box1 || c == Box2
  }

  /**
   * `attempt_move2` on an immutable map: the outcome and the map afterwards.
   * The edge or a wall blocks the push; a box half ahead is pushed first, as
   * an independent move; `Drag` then does the rest. A failure part way
   * through returns the map with the writes made so far.
   */
  function Push2(m: seq<seq<Cell2>>, w: nat, h: nat, y: nat, x: nat, d: Direction, dependent: bool): (r: (Fifteen.Move, seq<seq<Cell2>>))
    requires IsGrid(m, w, h) && InBounds(y, x, w, h)
    ensures IsGrid(r.1, w, h)
    ensures r.0.MovedTo? ==> (r.0.y, r.0.x) == Neighbour(d, y, x) && InBounds(r.0.y, r.0.x, w, h)
    ensures r.0.MovedTo? ==> r.1[y][x] == Empty
    decreases Fifteen.Room(d, y, x, w, h), if dependent then 0 else 1, 2
  {
    match Advance(d, y, x, w, h)
    case None => (Fifteen.Blocked, m)
    case Some(n) =>
      if m[n.0][n.1] == Wall then (Fifteen.Blocked, m)
      else if IsBox(m[n.0][n.1]) then
        var ahead := Push2(m, w, h, n.0, n.1, d, false);
        if ahead.0.MovedTo? then Drag(ahead.1, w, h, y, x, n, d, dependent) else ahead
      else Drag(m, w, h, y, x, n, d, dependent)
  }

  /** An independent up or down move of a box half drags the other half along. */
  predicate Drags(d: Direction, dependent: bool)
  {
    !dependent && (d == Up || d == Down)
  }

  /** The rest of `attempt_move2` once the way ahead is clear: a left half drags the right half at x + 1, then `Finish`. */
  function Drag(m: seq<seq<Cell2>>, w: nat, h: nat, y: nat, x: nat, n: (nat, nat), d: Direction, dependent: bool): (r: (Fifteen.Move, seq<seq<Cell2>>))
    requires IsGrid(m, w, h) && InBounds(y, x, w, h) && Advance(d, y, x, w, h) == Some(n)
    ensures IsGrid(r.1, w, h)
    ensures r.0.MovedTo? ==> r.0 == Fifteen.MovedTo(n.0, n.1) && r.1[y][x] == Empty
    decreases Fifteen.Room(d, y, x, w, h), if dependent then 0 else 1, 1
  {
    if Drags(d, dependent) && m[y][x] == Box1 then
      if x + 1 < w then
        var right := Push2(m, w, h, y, x + 1, d, true);
        if right.0.MovedTo? then Finish(right.1, w, h, y, x, n, d, dependent) else right
      else (Fifteen.Panicked, m)
    else Finish(m, w, h, y, x, n, d, dependent)
  }

  /**
   * The end of `attempt_move2`: a right half drags the left half at x - 1;
   * then the asserted-empty cell ahead receives the mover.
   */
  function Finish(m: seq<seq<Cell2>>, w: nat, h: nat, y: nat, x: nat, n: (nat, nat), d: Direction, dependent: bool): (r: (Fifteen.Move, seq<seq<Cell2>>))
    requires IsGrid(m, w, h) && InBounds(y, x, w, h) && Advance(d, y, x, w, h) == Some(n)
    ensures IsGrid(r.1, w, h)
    ensures r.0.MovedTo? ==> r.0 == Fifteen.MovedTo(n.0, n.1) && r.1[y][x] == Empty
    decreases Fifteen.Room(d, y, x, w, h), if dependent then 0 else 1, 0
  {
    if Drags(d, dependent) && m[y][x] == Box2 then
      if x > 0 then
        var left := Push2(m, w, h, y, x - 1, d, true);
        if left.0.MovedTo? then Fifteen.Shift(left.1, w, h, y, x, n.0, n.1, Empty) else left
      else (Fifteen.Panicked, m)
    else Fifteen.Shift(m, w, h, y, x, n.0, n.1, Empty)
  }

  /** The cells a wide push from (y, x) may write: (y, x), the partner column when it drags, and everything ahead. */
  predicate Region(d: Direction, y: int, x: int, dependent: bool, i: int, j: int)
  {
    match d
    case Up => i < y || (i == y && (j == x || (!dependent && (j == x + 1 || j + 1 == x))))
    case Down => i > y || (i == y && (j == x || (!dependent && (j == x + 1 || j + 1 == x))))
    case Left => i == y && j <= x
    case Right => i == y && j >= x
  }

  /** The map agrees with `m` on every cell outside the region of a push from (y, x). */
  ghost predicate KeepsOutside(m: seq<seq<Cell2>>, r: seq<seq<Cell2>>, w: nat, h: nat, d: Direction, y: nat, x: nat, dependent: bool)
    requires IsGrid(m, w, h) && IsGrid(r, w, h)
  {
    forall i, j :: 0 <= i < h && 0 <= j < w && !Region(d, y, x, dependent, i, j) ==> r[i][j] == m[i][j]
  }

  /** A wide push, successful or not, writes nothing outside its region. */
  lemma {:induction false} Push2Frame(m: seq<seq<Cell2>>, w: nat, h: nat, y: nat, x: nat, d: Direction, dependent: bool)
    requires IsGrid(m, w, h) && InBounds(y, x, w, h)
    ensures KeepsOutside(m, Push2(m, w, h, y, x, d, dependent).1, w, h, d, y, x, dependent)
    decreases Fifteen.Room(d, y, x, w, h), if dependent then 0 else 1, 2
  {
    match Advance(d, y, x, w, h)
    case None =>
    case Some(n) =>
      if m[n.0][n.1] != Wall {
        if IsBox(m[n.0][n.1]) {
          Push2Frame(m, w, h, n.0, n.1, d, false);
          var ahead := Push2(m, w, h, n.0, n.1, d, false);
          if ahead.0.MovedTo? {
            DragFrame(ahead.1, w, h, y, x, n, d, dependent);
          }
        } else {
          DragFrame(m, w, h, y, x, n, d, dependent);
        }
      }
  }

  lemma {:induction false} DragFrame(m: seq<seq<Cell2>>, w: nat, h: nat, y: nat, x: nat, n: (nat, nat), d: Direction, dependent: bool)
    requires IsGrid(m, w, h) && InBounds(y, x, w, h) && Advance(d, y, x, w, h) == Some(n)
    ensures KeepsOutside(m, Drag(m, w, h, y, x, n, d, dependent).1, w, h, d, y, x, dependent)
    decreases Fifteen.Room(d, y, x, w, h), if dependent then 0 else 1, 1
  {
    if Drags(d, dependent) && m[y][x] == Box1 {
      if x + 1 < w {
        Push2Frame(m, w, h, y, x + 1, d, true);
        var right := Push2(m, w, h, y, x + 1, d, true);
        if right.0.MovedTo? {
          FinishFrame(right.1, w, h, y, x, n, d, dependent);
        }
      }
    } else {
      FinishFrame(m, w, h, y, x, n, d, dependent);
    }
  }

  lemma {:induction false} FinishFrame(m: seq<seq<Cell2>>, w: nat, h: nat, y: nat, x: nat, n: (nat, nat), d: Direction, dependent: bool)
    requires IsGrid(m, w, h) && InBounds(y, x, w, h) && Advance(d, y, x, w, h) == Some(n)
    ensures KeepsOutside(m, Finish(m, w, h, y, x, n, d, dependent).1, w, h, d, y, x, dependent)
    decreases Fifteen.Room(d, y, x, w, h), if dependent then 0 else 1, 0
  {
    if Drags(d, dependent) && m[y][x] == Box2 && x > 0 {
      Push2Frame(m, w, h, y, x - 1, d, true);
    }
  }

  /** A wide push never creates or destroys a cell, even when it fails part way. */
  lemma {:induction false} Push2Contents(m: seq<seq<Cell2>>, w: nat, h: nat, y: nat, x: nat, d: Direction, dependent: bool)
    requires IsGrid(m, w, h) && InBounds(y, x, w, h)
    ensures Contents(Push2(m, w, h, y, x, d, dependent).1) == Contents(m)
    decreases Fifteen.Room(d, y, x, w, h), if dependent then 0 else 1, 2
  {
    match Advance(d, y, x, w, h)
    case None =>
    case Some(n) =>
      if m[n.0][n.1] != Wall {
        if IsBox(m[n.0][n.1]) {
          Push2Contents(m, w, h, n.0, n.1, d, false);
          var ahead := Push2(m, w, h, n.0, n.1, d, false);
          if ahead.0.MovedTo? {
            DragContents(ahead.1, w, h, y, x, n, d, dependent);
          }
        } else {
          DragContents(m, w, h, y, x, n, d, dependent);
        }
      }
  }

  lemma {:induction false} DragContents(m: seq<seq<Cell2>>, w: nat, h: nat, y: nat, x: nat, n: (nat, nat), d: Direction, dependent: bool)
    requires IsGrid(m, w, h) && InBounds(y, x, w, h) && Advance(d, y, x, w, h) == Some(n)
    ensures Contents(Drag(m, w, h, y, x, n, d, dependent).1) == Contents(m)
    decreases Fifteen.Room(d, y, x, w, h), if dependent then 0 else 1, 1
  {
    if Drags(d, dependent) && m[y][x] == Box1 {
      if x + 1 < w {
        Push2Contents(m, w, h, y, x + 1, d, true);
        var right := Push2(m, w, h, y, x + 1, d, true);
        if right.0.MovedTo? {
          FinishContents(right.1, w, h, y, x, n, d, dependent);
        }
      }
    } else {
      FinishContents(m, w, h, y, x, n, d, dependent);
    }
  }

  lemma {:induction false} FinishContents(m: seq<seq<Cell2>>, w: nat, h: nat, y: nat, x: nat, n: (nat, nat), d: Direction, dependent: bool)
    requires IsGrid(m, w, h) && InBounds(y, x, w, h) && Advance(d, y, x, w, h) == Some(n)
    ensures Contents(Finish(m, w, h, y, x, n, d, dependent).1) == Contents(m)
    decreases Fifteen.Room(d, y, x, w, h), if dependent then 0 else 1, 0
  {
    if Drags(d, dependent) && m[y][x] == Box2 {
      if x > 0 {
        Push2Contents(m, w, h, y, x - 1, d, true);
        var left := Push2(m, w, h, y, x - 1, d, true);
        if left.0.MovedTo? && left.1[n.0][n.1] == Empty {
          ContentsSwap(left.1, n, (y, x), Empty);
        }
      }
    } else if m[n.0][n.1] == Empty {
      ContentsSwap(m, n, (y, x), Empty);
    }
  }

  /** A successful wide push leaves the mover on the cell ahead. */
  lemma Push2Mover(m: seq<seq<Cell2>>, w: nat, h: nat, y: nat, x: nat, d: Direction, dependent: bool)
    requires IsGrid(m, w, h) && InBounds(y, x, w, h)
    ensures var r := Push2(m, w, h, y, x, d, dependent); r.0.MovedTo? ==> r.1[r.0.y][r.0.x] == m[y][x]
  {
    var r := Push2(m, w, h, y, x, d, dependent);
    if r.0.MovedTo? {
      var n := Advance(d, y, x, w, h).value;
      var m1 := m;
      if IsBox(m[n.0][n.1]) {
        Push2Frame(m, w, h, n.0, n.1, d, false);
        m1 := Push2(m, w, h, n.0, n.1, d, false).1;
      }
      assert r == Drag(m1, w, h, y, x, n, d, dependent) && m1[y][x] == m[y][x];
      var m2 := m1;
      if Drags(d, dependent) && m1[y][x] == Box1 {
        Push2Frame(m1, w, h, y, x + 1, d, true);
        m2 := Push2(m1, w, h, y, x + 1, d, true).1;
      }
      assert r == Finish(m2, w, h, y, x, n, d, dependent) && m2[y][x] == m[y][x];
      if Drags(d, dependent) && m2[y][x] == Box2 {
        Push2Frame(m2, w, h, y, x - 1, d, true);
      }
    }
  }

  /**
   * An independent up or down push of a box's left half that succeeds moves
   * the right half at x + 1 into the same new row and empties its old cell.
   */
  lemma DragsRightHalf(m: seq<seq<Cell2>>, w: nat, h: nat, y: nat, x: nat, d: Direction)
    requires IsGrid(m, w, h) && InBounds(y, x, w, h) && (d == Up || d == Down) && m[y][x] == Box1
    ensures var r := Push2(m, w, h, y, x, d, false);
      r.0.MovedTo? ==> x + 1 < w && r.1[r.0.y][x + 1] == m[y][x + 1] && r.1[y][x + 1] == Empty
  {
    var r := Push2(m, w, h, y, x, d, false);
    if r.0.MovedTo? {
      var n := Advance(d, y, x, w, h).value;
      var m1 := m;
      if IsBox(m[n.0][n.1]) {
        Push2Frame(m, w, h, n.0, n.1, d, false);
        m1 := Push2(m, w, h, n.0, n.1, d, false).1;
      }
      assert r == Drag(m1, w, h, y, x, n, d, false) && m1[y][x] == Box1 && m1[y][x + 1] == m[y][x + 1];
      Push2Frame(m1, w, h, y, x + 1, d, true);
      Push2Mover(m1, w, h, y, x + 1, d, true);
      var m2 := Push2(m1, w, h, y, x + 1, d, true).1;
      assert r == Finish(m2, w, h, y, x, n, d, false) && m2[y][x] == Box1;
      assert r == Fifteen.Shift(m2, w, h, y, x, n.0, n.1, Empty);
    }
  }

  /**
   * An independent up or down push of a box's right half that succeeds moves
   * the left half at x - 1 into the same new row and empties its old cell.
   */
  lemma DragsLeftHalf(m: seq<seq<Cell2>>, w: nat, h: nat, y: nat, x: nat, d: Direction)
    requires IsGrid(m, w, h) && InBounds(y, x, w, h) && (d == Up || d == Down) && m[y][x] == Box2
    ensures var r := Push2(m, w, h, y, x, d, false);
      r.0.MovedTo? ==> x > 0 && r.1[r.0.y][x - 1] == m[y][x - 1] && r.1[y][x - 1] == Empty
  {
    var r := Push2(m, w, h, y, x, d, false);
    if r.0.MovedTo? {
      var n := Advance(d, y, x, w, h).value;
      var m1 := m;
      if IsBox(m[n.0][n.1]) {
        Push2Frame(m, w, h, n.0, n.1, d, false);
        m1 := Push2(m, w, h, n.0, n.1, d, false).1;
      }
      assert r == Drag(m1, w, h, y, x, n, d, false) && m1[y][x] == Box2;
      assert r == Finish(m1, w, h, y, x, n, d, false) && x > 0 && m1[y][x - 1] == m[y][x - 1];
      Push2Frame(m1, w, h, y, x - 1, d, true);
      Push2Mover(m1, w, h, y, x - 1, d, true);
      var m2 := Push2(m1, w, h, y, x - 1, d, true).1;
      assert r == Fifteen.Shift(m2, w, h, y, x, n.0, n.1, Empty);
    }
  }

  /**
   * A wide push can fail after part of it has already been written: here the
   * upper box moves up before the lower box's right half meets a wall. This
   * is why `part_two` pushes on a clone and keeps it only on success.
   */
  lemma FailedPushWrites()
    ensures var m := [[Empty, Empty, Empty], [Box1, Box2, Wall], [Empty, Box1, Box2], [Empty, Robot, Empty]];
      var r := Push2(m, 3, 4, 3, 1, Up, false);
      r.0.Blocked? && r.1 != m
  {
    var m := [[Empty, Empty, Empty], [Box1, Box2, Wall], [Empty, Box1, Box2], [Empty, Robot, Empty]];
    assert IsGrid(m, 3, 4);
    var m1 := [[Box1, Empty, Empty], [Empty, Box2, Wall], [Empty, Box1, Box2], [Empty, Robot, Empty]];
    var s1 := Set(m, 0, 0, Box1);
    assert m[0][0 := Box1] == [Box1, Empty, Empty];
    assert s1 == [[Box1, Empty, Empty], [Box1, Box2, Wall], [Empty, Box1, Box2], [Empty, Robot, Empty]];
    assert s1[1][0 := Empty] == [Empty, Box2, Wall];
    assert Set(s1, 1, 0, Empty) == m1;
    assert Advance(Up, 1, 0, 3, 4) == Some((0, 0));
    assert Drag(m, 3, 4, 1, 0, (0, 0), Up, true) == Finish(m, 3, 4, 1, 0, (0, 0), Up, true);
    assert Finish(m, 3, 4, 1, 0, (0, 0), Up, true) == Fifteen.Shift(m, 3, 4, 1, 0, 0, 0, Empty);
    assert Push2(m, 3, 4, 1, 0, Up, true) == (Fifteen.MovedTo(0, 0), m1);
    var m2 := [[Box1, Box2, Empty], [Empty, Empty, Wall], [Empty, Box1, Box2], [Empty, Robot, Empty]];
    var s2 := Set(m1, 0, 1, Box2);
    assert m1[0][1 := Box2] == [Box1, Box2, Empty];
    assert s2 == [[Box1, Box2, Empty], [Empty, Box2, Wall], [Empty, Box1, Box2], [Empty, Robot, Empty]];
    assert s2[1][1 := Empty] == [Empty, Empty, Wall];
    assert Set(s2, 1, 1, Empty) == m2;
    assert Fifteen.Shift(m1, 3, 4, 1, 1, 0, 1, Empty) == (Fifteen.MovedTo(0, 1), m2);
    assert Finish(m, 3, 4, 1, 1, (0, 1), Up, false) == (Fifteen.MovedTo(0, 1), m2);
    assert Push2(m, 3, 4, 1, 1, Up, false) == (Fifteen.MovedTo(0, 1), m2);
    assert Push2(m2, 3, 4, 2, 2, Up, true) == (Fifteen.Blocked, m2);
    assert Push2(m, 3, 4, 2, 1, Up, false) == (Fifteen.Blocked, m2);
    assert m2[1][0] != m[1][0];
  }

  /** A wide warehouse map that `attempt_move2` mutates in place. */
  class WideWarehouse {
    var floor: seq<seq<Cell2>>
    const width: nat
    const height: nat

    constructor (floor: seq<seq<Cell2>>, width: nat, height: nat)
      ensures this.floor == floor && this.width == width && this.height == height
    {
      this.floor := floor;
      this.width := width;
      this.height := height;
    }

    /** `attempt_move2`: pushes from (y, x), writing into the map as it goes, even when a later step fails. */
    method AttemptMove2(y: nat, x: nat, d: Direction, dependent: bool) returns (r: Fifteen.Move)
      requires IsGrid(floor, width, height) && InBounds(y, x, width, height)
      modifies this
      ensures (r, floor) == Push2(old(floor), width, height, y, x, d, dependent)
      decreases Fifteen.Room(d, y, x, width, height), if dependent then 0 else 1, 2
    {
      var next := Advance(d, y, x, width, height);
      if next.None? {
        return Fifteen.Blocked;
      }
      var (ny, nx) := next.value;
      if floor[ny][nx] == Wall {
        return Fifteen.Blocked;
      }
      if floor[ny][nx] == Box1 || floor[ny][nx] == Box2 {
        var ahead := AttemptMove2(ny, nx, d, false);
        if !ahead.MovedTo? {
          return ahead;
        }
      }
      r := DragStage(y, x, (ny, nx), d, dependent);
    }

    /** The partner step of `attempt_move2` for a left half, then `FinishStage`. */
    method DragStage(y: nat, x: nat, n: (nat, nat), d: Direction, dependent: bool) returns (r: Fifteen.Move)
      requires IsGrid(floor, width, height) && InBounds(y, x, width, height) && Advance(d, y, x, width, height) == Some(n)
      modifies this
      ensures (r, floor) == Drag(old(floor), width, height, y, x, n, d, dependent)
      decreases Fifteen.Room(d, y, x, width, height), if dependent then 0 else 1, 1
    {
      if Drags(d, dependent) && floor[y][x] == Box1 {
        if x + 1 >= width {
          return Fifteen.Panicked;
        }
        var right := AttemptMove2(y, x + 1, d, true);
        if !right.MovedTo? {
          return right;
        }
      }
      r := FinishStage(y, x, n, d, dependent);
    }

    /** The partner step of `attempt_move2` for a right half, then the asserted-empty step onto the cell ahead. */
    method FinishStage(y: nat, x: nat, n: (nat, nat), d: Direction, dependent: bool) returns (r: Fifteen.Move)
      requires IsGrid(floor, width, height) && InBounds(y, x, width, height) && Advance(d, y, x, width, height) == Some(n)
      modifies this
      ensures (r, floor) == Finish(old(floor), width, height, y, x, n, d, dependent)
      decreases Fifteen.Room(d, y, x, width, height), if dependent then 0 else 1, 0
    {
      if Drags(d, dependent) && floor[y][x] == Box2 {
        if x == 0 {
          return Fifteen.Panicked;
        }
        var left := AttemptMove2(y, x - 1, d, true);
        if !left.MovedTo? {
          return left;
        }
      }
      var (ny, nx) := n;
      if floor[ny][nx] != Empty {
        return Fifteen.Panicked;
      }
      floor := Set(floor, ny, nx, floor[y][x]);
      floor := Set(floor, y, x, Empty);
      return Fifteen.MovedTo(ny, nx);
    }
  }

  /**
   * `part_two`'s loop: each instruction is tried on a clone of the map; the
   * clone and the new robot position are kept only if the push succeeds.
   * None where the program would panic.
   */
  function Run2(m: seq<seq<Cell2>>, w: nat, h: nat, y: nat, x: nat, moves: seq<Direction>): (r: Option<(seq<seq<Cell2>>, nat, nat)>)
    requires IsGrid(m, w, h) && InBounds(y, x, w, h)
    ensures r.Some? ==> IsGrid(r.value.0, w, h) && InBounds(r.value.1, r.value.2, w, h)
    decreases |moves|
  {
    if moves == [] then Some((m, y, x))
    else
      var (outcome, trial) := Push2(m, w, h, y, x, moves[0], false);
      match outcome
      case Panicked => None
      case Blocked => Run2(m, w, h, y, x, moves[1..])
      case MovedTo(ny, nx) => Run2(trial, w, h, ny, nx, moves[1..])
  }

  /** The wide run keeps every cell kind's count and keeps the tracked cell's occupant on the tracked cell. */
  lemma {:induction false} Run2Keeps(m: seq<seq<Cell2>>, w: nat, h: nat, y: nat, x: nat, moves: seq<Direction>)
    requires IsGrid(m, w, h) && InBounds(y, x, w, h)
    ensures var r := Run2(m, w, h, y, x, moves);
      r.Some? ==> Contents(r.value.0) == Contents(m) && r.value.0[r.value.1][r.value.2] == m[y][x]
    decreases |moves|
  {
    if moves != [] {
      var (outcome, trial) := Push2(m, w, h, y, x, moves[0], false);
      if outcome.MovedTo? {
        Push2Contents(m, w, h, y, x, moves[0], false);
        Push2Mover(m, w, h, y, x, moves[0], false);
        Run2Keeps(trial, w, h, outcome.y, outcome.x, moves[1..]);
      } else {
        Run2Keeps(m, w, h, y, x, moves[1..]);
      }
    }
  }

  /** The map and the robot position the loop holds determine the rest of the run. */
  ghost predicate Driving2(floor: seq<seq<Cell2>>, start: seq<seq<Cell2>>, w: nat, h: nat, y0: nat, x0: nat,
                           moves: seq<Direction>, i: nat, y: nat, x: nat)
  {
    i <= |moves| && IsGrid(floor, w, h) && InBounds(y, x, w, h) && IsGrid(start, w, h) && InBounds(y0, x0, w, h) &&
    Run2(floor, w, h, y, x, moves[i..]) == Run2(start, w, h, y0, x0, moves)
  }

  /**
   * `part_two`: widens the map, starts the robot at the wide map's robot
   * cell, runs every instruction through a clone, and scores the left halves
   * of the boxes; None where the program would panic.
   */
  method PartTwo(m: seq<seq<Fifteen.Cell>>, w: nat, h: nat, moves: seq<Direction>) returns (score: Option<nat>)
    requires IsGrid(m, w, h) && Position(m, Fifteen.Robot).Some?
    ensures var (y0, x0) := Position(m, Fifteen.Robot).value;
      score == match Run2(Wide(m), 2 * w, h, y0, 2 * x0, moves)
        case None => None
        case Some(end) => Some(Fifteen.Gps(end.0, Box1, Positions(2 * w, h)))
  {
    var wide := Map2FromMap(m);
    WideShape(m, w, h);
    WidePosition(m, w, h);
    var (y0, x0) := Position(wide, Robot).value;
    var floor := wide;
    var y, x := y0, x0;
    for i := 0 to |moves|
      invariant Driving2(floor, wide, 2 * w, h, y0, x0, moves, i, y, x)
    {
      assert moves[i..][1..] == moves[i + 1..];
      var clone := new WideWarehouse(floor, 2 * w, h);
      var r := clone.AttemptMove2(y, x, moves[i], false);
      if r.Panicked? {
        return None;
      }
      if r.MovedTo? {
        y, x := r.y, r.x;
        floor := clone.floor;
      }
    }
    assert moves[|moves|..] == [];
    score := Some(Fifteen.Gps(floor, Box1, Positions(2 * w, h)));
  }
}
