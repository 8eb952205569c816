/**
 * Shared vocabulary of the grid puzzles: rectangular grids stored row by row
 * (indexed [y][x] as the repository's `Grid` type is), the four orthogonal
 * directions and the bounded one-cell step `advance` that several days define
 * identically, and counting and summing over grid cells.
 */
module Grids {

  import Arith

  datatype Option<T> = None | Some(value: T)

  /**
   * The four orthogonal directions. Days ten, twelve and six call them
   * North, South, West and East; they are Up, Down, Left and Right here.
   */
  datatype Direction = Up | Down | Left | Right

  /**
   * The four directions in the order of days sixteen and eighteen's
   * `Direction::iter()`. Days six, ten and twelve declare North, South, East,
   * West and so visit East before West; none of their answers depends on the
   * order, since they are sums and sets.
   */
  const AllDirections: seq<Direction> := [Up, Down, Left, Right]

  lemma AllDirectionsComplete(d: Direction)
    ensures d in AllDirections
  {
  }

  /** A grid with `height` rows of `width` cells each. */
  ghost predicate IsGrid<T>(g: seq<seq<T>>, width: nat, height: nat)
  {
    |g| == height && forall y :: 0 <= y < height ==> |g[y]| == width
  }

  predicate InBounds(y: int, x: int, width: nat, height: nat)
  {
    0 <= y < height && 0 <= x < width
  }

  /** The orthogonally adjacent cell in direction `d`, possibly off the grid. */
  function Neighbour(d: Direction, y: int, x: int): (int, int)
  {
    match d
    case Up => (y - 1, x)
    case Down => (y + 1, x)
    case Left => (y, x - 1)
    case Right => (y, x + 1)
  }

  /** Two cells that differ by one in exactly one coordinate. */
  predicate Adjacent(a: (int, int), b: (int, int))
  {
    (a.0 == b.0 && (a.1 == b.1 + 1 || a.1 + 1 == b.1)) ||
    (a.1 == b.1 && (a.0 == b.0 + 1 || a.0 + 1 == b.0))
  }

  /**
   * `Direction::advance`: one step from (y, x), or None when the step would
   * leave [0, height) x [0, width). Down and Right compute `height - 1` and
   * `width - 1`, which underflow on an empty grid.
   */
  function Advance(d: Direction, y: nat, x: nat, width: nat, height: nat): (r: Option<(nat, nat)>)
    requires d == Down ==> height > 0
    requires d == Right ==> width > 0
    ensures InBounds(y, x, width, height) ==>
      (r.None? <==> !InBounds(Neighbour(d, y, x).0, Neighbour(d, y, x).1, width, height))
    ensures r.Some? ==> r.value == Neighbour(d, y, x)
  {
    match d
    case Up => if y > 0 then Some((y - 1, x)) else None
    case Down => if y < height - 1 then Some((y + 1, x)) else None
    case Left => if x > 0 then Some((y, x - 1)) else None
    case Right => if x < width - 1 then Some((y, x + 1)) else None
  }

  lemma AdvanceAdjacent(d: Direction, y: nat, x: nat, width: nat, height: nat)
    requires InBounds(y, x, width, height)
    ensures Advance(d, y, x, width, height).Some? ==>
      var n := Advance(d, y, x, width, height).value;
      InBounds(n.0, n.1, width, height) && Adjacent((y, x), n)
  {
  }

  /** Every in-bounds orthogonal neighbour is reached by `advance` in some direction. */
  lemma AdjacentHasDirection(a: (nat, nat), b: (nat, nat), width: nat, height: nat) returns (d: Direction)
    requires InBounds(a.0, a.1, width, height) && InBounds(b.0, b.1, width, height)
    requires Adjacent(a, b)
    ensures Advance(d, a.0, a.1, width, height) == Some(b)
  {
    if b.0 + 1 == a.0 {
      d := Up;
    } else if b.0 == a.0 + 1 {
      d := Down;
    } else if b.1 + 1 == a.1 {
      d := Left;
    } else {
      d := Right;
    }
  }

  /** Grid `g` with the cell at (y, x) replaced by `v`. */
  function Set<T>(g: seq<seq<T>>, y: nat, x: nat, v: T): (r: seq<seq<T>>)
    requires y < |g| && x < |g[y]|
    ensures |r| == |g| && forall i :: 0 <= i < |g| ==> |r[i]| == |g[i]|
    ensures r[y][x] == v
    ensures forall i, j :: 0 <= i < |g| && 0 <= j < |g[i]| && (i, j) != (y, x) ==> r[i][j] == g[i][j]
  {
    g[y := g[y][x := v]]
  }

  function CountRow<T(==)>(row: seq<T>, v: T): (n: nat)
    ensures n <= |row|
  {
    if row == [] then 0 else CountRow(row[..|row| - 1], v) + (if row[|row| - 1] == v then 1 else 0)
  }

  /** The cells of `g` that hold `v`. */
  ghost function CellsWith<T>(g: seq<seq<T>>, v: T): set<(int, int)>
  {
    set y, x | 0 <= y < |g| && 0 <= x < |g[y]| && g[y][x] == v :: (y, x)
  }

  ghost function RowCellsWith<T>(y: int, row: seq<T>, v: T): set<(int, int)>
  {
    set x | 0 <= x < |row| && row[x] == v :: (y, x)
  }

  lemma {:induction false} CountRowIsCard<T>(y: int, row: seq<T>, v: T)
    ensures CountRow(row, v) == |RowCellsWith(y, row, v)|
  {
    if row != [] {
      var k := |row| - 1;
      CountRowIsCard(y, row[..k], v);
      var before := RowCellsWith(y, row[..k], v);
      if row[k] == v {
        assert RowCellsWith(y, row, v) == before + {(y, k)};
      } else {
        assert RowCellsWith(y, row, v) == before;
      }
    } else {
      assert RowCellsWith(y, row, v) == {};
    }
  }

  lemma CellsWithSplit<T>(g: seq<seq<T>>, v: T)
    requires g != []
    ensures CellsWith(g, v) == CellsWith(g[..|g| - 1], v) + RowCellsWith(|g| - 1, g[|g| - 1], v)
    ensures CellsWith(g[..|g| - 1], v) !! RowCellsWith(|g| - 1, g[|g| - 1], v)
  {
  }

  /** `cells().filter(|c| c == v).count()`: how many cells of `g` hold `v`. */
  function CountCells<T(==)>(g: seq<seq<T>>, v: T): (n: nat)
    ensures n == |CellsWith(g, v)|
  {
    if g == [] then
      assert CellsWith(g, v) == {};
      0
    else
      var k := |g| - 1;
      CountRowIsCard(k, g[k], v);
      CellsWithSplit(g, v);
      CountCells(g[..k], v) + CountRow(g[k], v)
  }

  lemma {:induction false} CountCellsBound<T>(g: seq<seq<T>>, v: T, width: nat)
    requires IsGrid(g, width, |g|)
    ensures CountCells(g, v) <= width * |g|
  {
    if g != [] {
      var k := |g| - 1;
      assert IsGrid(g[..k], width, k);
      CountCellsBound(g[..k], v, width);
      assert CountCells(g, v) == CountCells(g[..k], v) + CountRow(g[k], v);
      assert CountRow(g[k], v) <= width;
      Arith.MulSucc(width, k);
    }
  }

  function RowSum(r: seq<int>): int
  {
    if r == [] then 0 else RowSum(r[..|r| - 1]) + r[|r| - 1]
  }

  /** The sum of every cell of an integer grid. */
  function GridSum(g: seq<seq<int>>): int
  {
    if g == [] then 0 else GridSum(g[..|g| - 1]) + RowSum(g[|g| - 1])
  }

  lemma {:induction false} RowSumUpdate(r: seq<int>, i: nat, v: int)
    requires i < |r|
    ensures RowSum(r[i := v]) == RowSum(r) - r[i] + v
  {
    var k := |r| - 1;
    if i < k {
      assert r[i := v][..k] == r[..k][i := v];
      RowSumUpdate(r[..k], i, v);
    } else {
      assert r[i := v][..k] == r[..k];
    }
  }

  lemma {:induction false} GridSumUpdate(g: seq<seq<int>>, y: nat, x: nat, v: int)
    requires y < |g| && x < |g[y]|
    ensures GridSum(Set(g, y, x, v)) == GridSum(g) - g[y][x] + v
  {
    var k := |g| - 1;
    if y < k {
      assert Set(g, y, x, v)[..k] == Set(g[..k], y, x, v);
      GridSumUpdate(g[..k], y, x, v);
    } else {
      assert Set(g, y, x, v)[..k] == g[..k];
      RowSumUpdate(g[y], x, v);
    }
  }

  lemma {:induction false} RowSumNonnegative(r: seq<int>)
    requires forall i :: 0 <= i < |r| ==> r[i] >= 0
    ensures RowSum(r) >= 0
  {
    if r != [] {
      RowSumNonnegative(r[..|r| - 1]);
    }
  }

  lemma {:induction false} GridSumNonnegative(g: seq<seq<int>>)
    requires forall y, x :: 0 <= y < |g| && 0 <= x < |g[y]| ==> g[y][x] >= 0
    ensures GridSum(g) >= 0
  {
    if g != [] {
      GridSumNonnegative(g[..|g| - 1]);
      RowSumNonnegative(g[|g| - 1]);
    }
  }

  /** A grid of `height` rows of `width` copies of `v` (`vec![vec![v; width]; height]`). */
  function Filled<T>(width: nat, height: nat, v: T): (g: seq<seq<T>>)
    ensures IsGrid(g, width, height)
    ensures forall y, x :: 0 <= y < height && 0 <= x < width ==> g[y][x] == v
  {
    seq(height, _ => seq(width, _ => v))
  }
  /** Every cell of a `width` x `height` grid. */
  ghost function Cells(width: nat, height: nat): set<(int, int)>
  {
    set y, x | 0 <= y < height && 0 <= x < width :: (y, x)
  }

  lemma InCells(y: int, x: int, width: nat, height: nat)
    requires 0 <= y < height && 0 <= x < width
    ensures (y, x) in Cells(width, height)
  {
  }

  ghost function RowCells(y: int, width: nat): set<(int, int)>
  {
    set x | 0 <= x < width :: (y, x)
  }

  lemma {:induction false} RowCellsCard(y: int, width: nat)
    ensures |RowCells(y, width)| == width
  {
    if width > 0 {
      RowCellsCard(y, width - 1);
      assert RowCells(y, width) == RowCells(y, width - 1) + {(y, width - 1)};
    } else {
      assert RowCells(y, width) == {};
    }
  }

  /** The cells of a grid are those of all rows but the last, and the last row's. */
  lemma CellsLastRow(width: nat, height: nat)
    requires height > 0
    ensures Cells(width, height) == Cells(width, height - 1) + RowCells(height - 1, width)
    ensures Cells(width, height - 1) !! RowCells(height - 1, width)
  {
  }

  lemma {:induction false} CellsCard(width: nat, height: nat)
    ensures |Cells(width, height)| == width * height
  {
    if height > 0 {
      CellsCard(width, height - 1);
      RowCellsCard(height - 1, width);
      CellsLastRow(width, height);
      Arith.MulSucc(width, height - 1);
    } else {
      assert Cells(width, height) == {};
    }
  }
  /** A sequence without repeated elements has as many distinct elements as positions. */
  lemma {:induction false} DistinctCard<T>(p: seq<T>)
    requires forall i, j :: 0 <= i < j < |p| ==> p[i] != p[j]
    ensures |(set e | e in p)| == |p|
  {
    if p != [] {
      var k := |p| - 1;
      DistinctCard(p[..k]);
      assert (set e | e in p) == (set e | e in p[..k]) + {p[k]};
      assert p[k] !in (set e | e in p[..k]);
    } else {
      assert (set e | e in p) == {};
    }
  }

  lemma SubsetCard<T>(a: set<T>, b: set<T>)
    requires a <= b
    ensures |a| <= |b|
  {
    assert b == a + (b - a);
  }

  /** `v` comes before the row-major position (y, x) nowhere in `g`. */
  ghost predicate AbsentBefore<T>(g: seq<seq<T>>, v: T, y: int, x: int)
  {
    forall i, j :: 0 <= i < |g| && 0 <= j < |g[i]| && (i < y || (i == y && j < x)) ==> g[i][j] != v
  }

  /** The first index of `v` in `row` at or after `x`. */
  function RowPosition<T(==)>(row: seq<T>, v: T, x: nat): (r: Option<nat>)
    requires x <= |row|
    ensures r.Some? ==> (x <= r.value < |row| && row[r.value] == v &&
                         forall j :: x <= j < r.value ==> row[j] != v)
    ensures r.None? ==> forall j :: x <= j < |row| ==> row[j] != v
    decreases |row| - x
  {
    if x == |row| then None else if row[x] == v then Some(x) else RowPosition(row, v, x + 1)
  }

  /** The first cell holding `v`, scanning rows from `y` on. */
  function PositionFrom<T(==)>(g: seq<seq<T>>, v: T, y: nat): (r: Option<(nat, nat)>)
    requires y <= |g|
    ensures r.Some? ==> y <= r.value.0 < |g| && r.value.1 < |g[r.value.0]| && g[r.value.0][r.value.1] == v
    ensures r.Some? ==> forall i, j ::
      (y <= i < |g| && 0 <= j < |g[i]| && (i < r.value.0 || (i == r.value.0 && j < r.value.1))) ==> g[i][j] != v
    ensures r.None? ==> forall i, j :: y <= i < |g| && 0 <= j < |g[i]| ==> g[i][j] != v
    decreases |g| - y
  {
    if y == |g| then None
    else match RowPosition(g[y], v, 0)
      case Some(x) => Some((y, x))
      case None => PositionFrom(g, v, y + 1)
  }

  /** `Grid::position`: the first cell holding `v` in row-major order, if any. */
  function Position<T(==)>(g: seq<seq<T>>, v: T): (r: Option<(nat, nat)>)
    ensures r.Some? ==> r.value.0 < |g| && r.value.1 < |g[r.value.0]| && g[r.value.0][r.value.1] == v
    ensures r.Some? ==> AbsentBefore(g, v, r.value.0, r.value.1)
    ensures r.None? <==> forall i, j :: 0 <= i < |g| && 0 <= j < |g[i]| ==> g[i][j] != v
  {
    PositionFrom(g, v, 0)
  }

  /** A cell holding `v` with no `v` before it is the first one. */
  lemma PositionIs<T>(g: seq<seq<T>>, v: T, y: nat, x: nat)
    requires y < |g| && x < |g[y]| && g[y][x] == v && AbsentBefore(g, v, y, x)
    ensures Position(g, v) == Some((y, x))
  {
    assert Position(g, v).Some?;
  }

  /** Grids of the same shape holding `v` in the same cells have the same first `v`. */
  lemma PositionSame<T>(g: seq<seq<T>>, q: seq<seq<T>>, v: T)
    requires |g| == |q| && forall i :: 0 <= i < |g| ==> |g[i]| == |q[i]|
    requires forall i, j :: 0 <= i < |g| && 0 <= j < |g[i]| ==> (g[i][j] == v <==> q[i][j] == v)
    ensures Position(g, v) == Position(q, v)
  {
    if Position(g, v).Some? && Position(q, v).Some? {
      var a, b := Position(g, v).value, Position(q, v).value;
      assert g[b.0][b.1] == v && q[a.0][a.1] == v;
    }
  }

  /** How many elements of `cs` satisfy `f`. */
  ghost function CountWhere<T>(cs: seq<T>, f: T -> bool): nat
  {
    if cs == [] then 0
    else CountWhere(cs[..|cs| - 1], f) + (if f(cs[|cs| - 1]) then 1 else 0)
  }

  /** The elements of `cs` that satisfy `f`. */
  ghost function Where<T>(cs: seq<T>, f: T -> bool): set<T>
  {
    set c | c in cs && f(c)
  }

  /** Over distinct elements, the tally is the number of elements that satisfy `f`. */
  lemma {:induction false} CountWhereCard<T>(cs: seq<T>, f: T -> bool)
    requires forall i, j :: 0 <= i < j < |cs| ==> cs[i] != cs[j]
    ensures CountWhere(cs, f) == |Where(cs, f)|
  {
    if cs != [] {
      var init, last := cs[..|cs| - 1], cs[|cs| - 1];
      CountWhereCard(init, f);
      assert cs == init + [last];
      var before := Where(init, f);
      forall i | 0 <= i < |init|
        ensures init[i] != last
      {
        assert init[i] == cs[i];
      }
      if f(last) {
        assert Where(cs, f) == before + {last};
      } else {
        assert Where(cs, f) == before;
      }
    }
  }

  /** A loop over a finite set that has not visited every element yet can pick one more, and progresses. */
  lemma NotAllDone<T>(all: set<T>, done: set<T>)
    requires done <= all && done != all
    ensures exists k :: k in all && k !in done
    ensures forall k :: k in all && k !in done ==> all - (done + {k}) < all - done
  {
  }

  /** A cell address (row, column). */
  type Pos = (nat, nat)

  /** The cells of row `y`, left to right. */
  function RowPositions(y: nat, w: nat): (r: seq<Pos>)
    ensures |r| == w && forall x :: 0 <= x < w ==> r[x] == (y, x)
  {
    seq(w, x requires 0 <= x < w => (y, x))
  }

  /** `positions()`: every cell of a `w` x `h` grid, row by row. */
  function Positions(w: nat, h: nat): seq<Pos>
  {
    if h == 0 then [] else Positions(w, h - 1) + RowPositions(h - 1, w)
  }

  /** `positions()` yields every cell of the grid, each once and nothing else. */
  lemma {:induction false} PositionsExact(w: nat, h: nat)
    ensures forall p: Pos :: p in Positions(w, h) <==> InBounds(p.0, p.1, w, h)
    ensures forall i, j :: 0 <= i < j < |Positions(w, h)| ==> Positions(w, h)[i] != Positions(w, h)[j]
  {
    if h > 0 {
      PositionsExact(w, h - 1);
      var a: seq<Pos>, b: seq<Pos> := Positions(w, h - 1), RowPositions(h - 1, w);
      assert Positions(w, h) == a + b;
      forall p: Pos | InBounds(p.0, p.1, w, h)
        ensures p in a + b
      {
        if p.0 == h - 1 {
          assert (a + b)[|a| + p.1] == p;
        } else {
          assert p in a;
        }
      }
      forall i: int, j: int | 0 <= i < j < |a + b|
        ensures (a + b)[i] != (a + b)[j]
      {
        if j >= |a| && i < |a| {
          assert a[i] in a;
        }
      }
    }
  }

  /** The cells `positions()` has visited when it reaches (y, x). */
  function Prefix(w: nat, y: nat, x: nat): seq<Pos>
    requires x <= w
  {
    Positions(w, y) + RowPositions(y, w)[..x]
  }

  /** A row starts where the previous rows end and, once finished, completes the next prefix. */
  lemma RowBounds(w: nat, h: nat, y: nat)
    requires y < h
    ensures Prefix(w, y, 0) == Positions(w, y)
    ensures Prefix(w, y, w) == Positions(w, y + 1)
  {
    assert RowPositions(y, w)[..w] == RowPositions(y, w);
    assert RowPositions(y, w)[..0] == [];
  }

  /** The cells of a `w` x `h` grid that satisfy `f`. */
  ghost function CellsWhere(w: nat, h: nat, f: Pos -> bool): set<Pos>
  {
    set y: nat, x: nat | y < h && x < w && f((y, x)) :: (y, x)
  }

  /** The cells along `positions()` that satisfy `f` are the grid's cells that satisfy `f`. */
  lemma WherePositions(w: nat, h: nat, f: Pos -> bool)
    ensures Where(Positions(w, h), f) == CellsWhere(w, h, f)
  {
    PositionsExact(w, h);
    var listed := Where(Positions(w, h), f);
    forall c | c in listed
      ensures c in CellsWhere(w, h, f)
    {
      var (y, x) := c;
      assert InBounds(y, x, w, h) && f((y, x));
    }
    forall c | c in CellsWhere(w, h, f)
      ensures c in listed
    {
      assert InBounds(c.0, c.1, w, h);
    }
  }

  /** Counting along `positions()` counts each cell that satisfies `f` once. */
  lemma CountPositions(w: nat, h: nat, f: Pos -> bool)
    ensures CountWhere(Positions(w, h), f) == |CellsWhere(w, h, f)|
  {
    PositionsExact(w, h);
    CountWhereCard(Positions(w, h), f);
    WherePositions(w, h, f);
  }

  /** `filter`: the elements of `cs` that satisfy `f`, in order. */
  function Filter(cs: seq<Pos>, f: Pos -> bool): (r: seq<Pos>)
    ensures |r| == CountWhere(cs, f)
    ensures forall c :: c in r <==> c in cs && f(c)
  {
    if cs == [] then []
    else
      var init := Filter(cs[..|cs| - 1], f);
      assert cs == cs[..|cs| - 1] + [cs[|cs| - 1]];
      if f(cs[|cs| - 1]) then init + [cs[|cs| - 1]] else init
  }

  /** Every cell of `g`, counted with multiplicity. */
  ghost function Contents<T>(g: seq<seq<T>>): multiset<T>
  {
    if g == [] then multiset{} else Contents(g[..|g| - 1]) + multiset(g[|g| - 1])
  }

  /** Trading one `e` for one `v` in one part of a union trades it in the union. */
  lemma MultisetTrade<T>(a: multiset<T>, b: multiset<T>, e: T, v: T)
    requires e in b
    ensures a + (b - multiset{e} + multiset{v}) == (a + b) - multiset{e} + multiset{v}
    ensures (b - multiset{e} + multiset{v}) + a == (b + a) - multiset{e} + multiset{v}
  {
  }

  /** Writing `v` into the last row. */
  lemma ContentsSetLast<T>(g: seq<seq<T>>, x: nat, v: T)
    requires g != [] && x < |g[|g| - 1]|
    ensures g[|g| - 1][x] in Contents(g)
    ensures Contents(Set(g, |g| - 1, x, v)) == Contents(g) - multiset{g[|g| - 1][x]} + multiset{v}
  {
    var k := |g| - 1;
    var r := Set(g, k, x, v);
    var e := g[k][x];
    assert r[..k] == g[..k] && r[k] == g[k][x := v];
    assert multiset(g[k][x := v]) == multiset(g[k]) - multiset{e} + multiset{v};
    assert Contents(g) == Contents(g[..k]) + multiset(g[k]);
    assert Contents(r) == Contents(g[..k]) + multiset(r[k]);
    MultisetTrade(Contents(g[..k]), multiset(g[k]), e, v);
  }

  /** Writing `v` at (y, x) trades one copy of the old cell for one copy of `v`. */
  lemma {:induction false} ContentsSet<T>(g: seq<seq<T>>, y: nat, x: nat, v: T)
    requires y < |g| && x < |g[y]|
    ensures g[y][x] in Contents(g)
    ensures Contents(Set(g, y, x, v)) == Contents(g) - multiset{g[y][x]} + multiset{v}
  {
    var k := |g| - 1;
    if y == k {
      ContentsSetLast(g, x, v);
    } else {
      var r := Set(g, y, x, v);
      assert r[..k] == Set(g[..k], y, x, v);
      assert r[k] == g[k];
      ContentsSet(g[..k], y, x, v);
      MultisetTrade(multiset(g[k]), Contents(g[..k]), g[y][x], v);
    }
  }

  /** Moving the cell at `b` onto the `e` at `a` and leaving `e` behind keeps every cell kind's count. */
  lemma ContentsSwap<T>(g: seq<seq<T>>, a: (nat, nat), b: (nat, nat), e: T)
    requires a.0 < |g| && a.1 < |g[a.0]| && b.0 < |g| && b.1 < |g[b.0]| && a != b && g[a.0][a.1] == e
    ensures Contents(Set(Set(g, a.0, a.1, g[b.0][b.1]), b.0, b.1, e)) == Contents(g)
  {
    var g1 := Set(g, a.0, a.1, g[b.0][b.1]);
    ContentsSet(g, a.0, a.1, g[b.0][b.1]);
    ContentsSet(g1, b.0, b.1, e);
  }

  /** A value found in no cell has no copies. */
  lemma {:induction false} ContentsAbsent<T>(g: seq<seq<T>>, v: T)
    requires forall i, j :: 0 <= i < |g| && 0 <= j < |g[i]| ==> g[i][j] != v
    ensures Contents(g)[v] == 0
  {
    if g != [] {
      var k := |g| - 1;
      ContentsAbsent(g[..k], v);
      assert v !in multiset(g[k]);
    }
  }

  /** Two different cells holding the same value make at least two copies of it. */
  lemma TwoCopies<T>(g: seq<seq<T>>, a: (nat, nat), b: (nat, nat), other: T)
    requires a.0 < |g| && a.1 < |g[a.0]| && b.0 < |g| && b.1 < |g[b.0]| && a != b
    requires g[a.0][a.1] == g[b.0][b.1] && other != g[a.0][a.1]
    ensures Contents(g)[g[a.0][a.1]] >= 2
  {
    var g1 := Set(g, a.0, a.1, other);
    ContentsSet(g, a.0, a.1, other);
    ContentsSet(g1, b.0, b.1, other);
  }
}
