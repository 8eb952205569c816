/*
 * Day twelve: garden plots are labelled by character; each region of
 * orthogonally connected equal plots is fenced. A region costs its area
 * times its perimeter (part one) or its area times its number of straight
 * sides (part two).
 *
 * The source's North, South, East and West are `Up`, `Down`, `Right` and
 * `Left` here; `Compass` lists them in `Direction::iter()` order.
 */
module Twelve {
  import opened Grids
  import Arith

  /** `Direction::iter()`: North, South, East, West. */
  const Compass: seq<Direction> := [Up, Down, Right, Left]

  lemma CompassDistinct()
    ensures forall i, j :: 0 <= i < j < |Compass| ==> Compass[i] != Compass[j]
  {
  }

  /** The side of `p` facing `d` needs a fence: the edge of the map, or a plot outside `ps`. */
  predicate Open(ps: set<Pos>, w: nat, h: nat, p: Pos, d: Direction)
    requires InBounds(p.0, p.1, w, h)
  {
    match Advance(d, p.0, p.1, w, h)
    case None => true
    case Some(n) => n !in ps
  }

  /** `Open` as a test on (plot, direction) pairs, false off the map. */
  function OpenTest(ps: set<Pos>, w: nat, h: nat): (Pos, Direction) -> bool
  {
    (p: Pos, d: Direction) => InBounds(p.0, p.1, w, h) && Open(ps, w, h, p, d)
  }

  /** The (plot, direction) pairs with a plot in `cells` and a direction in `dirs` that pass `f`. */
  ghost function FencesWhere(cells: set<Pos>, dirs: seq<Direction>, f: (Pos, Direction) -> bool): set<(Pos, Direction)>
  {
    set p, d | p in cells && d in dirs && f(p, d) :: (p, d)
  }

  /** The pairs at plot `p` with a direction in `dirs` that pass `f`. */
  ghost function Tagged(p: Pos, dirs: seq<Direction>, f: (Pos, Direction) -> bool): set<(Pos, Direction)>
  {
    set d | d in dirs && f(p, d) :: (p, d)
  }

  /** Every fence of the region `ps`: one per plot side facing the edge or another region. */
  ghost function Fences(ps: set<Pos>, w: nat, h: nat): set<(Pos, Direction)>
  {
    FencesWhere(ps, Compass, OpenTest(ps, w, h))
  }

  /** Looking at one more direction adds at most its own pair, which is new when the direction is. */
  lemma TaggedStep(p: Pos, ds: seq<Direction>, d: Direction, f: (Pos, Direction) -> bool)
    ensures Tagged(p, ds + [d], f) == Tagged(p, ds, f) + (if f(p, d) then {(p, d)} else {})
    ensures d !in ds ==> (p, d) !in Tagged(p, ds, f)
  {
    assert forall e :: e in ds + [d] <==> e in ds || e == d;
  }

  /** At most one pair per direction. */
  lemma {:induction false} TaggedBound(p: Pos, ds: seq<Direction>, f: (Pos, Direction) -> bool)
    ensures |Tagged(p, ds, f)| <= |ds|
  {
    if ds != [] {
      var init := ds[..|ds| - 1];
      TaggedBound(p, init, f);
      assert ds == init + [ds[|ds| - 1]];
      TaggedStep(p, init, ds[|ds| - 1], f);
    }
  }

  /** One more plot adds its own pairs, which are new when the plot is. */
  lemma FencesAdd(cells: set<Pos>, p: Pos, dirs: seq<Direction>, f: (Pos, Direction) -> bool)
    ensures FencesWhere(cells + {p}, dirs, f) == FencesWhere(cells, dirs, f) + Tagged(p, dirs, f)
    ensures p !in cells ==> FencesWhere(cells, dirs, f) * Tagged(p, dirs, f) == {}
  {
  }

  /** A new plot adds exactly the number of its own pairs. */
  lemma FencesCount(cells: set<Pos>, p: Pos, dirs: seq<Direction>, f: (Pos, Direction) -> bool)
    requires p !in cells
    ensures |FencesWhere(cells + {p}, dirs, f)| == |FencesWhere(cells, dirs, f)| + |Tagged(p, dirs, f)|
  {
    FencesAdd(cells, p, dirs, f);
  }

  /** With four directions there are at most four pairs per plot. */
  lemma {:induction false} FencesBound(cells: set<Pos>, f: (Pos, Direction) -> bool)
    ensures |FencesWhere(cells, Compass, f)| <= 4 * |cells|
    decreases |cells|
  {
    if cells != {} {
      var p :| p in cells;
      var rest := cells - {p};
      FencesBound(rest, f);
      FencesAdd(rest, p, Compass, f);
      assert rest + {p} == cells;
      TaggedBound(p, Compass, f);
    }
  }

  /** A weaker test keeps at least the same pairs. */
  lemma FencesMono(cells: set<Pos>, dirs: seq<Direction>, f: (Pos, Direction) -> bool, g: (Pos, Direction) -> bool)
    requires forall p, d :: f(p, d) ==> g(p, d)
    ensures |FencesWhere(cells, dirs, f)| <= |FencesWhere(cells, dirs, g)|
  {
    SubsetCard(FencesWhere(cells, dirs, f), FencesWhere(cells, dirs, g));
  }

  /** A region's perimeter is at most four fences per plot. */
  lemma PerimeterBound(ps: set<Pos>, w: nat, h: nat)
    ensures |Fences(ps, w, h)| <= 4 * |ps|
  {
    FencesBound(ps, OpenTest(ps, w, h));
  }

  /** The perimeter loop has counted every fence of the plots it is done with. */
  ghost predicate Measured(ps: set<Pos>, w: nat, h: nat, remaining: set<Pos>, done: set<Pos>, perimeter: nat)
  {
    remaining + done == ps && remaining * done == {} &&
    perimeter == |FencesWhere(done, Compass, OpenTest(ps, w, h))|
  }

  /** The inner loop of `calculate_perimeter`: the fences of one plot. */
  method CountOpen(positions: set<Pos>, w: nat, h: nat, p: Pos) returns (n: nat)
    requires InBounds(p.0, p.1, w, h)
    ensures n == |Tagged(p, Compass, OpenTest(positions, w, h))|
  {
    ghost var f := OpenTest(positions, w, h);
    n := 0;
    for k := 0 to |Compass|
      invariant n == |Tagged(p, Compass[..k], f)|
    {
      var d := Compass[k];
      CompassDistinct();
      TaggedStep(p, Compass[..k], d, f);
      assert Compass[..k + 1] == Compass[..k] + [d];
      match Advance(d, p.0, p.1, w, h) {
        case Some(nb) =>
          if nb !in positions {
            n := n + 1;
          }
        case None =>
          n := n + 1;
      }
    }
    assert Compass[..|Compass|] == Compass;
  }

  /**
   * `calculate_perimeter`: collects the plots into a set and, for each plot
   * and each direction, counts a fence where the neighbour is off the map or
   * not in the set.
   */
  method CalculatePerimeter(plots: seq<Pos>, w: nat, h: nat) returns (perimeter: nat)
    requires forall p :: p in plots ==> InBounds(p.0, p.1, w, h)
    ensures perimeter == |Fences((set p | p in plots), w, h)|
  {
    var positions := set p | p in plots;
    perimeter := 0;
    var remaining := positions;
    ghost var done: set<Pos> := {};
    while remaining != {}
      invariant Measured(positions, w, h, remaining, done, perimeter)
      decreases |remaining|
    {
      var p :| p in remaining;
      var n := CountOpen(positions, w, h, p);
      FencesCount(done, p, Compass, OpenTest(positions, w, h));
      perimeter := perimeter + n;
      remaining := remaining - {p};
      done := done + {p};
    }
  }

  /** A grid of region labels, indexed like the map; 0 means not yet labelled. */
  type Labels = seq<seq<nat>>

  /** Row-major order: cell (cy, cx) is visited before (y, x). */
  predicate Before(cy: int, cx: int, y: int, x: int)
  {
    cy < y || (cy == y && cx < x)
  }

  /** Two labels are joined when they are equal or a pending connection names them. */
  predicate Joined(conns: seq<(nat, nat)>, a: nat, b: nat)
  {
    a == b || (a, b) in conns || (b, a) in conns
  }

  /**
   * What the labelling keeps for one visited cell: its label is known to
   * `lc` (which records each label's plant) with the cell's plant, and it
   * is joined to its northern and western neighbours of the same plant.
   */
  ghost predicate CellOk(input: seq<seq<char>>, groups: Labels, conns: seq<(nat, nat)>, lc: map<nat, char>, cy: nat, cx: nat)
    requires cy < |input| && cx < |input[cy]| && cy < |groups| && cx < |groups[cy]|
    requires cy > 0 ==> cx < |input[cy - 1]| && cx < |groups[cy - 1]|
  {
    groups[cy][cx] in lc && lc[groups[cy][cx]] == input[cy][cx] &&
    (cy > 0 && input[cy - 1][cx] == input[cy][cx] ==> Joined(conns, groups[cy - 1][cx], groups[cy][cx])) &&
    (cx > 0 && input[cy][cx - 1] == input[cy][cx] ==> Joined(conns, groups[cy][cx - 1], groups[cy][cx]))
  }

  /** The labelling invariant of `calculate_groups` once every cell before (y, x) is visited. */
  ghost predicate Labelled(input: seq<seq<char>>, w: nat, h: nat, groups: Labels, next: nat,
                           conns: seq<(nat, nat)>, lc: map<nat, char>, y: nat, x: nat)
  {
    IsGrid(input, w, h) && IsGrid(groups, w, h) && 1 <= next &&
    (forall l :: l in lc <==> 1 <= l < next) &&
    (forall i :: 0 <= i < |conns| ==>
       conns[i].0 in lc && conns[i].1 in lc && lc[conns[i].0] == lc[conns[i].1]) &&
    (forall cy: nat, cx: nat {:trigger CellOk(input, groups, conns, lc, cy, cx)} ::
       cy < h && cx < w && Before(cy, cx, y, x) ==> CellOk(input, groups, conns, lc, cy, cx))
  }

  /**
   * What `calculate_groups` promises: every cell has a label in [1, next),
   * cells sharing a label grow the same plant, and orthogonally adjacent
   * cells growing the same plant share a label.
   */
  ghost predicate Labelling(input: seq<seq<char>>, w: nat, h: nat, groups: Labels, next: nat)
  {
    IsGrid(input, w, h) && IsGrid(groups, w, h) &&
    (forall y, x :: InBounds(y, x, w, h) ==> 1 <= groups[y][x] < next) &&
    (forall y1, x1, y2, x2 ::
       InBounds(y1, x1, w, h) && InBounds(y2, x2, w, h) && groups[y1][x1] == groups[y2][x2]
       ==> input[y1][x1] == input[y2][x2]) &&
    (forall y1, x1, y2, x2 ::
       InBounds(y1, x1, w, h) && InBounds(y2, x2, w, h) && Adjacent((y1, x1), (y2, x2)) && input[y1][x1] == input[y2][x2]
       ==> groups[y1][x1] == groups[y2][x2])
  }

  /**
   * `neighbor_groups`: the labels of the neighbours of (y, x) in the
   * directions `ds` that grow the same plant and are already labelled.
   */
  function Inherited(input: seq<seq<char>>, groups: Labels, w: nat, h: nat, y: nat, x: nat, ds: seq<Direction>): (r: seq<nat>)
    requires IsGrid(input, w, h) && IsGrid(groups, w, h) && InBounds(y, x, w, h)
    ensures |r| <= |ds|
  {
    if ds == [] then []
    else
      var init := Inherited(input, groups, w, h, y, x, ds[..|ds| - 1]);
      match Advance(ds[|ds| - 1], y, x, w, h)
      case Some((ny, nx)) =>
        if input[ny][nx] == input[y][x] && groups[ny][nx] > 0 then init + [groups[ny][nx]] else init
      case None => init
  }

  /** Every inherited label is one already handed out: none is the unlabelled 0. */
  lemma {:induction false} InheritedLabelled(input: seq<seq<char>>, groups: Labels, w: nat, h: nat, y: nat, x: nat, ds: seq<Direction>)
    requires IsGrid(input, w, h) && IsGrid(groups, w, h) && InBounds(y, x, w, h)
    ensures forall k :: 0 <= k < |Inherited(input, groups, w, h, y, x, ds)| ==> Inherited(input, groups, w, h, y, x, ds)[k] > 0
  {
    if ds != [] {
      InheritedLabelled(input, groups, w, h, y, x, ds[..|ds| - 1]);
    }
  }

  /** Looking North then West collects the northern label, then the western one. */
  lemma InheritedNorthWest(input: seq<seq<char>>, groups: Labels, w: nat, h: nat, y: nat, x: nat)
    requires IsGrid(input, w, h) && IsGrid(groups, w, h) && InBounds(y, x, w, h)
    ensures Inherited(input, groups, w, h, y, x, [Up, Left]) ==
      (if y > 0 && input[y - 1][x] == input[y][x] && groups[y - 1][x] > 0 then [groups[y - 1][x]] else []) +
      (if x > 0 && input[y][x - 1] == input[y][x] && groups[y][x - 1] > 0 then [groups[y][x - 1]] else [])
  {
    assert [Up, Left][..1] == [Up];
    assert [Up][..0] == [];
  }

  /** Visiting (y, x) keeps the invariant when the new label and connections fit what is already known. */
  lemma VisitKeeps(input: seq<seq<char>>, w: nat, h: nat, groups: Labels, next: nat,
                   conns: seq<(nat, nat)>, lc: map<nat, char>, y: nat, x: nat,
                   l: nat, next': nat, conns': seq<(nat, nat)>, lc': map<nat, char>)
    requires InBounds(y, x, w, h) && Labelled(input, w, h, groups, next, conns, lc, y, x)
    requires next <= next' && (forall k :: k in lc' <==> 1 <= k < next')
    requires forall k :: k in lc ==> k in lc' && lc'[k] == lc[k]
    requires l in lc' && lc'[l] == input[y][x]
    requires conns <= conns'
    requires forall i :: |conns| <= i < |conns'| ==>
      conns'[i].0 in lc' && conns'[i].1 in lc' && lc'[conns'[i].0] == lc'[conns'[i].1]
    requires y > 0 && input[y - 1][x] == input[y][x] ==> Joined(conns', groups[y - 1][x], l)
    requires x > 0 && input[y][x - 1] == input[y][x] ==> Joined(conns', groups[y][x - 1], l)
    ensures Labelled(input, w, h, Set(groups, y, x, l), next', conns', lc', y, x + 1)
  {
    var g' := Set(groups, y, x, l);
    forall i | 0 <= i < |conns'|
      ensures conns'[i].0 in lc' && conns'[i].1 in lc' && lc'[conns'[i].0] == lc'[conns'[i].1]
    {
      if i < |conns| {
        assert conns'[i] == conns[i];
      }
    }
    forall cy: nat, cx: nat | cy < h && cx < w && Before(cy, cx, y, x + 1)
      ensures CellOk(input, g', conns', lc', cy, cx)
    {
      if (cy, cx) != (y, x) {
        assert CellOk(input, groups, conns, lc, cy, cx);
        if cy > 0 {
          assert g'[cy - 1][cx] == groups[cy - 1][cx];
        }
        if cx > 0 {
          assert g'[cy][cx - 1] == groups[cy][cx - 1];
        }
      } else {
        if y > 0 {
          assert g'[y - 1][x] == groups[y - 1][x];
        }
        if x > 0 {
          assert g'[y][x - 1] == groups[y][x - 1];
        }
      }
    }
  }

  /** A finished row is the start of the next one. */
  lemma RowDone(input: seq<seq<char>>, w: nat, h: nat, groups: Labels, next: nat,
                conns: seq<(nat, nat)>, lc: map<nat, char>, y: nat)
    requires Labelled(input, w, h, groups, next, conns, lc, y, w)
    ensures Labelled(input, w, h, groups, next, conns, lc, y + 1, 0)
  {
    forall cy: nat, cx: nat | cy < h && cx < w && Before(cy, cx, y + 1, 0)
      ensures CellOk(input, groups, conns, lc, cy, cx)
    {
      assert Before(cy, cx, y, w);
    }
  }

  /**
   * One cell of the first pass of `calculate_groups`: a cell with no
   * labelled same-plant neighbour to the North or West opens a new label;
   * otherwise it takes the first, and when there are two it records the
   * connection between them.
   */
  method VisitCell(input: seq<seq<char>>, w: nat, h: nat, groups: Labels, next: nat,
                   conns: seq<(nat, nat)>, ghost lc: map<nat, char>, y: nat, x: nat)
    returns (groups': Labels, next': nat, conns': seq<(nat, nat)>, ghost lc': map<nat, char>)
    requires InBounds(y, x, w, h) && Labelled(input, w, h, groups, next, conns, lc, y, x)
    ensures Labelled(input, w, h, groups', next', conns', lc', y, x + 1)
    ensures var ng := Inherited(input, groups, w, h, y, x, [Up, Left]);
      groups' == Set(groups, y, x, if ng == [] then next else ng[0]) &&
      next' == (if ng == [] then next + 1 else next) &&
      conns' == conns + (if |ng| > 1 then [(ng[0], ng[1])] else [])
  {
    var ng: seq<nat> := [];
    var northWest := [Up, Left];
    for k := 0 to |northWest|
      invariant ng == Inherited(input, groups, w, h, y, x, northWest[..k])
    {
      var d := northWest[k];
      assert northWest[..k + 1][..k] == northWest[..k];
      match Advance(d, y, x, w, h) {
        case Some((ny, nx)) =>
          if input[ny][nx] == input[y][x] && groups[ny][nx] > 0 {
            ng := ng + [groups[ny][nx]];
          }
        case None =>
      }
    }
    assert northWest[..|northWest|] == northWest;
    InheritedNorthWest(input, groups, w, h, y, x);
    if y > 0 {
      assert CellOk(input, groups, conns, lc, y - 1, x);
    }
    if x > 0 {
      assert CellOk(input, groups, conns, lc, y, x - 1);
    }
    if ng == [] {
      groups' := Set(groups, y, x, next);
      next' := next + 1;
      conns' := conns;
      lc' := lc[next := input[y][x]];
      VisitKeeps(input, w, h, groups, next, conns, lc, y, x, next, next', conns', lc');
    } else {
      groups' := Set(groups, y, x, ng[0]);
      next' := next;
      lc' := lc;
      if |ng| > 1 {
        assert |ng| == 2;
        conns' := conns + [(ng[0], ng[1])];
      } else {
        conns' := conns;
      }
      VisitKeeps(input, w, h, groups, next, conns, lc, y, x, ng[0], next', conns', lc');
    }
  }

  /** The label `a` renamed to `b`. */
  function Rename(l: nat, a: nat, b: nat): nat
  {
    if l == a then b else l
  }

  /** Every cell labelled `a` relabelled `b`, every other cell kept. */
  function Relabel(groups: Labels, a: nat, b: nat): (r: Labels)
    ensures |r| == |groups| && forall i :: 0 <= i < |r| ==> |r[i]| == |groups[i]|
    ensures forall i, j :: 0 <= i < |r| && 0 <= j < |r[i]| ==> r[i][j] == Rename(groups[i][j], a, b)
  {
    seq(|groups|, i requires 0 <= i < |groups| =>
      seq(|groups[i]|, j requires 0 <= j < |groups[i]| => Rename(groups[i][j], a, b)))
  }

  /** Both ends of every pending connection with `a` renamed to `b`. */
  function RenameConns(conns: seq<(nat, nat)>, a: nat, b: nat): (r: seq<(nat, nat)>)
    ensures |r| == |conns|
    ensures forall i :: 0 <= i < |r| ==> r[i] == (Rename(conns[i].0, a, b), Rename(conns[i].1, a, b))
  {
    seq(|conns|, i requires 0 <= i < |conns| => (Rename(conns[i].0, a, b), Rename(conns[i].1, a, b)))
  }

  /** `for c in groups.cells_mut()`: relabel `a` as `b`, cell by cell. */
  method RelabelCells(groups: Labels, a: nat, b: nat) returns (r: Labels)
    ensures r == Relabel(groups, a, b)
  {
    r := groups;
    for i := 0 to |r|
      invariant |r| == |groups|
      invariant forall k :: 0 <= k < |r| ==> r[k] == (if k < i then Relabel(groups, a, b)[k] else groups[k])
    {
      var row := r[i];
      for j := 0 to |row|
        invariant |row| == |groups[i]|
        invariant forall k :: 0 <= k < |row| ==> row[k] == (if k < j then Rename(groups[i][k], a, b) else groups[i][k])
      {
        if row[j] == a {
          row := row[j := b];
        }
      }
      r := r[i := row];
    }
  }

  /** `for (ao, bo) in &mut group_connections`: rename `a` as `b` at both ends. */
  method RenameAll(conns: seq<(nat, nat)>, a: nat, b: nat) returns (r: seq<(nat, nat)>)
    ensures r == RenameConns(conns, a, b)
  {
    r := conns;
    for i := 0 to |r|
      invariant |r| == |conns|
      invariant forall k :: 0 <= k < |r| ==> r[k] == (if k < i then RenameConns(conns, a, b)[k] else conns[k])
    {
      var (ao, bo) := r[i];
      if ao == a {
        ao := b;
      }
      if bo == a {
        bo := b;
      }
      r := r[i := (ao, bo)];
    }
  }

  /**
   * Popping the connection (a, b) and renaming `a` to `b` everywhere keeps
   * the invariant: the popped pair is now one label, every other pending
   * pair is renamed with it, and `a` and `b` grow the same plant.
   */
  lemma MergeStep(input: seq<seq<char>>, w: nat, h: nat, groups: Labels, next: nat,
                  conns: seq<(nat, nat)>, lc: map<nat, char>, a: nat, b: nat)
    requires Labelled(input, w, h, groups, next, conns + [(a, b)], lc, h, 0)
    ensures Labelled(input, w, h, Relabel(groups, a, b), next, RenameConns(conns, a, b), lc, h, 0)
  {
    var all := conns + [(a, b)];
    var g', c' := Relabel(groups, a, b), RenameConns(conns, a, b);
    assert all[|conns|] == (a, b);
    assert a in lc && b in lc && lc[a] == lc[b];
    forall i | 0 <= i < |c'|
      ensures c'[i].0 in lc && c'[i].1 in lc && lc[c'[i].0] == lc[c'[i].1]
    {
      assert all[i] == conns[i];
    }
    forall cy: nat, cx: nat | cy < h && cx < w && Before(cy, cx, h, 0)
      ensures CellOk(input, g', c', lc, cy, cx)
    {
      assert CellOk(input, groups, all, lc, cy, cx);
      var l := groups[cy][cx];
      if cy > 0 && input[cy - 1][cx] == input[cy][cx] {
        JoinedRenamed(conns, a, b, groups[cy - 1][cx], l);
      }
      if cx > 0 && input[cy][cx - 1] == input[cy][cx] {
        JoinedRenamed(conns, a, b, groups[cy][cx - 1], l);
      }
    }
  }

  /** Labels joined before a merge are joined after it. */
  lemma JoinedRenamed(conns: seq<(nat, nat)>, a: nat, b: nat, p: nat, q: nat)
    requires Joined(conns + [(a, b)], p, q)
    ensures Joined(RenameConns(conns, a, b), Rename(p, a, b), Rename(q, a, b))
  {
    var all := conns + [(a, b)];
    var c' := RenameConns(conns, a, b);
    if p != q {
      if (p, q) in all {
        var i :| 0 <= i < |all| && all[i] == (p, q);
        if i < |conns| {
          assert c'[i] == (Rename(p, a, b), Rename(q, a, b));
        }
      } else {
        var i :| 0 <= i < |all| && all[i] == (q, p);
        if i < |conns| {
          assert c'[i] == (Rename(q, a, b), Rename(p, a, b));
        }
      }
    }
  }

  /** With no connection pending, the invariant is the promised labelling. */
  lemma LabelledDone(input: seq<seq<char>>, w: nat, h: nat, groups: Labels, next: nat, lc: map<nat, char>)
    requires Labelled(input, w, h, groups, next, [], lc, h, 0)
    ensures Labelling(input, w, h, groups, next)
  {
    forall y: nat, x: nat | InBounds(y, x, w, h)
      ensures 1 <= groups[y][x] < next
    {
      assert CellOk(input, groups, [], lc, y, x);
    }
    forall y1: nat, x1: nat, y2: nat, x2: nat |
      InBounds(y1, x1, w, h) && InBounds(y2, x2, w, h) && groups[y1][x1] == groups[y2][x2]
      ensures input[y1][x1] == input[y2][x2]
    {
      assert CellOk(input, groups, [], lc, y1, x1);
      assert CellOk(input, groups, [], lc, y2, x2);
    }
    forall y1: nat, x1: nat, y2: nat, x2: nat |
      InBounds(y1, x1, w, h) && InBounds(y2, x2, w, h) && Adjacent((y1, x1), (y2, x2)) && input[y1][x1] == input[y2][x2]
      ensures groups[y1][x1] == groups[y2][x2]
    {
      assert CellOk(input, groups, [], lc, y1, x1);
      assert CellOk(input, groups, [], lc, y2, x2);
    }
  }

  /**
   * `calculate_groups`: labels the map row by row from the North and West
   * neighbours, then merges the recorded connections, last first.
   */
  method CalculateGroups(input: seq<seq<char>>, w: nat, h: nat) returns (groups: Labels, next: nat)
    requires IsGrid(input, w, h)
    ensures Labelling(input, w, h, groups, next)
  {
    groups := Filled(w, h, 0);
    next := 1;
    var conns: seq<(nat, nat)> := [];
    ghost var lc: map<nat, char> := map[];
    for y := 0 to h
      invariant Labelled(input, w, h, groups, next, conns, lc, y, 0)
    {
      for x := 0 to w
        invariant Labelled(input, w, h, groups, next, conns, lc, y, x)
      {
        groups, next, conns, lc := VisitCell(input, w, h, groups, next, conns, lc, y, x);
      }
      RowDone(input, w, h, groups, next, conns, lc, y);
    }
    while conns != []
      invariant Labelled(input, w, h, groups, next, conns, lc, h, 0)
      decreases |conns|
    {
      ghost var pending := conns;
      var (a, b) := conns[|conns| - 1];
      conns := conns[..|conns| - 1];
      assert pending == conns + [(a, b)];
      MergeStep(input, w, h, groups, next, conns, lc, a, b);
      groups := RelabelCells(groups, a, b);
      conns := RenameAll(conns, a, b);
    }
    LabelledDone(input, w, h, groups, next, lc);
  }

  /** The neighbour `calculate_sides` checks for a fence on side `d`: West for North/South, North for East/West. */
  function Check(d: Direction): Direction
  {
    match d
    case Up => Left
    case Down => Left
    case Right => Up
    case Left => Up
  }

  /**
   * A fence that starts a side: the plot's `d` side is open and the checked
   * neighbour is not a plot of the region with an open `d` side of its own.
   */
  predicate Starts(ps: set<Pos>, w: nat, h: nat, p: Pos, d: Direction)
    requires InBounds(p.0, p.1, w, h)
  {
    Open(ps, w, h, p, d) &&
    match Advance(Check(d), p.0, p.1, w, h)
    case None => true
    case Some(n) => !(n in ps && Open(ps, w, h, n, d))
  }

  /** `Starts` as a test on (plot, direction) pairs, false off the map. */
  function StartTest(ps: set<Pos>, w: nat, h: nat): (Pos, Direction) -> bool
  {
    (p: Pos, d: Direction) => InBounds(p.0, p.1, w, h) && Starts(ps, w, h, p, d)
  }

  /** The fences that start a side: one per straight side of the region. */
  ghost function Sides(ps: set<Pos>, w: nat, h: nat): set<(Pos, Direction)>
  {
    FencesWhere(ps, Compass, StartTest(ps, w, h))
  }

  /** A region has at most as many sides as fences. */
  lemma SidesAtMostPerimeter(ps: set<Pos>, w: nat, h: nat)
    ensures |Sides(ps, w, h)| <= |Fences(ps, w, h)|
  {
    FencesMono(ps, Compass, StartTest(ps, w, h), OpenTest(ps, w, h));
  }

  /** The open sides of a plot, as a set of directions. */
  ghost function OpenDirs(ps: set<Pos>, w: nat, h: nat, p: Pos): set<Direction>
    requires InBounds(p.0, p.1, w, h)
  {
    set d: Direction | d in Compass && Open(ps, w, h, p, d)
  }

  /** The first loop in the body of `calculate_sides`: `my_fences`, the open sides of `p` in compass order. */
  method MyFences(positions: set<Pos>, w: nat, h: nat, p: Pos) returns (mine: seq<Direction>)
    requires InBounds(p.0, p.1, w, h)
    ensures forall d :: d in mine <==> d in Compass && Open(positions, w, h, p, d)
    ensures forall i, j :: 0 <= i < j < |mine| ==> mine[i] != mine[j]
  {
    CompassDistinct();
    mine := [];
    for k := 0 to |Compass|
      invariant forall d :: d in mine <==> d in Compass[..k] && Open(positions, w, h, p, d)
      invariant forall i, j :: 0 <= i < j < |mine| ==> mine[i] != mine[j]
    {
      var d := Compass[k];
      assert Compass[..k + 1] == Compass[..k] + [d];
      assert d !in Compass[..k];
      match Advance(d, p.0, p.1, w, h) {
        case Some(n) =>
          if n !in positions {
            mine := mine + [d];
          }
        case None =>
          mine := mine + [d];
      }
    }
    assert Compass[..|Compass|] == Compass;
  }

  /** The fence maps of `calculate_sides`: for each cell, the id of each of its fences. */
  type FenceIds = seq<seq<map<Direction, nat>>>

  /**
   * The side-counting invariant once every cell before (y, x) is visited:
   * a visited plot has exactly its open sides fenced, any other cell has no
   * fence, and `count` ids were handed out, one per side-starting fence of
   * the visited plots `done`.
   */
  ghost predicate Fenced(ps: set<Pos>, w: nat, h: nat, fences: FenceIds, done: set<Pos>, count: nat, y: nat, x: nat)
  {
    IsGrid(fences, w, h) &&
    (forall p :: p in done <==> p in ps && Before(p.0, p.1, y, x)) &&
    (forall cy: nat, cx: nat :: cy < h && cx < w ==>
       if Before(cy, cx, y, x) then
         fences[cy][cx].Keys == if (cy, cx) in ps then OpenDirs(ps, w, h, (cy, cx)) else {}
       else fences[cy][cx] == map[]) &&
    count == |FencesWhere(done, Compass, StartTest(ps, w, h))|
  }

  /** The id of the same fence of the checked neighbour, when it has one. */
  function CheckedId(fences: FenceIds, w: nat, h: nat, p: Pos, d: Direction): Option<nat>
    requires IsGrid(fences, w, h) && InBounds(p.0, p.1, w, h)
  {
    match Advance(Check(d), p.0, p.1, w, h)
    case None => None
    case Some((ny, nx)) => if d in fences[ny][nx] then Some(fences[ny][nx][d]) else None
  }

  /** The checked neighbour's fence map tells whether an open `d` side of `p` starts a side. */
  ghost predicate KnownSide(ps: set<Pos>, w: nat, h: nat, fences: FenceIds, p: Pos, d: Direction)
    requires IsGrid(fences, w, h) && InBounds(p.0, p.1, w, h)
  {
    Open(ps, w, h, p, d) ==> (CheckedId(fences, w, h, p, d).Some? <==> !Starts(ps, w, h, p, d))
  }

  /**
   * The second loop in the body of `calculate_sides`: each fence of `p`
   * takes the id of the same fence of the checked neighbour, or a new id.
   */
  method AssignFences(ps: set<Pos>, w: nat, h: nat, fences: FenceIds, count: nat, p: Pos, mine: seq<Direction>)
    returns (here: map<Direction, nat>, count': nat)
    requires IsGrid(fences, w, h) && InBounds(p.0, p.1, w, h)
    requires forall d :: KnownSide(ps, w, h, fences, p, d)
    requires forall d :: d in mine <==> d in Compass && Open(ps, w, h, p, d)
    requires forall i, j :: 0 <= i < j < |mine| ==> mine[i] != mine[j]
    ensures here.Keys == OpenDirs(ps, w, h, p)
    ensures count' == count + |Tagged(p, Compass, StartTest(ps, w, h))|
  {
    ghost var f := StartTest(ps, w, h);
    here := map[];
    count' := count;
    for i := 0 to |mine|
      invariant forall d :: d in here <==> d in mine[..i]
      invariant count' == count + |Tagged(p, mine[..i], f)|
    {
      var fence := mine[i];
      TaggedStep(p, mine[..i], fence, f);
      assert mine[..i + 1] == mine[..i] + [fence];
      assert fence !in mine[..i];
      assert KnownSide(ps, w, h, fences, p, fence);
      match CheckedId(fences, w, h, p, fence) {
        case Some(gn) =>
          here := here[fence := gn];
        case None =>
          here := here[fence := count'];
          count' := count' + 1;
      }
    }
    assert mine[..|mine|] == mine;
    TaggedMine(ps, w, h, p, mine);
  }

  /** The checked neighbour lies before `p`, so its fences are already known. */
  lemma SidesNeighbour(ps: set<Pos>, w: nat, h: nat, fences: FenceIds, done: set<Pos>, count: nat, p: Pos)
    requires InBounds(p.0, p.1, w, h) && Fenced(ps, w, h, fences, done, count, p.0, p.1)
    ensures forall d :: KnownSide(ps, w, h, fences, p, d)
  {
    forall d
      ensures KnownSide(ps, w, h, fences, p, d)
    {
      match Advance(Check(d), p.0, p.1, w, h)
      case None =>
      case Some(n) =>
        assert Before(n.0, n.1, p.0, p.1);
        assert n.0 < p.0 || n.1 < p.1;
    }
  }

  /** Only open sides can start a side, so the open sides alone give the same pairs. */
  lemma TaggedMine(ps: set<Pos>, w: nat, h: nat, p: Pos, mine: seq<Direction>)
    requires InBounds(p.0, p.1, w, h)
    requires forall d :: d in mine <==> d in Compass && Open(ps, w, h, p, d)
    ensures Tagged(p, mine, StartTest(ps, w, h)) == Tagged(p, Compass, StartTest(ps, w, h))
  {
  }

  /** Visiting a plot adds its fences and its side-starting fences. */
  lemma FencedStep(ps: set<Pos>, w: nat, h: nat, fences: FenceIds, done: set<Pos>, count: nat, y: nat, x: nat,
                   here: map<Direction, nat>, count': nat)
    requires InBounds(y, x, w, h) && (y, x) in ps && Fenced(ps, w, h, fences, done, count, y, x)
    requires here.Keys == OpenDirs(ps, w, h, (y, x))
    requires count' == count + |Tagged((y, x), Compass, StartTest(ps, w, h))|
    ensures Fenced(ps, w, h, Set(fences, y, x, here), done + {(y, x)}, count', y, x + 1)
  {
    var f': FenceIds := Set(fences, y, x, here);
    var done' := done + {(y, x)};
    assert (y, x) !in done;
    FencesCount(done, (y, x), Compass, StartTest(ps, w, h));
    forall p | true
      ensures p in done' <==> p in ps && Before(p.0, p.1, y, x + 1)
    {
    }
    forall cy: nat, cx: nat | cy < h && cx < w
      ensures if Before(cy, cx, y, x + 1) then
          f'[cy][cx].Keys == if (cy, cx) in ps then OpenDirs(ps, w, h, (cy, cx)) else {}
        else f'[cy][cx] == map[]
    {
      if (cy, cx) != (y, x) {
        assert f'[cy][cx] == fences[cy][cx];
      }
    }
  }

  /** Visiting a cell outside the region changes nothing. */
  lemma FencedSkip(ps: set<Pos>, w: nat, h: nat, fences: FenceIds, done: set<Pos>, count: nat, y: nat, x: nat)
    requires InBounds(y, x, w, h) && (y, x) !in ps && Fenced(ps, w, h, fences, done, count, y, x)
    ensures Fenced(ps, w, h, fences, done, count, y, x + 1)
  {
  }

  /** A finished row is the start of the next one. */
  lemma FencedRow(ps: set<Pos>, w: nat, h: nat, fences: FenceIds, done: set<Pos>, count: nat, y: nat)
    requires forall p :: p in ps ==> InBounds(p.0, p.1, w, h)
    requires Fenced(ps, w, h, fences, done, count, y, w)
    ensures Fenced(ps, w, h, fences, done, count, y + 1, 0)
  {
    forall cy: nat, cx: nat | cy < h && cx < w
      ensures Before(cy, cx, y, w) <==> Before(cy, cx, y + 1, 0)
    {
    }
  }

  /**
   * `calculate_sides`: visits the plots of the region in row-major order
   * (the order of the `BTreeSet`), and hands out a new id for each fence
   * whose checked neighbour has no such fence; the number of ids is the
   * number of sides.
   */
  method CalculateSides(plots: seq<Pos>, w: nat, h: nat) returns (sides: nat)
    requires forall p :: p in plots ==> InBounds(p.0, p.1, w, h)
    ensures sides == |Sides((set p | p in plots), w, h)|
  {
    var positions := set p | p in plots;
    sides := 0;
    var fences: FenceIds := Filled(w, h, map[]);
    ghost var done: set<Pos> := {};
    for y := 0 to h
      invariant Fenced(positions, w, h, fences, done, sides, y, 0)
    {
      for x := 0 to w
        invariant Fenced(positions, w, h, fences, done, sides, y, x)
      {
        if (y, x) in positions {
          var mine := MyFences(positions, w, h, (y, x));
          SidesNeighbour(positions, w, h, fences, done, sides, (y, x));
          var here, sides' := AssignFences(positions, w, h, fences, sides, (y, x), mine);
          FencedStep(positions, w, h, fences, done, sides, y, x, here, sides');
          fences := Set(fences, y, x, here);
          sides := sides';
          done := done + {(y, x)};
        } else {
          FencedSkip(positions, w, h, fences, done, sides, y, x);
        }
      }
      FencedRow(positions, w, h, fences, done, sides, y);
    }
    assert done == positions;
  }

  /** The plots labelled `g`, as a test. */
  function InGroup(groups: Labels, g: nat): Pos -> bool
  {
    (p: Pos) => p.0 < |groups| && p.1 < |groups[p.0]| && groups[p.0][p.1] == g
  }

  /** The plots labelled `g`. */
  ghost function Region(groups: Labels, w: nat, h: nat, g: nat): set<Pos>
  {
    CellsWhere(w, h, InGroup(groups, g))
  }

  /** A region's price: area times perimeter, or area times sides when bought in bulk. */
  ghost function Price(region: set<Pos>, w: nat, h: nat, bulk: bool): nat
  {
    |region| * if bulk then |Sides(region, w, h)| else |Fences(region, w, h)|
  }

  /** The prices of the regions labelled 1 to n - 1, summed. */
  ghost function Total(groups: Labels, w: nat, h: nat, n: nat, bulk: bool): nat
  {
    if n <= 1 then 0
    else Total(groups, w, h, n - 1, bulk) + Price(Region(groups, w, h, n - 1), w, h, bulk)
  }

  /** One more label adds the price of its region. */
  lemma TotalStep(groups: Labels, w: nat, h: nat, g: nat, bulk: bool)
    requires g >= 1
    ensures Total(groups, w, h, g + 1, bulk) == Total(groups, w, h, g, bulk) + Price(Region(groups, w, h, g), w, h, bulk)
  {
  }

  /** Buying in bulk never costs more. */
  lemma {:induction false} BulkNoDearer(groups: Labels, w: nat, h: nat, n: nat)
    ensures Total(groups, w, h, n, true) <= Total(groups, w, h, n, false)
  {
    if n > 1 {
      BulkNoDearer(groups, w, h, n - 1);
      var region := Region(groups, w, h, n - 1);
      SidesAtMostPerimeter(region, w, h);
      Arith.MulMonotone(|region|, |Sides(region, w, h)|, |Fences(region, w, h)|);
    }
  }

  /** A region's price is at most four times the square of its area. */
  lemma PriceBound(region: set<Pos>, w: nat, h: nat, bulk: bool)
    ensures Price(region, w, h, bulk) <= 4 * |region| * |region|
  {
    PerimeterBound(region, w, h);
    SidesAtMostPerimeter(region, w, h);
    var m := if bulk then |Sides(region, w, h)| else |Fences(region, w, h)|;
    Arith.MulMonotone(|region|, m, 4 * |region|);
  }

  /** `groups.positions().filter(..)` lists the region labelled `g`, each plot once. */
  lemma RegionCells(groups: Labels, w: nat, h: nat, g: nat)
    ensures var cells := Filter(Positions(w, h), InGroup(groups, g));
      (set p | p in cells) == Region(groups, w, h, g) && |cells| == |Region(groups, w, h, g)| &&
      forall p :: p in cells ==> InBounds(p.0, p.1, w, h)
  {
    var f := InGroup(groups, g);
    var cells := Filter(Positions(w, h), f);
    PositionsExact(w, h);
    CountPositions(w, h, f);
    WherePositions(w, h, f);
    assert (set p | p in cells) == Where(Positions(w, h), f);
  }

  /**
   * The body of the loop in `part_one` and `part_two`: the area of the
   * region labelled `g`, skipped when zero, times its perimeter (or, when
   * `bulk`, its number of sides).
   */
  method RegionPrice(groups: Labels, w: nat, h: nat, g: nat, bulk: bool) returns (price: nat)
    ensures price == Price(Region(groups, w, h, g), w, h, bulk)
  {
    var cells := Filter(Positions(w, h), InGroup(groups, g));
    var area := |cells|;
    RegionCells(groups, w, h, g);
    price := 0;
    if area != 0 {
      var measure;
      if bulk {
        measure := CalculateSides(cells, w, h);
      } else {
        measure := CalculatePerimeter(cells, w, h);
      }
      Arith.MulNonNegative(area, measure);
      price := area * measure;
    }
  }

  /** The loop of `part_one` and `part_two`: the prices of the labels 1 to next - 1, summed. */
  method Tally(groups: Labels, w: nat, h: nat, next: nat, bulk: bool) returns (total: nat)
    ensures total == Total(groups, w, h, next, bulk)
  {
    total := 0;
    var g := 1;
    while g < next
      invariant 1 <= g && (g <= next || g == 1)
      invariant total == Total(groups, w, h, g, bulk)
    {
      var price := RegionPrice(groups, w, h, g, bulk);
      TotalStep(groups, w, h, g, bulk);
      total := total + price;
      g := g + 1;
    }
  }

  /** `part_one`: labels the regions and sums area times perimeter. */
  method PartOne(input: seq<seq<char>>, w: nat, h: nat) returns (total: nat, groups: Labels, next: nat)
    requires IsGrid(input, w, h)
    ensures Labelling(input, w, h, groups, next)
    ensures total == Total(groups, w, h, next, false)
  {
    groups, next := CalculateGroups(input, w, h);
    total := Tally(groups, w, h, next, false);
  }

  /** `part_two`: labels the regions and sums area times number of sides. */
  method PartTwo(input: seq<seq<char>>, w: nat, h: nat) returns (total: nat, groups: Labels, next: nat)
    requires IsGrid(input, w, h)
    ensures Labelling(input, w, h, groups, next)
    ensures total == Total(groups, w, h, next, true)
  {
    groups, next := CalculateGroups(input, w, h);
    total := Tally(groups, w, h, next, true);
  }
}
