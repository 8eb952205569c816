/**
 * Day eight: antennas and their antinodes. For every pair of antennas with
 * the same frequency, part one marks the two reflections of one antenna
 * through the other; part two marks both antennas and every grid point
 * reached by repeatedly stepping by the pair's offset, in both directions.
 * The answer is the number of marked cells of an overlay grid.
 */
module Eight {
  import opened Grids

  datatype InputCell = Antenna(freq: char) | Empty

  /** The overlay's cells; `Clear` is the repository's `Cell::Empty`. */
  datatype Cell = AntiNode | Clear

  /** A grid position (y, x). */
  type Pos = (nat, nat)

  /**
   * `third_point`: the reflection `2 * b - a` of `a` through `b` on one axis,
   * when it lies in [0, bound). When `a > b` only the lower end is checked,
   * since the reflection is then below `b`.
   */
  function ThirdPoint(a: nat, b: nat, bound: nat): (r: Option<nat>)
    ensures r.Some? ==> r.value + a == 2 * b
    ensures b < bound ==> (r.Some? <==> 0 <= 2 * b - a < bound)
  {
    if a > b then
      var delta := a - b;
      if delta <= b then Some(b - delta) else None
    else
      var delta := b - a;
      if b + delta < bound then Some(b + delta) else None
  }

  function InGrid(p: Pos, width: nat, height: nat): bool
  {
    p.0 < height && p.1 < width
  }

  /** `antinode`: the reflection of `a` through `b` in both coordinates, if both exist. */
  function Antinode(a: Pos, b: Pos, width: nat, height: nat): (r: Option<Pos>)
    ensures r.Some? <==> ThirdPoint(a.0, b.0, height).Some? && ThirdPoint(a.1, b.1, width).Some?
    ensures r.Some? ==> r.value.0 + a.0 == 2 * b.0 && r.value.1 + a.1 == 2 * b.1
    ensures r.Some? && InGrid(b, width, height) ==> InGrid(r.value, width, height)
  {
    match (ThirdPoint(a.0, b.0, height), ThirdPoint(a.1, b.1, width))
    case (Some(y), Some(x)) => Some((y, x))
    case _ => None
  }

  /** Within the grid, the antinode of `a` and `b` is exactly the in-grid point `2b - a`. */
  lemma AntinodeIsReflection(a: Pos, b: Pos, width: nat, height: nat, p: Pos)
    requires InGrid(a, width, height) && InGrid(b, width, height)
    ensures Antinode(a, b, width, height) == Some(p) <==>
      InGrid(p, width, height) && p.0 + a.0 == 2 * b.0 && p.1 + a.1 == 2 * b.1
  {
  }

  function Option2Set(o: Option<Pos>): set<(int, int)>
  {
    match o
    case Some(p) => {p}
    case None => {}
  }

  /** Which closure `solve` is called with. */
  datatype Part = One | Two

  /** A measure of how far stepping from `na` through `nb` still is from leaving the grid on one axis. */
  function AxisRoom(a: nat, b: nat, bound: nat): nat
  {
    if a > b then b else if b < bound then bound - b else 0
  }

  function Room(na: Pos, nb: Pos, width: nat, height: nat): nat
  {
    AxisRoom(na.0, nb.0, height) + AxisRoom(na.1, nb.1, width)
  }

  /**
   * The points `part_two`'s `while let` loop marks after `nb`: each step
   * reflects the previous point through the current one, so it moves by the
   * fixed offset `nb - na`. Because `na != nb` the offset is not zero and the
   * walk leaves the grid.
   */
  function Ray(na: Pos, nb: Pos, width: nat, height: nat): set<(int, int)>
    decreases Room(na, nb, width, height)
  {
    if na == nb || !InGrid(nb, width, height) then {}
    else match Antinode(na, nb, width, height)
      case None => {}
      case Some(r) => {r} + Ray(nb, r, width, height)
  }

  /** The coordinate `k` offsets `d` away from `base`. */
  function Along(base: int, k: int, d: int): int
  {
    base + k * d
  }

  lemma AlongNext(base: int, k: int, d: int)
    ensures Along(base + d, k, d) == Along(base, k + 1, d)
  {
    assert (k + 1) * d == k * d + d;
  }

  /** `p` lies `k` offsets `b - a` away from `a`, on both axes. */
  predicate OnLine(p: (int, int), a: Pos, b: Pos, k: int)
  {
    p.0 == Along(a.0, k, b.0 - a.0) && p.1 == Along(a.1, k, b.1 - a.1)
  }

  /** Every point of the ray lies on the line through `na` and `nb`, at least two offsets past `na`. */
  lemma {:induction false} RayCollinear(na: Pos, nb: Pos, width: nat, height: nat, p: (int, int))
    requires p in Ray(na, nb, width, height)
    ensures exists k: int :: k >= 2 && OnLine(p, na, nb, k)
    decreases Room(na, nb, width, height)
  {
    var r := Antinode(na, nb, width, height).value;
    assert r.0 - nb.0 == nb.0 - na.0 && r.1 - nb.1 == nb.1 - na.1;
    if p != r {
      RayCollinear(nb, r, width, height, p);
      var k: int :| k >= 2 && OnLine(p, nb, r, k);
      AlongNext(na.0, k, nb.0 - na.0);
      AlongNext(na.1, k, nb.1 - na.1);
      assert OnLine(p, na, nb, k + 1);
    } else {
      assert OnLine(p, na, nb, 2);
    }
  }

  /** The ray never leaves the grid. */
  lemma {:induction false} RayInGrid(na: Pos, nb: Pos, width: nat, height: nat, p: (int, int))
    requires p in Ray(na, nb, width, height)
    ensures 0 <= p.0 < height && 0 <= p.1 < width
    decreases Room(na, nb, width, height)
  {
    var r := Antinode(na, nb, width, height).value;
    if p != r {
      RayInGrid(nb, r, width, height, p);
    }
  }

  /** The cells the loop body marks for the pair `a`, `b`, in either order. */
  function Marks(part: Part, a: Pos, b: Pos, width: nat, height: nat): set<(int, int)>
  {
    match part
    case One => Option2Set(Antinode(a, b, width, height)) + Option2Set(Antinode(b, a, width, height))
    case Two => {a, b} + Ray(a, b, width, height) + Ray(b, a, width, height)
  }

  /** Part one marks exactly the in-grid reflections of each antenna through the other. */
  lemma MarksOneAreReflections(a: Pos, b: Pos, width: nat, height: nat, p: Pos)
    requires InGrid(a, width, height) && InGrid(b, width, height)
    ensures p in Marks(One, a, b, width, height) <==> (InGrid(p, width, height) &&
      ((p.0 + a.0 == 2 * b.0 && p.1 + a.1 == 2 * b.1) || (p.0 + b.0 == 2 * a.0 && p.1 + b.1 == 2 * a.1)))
  {
    AntinodeIsReflection(a, b, width, height, p);
    AntinodeIsReflection(b, a, width, height, p);
  }

  /** Every cell the loop body marks is in the grid. */
  lemma MarksInGrid(part: Part, a: Pos, b: Pos, width: nat, height: nat, p: (int, int))
    requires InGrid(a, width, height) && InGrid(b, width, height)
    requires p in Marks(part, a, b, width, height)
    ensures 0 <= p.0 < height && 0 <= p.1 < width
  {
    if part == Two {
      MarksTwoOnLine(a, b, width, height, p);
    }
  }

  /** Part two marks every cell part one marks, and both antennas. */
  lemma PartTwoCoversPartOne(a: Pos, b: Pos, width: nat, height: nat)
    requires a != b && InGrid(a, width, height) && InGrid(b, width, height)
    ensures Marks(One, a, b, width, height) + {a, b} <= Marks(Two, a, b, width, height)
  {
  }

  /** Every cell part two marks for a pair is in the grid, on the line through the pair. */
  lemma MarksTwoOnLine(a: Pos, b: Pos, width: nat, height: nat, p: (int, int))
    requires InGrid(a, width, height) && InGrid(b, width, height)
    requires p in Marks(Two, a, b, width, height)
    ensures 0 <= p.0 < height && 0 <= p.1 < width
    ensures exists k: int :: OnLine(p, a, b, k)
  {
    if p == a {
      assert OnLine(p, a, b, 0);
    } else if p == b {
      assert OnLine(p, a, b, 1);
    } else if p in Ray(a, b, width, height) {
      RayInGrid(a, b, width, height, p);
      RayCollinear(a, b, width, height, p);
    } else {
      RayInGrid(b, a, width, height, p);
      RayCollinear(b, a, width, height, p);
      var k: int :| k >= 2 && OnLine(p, b, a, k);
      AlongMirror(a.0, b.0, k);
      AlongMirror(a.1, b.1, k);
      assert OnLine(p, a, b, 1 - k);
    }
  }

  /** A point of the line between two in-range points at offsets 1 and `k >= 2` is in range at offset 2. */
  lemma AxisBetween(base: int, d: int, k: int, bound: nat)
    requires k >= 2 && 0 <= Along(base, 1, d) < bound && 0 <= Along(base, k, d) < bound
    ensures 0 <= Along(base, 2, d) < bound
  {
    assert Along(base, k, d) - Along(base, 2, d) == (k - 2) * d;
    if d >= 0 {
      assert (k - 2) * d >= 0;
    } else {
      assert (k - 2) * d <= 0;
    }
  }

  /** Every grid point at least two offsets past `na` on the line through `na` and `nb` is on the ray. */
  lemma {:induction false} RayComplete(na: Pos, nb: Pos, width: nat, height: nat, p: (int, int), k: int)
    requires na != nb && InGrid(nb, width, height)
    requires k >= 2 && OnLine(p, na, nb, k) && 0 <= p.0 < height && 0 <= p.1 < width
    ensures p in Ray(na, nb, width, height)
    decreases k
  {
    AxisBetween(na.0, nb.0 - na.0, k, height);
    AxisBetween(na.1, nb.1 - na.1, k, width);
    var r: Pos := (2 * nb.0 - na.0, 2 * nb.1 - na.1);
    assert Antinode(na, nb, width, height) == Some(r);
    assert Ray(na, nb, width, height) == {r} + Ray(nb, r, width, height);
    if k > 2 {
      AlongNext(na.0, k - 1, nb.0 - na.0);
      AlongNext(na.1, k - 1, nb.1 - na.1);
      assert OnLine(p, nb, r, k - 1);
      RayComplete(nb, r, width, height, p, k - 1);
    }
  }

  /** Every grid point on the line through a pair, at a whole multiple of their spacing, is marked by part two. */
  lemma MarksTwoComplete(a: Pos, b: Pos, width: nat, height: nat, p: (int, int), k: int)
    requires InGrid(a, width, height) && InGrid(b, width, height)
    requires OnLine(p, a, b, k) && 0 <= p.0 < height && 0 <= p.1 < width
    ensures p in Marks(Two, a, b, width, height)
  {
    if a == b {
      assert p == a;
    } else if k == 0 {
      assert p == a;
    } else if k == 1 {
      assert p == b;
    } else if k >= 2 {
      RayComplete(a, b, width, height, p, k);
    } else {
      AlongMirror(a.0, b.0, 1 - k);
      AlongMirror(a.1, b.1, 1 - k);
      assert OnLine(p, b, a, 1 - k);
      RayComplete(b, a, width, height, p, 1 - k);
    }
  }

  /** Part two marks, for a pair, exactly the grid points on their line at whole multiples of their spacing. */
  lemma MarksTwoAreLine(a: Pos, b: Pos, width: nat, height: nat, p: (int, int))
    requires InGrid(a, width, height) && InGrid(b, width, height)
    ensures p in Marks(Two, a, b, width, height) <==>
      0 <= p.0 < height && 0 <= p.1 < width && exists k: int :: OnLine(p, a, b, k)
  {
    if p in Marks(Two, a, b, width, height) {
      MarksTwoOnLine(a, b, width, height, p);
    }
    if 0 <= p.0 < height && 0 <= p.1 < width && exists k: int :: OnLine(p, a, b, k) {
      var k: int :| OnLine(p, a, b, k);
      MarksTwoComplete(a, b, width, height, p, k);
    }
  }

  /** Counting offsets from the other end of the pair. */
  lemma AlongMirror(a: int, b: int, k: int)
    ensures Along(b, k, a - b) == Along(a, 1 - k, b - a)
  {
    assert k * (a - b) == -(k * (b - a));
    assert (1 - k) * (b - a) == (b - a) - k * (b - a);
  }

  /** The overlay that shows exactly the cells of `marked` as `AntiNode`. */
  ghost function Overlay(marked: set<(int, int)>, width: nat, height: nat): (g: seq<seq<Cell>>)
    ensures IsGrid(g, width, height)
  {
    seq(height, y => seq(width, x => if (y, x) in marked then AntiNode else Clear))
  }

  /** The ghost set `marked` holds exactly the overlay's `AntiNode` cells. */
  ghost predicate Tracks(g: seq<seq<Cell>>, width: nat, height: nat, marked: set<(int, int)>)
  {
    g == Overlay(marked, width, height)
  }

  /** The cleared overlay `solve` starts from shows nothing. */
  lemma OverlayEmpty(width: nat, height: nat)
    ensures Tracks(Filled(width, height, Clear), width, height, {})
  {
    var g, g' := Filled(width, height, Clear), Overlay({}, width, height);
    forall y | 0 <= y < height
      ensures g[y] == g'[y]
    {
    }
  }

  /** Marking a cell of the overlay of `marked` gives the overlay of `marked + {p}`. */
  lemma OverlayMark(marked: set<(int, int)>, p: Pos, width: nat, height: nat)
    requires InGrid(p, width, height)
    ensures Tracks(Set(Overlay(marked, width, height), p.0, p.1, AntiNode), width, height, marked + {p})
  {
    var g, g' := Set(Overlay(marked, width, height), p.0, p.1, AntiNode), Overlay(marked + {p}, width, height);
    forall y | 0 <= y < height
      ensures g[y] == g'[y]
    {
      assert |g[y]| == |g'[y]|;
    }
  }

  /** When every marked cell is in the grid, the overlay's `AntiNode` cells are the marked set. */
  lemma OverlayCells(marked: set<(int, int)>, width: nat, height: nat)
    requires forall q :: q in marked ==> 0 <= q.0 < height && 0 <= q.1 < width
    ensures CellsWith(Overlay(marked, width, height), AntiNode) == marked
  {
  }

  /** Re-marking a cell that is already marked changes nothing. */
  lemma MarkAgain(g: seq<seq<Cell>>, p: Pos, width: nat, height: nat)
    requires IsGrid(g, width, height) && InGrid(p, width, height) && g[p.0][p.1] == AntiNode
    ensures Set(g, p.0, p.1, AntiNode) == g
  {
    assert g[p.0][p.1 := AntiNode] == g[p.0];
  }

  /** Marks the cell `p` of the overlay. */
  method Mark(overlay: seq<seq<Cell>>, ghost marked: set<(int, int)>, p: Pos, width: nat, height: nat)
    returns (r: seq<seq<Cell>>, ghost marked': set<(int, int)>)
    requires Tracks(overlay, width, height, marked) && InGrid(p, width, height)
    ensures Tracks(r, width, height, marked') && marked' == marked + {p}
  {
    r := Set(overlay, p.0, p.1, AntiNode);
    marked' := marked + {p};
    OverlayMark(marked, p, width, height);
  }

  /** `part_two`'s inner closure: steps from `na` through `nb` while the next reflection is in the grid. */
  method MarkRay(overlay: seq<seq<Cell>>, ghost marked: set<(int, int)>, a: Pos, b: Pos, width: nat, height: nat)
    returns (r: seq<seq<Cell>>, ghost marked': set<(int, int)>)
    requires Tracks(overlay, width, height, marked) && a != b && InGrid(b, width, height)
    ensures Tracks(r, width, height, marked') && marked' == marked + Ray(a, b, width, height)
  {
    r, marked' := overlay, marked;
    var na, nb := a, b;
    var next := Antinode(na, nb, width, height);
    while next.Some?
      invariant Tracks(r, width, height, marked') && na != nb && InGrid(nb, width, height)
      invariant next == Antinode(na, nb, width, height)
      invariant marked' + Ray(na, nb, width, height) == marked + Ray(a, b, width, height)
      decreases Room(na, nb, width, height)
    {
      var p := next.value;
      r, marked' := Mark(r, marked', p, width, height);
      na, nb := nb, p;
      next := Antinode(na, nb, width, height);
    }
  }

  /** One call of the loop body for the pair `a`, `b`: marks `Marks(part, a, b)`. */
  method MarkPair(overlay: seq<seq<Cell>>, ghost marked: set<(int, int)>, part: Part, a: Pos, b: Pos, width: nat, height: nat)
    returns (r: seq<seq<Cell>>, ghost marked': set<(int, int)>)
    requires Tracks(overlay, width, height, marked) && a != b && InGrid(a, width, height) && InGrid(b, width, height)
    ensures Tracks(r, width, height, marked') && marked' == marked + Marks(part, a, b, width, height)
  {
    r, marked' := overlay, marked;
    match part
    case One =>
      var o := Antinode(a, b, width, height);
      if o.Some? {
        r, marked' := Mark(r, marked', o.value, width, height);
      }
      o := Antinode(b, a, width, height);
      if o.Some? {
        r, marked' := Mark(r, marked', o.value, width, height);
      }
    case Two =>
      r, marked' := Mark(r, marked', a, width, height);
      r, marked' := Mark(r, marked', b, width, height);
      r, marked' := MarkRay(r, marked', a, b, width, height);
      r, marked' := MarkRay(r, marked', b, a, width, height);
  }

  /** The cells a loop body marks for a pair of antennas, as a function of the pair. */
  type MarkFn = (Pos, Pos) -> set<(int, int)>

  function MarksOf(part: Part, width: nat, height: nat): MarkFn
  {
    (a, b) => Marks(part, a, b, width, height)
  }

  /** The marks of the pairs `(a, bs[k])` with `lo <= k < n`. */
  function RowMarks(marks: MarkFn, a: Pos, bs: seq<Pos>, lo: nat, n: nat): set<(int, int)>
    requires lo <= n <= |bs|
    decreases n
  {
    if n == lo then {}
    else RowMarks(marks, a, bs, lo, n - 1) + marks(a, bs[n - 1])
  }

  /** The marks of the pairs whose first antenna is among the first `i` of `locs`. */
  function Front(marks: MarkFn, locs: seq<Pos>, i: nat): set<(int, int)>
    requires i <= |locs|
  {
    if i == 0 then {}
    else Front(marks, locs, i - 1) + RowMarks(marks, locs[i - 1], locs, i, |locs|)
  }

  lemma {:induction false} RowMarksMembers(marks: MarkFn, a: Pos, bs: seq<Pos>, lo: nat, n: nat, p: (int, int))
    requires lo <= n <= |bs|
    ensures p in RowMarks(marks, a, bs, lo, n) <==> exists k :: lo <= k < n && p in marks(a, bs[k])
    decreases n
  {
    if n > lo {
      RowMarksMembers(marks, a, bs, lo, n - 1, p);
    }
  }

  /** The marks of all pairs `(locs[j], locs[k])` with `j < k`, each pair taken once. */
  lemma {:induction false} FrontMembers(marks: MarkFn, locs: seq<Pos>, i: nat, p: (int, int))
    requires i <= |locs|
    ensures p in Front(marks, locs, i) <==>
      exists j, k :: 0 <= j < i && j < k < |locs| && p in marks(locs[j], locs[k])
  {
    if i > 0 {
      FrontMembers(marks, locs, i - 1, p);
      RowMarksMembers(marks, locs[i - 1], locs, i, |locs|, p);
    }
  }

  predicate RowMajorLess(p: Pos, q: Pos)
  {
    p.0 < q.0 || (p.0 == q.0 && p.1 < q.1)
  }

  /** A list of positions in strictly increasing row-major order, hence without repeats. */
  predicate Ascending(s: seq<Pos>)
  {
    forall i, j :: 0 <= i < j < |s| ==> RowMajorLess(s[i], s[j])
  }

  /**
   * The loop over `locations`: every pair `(locations[i], locations[j])` with
   * `i < j` is passed to the loop body once.
   */
  method MarkPairs(overlay: seq<seq<Cell>>, ghost marked: set<(int, int)>, part: Part, locs: seq<Pos>, width: nat, height: nat)
    returns (r: seq<seq<Cell>>, ghost marked': set<(int, int)>)
    requires Tracks(overlay, width, height, marked) && Ascending(locs)
    requires forall k :: 0 <= k < |locs| ==> InGrid(locs[k], width, height)
    ensures Tracks(r, width, height, marked') && marked' == marked + Front(MarksOf(part, width, height), locs, |locs|)
  {
    r, marked' := overlay, marked;
    for i := 0 to |locs|
      invariant Tracks(r, width, height, marked')
      invariant marked' == marked + Front(MarksOf(part, width, height), locs, i)
    {
      ghost var before := marked';
      LaterAntennas(locs, i);
      r, marked' := MarkRow(r, marked', part, locs[i], locs, i + 1, width, height);
      FrontStep(MarksOf(part, width, height), locs, i, marked, before, marked');
    }
  }

  /** The antennas after `locs[i]` differ from it. */
  lemma LaterAntennas(locs: seq<Pos>, i: nat)
    requires Ascending(locs) && i < |locs|
    ensures forall k :: i + 1 <= k < |locs| ==> locs[k] != locs[i]
  {
    forall k | i + 1 <= k < |locs|
      ensures locs[k] != locs[i]
    {
      assert RowMajorLess(locs[i], locs[k]);
    }
  }

  /** The inner loop: pairs `a` with each antenna `bs[k]`, `lo <= k`, the ones after it. */
  method MarkRow(overlay: seq<seq<Cell>>, ghost marked: set<(int, int)>, part: Part, a: Pos, bs: seq<Pos>, lo: nat, width: nat, height: nat)
    returns (r: seq<seq<Cell>>, ghost marked': set<(int, int)>)
    requires Tracks(overlay, width, height, marked) && InGrid(a, width, height) && lo <= |bs|
    requires forall k :: lo <= k < |bs| ==> bs[k] != a && InGrid(bs[k], width, height)
    ensures Tracks(r, width, height, marked') && marked' == marked + RowMarks(MarksOf(part, width, height), a, bs, lo, |bs|)
  {
    r, marked' := overlay, marked;
    for k := lo to |bs|
      invariant Tracks(r, width, height, marked')
      invariant marked' == marked + RowMarks(MarksOf(part, width, height), a, bs, lo, k)
    {
      ghost var before := marked';
      r, marked' := MarkPair(r, marked', part, a, bs[k], width, height);
      RowMarksStep(MarksOf(part, width, height), part, a, bs, lo, k, width, height, marked, before, marked');
    }
  }

  lemma RowMarksStep(marks: MarkFn, part: Part, a: Pos, bs: seq<Pos>, lo: nat, k: nat, width: nat, height: nat,
                     start: set<(int, int)>, before: set<(int, int)>, after: set<(int, int)>)
    requires lo <= k < |bs| && marks == MarksOf(part, width, height)
    requires before == start + RowMarks(marks, a, bs, lo, k) && after == before + Marks(part, a, bs[k], width, height)
    ensures after == start + RowMarks(marks, a, bs, lo, k + 1)
  {
    assert marks(a, bs[k]) == Marks(part, a, bs[k], width, height);
  }

  lemma FrontStep(marks: MarkFn, locs: seq<Pos>, i: nat, start: set<(int, int)>, before: set<(int, int)>, after: set<(int, int)>)
    requires i < |locs|
    requires before == start + Front(marks, locs, i) && after == before + RowMarks(marks, locs[i], locs, i + 1, |locs|)
    ensures after == start + Front(marks, locs, i + 1)
  {
  }

  /** The positions collected for frequency `f`: ascending, in the grid, before `(y, x)`, all holding `f`. */
  ghost predicate EntriesOk(input: seq<seq<InputCell>>, width: nat, height: nat, s: seq<Pos>, f: char, y: nat, x: nat)
    requires IsGrid(input, width, height)
  {
    Ascending(s) &&
    forall k :: 0 <= k < |s| ==>
      (InGrid(s[k], width, height) && RowMajorLess(s[k], (y, x)) && input[s[k].0][s[k].1] == Antenna(f))
  }

  /** All antenna cells before the row-major position `(y, x)` are collected under their frequency. */
  ghost predicate LocatedBefore(input: seq<seq<InputCell>>, width: nat, height: nat, pos: map<char, seq<Pos>>, y: nat, x: nat)
    requires IsGrid(input, width, height)
  {
    (forall f :: f in pos ==> EntriesOk(input, width, height, pos[f], f, y, x)) &&
    (forall i: nat, j: nat :: (i < height && j < width && RowMajorLess((i, j), (y, x)) && input[i][j].Antenna?) ==>
      (input[i][j].freq in pos && (i, j) in pos[input[i][j].freq]))
  }

  /** Every antenna cell is collected under its frequency, each frequency's cells in row-major order. */
  ghost predicate Located(input: seq<seq<InputCell>>, width: nat, height: nat, pos: map<char, seq<Pos>>)
    requires IsGrid(input, width, height)
  {
    LocatedBefore(input, width, height, pos, height, 0)
  }

  /** The map after the first loop has visited the cell `(y, x)`. */
  function Collect(input: seq<seq<InputCell>>, width: nat, height: nat, pos: map<char, seq<Pos>>, y: nat, x: nat): map<char, seq<Pos>>
    requires IsGrid(input, width, height) && y < height && x < width
  {
    match input[y][x]
    case Antenna(f) => pos[f := (if f in pos then pos[f] else []) + [(y, x)]]
    case Empty => pos
  }

  /** Visiting `(y, x)` extends what is collected by that one cell. */
  lemma CollectStep(input: seq<seq<InputCell>>, width: nat, height: nat, pos: map<char, seq<Pos>>, y: nat, x: nat)
    requires IsGrid(input, width, height) && y < height && x < width
    requires LocatedBefore(input, width, height, pos, y, x)
    ensures LocatedBefore(input, width, height, Collect(input, width, height, pos, y, x), y, x + 1)
  {
    var pos' := Collect(input, width, height, pos, y, x);
    forall f | f in pos'
      ensures EntriesOk(input, width, height, pos'[f], f, y, x + 1)
    {
      if input[y][x] == Antenna(f) {
        var l := if f in pos then pos[f] else [];
        assert EntriesOk(input, width, height, l, f, y, x);
        assert pos'[f] == l + [(y, x)];
      } else {
        assert pos'[f] == pos[f] && EntriesOk(input, width, height, pos[f], f, y, x);
      }
    }
    forall i: nat, j: nat | i < height && j < width && RowMajorLess((i, j), (y, x + 1)) && input[i][j].Antenna?
      ensures input[i][j].freq in pos' && (i, j) in pos'[input[i][j].freq]
    {
      var f := input[i][j].freq;
      if (i, j) == (y, x) {
        assert pos'[f][|pos'[f]| - 1] == (y, x);
      } else {
        assert RowMajorLess((i, j), (y, x));
        assert (i, j) in pos[f];
        var k :| 0 <= k < |pos[f]| && pos[f][k] == (i, j);
        if input[y][x] == Antenna(f) {
          assert pos'[f][k] == (i, j);
        }
      }
    }
  }

  /** The end of a row is the start of the next one. */
  lemma RowEnd(input: seq<seq<InputCell>>, width: nat, height: nat, pos: map<char, seq<Pos>>, y: nat)
    requires IsGrid(input, width, height) && y < height
    requires LocatedBefore(input, width, height, pos, y, width)
    ensures LocatedBefore(input, width, height, pos, y + 1, 0)
  {
    forall f | f in pos
      ensures EntriesOk(input, width, height, pos[f], f, y + 1, 0)
    {
      assert EntriesOk(input, width, height, pos[f], f, y, width);
    }
    forall i: nat, j: nat | i < height && j < width && RowMajorLess((i, j), (y + 1, 0)) && input[i][j].Antenna?
      ensures input[i][j].freq in pos && (i, j) in pos[input[i][j].freq]
    {
      assert RowMajorLess((i, j), (y, width));
    }
  }

  /** `solve`'s first loop: the antenna positions of each frequency, in `positions()` order. */
  method Locate(input: seq<seq<InputCell>>, width: nat, height: nat) returns (pos: map<char, seq<Pos>>)
    requires IsGrid(input, width, height)
    ensures Located(input, width, height, pos)
  {
    pos := map[];
    for y := 0 to height
      invariant LocatedBefore(input, width, height, pos, y, 0)
    {
      for x := 0 to width
        invariant LocatedBefore(input, width, height, pos, y, x)
      {
        CollectStep(input, width, height, pos, y, x);
        if input[y][x].Antenna? {
          var f := input[y][x].freq;
          var l := if f in pos then pos[f] else [];
          pos := pos[f := l + [(y, x)]];
        }
      }
      RowEnd(input, width, height, pos, y);
    }
  }

  /** A cell marked for some pair of distinct antennas that share a frequency. */
  ghost predicate MarkedBySomePair(input: seq<seq<InputCell>>, width: nat, height: nat, marks: MarkFn, p: (int, int))
    requires IsGrid(input, width, height)
  {
    exists a: Pos, b: Pos :: InGrid(a, width, height) && InGrid(b, width, height) && a != b &&
      input[a.0][a.1].Antenna? && input[a.0][a.1] == input[b.0][b.1] && p in marks(a, b)
  }

  /** A cell the answer counts: a mark, for the part, of some same-frequency pair of antennas. */
  ghost predicate IsMark(input: seq<seq<InputCell>>, width: nat, height: nat, part: Part, p: (int, int))
    requires IsGrid(input, width, height)
  {
    MarkedBySomePair(input, width, height, MarksOf(part, width, height), p)
  }

  /** Both loop bodies treat a pair the same whichever antenna comes first. */
  lemma MarksSymmetric(part: Part, a: Pos, b: Pos, width: nat, height: nat)
    ensures MarksOf(part, width, height)(a, b) == MarksOf(part, width, height)(b, a)
  {
  }

  /** A cell some collected pair `i < j` marks is marked by a same-frequency pair. */
  lemma FrontIsPair(input: seq<seq<InputCell>>, width: nat, height: nat, marks: MarkFn,
                    pos: map<char, seq<Pos>>, f: char, p: (int, int))
    requires IsGrid(input, width, height) && Located(input, width, height, pos)
    requires f in pos && p in Front(marks, pos[f], |pos[f]|)
    ensures MarkedBySomePair(input, width, height, marks, p)
  {
    var locs := pos[f];
    assert EntriesOk(input, width, height, locs, f, height, 0);
    FrontMembers(marks, locs, |locs|, p);
    var j, k :| 0 <= j < |locs| && j < k < |locs| && p in marks(locs[j], locs[k]);
    assert RowMajorLess(locs[j], locs[k]);
    assert input[locs[j].0][locs[j].1] == Antenna(f) == input[locs[k].0][locs[k].1];
  }

  /** With symmetric marks, a cell a same-frequency pair marks is marked by a collected pair `i < j`. */
  lemma PairIsFront(input: seq<seq<InputCell>>, width: nat, height: nat, marks: MarkFn,
                    pos: map<char, seq<Pos>>, p: (int, int))
    requires IsGrid(input, width, height) && Located(input, width, height, pos)
    requires forall a: Pos, b: Pos :: marks(a, b) == marks(b, a)
    requires MarkedBySomePair(input, width, height, marks, p)
    ensures exists f :: f in pos && p in Front(marks, pos[f], |pos[f]|)
  {
    var a: Pos, b: Pos :| InGrid(a, width, height) && InGrid(b, width, height) && a != b &&
      input[a.0][a.1].Antenna? && input[a.0][a.1] == input[b.0][b.1] && p in marks(a, b);
    var f := input[a.0][a.1].freq;
    assert RowMajorLess(a, (height, 0)) && RowMajorLess(b, (height, 0));
    assert f in pos && a in pos[f] && b in pos[f];
    var locs := pos[f];
    var ia :| 0 <= ia < |locs| && locs[ia] == a;
    var ib :| 0 <= ib < |locs| && locs[ib] == b;
    FrontMembers(marks, locs, |locs|, p);
    if ia < ib {
      assert p in marks(locs[ia], locs[ib]);
    } else {
      assert p in marks(locs[ib], locs[ia]);
    }
  }

  /**
   * With symmetric marks, the pairs `i < j` of each frequency's ascending
   * list mark exactly the cells some same-frequency pair marks.
   */
  lemma PairsOfLocated(input: seq<seq<InputCell>>, width: nat, height: nat, marks: MarkFn,
                       pos: map<char, seq<Pos>>, p: (int, int))
    requires IsGrid(input, width, height) && Located(input, width, height, pos)
    requires forall a: Pos, b: Pos :: marks(a, b) == marks(b, a)
    ensures (exists f :: f in pos && p in Front(marks, pos[f], |pos[f]|)) <==>
      MarkedBySomePair(input, width, height, marks, p)
  {
    if exists f :: f in pos && p in Front(marks, pos[f], |pos[f]|) {
      var f :| f in pos && p in Front(marks, pos[f], |pos[f]|);
      FrontIsPair(input, width, height, marks, pos, f, p);
    }
    if MarkedBySomePair(input, width, height, marks, p) {
      PairIsFront(input, width, height, marks, pos, p);
    }
  }

  /**
   * `solve`: collects the antennas by frequency, calls the part's loop body
   * once per unordered pair of each frequency (frequencies in any order, as
   * the `HashMap` yields them), and counts the marked overlay cells.
   */
  method Solve(input: seq<seq<InputCell>>, width: nat, height: nat, part: Part) returns (count: nat, ghost marked: set<(int, int)>)
    requires IsGrid(input, width, height)
    ensures count == |marked| <= width * height
    ensures forall p :: p in marked <==> IsMark(input, width, height, part, p)
  {
    var pos := Locate(input, width, height);
    var overlay := Filled(width, height, Clear);
    marked := {};
    OverlayEmpty(width, height);
    var done: set<char> := {};
    while done != pos.Keys
      invariant done <= pos.Keys && Tracks(overlay, width, height, marked)
      invariant forall p :: p in marked <==> exists f :: f in done && p in Front(MarksOf(part, width, height), pos[f], |pos[f]|)
      decreases pos.Keys - done
    {
      NotAllDone(pos.Keys, done);
      var f :| f in pos.Keys && f !in done;
      var locations := pos[f];
      if |locations| >= 2 {
        overlay, marked := MarkPairs(overlay, marked, part, locations, width, height);
      } else {
        assert Front(MarksOf(part, width, height), locations, |locations|) == {};
      }
      done := done + {f};
    }
    forall a: Pos, b: Pos
      ensures MarksOf(part, width, height)(a, b) == MarksOf(part, width, height)(b, a)
    {
      MarksSymmetric(part, a, b, width, height);
    }
    forall p
      ensures p in marked <==> IsMark(input, width, height, part, p)
    {
      PairsOfLocated(input, width, height, MarksOf(part, width, height), pos, p);
    }
    forall q | q in marked
      ensures 0 <= q.0 < height && 0 <= q.1 < width
    {
      var a: Pos, b: Pos :| InGrid(a, width, height) && InGrid(b, width, height) && a != b &&
        input[a.0][a.1].Antenna? && input[a.0][a.1] == input[b.0][b.1] && q in MarksOf(part, width, height)(a, b);
      MarksInGrid(part, a, b, width, height, q);
    }
    OverlayCells(marked, width, height);
    count := CountCells(overlay, AntiNode);
    CountCellsBound(overlay, AntiNode, width);
  }

  method PartOne(input: seq<seq<InputCell>>, width: nat, height: nat) returns (count: nat, ghost marked: set<(int, int)>)
    requires IsGrid(input, width, height)
    ensures count == |marked| <= width * height
    ensures forall p :: p in marked <==> IsMark(input, width, height, One, p)
  {
    count, marked := Solve(input, width, height, One);
  }

  /** `p` is on the line through two distinct same-frequency antennas, a whole number of their spacings from the first. */
  ghost predicate InLineWithPair(input: seq<seq<InputCell>>, width: nat, height: nat, p: (int, int))
    requires IsGrid(input, width, height)
  {
    exists a: Pos, b: Pos, k: int :: InGrid(a, width, height) && InGrid(b, width, height) && a != b &&
      input[a.0][a.1].Antenna? && input[a.0][a.1] == input[b.0][b.1] && OnLine(p, a, b, k)
  }

  /** The cells part two counts are exactly the grid points in line with two same-frequency antennas. */
  lemma MarkTwoIsInLine(input: seq<seq<InputCell>>, width: nat, height: nat, p: (int, int))
    requires IsGrid(input, width, height)
    ensures IsMark(input, width, height, Two, p) <==>
      0 <= p.0 < height && 0 <= p.1 < width && InLineWithPair(input, width, height, p)
  {
    if IsMark(input, width, height, Two, p) {
      var a: Pos, b: Pos :| InGrid(a, width, height) && InGrid(b, width, height) && a != b &&
        input[a.0][a.1].Antenna? && input[a.0][a.1] == input[b.0][b.1] && p in MarksOf(Two, width, height)(a, b);
      MarksTwoAreLine(a, b, width, height, p);
    }
    if 0 <= p.0 < height && 0 <= p.1 < width && InLineWithPair(input, width, height, p) {
      var a: Pos, b: Pos, k: int :| InGrid(a, width, height) && InGrid(b, width, height) && a != b &&
        input[a.0][a.1].Antenna? && input[a.0][a.1] == input[b.0][b.1] && OnLine(p, a, b, k);
      MarksTwoComplete(a, b, width, height, p, k);
      assert p in MarksOf(Two, width, height)(a, b);
    }
  }

  method PartTwo(input: seq<seq<InputCell>>, width: nat, height: nat) returns (count: nat, ghost marked: set<(int, int)>)
    requires IsGrid(input, width, height)
    ensures count == |marked| <= width * height
    ensures forall p :: p in marked <==> IsMark(input, width, height, Two, p)
    ensures forall p :: p in marked <==> 0 <= p.0 < height && 0 <= p.1 < width && InLineWithPair(input, width, height, p)
  {
    count, marked := Solve(input, width, height, Two);
    forall p
      ensures IsMark(input, width, height, Two, p) <==>
        0 <= p.0 < height && 0 <= p.1 < width && InLineWithPair(input, width, height, p)
    {
      MarkTwoIsInLine(input, width, height, p);
    }
  }
}
