/**
 * Day ten: a topographic map of digit heights. A hiking trail starts at a
 * height-0 cell and climbs by exactly one per orthogonal step until it
 * reaches a height-9 cell. Part one counts, per trailhead, the distinct
 * height-9 cells it reaches (`find_trail_ends` collects them into a set);
 * part two counts the distinct trails themselves (`find_trails`).
 */
module Ten {
  import opened Grids

  /** A map height; the digit parser only yields 0 through 9. */
  type Digit = d: nat | d <= 9

  type Cell = (nat, nat)

  /** The order in which `Direction::iter()` visits the directions on day ten. */
  const Directions: seq<Direction> := [Up, Down, Right, Left]

  function Height(g: seq<seq<Digit>>, p: Cell): nat
    requires p.0 < |g| && p.1 < |g[p.0]|
  {
    g[p.0][p.1]
  }

  /**
   * The step a trail may take from `p` in direction `d`: the neighbour that
   * `advance` yields, when it is exactly one higher than `p`.
   */
  function Next(g: seq<seq<Digit>>, w: nat, h: nat, p: Cell, d: Direction): (r: Option<Cell>)
    requires IsGrid(g, w, h) && InBounds(p.0, p.1, w, h)
    ensures r.Some? ==> InBounds(r.value.0, r.value.1, w, h) && Adjacent(p, r.value)
    ensures r.Some? ==> Height(g, r.value) == Height(g, p) + 1
    ensures r.Some? ==> r.value == Neighbour(d, p.0, p.1)
  {
    match Advance(d, p.0, p.1, w, h)
    case None => None
    case Some(n) => if Height(g, n) == Height(g, p) + 1 then Some(n) else None
  }

  /**
   * A hiking trail, defined independently of the search: a non-empty path of
   * in-bounds cells, each orthogonally adjacent to and exactly one higher than
   * the one before, ending on a height-9 cell.
   */
  ghost predicate IsTrail(g: seq<seq<Digit>>, w: nat, h: nat, t: seq<Cell>)
    requires IsGrid(g, w, h)
  {
    |t| > 0 &&
    (forall i :: 0 <= i < |t| ==> InBounds(t[i].0, t[i].1, w, h)) &&
    (forall i :: 0 <= i < |t| - 1 ==>
      Adjacent(t[i], t[i + 1]) && Height(g, t[i + 1]) == Height(g, t[i]) + 1) &&
    Height(g, t[|t| - 1]) == 9
  }

  /** The trails from `p`, built the way the search explores them. */
  ghost function Trails(g: seq<seq<Digit>>, w: nat, h: nat, p: Cell): set<seq<Cell>>
    requires IsGrid(g, w, h) && InBounds(p.0, p.1, w, h)
    decreases 9 - Height(g, p), 2, 0
  {
    if Height(g, p) == 9 then {[p]} else ViaAll(g, w, h, p, Directions)
  }

  /** The trails from `p` that leave it through each direction of `ds`. */
  ghost function ViaAll(g: seq<seq<Digit>>, w: nat, h: nat, p: Cell, ds: seq<Direction>): set<seq<Cell>>
    requires IsGrid(g, w, h) && InBounds(p.0, p.1, w, h)
    decreases 9 - Height(g, p), 1, |ds|
  {
    if ds == [] then {} else ViaAll(g, w, h, p, ds[..|ds| - 1]) + Via(g, w, h, p, ds[|ds| - 1])
  }

  /** The trails from `p` whose first step goes in direction `d`. */
  ghost function Via(g: seq<seq<Digit>>, w: nat, h: nat, p: Cell, d: Direction): set<seq<Cell>>
    requires IsGrid(g, w, h) && InBounds(p.0, p.1, w, h)
    decreases 9 - Height(g, p), 0, 0
  {
    match Next(g, w, h, p, d)
    case None => {}
    case Some(n) => set t | t in Trails(g, w, h, n) :: [p] + t
  }

  /** The last cells of a set of paths. */
  ghost function Lasts(s: set<seq<Cell>>): set<Cell>
  {
    set t | t in s && |t| > 0 :: t[|t| - 1]
  }

  /** The height-9 cells the trails from `p` end on. */
  ghost function Ends(g: seq<seq<Digit>>, w: nat, h: nat, p: Cell): set<Cell>
    requires IsGrid(g, w, h) && InBounds(p.0, p.1, w, h)
  {
    Lasts(Trails(g, w, h, p))
  }

  lemma {:induction false} ViaAllMembers(g: seq<seq<Digit>>, w: nat, h: nat, p: Cell, ds: seq<Direction>)
    requires IsGrid(g, w, h) && InBounds(p.0, p.1, w, h)
    ensures forall t :: t in ViaAll(g, w, h, p, ds) <==> exists d :: d in ds && t in Via(g, w, h, p, d)
  {
    if ds != [] {
      var k := |ds| - 1;
      ViaAllMembers(g, w, h, p, ds[..k]);
      forall t
        ensures t in ViaAll(g, w, h, p, ds) <==> exists d :: d in ds && t in Via(g, w, h, p, d)
      {
        if t in Via(g, w, h, p, ds[k]) {
          assert ds[k] in ds;
        }
        if t in ViaAll(g, w, h, p, ds[..k]) {
          var d :| d in ds[..k] && t in Via(g, w, h, p, d);
          assert d in ds;
        }
        if d :| d in ds && t in Via(g, w, h, p, d) {
          assert d == ds[k] || d in ds[..k];
        }
      }
    }
  }

  /** The tail of a trail of two or more cells is a trail. */
  lemma TrailTail(g: seq<seq<Digit>>, w: nat, h: nat, t: seq<Cell>)
    requires IsGrid(g, w, h) && IsTrail(g, w, h, t) && |t| > 1
    ensures IsTrail(g, w, h, t[1..])
  {
    var u := t[1..];
    forall i | 0 <= i < |u| - 1
      ensures Adjacent(u[i], u[i + 1]) && Height(g, u[i + 1]) == Height(g, u[i]) + 1
    {
      assert u[i] == t[i + 1] && u[i + 1] == t[i + 2];
    }
  }

  /** A trail preceded by an adjacent cell one lower is again a trail. */
  lemma TrailCons(g: seq<seq<Digit>>, w: nat, h: nat, p: Cell, t: seq<Cell>)
    requires IsGrid(g, w, h) && InBounds(p.0, p.1, w, h) && IsTrail(g, w, h, t)
    requires Adjacent(p, t[0]) && Height(g, t[0]) == Height(g, p) + 1
    ensures IsTrail(g, w, h, [p] + t)
  {
    var u := [p] + t;
    forall i | 0 <= i < |u| - 1
      ensures Adjacent(u[i], u[i + 1]) && Height(g, u[i + 1]) == Height(g, u[i]) + 1
    {
      if i > 0 {
        assert u[i] == t[i - 1] && u[i + 1] == t[i];
      }
    }
  }

  /** Every path the search builds from `p` is a trail starting at `p`. */
  lemma {:induction false} TrailsAreTrails(g: seq<seq<Digit>>, w: nat, h: nat, p: Cell, t: seq<Cell>)
    requires IsGrid(g, w, h) && InBounds(p.0, p.1, w, h)
    requires t in Trails(g, w, h, p)
    ensures IsTrail(g, w, h, t) && t[0] == p
    decreases 9 - Height(g, p)
  {
    if Height(g, p) != 9 {
      ViaAllMembers(g, w, h, p, Directions);
      var d :| d in Directions && t in Via(g, w, h, p, d);
      var n := Next(g, w, h, p, d).value;
      var u :| u in Trails(g, w, h, n) && t == [p] + u;
      TrailsAreTrails(g, w, h, n, u);
      TrailCons(g, w, h, p, u);
    }
  }

  /** Every trail starting at `p` is found by the search from `p`. */
  lemma {:induction false} TrailsComplete(g: seq<seq<Digit>>, w: nat, h: nat, p: Cell, t: seq<Cell>)
    requires IsGrid(g, w, h) && InBounds(p.0, p.1, w, h)
    requires IsTrail(g, w, h, t) && t[0] == p
    ensures t in Trails(g, w, h, p)
    decreases 9 - Height(g, p)
  {
    if |t| == 1 {
      assert t == [p];
    } else {
      var n := t[1];
      assert Adjacent(p, n) && Height(g, n) == Height(g, p) + 1;
      var d := AdjacentHasDirection(p, n, w, h);
      assert Next(g, w, h, p, d) == Some(n);
      TrailTail(g, w, h, t);
      TrailsComplete(g, w, h, n, t[1..]);
      assert t == [p] + t[1..];
      assert t in Via(g, w, h, p, d);
      ViaAllMembers(g, w, h, p, Directions);
      assert d in Directions;
    }
  }

  /** `find_trails` counts exactly the trails from `p`: the search neither misses nor invents one. */
  lemma TrailsExact(g: seq<seq<Digit>>, w: nat, h: nat, p: Cell)
    requires IsGrid(g, w, h) && InBounds(p.0, p.1, w, h)
    ensures forall t :: t in Trails(g, w, h, p) <==> IsTrail(g, w, h, t) && t[0] == p
  {
    forall t | t in Trails(g, w, h, p)
      ensures IsTrail(g, w, h, t) && t[0] == p
    {
      TrailsAreTrails(g, w, h, p, t);
    }
    forall t | IsTrail(g, w, h, t) && t[0] == p
      ensures t in Trails(g, w, h, p)
    {
      TrailsComplete(g, w, h, p, t);
    }
  }

  /** Heights climb by one along a trail, so it has `10 - height` cells and its recursion that depth. */
  lemma {:induction false} TrailLength(g: seq<seq<Digit>>, w: nat, h: nat, t: seq<Cell>)
    requires IsGrid(g, w, h) && IsTrail(g, w, h, t)
    ensures |t| == 10 - Height(g, t[0])
    decreases |t|
  {
    if |t| > 1 {
      TrailTail(g, w, h, t);
      TrailLength(g, w, h, t[1..]);
    }
  }

  /** `p` reaches the height-9 cell `e` along some trail. */
  ghost predicate Reaches(g: seq<seq<Digit>>, w: nat, h: nat, p: Cell, e: Cell)
    requires IsGrid(g, w, h)
  {
    exists t :: IsTrail(g, w, h, t) && t[0] == p && t[|t| - 1] == e
  }

  /** The cells `find_trail_ends` adds are exactly the height-9 cells reachable from `p`. */
  lemma EndsExact(g: seq<seq<Digit>>, w: nat, h: nat, p: Cell, e: Cell)
    requires IsGrid(g, w, h) && InBounds(p.0, p.1, w, h)
    ensures e in Ends(g, w, h, p) <==> Reaches(g, w, h, p, e)
    ensures e in Ends(g, w, h, p) ==> InBounds(e.0, e.1, w, h) && Height(g, e) == 9
  {
    TrailsExact(g, w, h, p);
    if e in Ends(g, w, h, p) {
      var t :| t in Trails(g, w, h, p) && |t| > 0 && t[|t| - 1] == e;
      assert IsTrail(g, w, h, t);
    }
    if Reaches(g, w, h, p, e) {
      var t :| IsTrail(g, w, h, t) && t[0] == p && t[|t| - 1] == e;
      assert t in Trails(g, w, h, p);
    }
  }

  /** Taking last cells never yields more cells than there were paths. */
  lemma {:induction false} LastsCard(s: set<seq<Cell>>)
    ensures |Lasts(s)| <= |s|
    decreases |s|
  {
    if s != {} {
      var t :| t in s;
      var r := s - {t};
      LastsCard(r);
      if t == [] {
        assert Lasts(s) == Lasts(r);
      } else if t[|t| - 1] in Lasts(r) {
        assert Lasts(s) == Lasts(r);
      } else {
        assert Lasts(s) == Lasts(r) + {t[|t| - 1]};
      }
    } else {
      assert Lasts(s) == {};
    }
  }

  /** A trailhead's score (distinct ends) never exceeds its rating (distinct trails). */
  lemma EndsAtMostTrails(g: seq<seq<Digit>>, w: nat, h: nat, p: Cell)
    requires IsGrid(g, w, h) && InBounds(p.0, p.1, w, h)
    ensures |Ends(g, w, h, p)| <= |Trails(g, w, h, p)|
  {
    LastsCard(Trails(g, w, h, p));
  }

  /** Putting one cell in front of every path of a set keeps the paths apart. */
  lemma {:induction false} PrefixCard(p: Cell, s: set<seq<Cell>>)
    ensures |set t | t in s :: [p] + t| == |s|
    decreases |s|
  {
    if s != {} {
      var t :| t in s;
      var r := s - {t};
      PrefixCard(p, r);
      var pr := set u | u in r :: [p] + u;
      assert (set u | u in s :: [p] + u) == pr + {[p] + t};
      forall u | u in r
        ensures [p] + u != [p] + t
      {
        assert ([p] + u)[1..] == u && ([p] + t)[1..] == t;
      }
    } else {
      assert (set u | u in s :: [p] + u) == {};
    }
  }

  /** What one direction contributes to the count: the trails from its neighbour. */
  lemma ViaCard(g: seq<seq<Digit>>, w: nat, h: nat, p: Cell, d: Direction)
    requires IsGrid(g, w, h) && InBounds(p.0, p.1, w, h)
    ensures Next(g, w, h, p, d).None? ==> Via(g, w, h, p, d) == {}
    ensures Next(g, w, h, p, d).Some? ==>
      |Via(g, w, h, p, d)| == |Trails(g, w, h, Next(g, w, h, p, d).value)|
  {
    if Next(g, w, h, p, d).Some? {
      PrefixCard(p, Trails(g, w, h, Next(g, w, h, p, d).value));
    }
  }

  /** What one direction contributes to the ends: those of its neighbour. */
  lemma ViaLasts(g: seq<seq<Digit>>, w: nat, h: nat, p: Cell, d: Direction)
    requires IsGrid(g, w, h) && InBounds(p.0, p.1, w, h)
    ensures Next(g, w, h, p, d).Some? ==>
      Lasts(Via(g, w, h, p, d)) == Ends(g, w, h, Next(g, w, h, p, d).value)
  {
    if Next(g, w, h, p, d).Some? {
      var n := Next(g, w, h, p, d).value;
      forall e | e in Ends(g, w, h, n)
        ensures e in Lasts(Via(g, w, h, p, d))
      {
        var t :| t in Trails(g, w, h, n) && |t| > 0 && t[|t| - 1] == e;
        assert ([p] + t)[|[p] + t| - 1] == e;
      }
      forall e | e in Lasts(Via(g, w, h, p, d))
        ensures e in Ends(g, w, h, n)
      {
        var u :| u in Via(g, w, h, p, d) && |u| > 0 && u[|u| - 1] == e;
        var t :| t in Trails(g, w, h, n) && u == [p] + t;
        TrailsAreTrails(g, w, h, n, t);
        assert t[|t| - 1] == e;
      }
    }
  }

  /** A trail leaving `p` in direction `d` has the neighbour in `d` as its second cell. */
  lemma ViaSecond(g: seq<seq<Digit>>, w: nat, h: nat, p: Cell, d: Direction)
    requires IsGrid(g, w, h) && InBounds(p.0, p.1, w, h)
    ensures forall t :: t in Via(g, w, h, p, d) ==> |t| > 1 && t[1] == Neighbour(d, p.0, p.1)
  {
    forall t | t in Via(g, w, h, p, d)
      ensures |t| > 1 && t[1] == Neighbour(d, p.0, p.1)
    {
      var n := Next(g, w, h, p, d).value;
      var u :| u in Trails(g, w, h, n) && t == [p] + u;
      TrailsAreTrails(g, w, h, n, u);
    }
  }

  /** Trails leaving through different directions differ in their second cell. */
  lemma ViaDisjoint(g: seq<seq<Digit>>, w: nat, h: nat, p: Cell, ds: seq<Direction>, d: Direction)
    requires IsGrid(g, w, h) && InBounds(p.0, p.1, w, h)
    requires d !in ds
    ensures ViaAll(g, w, h, p, ds) !! Via(g, w, h, p, d)
  {
    ViaAllMembers(g, w, h, p, ds);
    ViaSecond(g, w, h, p, d);
    forall t | t in ViaAll(g, w, h, p, ds)
      ensures t !in Via(g, w, h, p, d)
    {
      var e :| e in ds && t in Via(g, w, h, p, e);
      ViaSecond(g, w, h, p, e);
      assert Neighbour(e, p.0, p.1) != Neighbour(d, p.0, p.1);
    }
  }

  lemma LastsUnion(a: set<seq<Cell>>, b: set<seq<Cell>>)
    ensures Lasts(a + b) == Lasts(a) + Lasts(b)
  {
  }

  /** One turn of the direction loop: what direction `i` adds to the trails and their ends. */
  lemma DirectionStep(g: seq<seq<Digit>>, w: nat, h: nat, p: Cell, i: nat)
    requires IsGrid(g, w, h) && InBounds(p.0, p.1, w, h) && i < |Directions|
    ensures var d := Directions[i];
      ViaAll(g, w, h, p, Directions[..i + 1]) == ViaAll(g, w, h, p, Directions[..i]) + Via(g, w, h, p, d)
    ensures var d := Directions[i];
      |ViaAll(g, w, h, p, Directions[..i + 1])| == |ViaAll(g, w, h, p, Directions[..i])| + |Via(g, w, h, p, d)|
    ensures var d := Directions[i];
      Lasts(ViaAll(g, w, h, p, Directions[..i + 1])) == Lasts(ViaAll(g, w, h, p, Directions[..i])) + Lasts(Via(g, w, h, p, d))
  {
    var d := Directions[i];
    assert (Directions[..i + 1])[..i] == Directions[..i];
    assert d !in Directions[..i];
    var a, b := ViaAll(g, w, h, p, Directions[..i]), Via(g, w, h, p, d);
    assert ViaAll(g, w, h, p, Directions[..i + 1]) == a + b;
    ViaDisjoint(g, w, h, p, Directions[..i], d);
    DisjointCard(a, b);
    LastsUnion(a, b);
  }

  lemma DisjointCard<T>(a: set<T>, b: set<T>)
    requires a !! b
    ensures |a + b| == |a| + |b|
  {
    assert a * b == {};
  }

  /** After the loop the four directions have contributed every trail. */
  lemma DirectionsDone(g: seq<seq<Digit>>, w: nat, h: nat, p: Cell)
    requires IsGrid(g, w, h) && InBounds(p.0, p.1, w, h) && Height(g, p) != 9
    ensures Trails(g, w, h, p) == ViaAll(g, w, h, p, Directions[..|Directions|])
  {
    assert Directions[..|Directions|] == Directions;
  }

  /**
   * `find_trails`: 1 on a height-9 cell, otherwise the sum over the
   * directions whose neighbour is one higher. It is the number of distinct
   * trails from `p`.
   */
  method FindTrails(g: seq<seq<Digit>>, w: nat, h: nat, p: Cell) returns (total: nat)
    requires IsGrid(g, w, h) && InBounds(p.0, p.1, w, h)
    ensures total == |Trails(g, w, h, p)|
    decreases 9 - Height(g, p)
  {
    if Height(g, p) == 9 {
      return 1;
    }
    total := 0;
    for i := 0 to |Directions|
      invariant total == |ViaAll(g, w, h, p, Directions[..i])|
    {
      DirectionStep(g, w, h, p, i);
      ViaCard(g, w, h, p, Directions[i]);
      var next := Next(g, w, h, p, Directions[i]);
      if next.Some? {
        var k := FindTrails(g, w, h, next.value);
        total := total + k;
      }
    }
    DirectionsDone(g, w, h, p);
  }

  /**
   * `find_trail_ends`: inserts into `ends` every height-9 cell reached from
   * `p` and removes nothing. The set is passed in and handed back.
   */
  method FindTrailEnds(g: seq<seq<Digit>>, w: nat, h: nat, ends: set<Cell>, p: Cell) returns (ends': set<Cell>)
    requires IsGrid(g, w, h) && InBounds(p.0, p.1, w, h)
    ensures ends' == ends + Ends(g, w, h, p)
    decreases 9 - Height(g, p)
  {
    if Height(g, p) == 9 {
      assert Lasts({[p]}) == {p};
      return ends + {p};
    }
    ends' := ends;
    for i := 0 to |Directions|
      invariant ends' == ends + Lasts(ViaAll(g, w, h, p, Directions[..i]))
    {
      DirectionStep(g, w, h, p, i);
      ViaCard(g, w, h, p, Directions[i]);
      ViaLasts(g, w, h, p, Directions[i]);
      var next := Next(g, w, h, p, Directions[i]);
      if next.Some? {
        ends' := FindTrailEnds(g, w, h, ends', next.value);
      }
    }
    DirectionsDone(g, w, h, p);
  }

  /** Part one's total over the cells `ps`: the number of ends of each trailhead among them. */
  ghost function ScoreSum(g: seq<seq<Digit>>, w: nat, h: nat, ps: seq<Cell>): nat
    requires IsGrid(g, w, h)
  {
    if ps == [] then 0
    else
      var p := ps[|ps| - 1];
      ScoreSum(g, w, h, ps[..|ps| - 1]) + (if InBounds(p.0, p.1, w, h) && Height(g, p) == 0 then |Ends(g, w, h, p)| else 0)
  }

  /** Part two's total over the cells `ps`: the number of trails of each trailhead among them. */
  ghost function RatingSum(g: seq<seq<Digit>>, w: nat, h: nat, ps: seq<Cell>): nat
    requires IsGrid(g, w, h)
  {
    if ps == [] then 0
    else
      var p := ps[|ps| - 1];
      RatingSum(g, w, h, ps[..|ps| - 1]) + (if InBounds(p.0, p.1, w, h) && Height(g, p) == 0 then |Trails(g, w, h, p)| else 0)
  }

  /** Part one never exceeds part two, trailhead by trailhead. */
  lemma {:induction false} ScoreAtMostRating(g: seq<seq<Digit>>, w: nat, h: nat, ps: seq<Cell>)
    requires IsGrid(g, w, h)
    ensures ScoreSum(g, w, h, ps) <= RatingSum(g, w, h, ps)
  {
    if ps != [] {
      var k := |ps| - 1;
      ScoreAtMostRating(g, w, h, ps[..k]);
      if InBounds(ps[k].0, ps[k].1, w, h) {
        EndsAtMostTrails(g, w, h, ps[k]);
      }
    }
  }

  /** Cells that are not trailheads add nothing to either total. */
  lemma {:induction false} OnlyTrailheadsCount(g: seq<seq<Digit>>, w: nat, h: nat, ps: seq<Cell>)
    requires IsGrid(g, w, h)
    requires forall i :: 0 <= i < |ps| ==> !InBounds(ps[i].0, ps[i].1, w, h) || Height(g, ps[i]) != 0
    ensures ScoreSum(g, w, h, ps) == 0 && RatingSum(g, w, h, ps) == 0
  {
    if ps != [] {
      OnlyTrailheadsCount(g, w, h, ps[..|ps| - 1]);
    }
  }

  /** Visiting (y, x) adds that cell's score and rating to the totals. */
  lemma CellStep(g: seq<seq<Digit>>, w: nat, h: nat, y: nat, x: nat)
    requires IsGrid(g, w, h) && y < h && x < w
    ensures ScoreSum(g, w, h, Prefix(w, y, x + 1))
      == ScoreSum(g, w, h, Prefix(w, y, x)) + (if g[y][x] == 0 then |Ends(g, w, h, (y, x))| else 0)
    ensures RatingSum(g, w, h, Prefix(w, y, x + 1))
      == RatingSum(g, w, h, Prefix(w, y, x)) + (if g[y][x] == 0 then |Trails(g, w, h, (y, x))| else 0)
  {
    var q := Prefix(w, y, x + 1);
    assert q[..|q| - 1] == Prefix(w, y, x);
    assert q[|q| - 1] == (y, x);
  }

  /** `part_one`: the sum, over the height-0 cells, of the distinct ends each reaches. */
  method PartOne(g: seq<seq<Digit>>, w: nat, h: nat) returns (total: nat)
    requires IsGrid(g, w, h)
    ensures total == ScoreSum(g, w, h, Positions(w, h))
  {
    total := 0;
    for y := 0 to h
      invariant total == ScoreSum(g, w, h, Positions(w, y))
    {
      RowBounds(w, h, y);
      for x := 0 to w
        invariant total == ScoreSum(g, w, h, Prefix(w, y, x))
      {
        CellStep(g, w, h, y, x);
        if g[y][x] == 0 {
          var ends := FindTrailEnds(g, w, h, {}, (y, x));
          total := total + |ends|;
        }
      }
    }
  }

  /** `part_two`: the sum, over the height-0 cells, of the distinct trails from each. */
  method PartTwo(g: seq<seq<Digit>>, w: nat, h: nat) returns (total: nat)
    requires IsGrid(g, w, h)
    ensures total == RatingSum(g, w, h, Positions(w, h))
  {
    total := 0;
    for y := 0 to h
      invariant total == RatingSum(g, w, h, Positions(w, y))
    {
      RowBounds(w, h, y);
      for x := 0 to w
        invariant total == RatingSum(g, w, h, Prefix(w, y, x))
      {
        CellStep(g, w, h, y, x);
        if g[y][x] == 0 {
          var n := FindTrails(g, w, h, (y, x));
          total := total + n;
        }
      }
    }
  }
}
