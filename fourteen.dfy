/**
 * Day fourteen: robots moving on a `width` x `height` torus. The robots are
 * kept in a map from position to the list of velocities of the robots
 * standing there (a `BTreeMap<Point, Vec<Point>>` in the source; its key
 * order only decides the order of the velocity lists, which no result
 * depends on).
 */
module Fourteen {
  import Arith
  import opened Grids

  datatype Point = Point(x: int, y: int)

  datatype Robot = Robot(p: Point, v: Point)

  type Robots = map<Point, seq<Point>>

  /** Rust's `%` on `i64`: the remainder takes the sign of the dividend. */
  function TruncRem(v: int, m: int): (r: int)
    requires m > 0
    ensures v >= 0 ==> 0 <= r < m
    ensures v < 0 ==> -m < r <= 0
    ensures (v - r) % m == 0
  {
    if v >= 0 then
      Arith.ExactQuotient(v / m, m);
      v % m
    else
      var u := -v;
      Arith.ExactQuotient(-(u / m), m);
      assert v + u % m == -(u / m) * m;
      -(u % m)
  }

  /**
   * `modulo`: the remainder of `v` by `m`, moved into `[0, m)` when `v` is
   * negative. It is the Euclidean remainder: in range and congruent to `v`.
   */
  function Modulo(v: int, m: int): (r: int)
    requires m > 0
    ensures r == v % m
  {
    var t := TruncRem(v, m);
    var r := if v < 0 && t < 0 then t + m else t;
    var q := (v - t) / m;
    assert v - t == q * m;
    var q' := if v < 0 && t < 0 then q - 1 else q;
    assert v == q' * m + r;
    Arith.DivModUnique(v, m, q', r);
    r
  }

  /** The cases of the source's unit test. */
  lemma ModuloExamples()
    ensures Modulo(14, 10) == 4 && Modulo(-3, 10) == 7 && Modulo(-13, 10) == 7 && Modulo(-7, 7) == 0
  {
  }

  /** One second of motion for one robot. */
  function Move(r: Robot, width: int, height: int): (r': Robot)
    requires width > 0 && height > 0
    ensures 0 <= r'.p.x < width && 0 <= r'.p.y < height && r'.v == r.v
  {
    Robot(Point(Modulo(r.p.x + r.v.x, width), Modulo(r.p.y + r.v.y, height)), r.v)
  }

  function MoveAll(rs: seq<Robot>, width: int, height: int): (out: seq<Robot>)
    requires width > 0 && height > 0
    ensures |out| == |rs| && forall i :: 0 <= i < |rs| ==> out[i] == Move(rs[i], width, height)
  {
    if rs == [] then [] else MoveAll(rs[..|rs| - 1], width, height) + [Move(rs[|rs| - 1], width, height)]
  }

  /** Where a robot stands after `t` seconds: its start plus `t` velocities, wrapped around. */
  function After(r: Robot, t: nat, width: int, height: int): Robot
    requires width > 0 && height > 0
  {
    if t == 0 then r
    else Robot(Point((r.p.x + t * r.v.x) % width, (r.p.y + t * r.v.y) % height), r.v)
  }

  function AfterAll(rs: seq<Robot>, t: nat, width: int, height: int): (out: seq<Robot>)
    requires width > 0 && height > 0
    ensures |out| == |rs| && forall i :: 0 <= i < |rs| ==> out[i] == After(rs[i], t, width, height)
  {
    if rs == [] then [] else AfterAll(rs[..|rs| - 1], t, width, height) + [After(rs[|rs| - 1], t, width, height)]
  }

  /** Moving a robot one more second is the closed form for one second later. */
  lemma MoveAfter(r: Robot, t: nat, width: int, height: int)
    requires width > 0 && height > 0
    ensures Move(After(r, t, width, height), width, height) == After(r, t + 1, width, height)
  {
    if t > 0 {
      Arith.ModAdd(r.p.x + t * r.v.x, r.v.x, width);
      Arith.ModAdd(r.p.y + t * r.v.y, r.v.y, height);
      assert r.p.x + t * r.v.x + r.v.x == r.p.x + (t + 1) * r.v.x;
      assert r.p.y + t * r.v.y + r.v.y == r.p.y + (t + 1) * r.v.y;
    }
  }

  lemma MoveAllAfter(rs: seq<Robot>, t: nat, width: int, height: int)
    requires width > 0 && height > 0
    ensures MoveAll(AfterAll(rs, t, width, height), width, height) == AfterAll(rs, t + 1, width, height)
  {
    forall i | 0 <= i < |rs|
      ensures MoveAll(AfterAll(rs, t, width, height), width, height)[i] == AfterAll(rs, t + 1, width, height)[i]
    {
      MoveAfter(rs[i], t, width, height);
    }
  }

  /** The robots standing at `k` with the velocities `vs`. */
  function Group(k: Point, vs: seq<Point>): (g: seq<Robot>)
    ensures |g| == |vs| && forall i :: 0 <= i < |vs| ==> g[i] == Robot(k, vs[i])
  {
    if vs == [] then [] else Group(k, vs[..|vs| - 1]) + [Robot(k, vs[|vs| - 1])]
  }

  /** How many robots of the map stand at `r.p` with velocity `r.v`. */
  function Mult(m: Robots, r: Robot): nat
  {
    if r.p in m then multiset(m[r.p])[r.v] else 0
  }

  /** The robots of the map whose position is in `keys` are exactly those of `ms`. */
  ghost predicate HoldsOn(m: Robots, keys: set<Point>, ms: multiset<Robot>)
  {
    forall r: Robot :: (if r.p in keys then Mult(m, r) else 0) == ms[r]
  }

  /** The map holds exactly the robots of `ms`. */
  ghost predicate Holds(m: Robots, ms: multiset<Robot>)
  {
    forall r: Robot :: Mult(m, r) == ms[r]
  }

  /** The number of robots standing at `k`. */
  function Size(m: Robots, k: Point): nat
  {
    if k in m then |m[k]| else 0
  }

  /** The number of robots standing at the positions in `keys`. */
  ghost function Total(m: Robots, keys: set<Point>): nat
  {
    if keys == {} then 0
    else
      var k :| k in keys;
      Size(m, k) + Total(m, keys - {k})
  }

  /** Whichever position `Total` picks first, the sum is the same. */
  lemma {:induction false} TotalRemove(m: Robots, keys: set<Point>, k: Point)
    requires k in keys
    ensures Total(m, keys) == Size(m, k) + Total(m, keys - {k})
    decreases |keys|
  {
    var j :| j in keys && Total(m, keys) == Size(m, j) + Total(m, keys - {j});
    if j != k {
      TotalRemove(m, keys - {j}, k);
      TotalRemove(m, keys - {k}, j);
      assert keys - {j} - {k} == keys - {k} - {j};
    }
  }

  lemma TotalAdd(m: Robots, keys: set<Point>, k: Point)
    requires k !in keys
    ensures Total(m, keys + {k}) == Size(m, k) + Total(m, keys)
  {
    TotalRemove(m, keys + {k}, k);
    assert keys + {k} - {k} == keys;
  }

  /** Two maps with the same number of robots at every position of `keys` have the same total there. */
  lemma {:induction false} TotalAgree(m1: Robots, m2: Robots, keys: set<Point>)
    requires forall k :: k in keys ==> Size(m1, k) == Size(m2, k)
    ensures Total(m1, keys) == Total(m2, keys)
    decreases |keys|
  {
    if keys != {} {
      var k :| k in keys;
      TotalRemove(m1, keys, k);
      TotalRemove(m2, keys, k);
      TotalAgree(m1, m2, keys - {k});
    }
  }

  /** `out.entry(k).or_default().push(v)`. */
  function Push(out: Robots, k: Point, v: Point): (out': Robots)
    ensures out'.Keys == out.Keys + {k}
    ensures forall r :: Mult(out', r) == Mult(out, r) + (if r == Robot(k, v) then 1 else 0)
  {
    var vs := if k in out then out[k] else [];
    assert multiset(vs + [v]) == multiset(vs) + multiset{v};
    out[k := vs + [v]]
  }

  /** A push adds one robot to the total. */
  lemma PushTotal(out: Robots, k: Point, v: Point)
    ensures Total(Push(out, k, v), out.Keys + {k}) == Total(out, out.Keys) + 1
  {
    var out' := Push(out, k, v);
    TotalRemove(out', out.Keys + {k}, k);
    assert out.Keys + {k} - {k} == out.Keys - {k};
    TotalAgree(out', out, out.Keys - {k});
    if k in out {
      TotalRemove(out, out.Keys, k);
    } else {
      assert out.Keys - {k} == out.Keys;
    }
  }

  lemma {:induction false} GroupMult(k: Point, vs: seq<Point>, r: Robot)
    ensures multiset(Group(k, vs))[r] == if r.p == k then multiset(vs)[r.v] else 0
  {
    if vs != [] {
      var init := vs[..|vs| - 1];
      GroupMult(k, init, r);
      assert vs == init + [vs[|vs| - 1]];
    }
  }

  /** After pushing the robots at `p`, the robots at `done + {p}` are accounted for. */
  lemma HoldsOnAdd(m: Robots, done: set<Point>, p: Point, ms: multiset<Robot>)
    requires p in m && p !in done && HoldsOn(m, done, ms)
    ensures HoldsOn(m, done + {p}, ms + multiset(Group(p, m[p])))
  {
    forall r: Robot
      ensures (if r.p in done + {p} then Mult(m, r) else 0) == (ms + multiset(Group(p, m[p])))[r]
    {
      GroupMult(p, m[p], r);
    }
  }

  lemma MoveAllSnoc(rs: seq<Robot>, x: Robot, width: int, height: int)
    requires width > 0 && height > 0
    ensures multiset(MoveAll(rs + [x], width, height)) == multiset(MoveAll(rs, width, height)) + multiset{Move(x, width, height)}
  {
    assert MoveAll(rs + [x], width, height) == MoveAll(rs, width, height) + [Move(x, width, height)];
  }

  /**
   * `simulate_second`: every robot moves by its velocity, wrapping around the
   * edges, into a new map. The new map holds the old robots each moved once:
   * the ghost `order` lists the old robots in the order they were processed.
   * No robot is lost or added, and every new position is on the floor.
   */
  method SimulateSecond(robots: Robots, width: int, height: int) returns (out: Robots, ghost order: seq<Robot>)
    requires width > 0 && height > 0
    ensures Holds(robots, multiset(order))
    ensures Holds(out, multiset(MoveAll(order, width, height)))
    ensures Total(out, out.Keys) == |order| == Total(robots, robots.Keys)
    ensures forall k :: k in out ==> 0 <= k.x < width && 0 <= k.y < height
  {
    out := map[];
    order := [];
    var done: set<Point> := {};
    while done != robots.Keys
      invariant done <= robots.Keys
      invariant HoldsOn(robots, done, multiset(order))
      invariant Holds(out, multiset(MoveAll(order, width, height)))
      invariant Total(robots, done) == |order| && Total(out, out.Keys) == |order|
      invariant forall k :: k in out ==> 0 <= k.x < width && 0 <= k.y < height
      decreases robots.Keys - done
    {
      NotAllDone(robots.Keys, done);
      var p :| p in robots.Keys && p !in done;
      var vs := robots[p];
      ghost var before := order;
      out, order := MoveGroup(out, p, vs, width, height, order);
      HoldsOnAdd(robots, done, p, multiset(before));
      TotalAdd(robots, done, p);
      done := done + {p};
    }
  }

  lemma HoldsPush(out: Robots, ms: multiset<Robot>, k: Point, v: Point)
    requires Holds(out, ms)
    ensures Holds(Push(out, k, v), ms + multiset{Robot(k, v)})
  {
  }

  lemma GroupSnoc(p: Point, vs: seq<Point>, i: nat)
    requires i < |vs|
    ensures Group(p, vs[..i + 1]) == Group(p, vs[..i]) + [Robot(p, vs[i])]
  {
    assert vs[..i + 1][..i] == vs[..i];
  }

  /** What holds of the new map while robots are being moved into it. */
  ghost predicate Moved(out: Robots, order: seq<Robot>, width: int, height: int)
    requires width > 0 && height > 0
  {
    Holds(out, multiset(MoveAll(order, width, height))) && Total(out, out.Keys) == |order| &&
    forall k :: k in out ==> 0 <= k.x < width && 0 <= k.y < height
  }

  /** Moving the `i`-th robot standing at `p` into the new map keeps `Moved`. */
  lemma MovedStep(out: Robots, order: seq<Robot>, base: seq<Robot>, p: Point, vs: seq<Point>, i: nat,
                  width: int, height: int, out': Robots, order': seq<Robot>)
    requires width > 0 && height > 0 && i < |vs|
    requires order == base + Group(p, vs[..i]) && Moved(out, order, width, height)
    requires out' == Push(out, Point(Modulo(p.x + vs[i].x, width), Modulo(p.y + vs[i].y, height)), vs[i])
    requires order' == order + [Robot(p, vs[i])]
    ensures order' == base + Group(p, vs[..i + 1]) && Moved(out', order', width, height)
  {
    var r := Robot(p, vs[i]);
    var np := Move(r, width, height).p;
    PushTotal(out, np, r.v);
    MoveAllSnoc(order, r, width, height);
    HoldsPush(out, multiset(MoveAll(order, width, height)), np, r.v);
    GroupSnoc(p, vs, i);
    AppendAssoc(base, Group(p, vs[..i]), [r]);
  }

  lemma AppendAssoc(a: seq<Robot>, b: seq<Robot>, c: seq<Robot>)
    ensures (a + b) + c == a + (b + c)
  {
  }

  /** The inner loop of `simulate_second`: move the robots standing at `p` into `out`. */
  method MoveGroup(out: Robots, p: Point, vs: seq<Point>, width: int, height: int, ghost order: seq<Robot>)
    returns (out': Robots, ghost order': seq<Robot>)
    requires width > 0 && height > 0 && Moved(out, order, width, height)
    ensures order' == order + Group(p, vs) && Moved(out', order', width, height)
  {
    out', order' := out, order;
    for i := 0 to |vs|
      invariant order' == order + Group(p, vs[..i]) && Moved(out', order', width, height)
    {
      var np := Point(Modulo(p.x + vs[i].x, width), Modulo(p.y + vs[i].y, height));
      ghost var out0, order0 := out', order';
      out' := Push(out', np, vs[i]);
      order' := order' + [Robot(p, vs[i])];
      MovedStep(out0, order0, order, p, vs, i, width, height, out', order');
    }
    assert vs[..|vs|] == vs;
  }

  /** A section `[s.x, e.x) x [s.y, e.y)` of the floor. */
  predicate InSection(k: Point, s: Point, e: Point)
  {
    k.x >= s.x && k.y >= s.y && k.x < e.x && k.y < e.y
  }

  /** The number of robots standing in a section. */
  ghost function SectionCount(m: Robots, s: Point, e: Point): nat
  {
    Total(m, set k | k in m.Keys && InSection(k, s, e))
  }

  /** `count_section`: add up the robots at every position inside the section. */
  method CountSection(robots: Robots, s: Point, e: Point) returns (total: nat)
    ensures total == SectionCount(robots, s, e)
  {
    total := 0;
    var done: set<Point> := {};
    var inside: set<Point> := {};
    while done != robots.Keys
      invariant done <= robots.Keys
      invariant inside == set k | k in done && InSection(k, s, e)
      invariant total == Total(robots, inside)
      decreases robots.Keys - done
    {
      NotAllDone(robots.Keys, done);
      var k :| k in robots.Keys && k !in done;
      if InSection(k, s, e) {
        TotalAdd(robots, inside, k);
        total := total + |robots[k]|;
        inside := inside + {k};
      }
      done := done + {k};
    }
  }

  /** The robots of a list, gathered into a map the way `part_one` does. */
  method Gather(input: seq<Robot>) returns (robots: Robots)
    ensures Holds(robots, multiset(input))
    ensures Total(robots, robots.Keys) == |input|
  {
    robots := map[];
    for i := 0 to |input|
      invariant Holds(robots, multiset(input[..i]))
      invariant Total(robots, robots.Keys) == i
    {
      PushTotal(robots, input[i].p, input[i].v);
      robots := Push(robots, input[i].p, input[i].v);
      assert input[..i + 1] == input[..i] + [input[i]];
    }
    assert input[..|input|] == input;
  }

  lemma MoveAllConcat(a: seq<Robot>, b: seq<Robot>, width: int, height: int)
    requires width > 0 && height > 0
    ensures MoveAll(a + b, width, height) == MoveAll(a, width, height) + MoveAll(b, width, height)
  {
    var l, r := MoveAll(a + b, width, height), MoveAll(a, width, height) + MoveAll(b, width, height);
    assert |l| == |r|;
    forall i | 0 <= i < |l|
      ensures l[i] == r[i]
    {
      if i < |a| {
        assert (a + b)[i] == a[i];
      } else {
        assert (a + b)[i] == b[i - |a|];
      }
    }
  }

  /** Moving every robot does not depend on the order the robots are listed in. */
  lemma {:induction false} MoveAllPermutation(s: seq<Robot>, t: seq<Robot>, width: int, height: int)
    requires width > 0 && height > 0 && multiset(s) == multiset(t)
    ensures multiset(MoveAll(s, width, height)) == multiset(MoveAll(t, width, height))
    decreases |s|
  {
    if s == [] {
      assert |t| == |multiset(t)| == 0;
    } else {
      var x := s[|s| - 1];
      var s0 := s[..|s| - 1];
      assert s == s0 + [x];
      assert multiset(s) == multiset(s0) + multiset{x};
      assert x in multiset(t);
      var i :| 0 <= i < |t| && t[i] == x;
      var a, b := t[..i], t[i + 1..];
      assert t == a + [x] + b;
      MoveAllSplit(a, x, b, width, height);
      MultisetCancel(multiset(s0), multiset(a + b), x);
      MoveAllPermutation(s0, a + b, width, height);
      MoveAllSnoc(s0, x, width, height);
      assert multiset(MoveAll(s, width, height)) ==
        multiset(MoveAll(s0, width, height)) + multiset{Move(x, width, height)};
    }
  }

  /** Taking one robot out of the middle of a list, before or after moving them all. */
  lemma MoveAllSplit(a: seq<Robot>, x: Robot, b: seq<Robot>, width: int, height: int)
    requires width > 0 && height > 0
    ensures multiset(a + [x] + b) == multiset(a + b) + multiset{x}
    ensures multiset(MoveAll(a + [x] + b, width, height)) ==
      multiset(MoveAll(a + b, width, height)) + multiset{Move(x, width, height)}
  {
    MoveAllConcat(a + [x], b, width, height);
    MoveAllConcat(a, [x], width, height);
    MoveAllConcat(a, b, width, height);
    var ma, mb := MoveAll(a, width, height), MoveAll(b, width, height);
    var mx := Move(x, width, height);
    MultisetMiddle(a, x, b);
    MultisetMiddle(ma, mx, mb);
  }

  lemma MultisetMiddle<T>(a: seq<T>, x: T, b: seq<T>)
    ensures multiset(a + [x] + b) == multiset(a + b) + multiset{x}
  {
    assert multiset(a + [x] + b) == multiset(a + [x]) + multiset(b);
  }

  lemma MultisetCancel(a: multiset<Robot>, b: multiset<Robot>, x: Robot)
    requires a + multiset{x} == b + multiset{x}
    ensures a == b
  {
    forall y
      ensures a[y] == b[y]
    {
      assert (a + multiset{x})[y] == (b + multiset{x})[y];
    }
  }

  /** A map holds one multiset of robots only. */
  lemma HoldsUnique(m: Robots, ms1: multiset<Robot>, ms2: multiset<Robot>)
    requires Holds(m, ms1) && Holds(m, ms2)
    ensures ms1 == ms2
  {
    forall r: Robot
      ensures ms1[r] == ms2[r]
    {
      assert Mult(m, r) == ms1[r];
    }
  }

  /** The quadrants of `part_one`: the middle column and the middle row belong to none. */
  function Quadrants(width: int, height: int): (q: seq<(Point, Point)>)
    ensures |q| == 4
    ensures forall i, y :: 0 <= i < 4 ==> !InSection(Point(width / 2, y), q[i].0, q[i].1)
    ensures forall i, x :: 0 <= i < 4 ==> !InSection(Point(x, height / 2), q[i].0, q[i].1)
  {
    var mx, my := width / 2, height / 2;
    [(Point(0, 0), Point(mx, my)), (Point(mx + 1, 0), Point(width, my)),
     (Point(0, my + 1), Point(mx, height)), (Point(mx + 1, my + 1), Point(width, height))]
  }

  const Width: int := 101
  const Height: int := 103

  /**
   * `part_one`: gather the robots, simulate 100 seconds, and multiply the
   * robot counts of the four quadrants. The map after 100 seconds holds
   * every robot at its start plus 100 velocities, wrapped around.
   */
  method PartOne(input: seq<Robot>) returns (total: nat, ghost final: Robots)
    ensures Holds(final, multiset(AfterAll(input, 100, Width, Height)))
    ensures Total(final, final.Keys) == |input|
    ensures var q := Quadrants(Width, Height);
      total == SectionCount(final, q[0].0, q[0].1) * SectionCount(final, q[1].0, q[1].1) *
               SectionCount(final, q[2].0, q[2].1) * SectionCount(final, q[3].0, q[3].1)
  {
    var robots := Gather(input);
    assert AfterAll(input, 0, Width, Height) == input;
    for t := 0 to 100
      invariant Holds(robots, multiset(AfterAll(input, t, Width, Height)))
      invariant Total(robots, robots.Keys) == |input|
    {
      ghost var was := robots;
      ghost var order;
      robots, order := SimulateSecond(robots, Width, Height);
      HoldsUnique(was, multiset(order), multiset(AfterAll(input, t, Width, Height)));
      MoveAllPermutation(order, AfterAll(input, t, Width, Height), Width, Height);
      MoveAllAfter(input, t, Width, Height);
    }
    final := robots;
    var q := Quadrants(Width, Height);
    var c0 := CountSection(robots, q[0].0, q[0].1);
    var c1 := CountSection(robots, q[1].0, q[1].1);
    var c2 := CountSection(robots, q[2].0, q[2].1);
    var c3 := CountSection(robots, q[3].0, q[3].1);
    Arith.MulNonNegative(c0, c1);
    Arith.MulNonNegative(c0 * c1, c2);
    Arith.MulNonNegative(c0 * c1 * c2, c3);
    total := c0 * c1 * c2 * c3;
  }

  /** Two positions that touch corner to corner. */
  predicate Diagonal(p1: Point, p2: Point)
  {
    (p1.x + 1 == p2.x || p1.x - 1 == p2.x) && (p1.y + 1 == p2.y || p1.y - 1 == p2.y)
  }

  /** The ordered pairs of occupied positions that touch corner to corner. */
  function DiagPairs(keys: set<Point>): set<(Point, Point)>
  {
    set p1, p2 | p1 in keys && p2 in keys && Diagonal(p1, p2) :: (p1, p2)
  }

  /** The pairs with first component in `a` and second in `b`. */
  function DiagBetween(a: set<Point>, b: set<Point>): set<(Point, Point)>
  {
    set p1, p2 | p1 in a && p2 in b && Diagonal(p1, p2) :: (p1, p2)
  }

  lemma DiagBetweenAdd(a: set<Point>, b: set<Point>, k: Point)
    requires k !in b
    ensures DiagBetween(a, b + {k}) == DiagBetween(a, b) + DiagBetween(a, {k})
    ensures DiagBetween(a, b) !! DiagBetween(a, {k})
    ensures |DiagBetween(a, b + {k})| == |DiagBetween(a, b)| + |DiagBetween(a, {k})|
  {
    assert DiagBetween(a, b + {k}) == DiagBetween(a, b) + DiagBetween(a, {k});
  }

  lemma DiagBetweenAddFirst(a: set<Point>, b: set<Point>, k: Point)
    requires k !in a
    ensures |DiagBetween(a + {k}, b)| == |DiagBetween(a, b)| + |DiagBetween({k}, b)|
  {
    assert DiagBetween(a + {k}, b) == DiagBetween(a, b) + DiagBetween({k}, b);
    assert DiagBetween(a, b) !! DiagBetween({k}, b);
  }

  /** The count of pairs between one fixed point and the points in `b`. */
  lemma DiagSingle(k: Point, b: set<Point>, j: Point)
    requires j !in b
    ensures |DiagBetween({k}, b + {j})| == |DiagBetween({k}, b)| + (if Diagonal(k, j) then 1 else 0)
  {
    DiagBetweenAdd({k}, b, j);
    if Diagonal(k, j) {
      assert DiagBetween({k}, {j}) == {(k, j)};
    } else {
      assert DiagBetween({k}, {j}) == {};
    }
  }

  /** `diag_factor`: the number of ordered pairs of occupied positions touching corner to corner. */
  method DiagFactor(robots: Robots) returns (total: nat)
    ensures total == |DiagPairs(robots.Keys)|
    ensures total % 2 == 0
  {
    var keys := robots.Keys;
    total := 0;
    var outer: set<Point> := {};
    assert DiagBetween({}, keys) == {};
    while outer != keys
      invariant outer <= keys
      invariant total == |DiagBetween(outer, keys)|
      decreases keys - outer
    {
      NotAllDone(keys, outer);
      var p1 :| p1 in keys && p1 !in outer;
      var inner: set<Point> := {};
      ghost var base := total;
      assert DiagBetween({p1}, {}) == {};
      while inner != keys
        invariant inner <= keys
        invariant total == base + |DiagBetween({p1}, inner)|
        decreases keys - inner
      {
        NotAllDone(keys, inner);
        var p2 :| p2 in keys && p2 !in inner;
        DiagSingle(p1, inner, p2);
        if (p1.x + 1 == p2.x || p1.x - 1 == p2.x) && (p1.y + 1 == p2.y || p1.y - 1 == p2.y) {
          total := total + 1;
        }
        inner := inner + {p2};
      }
      DiagBetweenAddFirst(outer, keys, p1);
      outer := outer + {p1};
    }
    assert DiagBetween(keys, keys) == DiagPairs(keys);
    DiagPairsSymmetric(keys);
    DiagPairsEven(DiagPairs(keys));
  }

  /** A set of pairs closed under swapping, with no pair of a point with itself. */
  predicate Symmetric(s: set<(Point, Point)>)
  {
    forall pr :: pr in s ==> pr.0 != pr.1 && (pr.1, pr.0) in s
  }

  /** Diagonal neighbours come in swapped pairs, so there is an even number of them. */
  lemma {:induction false} DiagPairsEven(s: set<(Point, Point)>)
    requires Symmetric(s)
    ensures |s| % 2 == 0
    decreases |s|
  {
    if s != {} {
      var pr :| pr in s;
      var sw := (pr.1, pr.0);
      var s' := s - {pr, sw};
      assert |s'| == |s| - 2;
      assert Symmetric(s') by {
        forall q | q in s'
          ensures q.0 != q.1 && (q.1, q.0) in s'
        {
          assert (q.1, q.0) in s;
        }
      }
      DiagPairsEven(s');
    }
  }

  lemma DiagPairsSymmetric(keys: set<Point>)
    ensures Symmetric(DiagPairs(keys))
  {
  }

  /** One trial of `part_two`'s search: simulate a second and test for a picture. */
  method PartTwoTrial(robots: Robots) returns (next: Robots, found: bool, ghost order: seq<Robot>)
    ensures Holds(robots, multiset(order))
    ensures Holds(next, multiset(MoveAll(order, Width, Height)))
    ensures found <==> |DiagPairs(next.Keys)| > 250
  {
    next, order := SimulateSecond(robots, Width, Height);
    var d := DiagFactor(next);
    found := d > 250;
  }
}
