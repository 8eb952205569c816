/**
 * Day thirteen: claw machines. Button A moves the claw by `a`, button B by
 * `b`; a press of A costs 3 tokens and a press of B costs 1. The number of
 * presses that reach the prize is found by Cramer's rule on the 2x2 system
 *   pa * a.x + pb * b.x == prize.x
 *   pa * a.y + pb * b.y == prize.y
 * and the machine is skipped when the solution is not integral.
 */
module Thirteen {
  import opened Grids
  import Arith

  datatype Delta = Delta(x: int, y: int)

  datatype Machine = Machine(a: Delta, b: Delta, prize: Delta)

  /** The determinant of the system, `a.x * b.y - a.y * b.x`. */
  function Det(m: Machine): int
  {
    m.a.x * m.b.y - m.a.y * m.b.x
  }

  /** Cramer's numerator for the presses of A, `prize.x * b.y - prize.y * b.x`. */
  function NumeratorA(m: Machine): int
  {
    m.prize.x * m.b.y - m.prize.y * m.b.x
  }

  /** `pa` presses of A and `pb` presses of B land the claw on the prize. */
  predicate Solves(m: Machine, pa: int, pb: int)
  {
    pa * m.a.x + pb * m.b.x == m.prize.x && pa * m.a.y + pb * m.b.y == m.prize.y
  }

  /**
   * What `minimum_cost` demands: the determinant is not zero (the first `%`)
   * and, when the first division is exact, `b.x` is not zero (the second `%`).
   */
  predicate Divisible(m: Machine)
  {
    Det(m) != 0 && (NumeratorA(m) % Det(m) == 0 ==> m.b.x != 0)
  }

  /**
   * `minimum_cost`: the presses of A by Cramer's rule, then the presses of B
   * from the first equation, and `3 * pa + pb` when both divisions are exact.
   * Both divisions are used only when the remainder is zero, where Rust's
   * truncating division and Dafny's Euclidean division give the same
   * quotient. A returned cost always comes from presses that reach the prize.
   */
  function MinimumCost(m: Machine): (r: Option<int>)
    requires Divisible(m)
    ensures r.Some? ==> exists pa: int, pb: int :: Solves(m, pa, pb) && r.value == 3 * pa + pb
  {
    var n := NumeratorA(m);
    var d := Det(m);
    if n % d == 0 then
      var pa := n / d;
      var n2 := m.prize.x - pa * m.a.x;
      var d2 := m.b.x;
      if n2 % d2 == 0 then
        var pb := n2 / d2;
        SolutionFound(m, pa, pb);
        Some(pa * 3 + pb)
      else None
    else None
  }

  /** The presses found by both exact divisions satisfy both equations. */
  lemma SolutionFound(m: Machine, pa: int, pb: int)
    requires Det(m) != 0 && m.b.x != 0
    requires NumeratorA(m) == pa * Det(m)
    requires m.prize.x - pa * m.a.x == pb * m.b.x
    ensures Solves(m, pa, pb)
  {
    var a1, a2, b1, b2, p1, p2 := m.a.x, m.a.y, m.b.x, m.b.y, m.prize.x, m.prize.y;
    assert p1 == pa * a1 + pb * b1;
    // p1 * b2 - p2 * b1 == pa * (a1 * b2 - a2 * b1), with p1 replaced:
    assert (pa * a1 + pb * b1) * b2 - p2 * b1 == pa * a1 * b2 - pa * a2 * b1;
    assert pb * b1 * b2 - p2 * b1 == - pa * a2 * b1;
    assert b1 * (pb * b2 + pa * a2 - p2) == 0;
    Arith.NonZeroFactor(b1, pb * b2 + pa * a2 - p2);
  }

  /**
   * With a non-zero determinant, presses that reach the prize are found:
   * whenever an integral solution exists, `minimum_cost` returns its cost.
   * (The solution is then the only one, so "minimum" is that cost.)
   */
  lemma MinimumCostComplete(m: Machine, pa: int, pb: int)
    requires Divisible(m) && Solves(m, pa, pb)
    ensures MinimumCost(m) == Some(3 * pa + pb)
  {
    var d := Det(m);
    NumeratorIsMultiple(m, pa, pb);
    Arith.ExactQuotient(pa, d);
    assert NumeratorA(m) / d == pa;
    assert m.prize.x - pa * m.a.x == pb * m.b.x;
    Arith.ExactQuotient(pb, m.b.x);
  }

  /** Eliminating the presses of B: `prize.x * b.y - prize.y * b.x == pa * Det`. */
  lemma NumeratorIsMultiple(m: Machine, pa: int, pb: int)
    requires Solves(m, pa, pb)
    ensures NumeratorA(m) == pa * Det(m)
  {
    var a1, a2, b1, b2, p1, p2 := m.a.x, m.a.y, m.b.x, m.b.y, m.prize.x, m.prize.y;
    calc {
      p1 * b2 - p2 * b1;
      (pa * a1 + pb * b1) * b2 - (pa * a2 + pb * b2) * b1;
      pa * (a1 * b2 - a2 * b1);
    }
  }

  /** A machine's cost contributes to a total, or nothing when it was skipped. */
  function Contribution(m: Machine): int
    requires Divisible(m)
  {
    match MinimumCost(m)
    case Some(c) => c
    case None => 0
  }

  /** `part_one`: the costs of the machines that can be won, summed. */
  function TotalCost(ms: seq<Machine>): int
    requires forall i :: 0 <= i < |ms| ==> Divisible(ms[i])
  {
    if ms == [] then 0 else TotalCost(ms[..|ms| - 1]) + Contribution(ms[|ms| - 1])
  }

  /** Each winnable machine adds the cost of its unique solution; an unwinnable one adds nothing. */
  lemma ContributionIsCost(m: Machine)
    requires Divisible(m)
    ensures (exists pa: int, pb: int :: Solves(m, pa, pb)) ==>
      exists pa: int, pb: int :: Solves(m, pa, pb) && Contribution(m) == 3 * pa + pb
    ensures (forall pa: int, pb: int :: !Solves(m, pa, pb)) ==> Contribution(m) == 0
  {
    if exists pa: int, pb: int :: Solves(m, pa, pb) {
      var pa: int, pb: int :| Solves(m, pa, pb);
      MinimumCostComplete(m, pa, pb);
    }
  }

  /** The offset `part_two` adds to both prize coordinates. */
  const PrizeOffset: int := 10000000000000

  function Shifted(m: Machine): (r: Machine)
    ensures r.a == m.a && r.b == m.b && Det(r) == Det(m)
  {
    m.(prize := Delta(m.prize.x + PrizeOffset, m.prize.y + PrizeOffset))
  }

  function ShiftedAll(ms: seq<Machine>): (r: seq<Machine>)
    ensures |r| == |ms| && forall i :: 0 <= i < |ms| ==> r[i] == Shifted(ms[i])
  {
    if ms == [] then [] else ShiftedAll(ms[..|ms| - 1]) + [Shifted(ms[|ms| - 1])]
  }

  /** `part_two`: the costs of the machines once each prize is moved by the offset. */
  function PartTwo(ms: seq<Machine>): (r: int)
    requires forall i :: 0 <= i < |ms| ==> Divisible(Shifted(ms[i]))
  {
    TotalCost(ShiftedAll(ms))
  }

  /**
   * A `part_two` machine is won exactly by presses that reach the prize moved
   * by the offset in both coordinates.
   */
  lemma PartTwoSolves(m: Machine, pa: int, pb: int)
    requires Divisible(Shifted(m))
    ensures Solves(Shifted(m), pa, pb) <==>
      pa * m.a.x + pb * m.b.x == m.prize.x + PrizeOffset && pa * m.a.y + pb * m.b.y == m.prize.y + PrizeOffset
    ensures Solves(Shifted(m), pa, pb) ==> Contribution(Shifted(m)) == 3 * pa + pb
  {
    if Solves(Shifted(m), pa, pb) {
      MinimumCostComplete(Shifted(m), pa, pb);
    }
  }
}
