/**
 * Day seven: equations whose operators are missing. A line holds a test
 * value and a list of numbers; the line is valid when some choice of
 * operators, applied left to right, turns the numbers into the test value.
 * The search works backwards from the test value, undoing the last operator.
 */
module Seven {
  import opened Grids
  import Decimal
  import Arith

  datatype Operator = Mult | Add | Concat

  datatype Line = Line(testValue: nat, input: seq<nat>)

  /** The operator as it is applied going forward: `p op b`. */
  function Apply(op: Operator, p: nat, b: nat): nat
  {
    match op
    case Mult => p * b
    case Add => p + b
    case Concat => Cat(p, b)
  }

  /** The digits of `p` followed by the digits of `b`, read as one number. */
  function Cat(p: nat, b: nat): nat
  {
    var q := Decimal.Pow10(|Decimal.ToDecimal(b)|);
    Arith.MulNonNegative(p, q);
    p * q + b
  }

  /**
   * `Operator::apply_reverse`: the `p` with `p op b == a`, if there is one.
   * Concat compares the decimal texts and strips `b`'s text off the end of
   * `a`'s; it refuses `a == b`, where the left part would be empty.
   */
  function ApplyReverse(op: Operator, a: nat, b: nat): (r: Option<nat>)
    requires op == Mult ==> b != 0
    ensures r.Some? ==> Apply(op, r.value, b) == a
    ensures op == Concat && r.Some? ==> r.value >= 1
  {
    match op
    case Mult => if a % b == 0 then Some(a / b) else None
    case Add => if a >= b then Some(a - b) else None
    case Concat =>
      var sa, sb := Decimal.ToDecimal(a), Decimal.ToDecimal(b);
      if a != b && |sb| <= |sa| && sa[|sa| - |sb|..] == sb then
        ConcatPrefix(a, b, sa, sb);
        Some(Decimal.ParseDecimal(sa[..|sa| - |sb|]))
      else None
  }

  /** Stripping `b`'s text from `a`'s leaves the text of a positive number `p` with `Cat(p, b) == a`. */
  lemma ConcatPrefix(a: nat, b: nat, sa: string, sb: string)
    requires sa == Decimal.ToDecimal(a) && sb == Decimal.ToDecimal(b)
    requires a != b && |sb| <= |sa| && sa[|sa| - |sb|..] == sb
    ensures Decimal.AllDigits(sa[..|sa| - |sb|])
    ensures Decimal.ParseDecimal(sa[..|sa| - |sb|]) >= 1
    ensures Cat(Decimal.ParseDecimal(sa[..|sa| - |sb|]), b) == a
  {
    var k := |sa| - |sb|;
    var prefix := sa[..k];
    assert sa == prefix + sb by {
      assert sa == sa[..k] + sa[k..];
    }
    PrefixCanonical(a, b, sa, sb);
    var p := Decimal.ParseDecimal(prefix);
    Decimal.ConcatText(p, b);
    Decimal.ToDecimalInjective(Cat(p, b), a);
  }

  /** The text left after stripping is the text of a positive number. */
  lemma PrefixCanonical(a: nat, b: nat, sa: string, sb: string)
    requires sa == Decimal.ToDecimal(a) && sb == Decimal.ToDecimal(b)
    requires a != b && |sb| <= |sa| && sa[|sa| - |sb|..] == sb
    ensures Decimal.Canonical(sa[..|sa| - |sb|])
    ensures Decimal.ToDecimal(Decimal.ParseDecimal(sa[..|sa| - |sb|])) == sa[..|sa| - |sb|]
    ensures Decimal.ParseDecimal(sa[..|sa| - |sb|]) >= 1
  {
    var k := |sa| - |sb|;
    var prefix := sa[..k];
    assert k != 0 by {
      if k == 0 {
        assert sa == sb;
        Decimal.ToDecimalInjective(a, b);
      }
    }
    assert prefix[0] == sa[0] && prefix[0] != '0';
    Decimal.ToDecimalParse(prefix);
    assert Decimal.ToDecimal(0) == "0";
  }

  /**
   * Undoing an operator is exact: `apply_reverse` gives `p` precisely when
   * `p op b == a`, except that Concat never undoes a left part of zero.
   */
  lemma ReverseExact(op: Operator, a: nat, b: nat, p: nat)
    requires op == Mult ==> b != 0
    requires op == Concat ==> p >= 1
    ensures ApplyReverse(op, a, b) == Some(p) <==> Apply(op, p, b) == a
  {
    match op
    case Mult =>
      if a == p * b {
        Arith.ExactQuotient(p, b);
      } else if ApplyReverse(op, a, b) == Some(p) {
        assert Apply(op, p, b) == a;
      }
    case Add =>
    case Concat =>
      if a == Cat(p, b) {
        ReverseCat(p, b);
      }
  }

  /** Stripping the text of `b` from the text of `Cat(p, b)` gives back `p`. */
  lemma ReverseCat(p: nat, b: nat)
    requires p >= 1
    ensures ApplyReverse(Concat, Cat(p, b), b) == Some(p)
  {
    var a := Cat(p, b);
    var sp, sb := Decimal.ToDecimal(p), Decimal.ToDecimal(b);
    Decimal.ConcatText(p, b);
    var sa := Decimal.ToDecimal(a);
    assert sa == sp + sb;
    assert sa[|sa| - |sb|..] == sb;
    assert sa[..|sa| - |sb|] == sp;
    Decimal.ParseToDecimal(p);
    assert a != b by {
      Arith.MulAtLeast(p, Decimal.Pow10(|sb|));
    }
  }

  /**
   * `is_valid`, with `None` for the panic of `a % b` when Mult meets a zero
   * `b`: one number is valid when it is the test value; otherwise the last
   * number is taken off and each operator, in the given order, is undone
   * against the test value until one leads to a valid shorter line.
   */
  function IsValid(testValue: nat, input: seq<nat>, operators: seq<Operator>): Option<bool>
    requires |input| >= 1
    decreases |input|, |operators| + 1
  {
    if |input| == 1 then Some(input[0] == testValue)
    else TryOperators(testValue, input, operators, 0)
  }

  /**
   * The `for op in operators` loop of `is_valid`, from the `k`-th operator
   * on: a shorter line that is valid, or panics, ends the loop.
   */
  function TryOperators(testValue: nat, input: seq<nat>, operators: seq<Operator>, k: nat): Option<bool>
    requires |input| >= 2
    decreases |input|, |operators| - k
  {
    if k >= |operators| then Some(false)
    else
      var top := input[|input| - 1];
      var rest := input[..|input| - 1];
      if operators[k] == Mult && top == 0 then None
      else match ApplyReverse(operators[k], testValue, top)
        case Some(value) =>
          var v := IsValid(value, rest, operators);
          if v == Some(false) then TryOperators(testValue, input, operators, k + 1) else v
        case None => TryOperators(testValue, input, operators, k + 1)
  }

  /** No number of the line other than the first is zero. */
  predicate DivisorsNonZero(input: seq<nat>)
  {
    forall k :: 1 <= k < |input| ==> input[k] != 0
  }

  /** A line whose numbers after the first are not zero never reaches the panic. */
  lemma {:induction false} NoPanic(testValue: nat, input: seq<nat>, operators: seq<Operator>)
    requires |input| >= 1 && DivisorsNonZero(input)
    ensures IsValid(testValue, input, operators).Some?
    decreases |input|, |operators| + 1
  {
    if |input| > 1 {
      TryNoPanic(testValue, input, operators, 0);
    }
  }

  lemma {:induction false} TryNoPanic(testValue: nat, input: seq<nat>, operators: seq<Operator>, k: nat)
    requires |input| >= 2 && DivisorsNonZero(input)
    ensures TryOperators(testValue, input, operators, k).Some?
    decreases |input|, |operators| - k
  {
    if k < |operators| {
      var top := input[|input| - 1];
      var rest := input[..|input| - 1];
      assert DivisorsNonZero(rest) by {
        assert forall i :: 0 <= i < |rest| ==> rest[i] == input[i];
      }
      TryNoPanic(testValue, input, operators, k + 1);
      match ApplyReverse(operators[k], testValue, top)
      case Some(value) => NoPanic(value, rest, operators);
      case None =>
    }
  }

  /**
   * A zero is divided by only when the search pops it: in `3: 5 0 7` the
   * zero is never the last number of a line tried, and the line is just
   * not valid; in `5: 5 0` Mult meets the zero first and panics.
   */
  lemma ZeroExamples()
    ensures IsValid(3, [5, 0, 7], [Mult, Add]) == Some(false)
    ensures IsValid(5, [5, 0], [Mult, Add]) == None
  {
    assert ApplyReverse(Mult, 3, 7) == None && ApplyReverse(Add, 3, 7) == None;
  }

  /** The numbers combined left to right with `ops[i]` between the `i`-th and `i+1`-st of them. */
  function Eval(input: seq<nat>, ops: seq<Operator>): nat
    requires |input| >= 1 && |ops| == |input| - 1
  {
    if |input| == 1 then input[0]
    else Apply(ops[|ops| - 1], Eval(input[..|input| - 1], ops[..|ops| - 1]), input[|input| - 1])
  }

  predicate Positive(input: seq<nat>)
  {
    forall k :: 0 <= k < |input| ==> input[k] >= 1
  }

  /** A choice of operators, each taken from `operators`, that evaluates to the test value. */
  predicate Solves(testValue: nat, input: seq<nat>, operators: seq<Operator>, ops: seq<Operator>)
  {
    |input| >= 1 && |ops| == |input| - 1 && (forall i :: 0 <= i < |ops| ==> ops[i] in operators) &&
    Eval(input, ops) == testValue
  }

  lemma {:induction false} EvalPositive(input: seq<nat>, ops: seq<Operator>)
    requires |input| >= 1 && |ops| == |input| - 1 && Positive(input)
    ensures Eval(input, ops) >= 1
  {
    if |input| > 1 {
      var rest := input[..|input| - 1];
      assert Positive(rest) by {
        assert forall k :: 0 <= k < |rest| ==> rest[k] == input[k];
      }
      EvalPositive(rest, ops[..|ops| - 1]);
      ApplyPositive(ops[|ops| - 1], Eval(rest, ops[..|ops| - 1]), input[|input| - 1]);
    }
  }

  /** Every operator takes two positive numbers to a positive one. */
  lemma ApplyPositive(op: Operator, p: nat, b: nat)
    requires p >= 1 && b >= 1
    ensures Apply(op, p, b) >= 1
  {
    match op
    case Mult => Arith.MulAtLeast(b, p);
    case Add =>
    case Concat => Arith.MulNonNegative(p, Decimal.Pow10(|Decimal.ToDecimal(b)|));
  }

  /**
   * For positive numbers the backward search is complete and sound: a line is
   * valid exactly when some choice of the given operators, evaluated left to
   * right, gives its test value.
   */
  lemma {:induction false} IsValidCorrect(testValue: nat, input: seq<nat>, operators: seq<Operator>)
    requires |input| >= 1 && Positive(input)
    ensures IsValid(testValue, input, operators) ==
      Some(exists ops: seq<Operator> :: Solves(testValue, input, operators, ops))
    decreases |input|, |operators| + 1
  {
    if |input| == 1 {
      if input[0] == testValue {
        assert Solves(testValue, input, operators, []);
      }
    } else {
      TryCorrect(testValue, input, operators, 0);
      if exists ops: seq<Operator> :: Solves(testValue, input, operators, ops) {
        var ops: seq<Operator> :| Solves(testValue, input, operators, ops);
        var k :| 0 <= k < |operators| && operators[k] == ops[|ops| - 1];
        assert SolvesFrom(testValue, input, operators, ops, 0);
      }
    }
  }

  /** A solving choice whose last operator is at position `k` or later in `operators`. */
  predicate SolvesFrom(testValue: nat, input: seq<nat>, operators: seq<Operator>, ops: seq<Operator>, k: nat)
  {
    Solves(testValue, input, operators, ops) && |ops| >= 1 &&
    exists j :: k <= j < |operators| && operators[j] == ops[|ops| - 1]
  }

  lemma {:induction false} TryCorrect(testValue: nat, input: seq<nat>, operators: seq<Operator>, k: nat)
    requires |input| >= 2 && Positive(input)
    ensures TryOperators(testValue, input, operators, k) ==
      Some(exists ops: seq<Operator> :: SolvesFrom(testValue, input, operators, ops, k))
    decreases |input|, |operators| - k
  {
    if k < |operators| {
      var top := input[|input| - 1];
      var rest := input[..|input| - 1];
      var op := operators[k];
      var next := k + 1;
      TryCorrect(testValue, input, operators, next);
      if exists ops: seq<Operator> :: SolvesFrom(testValue, input, operators, ops, next) {
        var ops: seq<Operator> :| SolvesFrom(testValue, input, operators, ops, next);
        assert SolvesFrom(testValue, input, operators, ops, k);
      }
      match ApplyReverse(op, testValue, top)
      case Some(value) =>
        IsValidCorrect(value, rest, operators);
        if IsValid(value, rest, operators) == Some(true) {
          var ops': seq<Operator> :| Solves(value, rest, operators, ops');
          var ops := ops' + [op];
          assert ops[..|ops| - 1] == ops';
          assert Solves(testValue, input, operators, ops);
          assert SolvesFrom(testValue, input, operators, ops, k);
        }
        if exists ops: seq<Operator> :: SolvesFrom(testValue, input, operators, ops, k) {
          var ops: seq<Operator> :| SolvesFrom(testValue, input, operators, ops, k);
          LastOperator(testValue, input, rest, operators, ops, k, value);
        }
      case None =>
        if exists ops: seq<Operator> :: SolvesFrom(testValue, input, operators, ops, k) {
          var ops: seq<Operator> :| SolvesFrom(testValue, input, operators, ops, k);
          if ops[|ops| - 1] == op {
            var p := Eval(rest, ops[..|ops| - 1]);
            EvalPositive(rest, ops[..|ops| - 1]);
            ReverseExact(op, testValue, top, p);
            assert false;
          }
          assert SolvesFrom(testValue, input, operators, ops, k + 1);
        }
    }
  }

  /**
   * A solving choice that uses operator `k` last, when undoing that operator
   * gives `value`, leaves a solving choice for the shorter line; one that uses
   * a later operator last is covered from position `k + 1`.
   */
  lemma LastOperator(testValue: nat, input: seq<nat>, rest: seq<nat>, operators: seq<Operator>,
                     ops: seq<Operator>, k: nat, value: nat)
    requires |input| >= 2 && Positive(input) && k < |operators| && rest == input[..|input| - 1]
    requires SolvesFrom(testValue, input, operators, ops, k)
    requires ApplyReverse(operators[k], testValue, input[|input| - 1]) == Some(value)
    ensures (exists ops': seq<Operator> :: Solves(value, rest, operators, ops')) ||
      SolvesFrom(testValue, input, operators, ops, k + 1)
  {
    var ops' := ops[..|ops| - 1];
    if ops[|ops| - 1] == operators[k] {
      var p := Eval(rest, ops');
      EvalPositive(rest, ops');
      ReverseExact(operators[k], testValue, input[|input| - 1], p);
      assert p == value;
      assert Solves(value, rest, operators, ops');
    } else {
      var j :| k <= j < |operators| && operators[j] == ops[|ops| - 1];
      assert j != k;
    }
  }

  /** The sum of the test values of the valid lines, or `None` when a line panics. */
  function ValidTotal(lines: seq<Line>, operators: seq<Operator>): Option<nat>
    requires forall i :: 0 <= i < |lines| ==> |lines[i].input| >= 1
  {
    if lines == [] then Some(0)
    else
      var last := lines[|lines| - 1];
      match ValidTotal(lines[..|lines| - 1], operators)
      case None => None
      case Some(t) =>
        match IsValid(last.testValue, last.input, operators)
        case None => None
        case Some(valid) => Some(t + if valid then last.testValue else 0)
  }

  /** The total panics exactly when one of the lines does. */
  lemma {:induction false} ValidTotalPanics(lines: seq<Line>, operators: seq<Operator>)
    requires forall i :: 0 <= i < |lines| ==> |lines[i].input| >= 1
    ensures ValidTotal(lines, operators).None? <==>
      exists i :: 0 <= i < |lines| && IsValid(lines[i].testValue, lines[i].input, operators).None?
  {
    if lines != [] {
      var n := |lines| - 1;
      ValidTotalPanics(lines[..n], operators);
      assert forall i :: 0 <= i < n ==> lines[..n][i] == lines[i];
    }
  }

  /** `solve`: accumulate the test values of the valid lines, stopping at a panic. */
  method Solve(lines: seq<Line>, operators: seq<Operator>) returns (total: Option<nat>)
    requires forall i :: 0 <= i < |lines| ==> |lines[i].input| >= 1
    ensures total == ValidTotal(lines, operators)
  {
    var sum := 0;
    for i := 0 to |lines|
      invariant ValidTotal(lines[..i], operators) == Some(sum)
    {
      assert lines[..i + 1][..i] == lines[..i];
      var valid := IsValid(lines[i].testValue, lines[i].input, operators);
      if valid.None? {
        ValidTotalPanics(lines, operators);
        return None;
      }
      if valid.value {
        sum := sum + lines[i].testValue;
      }
    }
    assert lines[..|lines|] == lines;
    total := Some(sum);
  }

  /**
   * On positive numbers nothing panics, and a line adds its test value to
   * the total exactly when some choice of operators solves it.
   */
  lemma {:induction false} ValidTotalCounts(lines: seq<Line>, operators: seq<Operator>, j: nat)
    requires forall i :: 0 <= i < |lines| ==> |lines[i].input| >= 1 && Positive(lines[i].input)
    requires j < |lines|
    ensures ValidTotal(lines, operators).Some?
    ensures (exists ops: seq<Operator> :: Solves(lines[j].testValue, lines[j].input, operators, ops)) ==>
      ValidTotal(lines, operators).value >= lines[j].testValue
  {
    forall i | 0 <= i < |lines|
      ensures IsValid(lines[i].testValue, lines[i].input, operators).Some?
    {
      IsValidCorrect(lines[i].testValue, lines[i].input, operators);
    }
    ValidTotalPanics(lines, operators);
    IsValidCorrect(lines[j].testValue, lines[j].input, operators);
    if j < |lines| - 1 {
      ValidTotalCounts(lines[..|lines| - 1], operators, j);
    }
  }

  /** `part_one` uses Mult and Add; `part_two` adds Concat. */
  method PartOne(lines: seq<Line>) returns (total: Option<nat>)
    requires forall i :: 0 <= i < |lines| ==> |lines[i].input| >= 1
    ensures total == ValidTotal(lines, [Mult, Add])
  {
    total := Solve(lines, [Mult, Add]);
  }

  method PartTwo(lines: seq<Line>) returns (total: Option<nat>)
    requires forall i :: 0 <= i < |lines| ==> |lines[i].input| >= 1
    ensures total == ValidTotal(lines, [Mult, Add, Concat])
  {
    total := Solve(lines, [Mult, Add, Concat]);
  }

  /** Adding Concat never makes a line of positive numbers invalid. */
  lemma PartTwoCoversPartOne(testValue: nat, input: seq<nat>)
    requires |input| >= 1 && Positive(input)
    ensures IsValid(testValue, input, [Mult, Add]) == Some(true) ==>
      IsValid(testValue, input, [Mult, Add, Concat]) == Some(true)
  {
    IsValidCorrect(testValue, input, [Mult, Add]);
    IsValidCorrect(testValue, input, [Mult, Add, Concat]);
    if IsValid(testValue, input, [Mult, Add]) == Some(true) {
      var ops: seq<Operator> :| Solves(testValue, input, [Mult, Add], ops);
      assert Solves(testValue, input, [Mult, Add, Concat], ops);
    }
  }
}
