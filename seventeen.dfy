/**
 * Day seventeen: a three-bit computer with registers `a`, `b` and `c`, a
 * program counter and an output list. Each instruction is an opcode followed
 * by an operand; reading past the end of the program stops the machine.
 */
module Seventeen {
  import Decimal
  import Arith

  /** `Result<T>` with its `InvalidPc` error, and `Panic` for the `panic!()` arms, which abort. */
  datatype Result<T> = Ok(value: T) | InvalidPc | Panic

  /** The machine's mutable state: registers, program counter and output. */
  datatype Snapshot = Snapshot(a: nat, b: nat, c: nat, pc: nat, out: seq<nat>)

  function Pow2(k: nat): (p: nat)
    ensures p >= 1
  {
    if k == 0 then 1 else 2 * Pow2(k - 1)
  }

  /** Bitwise exclusive or of two naturals. */
  function Xor(x: nat, y: nat): nat
  {
    if x == 0 then y
    else if y == 0 then x
    else 2 * Xor(x / 2, y / 2) + (x + y) % 2
  }

  /** Exclusive or keeps a `u64` a `u64`: both operands below `2^n` give a result below `2^n`. */
  lemma {:induction false} XorBound(x: nat, y: nat, n: nat)
    requires x < Pow2(n) && y < Pow2(n)
    ensures Xor(x, y) < Pow2(n)
  {
    if x != 0 && y != 0 {
      XorBound(x / 2, y / 2, n - 1);
    }
  }

  /** `next`: the word at `pc`, with `pc` moved past it, or `InvalidPc` with nothing changed. */
  function Fetch(program: seq<nat>, s: Snapshot): (Result<nat>, Snapshot)
  {
    if s.pc >= |program| then (InvalidPc, s) else (Ok(program[s.pc]), s.(pc := s.pc + 1))
  }

  /** The value of a combo operand: 0 to 3 stand for themselves, 4, 5 and 6 for `a`, `b` and `c`. */
  function ComboValue(s: Snapshot, v: nat): Result<nat>
  {
    if v <= 3 then Ok(v)
    else if v == 4 then Ok(s.a)
    else if v == 5 then Ok(s.b)
    else if v == 6 then Ok(s.c)
    else Panic
  }

  /** `combo`: an operand fetched and read as a combo operand. */
  function ComboOperand(program: seq<nat>, s: Snapshot): (Result<nat>, Snapshot)
  {
    var (r, s1) := Fetch(program, s);
    if r.Ok? then (ComboValue(s1, r.value), s1) else (r, s1)
  }

  /**
   * `a / 2u64.pow(e as u32)`: the exponent is cut to 32 bits; from 64 on the
   * power does not fit in a `u64`, which panics in a debug build and divides
   * by the wrapped value zero, also a panic, in a release build.
   */
  function Divide(a: nat, e: nat): (r: Result<nat>)
    ensures r.Ok? <==> Truncate32(e) < 64
    ensures r == Panic || (r.Ok? && r.value * Pow2(Truncate32(e)) <= a < (r.value + 1) * Pow2(Truncate32(e)))
  {
    var k := Truncate32(e);
    if k >= 64 then Panic
    else
      var p := Pow2(k);
      Arith.DivAtMost(a, p);
      Ok(a / p)
  }

  /** `e as u32`. */
  function Truncate32(e: nat): (k: nat)
    ensures k < 0x1_0000_0000
  {
    e % 0x1_0000_0000
  }

  /** Carries a failure over to another result type. */
  function Fail<T, U>(r: Result<T>): Result<U>
    requires !r.Ok?
  {
    if r.InvalidPc? then InvalidPc else Panic
  }

  /** `run_one` as a function: one instruction on a snapshot. */
  function Step(program: seq<nat>, s: Snapshot): (Result<()>, Snapshot)
  {
    var (r, s1) := Fetch(program, s);
    if !r.Ok? then (InvalidPc, s1)
    else
      var op := r.value;
      if op == 0 || op == 6 || op == 7 then
        var (v, s2) := ComboOperand(program, s1);
        if !v.Ok? then (Fail(v), s2)
        else
          var q := Divide(s2.a, v.value);
          if !q.Ok? then (Panic, s2)
          else if op == 0 then (Ok(()), s2.(a := q.value))
          else if op == 6 then (Ok(()), s2.(b := q.value))
          else (Ok(()), s2.(c := q.value))
      else if op == 1 then
        var (v, s2) := Fetch(program, s1);
        if !v.Ok? then (InvalidPc, s2) else (Ok(()), s2.(b := Xor(s2.b, v.value)))
      else if op == 2 then
        var (v, s2) := ComboOperand(program, s1);
        if !v.Ok? then (Fail(v), s2) else (Ok(()), s2.(b := v.value % 8))
      else if op == 3 then
        if s1.a == 0 then (Ok(()), s1)
        else
          var (v, s2) := Fetch(program, s1);
          if !v.Ok? then (InvalidPc, s2) else (Ok(()), s2.(pc := v.value))
      else if op == 4 then
        var (v, s2) := Fetch(program, s1);
        if !v.Ok? then (InvalidPc, s2) else (Ok(()), s2.(b := Xor(s2.b, s2.c)))
      else if op == 5 then
        var (v, s2) := ComboOperand(program, s1);
        if !v.Ok? then (Fail(v), s2) else (Ok(()), s2.(out := s2.out + [v.value % 8]))
      else (Panic, s1)
  }

  class Machine {
    var a: nat
    var b: nat
    var c: nat
    var pc: nat
    const program: seq<nat>
    var out: seq<nat>

    function State(): Snapshot
      reads this
    {
      Snapshot(a, b, c, pc, out)
    }

    /** `Machine::new`: the registers and program copied, `pc` at 0 and no output. */
    constructor (a: nat, b: nat, c: nat, program: seq<nat>)
      ensures State() == Snapshot(a, b, c, 0, []) && this.program == program
    {
      this.a, this.b, this.c, this.pc := a, b, c, 0;
      this.program := program;
      this.out := [];
    }

    /** `next`. */
    method Next() returns (r: Result<nat>)
      modifies this
      ensures (r, State()) == Fetch(program, old(State()))
    {
      if pc >= |program| {
        return InvalidPc;
      }
      var oldPc := pc;
      pc := pc + 1;
      r := Ok(program[oldPc]);
    }

    /** `combo`. */
    method Combo() returns (r: Result<nat>)
      modifies this
      ensures (r, State()) == ComboOperand(program, old(State()))
    {
      var v := Next();
      if !v.Ok? {
        return v;
      }
      if v.value <= 3 {
        r := v;
      } else if v.value == 4 {
        r := Ok(a);
      } else if v.value == 5 {
        r := Ok(b);
      } else if v.value == 6 {
        r := Ok(c);
      } else {
        r := Panic;
      }
    }

    /** `run_one`. */
    method RunOne() returns (r: Result<()>)
      modifies this
      ensures (r, State()) == Step(program, old(State()))
    {
      var op := Next();
      if !op.Ok? {
        return InvalidPc;
      }
      match op.value {
        case 0 =>
          var e := Combo();
          if !e.Ok? {
            return Fail(e);
          }
          var q := Divide(a, e.value);
          if !q.Ok? {
            return Panic;
          }
          a := q.value;
        case 1 =>
          var v := Next();
          if !v.Ok? {
            return InvalidPc;
          }
          b := Xor(b, v.value);
        case 2 =>
          var v := Combo();
          if !v.Ok? {
            return Fail(v);
          }
          b := v.value % 8;
        case 3 =>
          if a != 0 {
            var v := Next();
            if !v.Ok? {
              return InvalidPc;
            }
            pc := v.value;
          }
        case 4 =>
          var v := Next();
          if !v.Ok? {
            return InvalidPc;
          }
          b := Xor(b, c);
        case 5 =>
          var v := Combo();
          if !v.Ok? {
            return Fail(v);
          }
          out := out + [v.value % 8];
        case 6 =>
          var e := Combo();
          if !e.Ok? {
            return Fail(e);
          }
          var q := Divide(a, e.value);
          if !q.Ok? {
            return Panic;
          }
          b := q.value;
        case 7 =>
          var e := Combo();
          if !e.Ok? {
            return Fail(e);
          }
          var q := Divide(a, e.value);
          if !q.Ok? {
            return Panic;
          }
          c := q.value;
        case _ =>
          return Panic;
      }
      r := Ok(());
    }
  }

  /** Every output value is below 8. */
  predicate OutputsOctal(out: seq<nat>)
  {
    forall i :: 0 <= i < |out| ==> out[i] < 8
  }

  /**
   * One instruction outputs at most one value, below 8, and only by opcode 5;
   * the earlier output is kept.
   */
  lemma StepOutput(program: seq<nat>, s: Snapshot)
    ensures var s' := Step(program, s).1;
      s'.out == s.out || (|s'.out| == |s.out| + 1 && s'.out[..|s.out|] == s.out && s'.out[|s.out|] < 8 &&
                          s.pc + 1 < |program| && program[s.pc] == 5)
  {
  }

  /** Running off the end of the program fails with `InvalidPc` and changes nothing. */
  lemma StepPastEnd(program: seq<nat>, s: Snapshot)
    requires s.pc >= |program|
    ensures Step(program, s) == (InvalidPc, s)
  {
  }

  /**
   * Opcode 3 jumps to its literal operand when `a` is not zero; when `a` is
   * zero the operand is not consumed and `pc` moves past the opcode only.
   */
  lemma JumpStep(program: seq<nat>, s: Snapshot)
    requires s.pc < |program| && program[s.pc] == 3
    ensures s.a == 0 ==> Step(program, s) == (Ok(()), s.(pc := s.pc + 1))
    ensures s.a != 0 && s.pc + 1 < |program| ==> Step(program, s) == (Ok(()), s.(pc := program[s.pc + 1]))
    ensures s.a != 0 && s.pc + 1 >= |program| ==> Step(program, s) == (InvalidPc, s.(pc := s.pc + 1))
  {
  }

  /** Combo operand 7 (or any larger word) panics, for every opcode that reads a combo operand. */
  lemma ComboSevenPanics(program: seq<nat>, s: Snapshot)
    requires s.pc + 1 < |program| && program[s.pc] in {0, 2, 5, 6, 7} && program[s.pc + 1] >= 7
    ensures Step(program, s).0 == Panic
  {
  }

  lemma {:induction false} Pow2AtLeast8(n: nat)
    requires n >= 3
    ensures Pow2(n) >= 8
  {
    if n > 3 {
      Pow2AtLeast8(n - 1);
    }
  }

  /**
   * The registers stay `u64` values when the program's words are: with `n`
   * at 64, every register written is below `2^n` when the words and the
   * registers were.
   */
  lemma StepKeepsWidth(program: seq<nat>, s: Snapshot, n: nat)
    requires n >= 3 && forall i :: 0 <= i < |program| ==> program[i] < Pow2(n)
    requires s.a < Pow2(n) && s.b < Pow2(n) && s.c < Pow2(n)
    ensures var s' := Step(program, s).1; s'.a < Pow2(n) && s'.b < Pow2(n) && s'.c < Pow2(n)
  {
    Pow2AtLeast8(n);
    if s.pc + 1 < |program| {
      var op, v := program[s.pc], program[s.pc + 1];
      if op == 1 {
        XorBound(s.b, v, n);
      } else if op == 4 {
        XorBound(s.b, s.c, n);
      } else if op == 0 || op == 6 || op == 7 {
        forall a: nat, e: nat
          ensures Divide(a, e).Ok? ==> Divide(a, e).value <= a
        {
          DivideBelow(a, e);
        }
      }
    }
  }

  /** Division by a power of two never grows the dividend. */
  lemma DivideBelow(a: nat, e: nat)
    ensures Divide(a, e).Ok? ==> Divide(a, e).value <= a
  {
    var k := Truncate32(e);
    if k < 64 {
      Arith.DivAtMost(a, Pow2(k));
    }
  }

  /** At most `fuel` instructions from `s`; the result is the first failure, or `Ok` when fuel ran out. */
  function Run(program: seq<nat>, s: Snapshot, fuel: nat): (Result<()>, Snapshot)
    decreases fuel
  {
    if fuel == 0 then (Ok(()), s)
    else
      var (r, s') := Step(program, s);
      if r.Ok? then Run(program, s', fuel - 1) else (r, s')
  }

  /** A run keeps the output it started with, adds at most one value per instruction, all below 8. */
  lemma {:induction false} RunOutput(program: seq<nat>, s: Snapshot, fuel: nat)
    requires OutputsOctal(s.out)
    ensures var s' := Run(program, s, fuel).1;
      OutputsOctal(s'.out) && |s.out| <= |s'.out| <= |s.out| + fuel && s'.out[..|s.out|] == s.out
    decreases fuel
  {
    if fuel > 0 {
      var (r, s1) := Step(program, s);
      StepOutput(program, s);
      if r.Ok? {
        RunOutput(program, s1, fuel - 1);
        var s' := Run(program, s1, fuel - 1).1;
        assert s'.out[..|s.out|] == s'.out[..|s1.out|][..|s.out|];
      }
    }
  }

  /** The output joined with commas, as `part_one` prints it. */
  function Join(out: seq<nat>): string
  {
    if out == [] then ""
    else if |out| == 1 then Decimal.ToDecimal(out[0])
    else Join(out[..|out| - 1]) + "," + Decimal.ToDecimal(out[|out| - 1])
  }

  /**
   * With every value below 8, the text is one digit per value with a comma
   * between neighbours: the values can be read back from the even positions.
   */
  lemma {:induction false} JoinDigits(out: seq<nat>)
    requires OutputsOctal(out) && out != []
    ensures |Join(out)| == 2 * |out| - 1
    ensures forall i :: 0 <= i < |out| ==> Join(out)[2 * i] == Decimal.DigitChar(out[i])
    ensures forall i :: 0 <= i < |out| - 1 ==> Join(out)[2 * i + 1] == ','
  {
    if |out| > 1 {
      var init := out[..|out| - 1];
      JoinDigits(init);
      assert forall i :: 0 <= i < |init| ==> init[i] == out[i];
    }
  }

  datatype Answer = Printed(text: string) | Panicked | Unfinished

  /** What `part_one` makes of a run: the joined output once the machine stops with `InvalidPc`. */
  function Report(run: (Result<()>, Snapshot)): Answer
  {
    match run.0
    case InvalidPc => Printed(Join(run.1.out))
    case Panic => Panicked
    case Ok(_) => Unfinished
  }

  /**
   * `part_one`: `run_one` until it fails, then the output joined with commas.
   * A program may loop forever, so at most `fuel` instructions are run.
   */
  method PartOne(a: nat, b: nat, c: nat, program: seq<nat>, fuel: nat) returns (answer: Answer)
    ensures answer == Report(Run(program, Snapshot(a, b, c, 0, []), fuel))
  {
    var m := new Machine(a, b, c, program);
    var left := fuel;
    while left > 0
      invariant Run(program, m.State(), left) == Run(program, Snapshot(a, b, c, 0, []), fuel)
      invariant m.program == program
    {
      var r := m.RunOne();
      if r.InvalidPc? {
        return Printed(Join(m.out));
      } else if r.Panic? {
        return Panicked;
      }
      left := left - 1;
    }
    answer := Unfinished;
  }

  /** Text joined from values below 8: digits 0 to 7 at even positions, commas at odd ones. */
  lemma JoinOctal(out: seq<nat>)
    requires OutputsOctal(out)
    ensures forall i :: 0 <= i < |Join(out)| ==>
      (if i % 2 == 0 then '0' <= Join(out)[i] <= '7' else Join(out)[i] == ',')
  {
    if out != [] {
      JoinDigits(out);
      var text := Join(out);
      forall i | 0 <= i < |text|
        ensures if i % 2 == 0 then '0' <= text[i] <= '7' else text[i] == ','
      {
        var j := i / 2;
        if i % 2 == 0 {
          assert i == 2 * j && text[2 * j] == Decimal.DigitChar(out[j]);
        } else {
          assert i == 2 * j + 1;
        }
      }
    }
  }

  /** A printed answer lists digits 0 to 7 separated by commas. */
  lemma PrintedIsOctalList(program: seq<nat>, a: nat, b: nat, c: nat, fuel: nat)
    ensures var answer := Report(Run(program, Snapshot(a, b, c, 0, []), fuel));
      answer.Printed? ==>
        forall i :: 0 <= i < |answer.text| ==> (if i % 2 == 0 then '0' <= answer.text[i] <= '7' else answer.text[i] == ',')
  {
    var s0 := Snapshot(a, b, c, 0, []);
    RunOutput(program, s0, fuel);
    JoinOctal(Run(program, s0, fuel).1.out);
  }
}
