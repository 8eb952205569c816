/**
 * Day three: corrupted memory decoded into a list of actions. `mul(a,b)`
 * multiplies; `do()` and `don't()` switch later multiplications on and off.
 */
module Three {

  datatype Action = Mul(x: nat, y: nat) | Do | Dont

  /** `part_one`: the products of all multiplications; `do()`/`don't()` are ignored. */
  function PartOne(actions: seq<Action>): (r: nat)
    ensures forall i :: 0 <= i < |actions| && actions[i].Mul? ==> actions[i].x * actions[i].y <= r
  {
    if actions == [] then 0
    else PartOne(actions[..|actions| - 1]) + match actions[|actions| - 1] {
      case Mul(x, y) => x * y
      case _ => 0
    }
  }

  /**
   * Whether multiplications are enabled after `prefix`: decided by the most
   * recent `do()` or `don't()`, and enabled when there is none.
   */
  function Enabled(prefix: seq<Action>): bool
  {
    if prefix == [] then true
    else match prefix[|prefix| - 1] {
      case Do => true
      case Dont => false
      case Mul(_, _) => Enabled(prefix[..|prefix| - 1])
    }
  }

  /** The products of the multiplications that are enabled where they occur. */
  function SumEnabled(actions: seq<Action>): (r: nat)
  {
    if actions == [] then 0
    else
      var prefix := actions[..|actions| - 1];
      SumEnabled(prefix) + match actions[|actions| - 1] {
        case Mul(x, y) => if Enabled(prefix) then x * y else 0
        case _ => 0
      }
  }

  /**
   * `part_two`: a single pass that starts enabled, switches on `do()` and
   * `don't()`, and adds a product only while enabled.
   */
  method PartTwo(actions: seq<Action>) returns (total: nat)
    ensures total == SumEnabled(actions)
  {
    total := 0;
    var enabled := true;
    var i := 0;
    while i < |actions|
      invariant 0 <= i <= |actions|
      invariant enabled == Enabled(actions[..i])
      invariant total == SumEnabled(actions[..i])
    {
      assert actions[..i + 1][..i] == actions[..i];
      match actions[i] {
        case Mul(x, y) =>
          if enabled {
            total := total + x * y;
          }
        case Do =>
          enabled := true;
        case Dont =>
          enabled := false;
      }
      i := i + 1;
    }
    assert actions[..i] == actions;
  }

  /**
   * The state after a prefix, read off directly: every `don't()` in it is
   * followed, later in the prefix, by a `do()`.
   */
  lemma {:induction false} EnabledMostRecent(prefix: seq<Action>)
    ensures Enabled(prefix) <==>
      forall i :: 0 <= i < |prefix| && prefix[i] == Dont ==> exists j :: i < j < |prefix| && prefix[j] == Do
  {
    if prefix != [] {
      var n := |prefix| - 1;
      var init := prefix[..n];
      EnabledMostRecent(init);
      assert forall i :: 0 <= i < n ==> init[i] == prefix[i];
      match prefix[n] {
        case Do =>
        case Dont =>
        case Mul(_, _) =>
          if Enabled(prefix) {
            forall i | 0 <= i < |prefix| && prefix[i] == Dont
              ensures exists j :: i < j < |prefix| && prefix[j] == Do
            {
              var j :| i < j < n && init[j] == Do;
              assert prefix[j] == Do;
            }
          } else {
            var i :| 0 <= i < n && init[i] == Dont && forall j :: i < j < n ==> init[j] != Do;
            assert prefix[i] == Dont && forall j :: i < j < |prefix| ==> prefix[j] != Do;
          }
      }
    }
  }

  /** Switching multiplications off only ever drops products: part two <= part one. */
  lemma {:induction false} EnabledAtMostAll(actions: seq<Action>)
    ensures SumEnabled(actions) <= PartOne(actions)
  {
    if actions != [] {
      EnabledAtMostAll(actions[..|actions| - 1]);
    }
  }

  /** Without any `don't()` every multiplication counts: part two == part one. */
  lemma {:induction false} NoDontCountsAll(actions: seq<Action>)
    requires Dont !in actions
    ensures Enabled(actions) && SumEnabled(actions) == PartOne(actions)
  {
    if actions != [] {
      var init := actions[..|actions| - 1];
      assert Dont !in init by {
        assert forall k :: 0 <= k < |init| ==> init[k] == actions[k];
      }
      NoDontCountsAll(init);
    }
  }
}
