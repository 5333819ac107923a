/**
 * The four binary operators of the Atomic runtime (runtime/eval/expr.ts) as
 * pure functions of the already evaluated operands. Each yields the value the
 * expression evaluates to and the diagnostic it records, if any.
 */
module Operators {
  import opened Wrappers
  import opened Values

  /**
   * The text a value contributes when JavaScript turns its payload into a
   * string. A string contributes itself; every other value is rendered by
   * the host (`show`), whose number formatting is not modelled.
   */
  function Text(v: Value, show: Value -> string): string {
    if v.Str? then v.s else show(v)
  }

  /** `p` occurs in `s` starting at index `i`. */
  predicate OccursAt(s: string, p: string, i: nat) {
    i + |p| <= |s| && s[i..i + |p|] == p
  }

  /** The first index at or after `i` where `p` occurs in `s`. */
  function FirstOccurrenceFrom(s: string, p: string, i: nat): (r: Option<nat>)
    requires i <= |s|
    ensures r.Some? ==> i <= r.value && OccursAt(s, p, r.value)
    ensures r.Some? ==> forall j: nat :: i <= j < r.value ==> !OccursAt(s, p, j)
    ensures r.None? ==> forall j: nat :: i <= j ==> !OccursAt(s, p, j)
    decreases |s| - i
  {
    if i + |p| > |s| then None
    else if s[i..i + |p|] == p then Some(i)
    else FirstOccurrenceFrom(s, p, i + 1)
  }

  /**
   * JavaScript's `s.replace(p, "")` for a string pattern: the first
   * occurrence of `p` is cut out; without one, `s` is returned unchanged.
   */
  function RemoveFirst(s: string, p: string): (r: string)
    ensures forall i: nat :: OccursAt(s, p, i) && (forall j: nat :: j < i ==> !OccursAt(s, p, j)) ==>
      r == s[..i] + s[i + |p|..]
    ensures (forall i: nat :: !OccursAt(s, p, i)) ==> r == s
  {
    match FirstOccurrenceFrom(s, p, 0)
    case Some(i) => s[..i] + s[i + |p|..]
    case None => s
  }

  /** Number arithmetic; anything involving a non-finite number is non-finite. */
  function AddNumbers(a: Number, b: Number): Number {
    if a.Finite? && b.Finite? then Finite(a.r + b.r) else NonFinite
  }

  function SubtractNumbers(a: Number, b: Number): Number {
    if a.Finite? && b.Finite? then Finite(a.r - b.r) else NonFinite
  }

  function MultiplyNumbers(a: Number, b: Number): Number {
    if a.Finite? && b.Finite? then Finite(a.r * b.r) else NonFinite
  }

  /** `+`: concatenation when either side is a string, else numeric addition. */
  function Plus(lhs: Value, rhs: Value, show: Value -> string): (r: Outcome)
    ensures r.value.Str? <==> lhs.Str? || rhs.Str?
    ensures r.value.Str? ==>
      var l, t := Text(lhs, show), Text(rhs, show);
      |r.value.s| == |l| + |t| && r.value.s[..|l|] == l && r.value.s[|l|..] == t
    ensures lhs.Num? && rhs.Num? && lhs.n.Finite? && rhs.n.Finite? ==>
      r.value == Num(Finite(lhs.n.r + rhs.n.r))
    ensures r.diag.Some? <==> !lhs.Str? && !rhs.Str? && !(lhs.Num? && rhs.Num?)
    ensures r.diag.Some? ==> r == Outcome(Null, Some(AT3003))
    ensures r.diag.None? ==> r.value.Str? || r.value.Num?
  {
    if lhs.Str? || rhs.Str? then
      Outcome(Str(Text(lhs, show) + Text(rhs, show)), None)
    else if rhs.Num? && lhs.Num? then
      Outcome(Num(AddNumbers(lhs.n, rhs.n)), None)
    else
      Outcome(Null, Some(AT3003))
  }

  /**
   * `-`: numeric subtraction on two numbers; with a string on the left, the
   * first occurrence of the right operand's text is removed from it.
   */
  function Minus(lhs: Value, rhs: Value, show: Value -> string): (r: Outcome)
    ensures lhs.Num? && rhs.Num? && lhs.n.Finite? && rhs.n.Finite? ==>
      r == Outcome(Num(Finite(lhs.n.r - rhs.n.r)), None)
    ensures lhs.Str? ==> r.diag.None? && r.value.Str?
    ensures lhs.Str? && (forall i: nat :: !OccursAt(lhs.s, Text(rhs, show), i)) ==>
      r.value == lhs
    ensures lhs.Str? ==> |r.value.s| == |lhs.s| || |r.value.s| + |Text(rhs, show)| == |lhs.s|
    ensures lhs.Str? ==> var t := Text(rhs, show);
      forall i: nat :: OccursAt(lhs.s, t, i) && (forall j: nat :: j < i ==> !OccursAt(lhs.s, t, j)) ==>
        r.value == Str(lhs.s[..i] + lhs.s[i + |t|..])
    ensures r.diag.Some? <==> !lhs.Str? && !(lhs.Num? && rhs.Num?)
    ensures r.diag.Some? ==> r == Outcome(Null, Some(AT3003))
  {
    if lhs.Num? && rhs.Num? then
      Outcome(Num(SubtractNumbers(lhs.n, rhs.n)), None)
    else if lhs.Str? then
      Outcome(Str(RemoveFirst(lhs.s, Text(rhs, show))), None)
    else
      Outcome(Null, Some(AT3003))
  }

  /** `*`: the product of two numbers; every other pairing is a type error. */
  function Multiply(lhs: Value, rhs: Value): (r: Outcome)
    ensures lhs.Num? && rhs.Num? && lhs.n.Finite? && rhs.n.Finite? ==>
      r == Outcome(Num(Finite(lhs.n.r * rhs.n.r)), None)
    ensures r.diag.Some? <==> !(lhs.Num? && rhs.Num?)
    ensures r.diag.Some? ==> r == Outcome(Null, Some(AT3003))
    ensures r.diag.None? ==> r.value.Num?
  {
    if lhs.Num? && rhs.Num? then
      var product := MultiplyNumbers(lhs.n, rhs.n);
      assert lhs.n.Finite? && rhs.n.Finite? ==> product == Finite(lhs.n.r * rhs.n.r);
      Outcome(Num(product), None)
    else
      Outcome(Null, Some(AT3003))
  }

  /**
   * `/` on two numbers: a right operand equal to 0 yields 0 without a
   * diagnostic; otherwise the result is the RIGHT operand divided by the
   * LEFT one. A left operand of 0 then gives a non-finite number.
   */
  function Divide(lhs: Value, rhs: Value): (r: Outcome)
    ensures lhs.Num? && rhs == Num(Finite(0.0)) ==> r == Outcome(Num(Finite(0.0)), None)
    ensures lhs.Num? && rhs.Num? && lhs.n.Finite? && rhs.n.Finite? && lhs.n.r != 0.0 && rhs.n.r != 0.0 ==>
      r == Outcome(Num(Finite(rhs.n.r / lhs.n.r)), None)
    ensures lhs == Num(Finite(0.0)) && rhs.Num? && rhs.n != Finite(0.0) ==>
      r == Outcome(Num(NonFinite), None)
    ensures r.diag.Some? <==> !(lhs.Num? && rhs.Num?)
    ensures r.diag.Some? ==> r == Outcome(Null, Some(AT3003))
  {
    if lhs.Num? && rhs.Num? then
      if rhs.n == Finite(0.0) then Outcome(Num(Finite(0.0)), None)
      else if lhs.n.Finite? && rhs.n.Finite? && lhs.n.r != 0.0 then
        Outcome(Num(Finite(rhs.n.r / lhs.n.r)), None)
      else Outcome(Num(NonFinite), None)
    else
      Outcome(Null, Some(AT3003))
  }

  /** Dispatch on the operator; an unknown operator yields Null silently. */
  function BinaryOp(op: string, lhs: Value, rhs: Value, show: Value -> string): (r: Outcome)
    ensures r.diag.Some? ==> r == Outcome(Null, Some(AT3003))
    ensures op != "+" && op != "-" && op != "*" && op != "/" ==> r == Outcome(Null, None)
  {
    match op
    case "+" => Plus(lhs, rhs, show)
    case "-" => Minus(lhs, rhs, show)
    case "*" => Multiply(lhs, rhs)
    case "/" => Divide(lhs, rhs)
    case _ => Outcome(Null, None)
  }

  /**
   * Removing a string that was just appended gives back the original,
   * provided the appended text does not already start earlier.
   */
  lemma {:induction false} RemoveAppended(a: string, b: string)
    requires forall i: nat :: i < |a| ==> !OccursAt(a + b, b, i)
    ensures RemoveFirst(a + b, b) == a
  {
    var s := a + b;
    assert s[|a|..|a| + |b|] == b;
    assert OccursAt(s, b, |a|);
    assert s[..|a|] == a;
    assert s[|a| + |b|..] == [];
  }

  /** `(a + y) - y` evaluates back to the string `a`: `-` undoes `+`. */
  lemma {:induction false} PlusThenMinus(a: string, y: Value, show: Value -> string)
    requires forall i: nat :: i < |a| ==> !OccursAt(a + Text(y, show), Text(y, show), i)
    ensures Minus(Plus(Str(a), y, show).value, y, show) == Outcome(Str(a), None)
  {
    var sum := Plus(Str(a), y, show);
    assert sum.value == Str(a + Text(y, show));
    RemoveAppended(a, Text(y, show));
  }

  /**
   * Because `/` divides its right operand by its left, `a / (a * b)`
   * evaluates to `b` for every non-zero `a`.
   */
  lemma {:induction false} DivideUndoesMultiply(a: real, b: real)
    requires a != 0.0
    ensures Divide(Num(Finite(a)), Multiply(Num(Finite(a)), Num(Finite(b))).value)
            == Outcome(Num(Finite(b)), None)
  {
    if b != 0.0 {
      assert a * b != 0.0;
      assert (a * b) / a == b;
    }
  }

  /** `"abc" - "b"` is `"ac"`, `5 / 0` is `0`, and `1 + 1` is `2`. */
  lemma LanguageExamples(show: Value -> string)
    ensures Minus(Str("abc"), Str("b"), show) == Outcome(Str("ac"), None)
    ensures Divide(Num(Finite(5.0)), Num(Finite(0.0))) == Outcome(Num(Finite(0.0)), None)
    ensures Plus(Num(Finite(1.0)), Num(Finite(1.0)), show) == Outcome(Num(Finite(2.0)), None)
  {
    assert "abc"[0..1] == "a" && "abc"[1..2] == "b";
    assert OccursAt("abc", "b", 1) && !OccursAt("abc", "b", 0);
    assert "abc"[..1] + "abc"[2..] == "ac";
  }
}
