/** `src/calculator.js`: class `Calculator`, a running `result` and a
    `history` of the calculations performed. Each history entry is kept as
    the record of its two operands, its operator and its result rather than
    the formatted string `"a op b = result"`. */
module SrcCalculator {

  datatype Op = Plus | Minus | Times | Over

  datatype Calculation = Calculation(a: real, op: Op, b: real, result: real)

  /** What a call returns: the value, or the `Error("Cannot divide by
      zero")` that `divide` throws. */
  datatype Outcome = Value(value: real) | DivideByZero

  /** `a op b`. */
  function Apply(a: real, op: Op, b: real): real
    requires op == Over ==> b != 0.0
  {
    match op
    case Plus => a + b
    case Minus => a - b
    case Times => a * b
    case Over => a / b
  }

  /** A history entry records what its operator gives on its operands. */
  predicate Correct(c: Calculation) {
    (c.op == Over ==> c.b != 0.0) && c.result == Apply(c.a, c.op, c.b)
  }

  class Calculator {
    var result: real
    var history: seq<Calculation>

    /** Every entry in the history is a correct calculation, and `result`
        is the result of the latest one, or 0 when there is none. */
    ghost predicate Valid()
      reads this
    {
      && (forall k :: 0 <= k < |history| ==> Correct(history[k]))
      && result == if history == [] then 0.0 else history[|history| - 1].result
    }

    /** Lines 8-11. */
    constructor()
      ensures result == 0.0 && history == []
      ensures Valid()
    {
      result := 0.0;
      history := [];
    }

    /** Lines 19-23. */
    method Add(a: real, b: real) returns (r: real)
      requires Valid()
      modifies this
      ensures r == a + b && result == r
      ensures history == old(history) + [Calculation(a, Plus, b, r)]
      ensures Valid()
    {
      result := a + b;
      history := history + [Calculation(a, Plus, b, result)];
      r := result;
    }

    /** Lines 31-35. */
    method Subtract(a: real, b: real) returns (r: real)
      requires Valid()
      modifies this
      ensures r == a - b && result == r
      ensures history == old(history) + [Calculation(a, Minus, b, r)]
      ensures Valid()
    {
      result := a - b;
      history := history + [Calculation(a, Minus, b, result)];
      r := result;
    }

    /** Lines 43-47. */
    method Multiply(a: real, b: real) returns (r: real)
      requires Valid()
      modifies this
      ensures r == a * b && result == r
      ensures history == old(history) + [Calculation(a, Times, b, r)]
      ensures Valid()
    {
      result := a * b;
      history := history + [Calculation(a, Times, b, result)];
      r := result;
    }

    /** Lines 56-63: the zero check comes before any change, so a division
        by zero leaves `result` and `history` as they were. */
    method Divide(a: real, b: real) returns (outcome: Outcome)
      requires Valid()
      modifies this
      ensures b == 0.0 ==> outcome == DivideByZero && result == old(result) && history == old(history)
      ensures b != 0.0 ==> outcome == Value(a / b) && result == a / b
                           && history == old(history) + [Calculation(a, Over, b, a / b)]
      ensures Valid()
    {
      if b == 0.0 {
        return DivideByZero;
      }
      result := a / b;
      history := history + [Calculation(a, Over, b, result)];
      outcome := Value(result);
    }

    /** Lines 69-71. */
    method GetHistory() returns (h: seq<Calculation>)
      ensures h == history
    {
      h := history;
    }

    /** Lines 76-79. */
    method Clear()
      modifies this
      ensures result == 0.0 && history == []
      ensures Valid()
    {
      result := 0.0;
      history := [];
    }

    /** Lines 85-87. */
    method GetCurrentResult() returns (r: real)
      requires Valid()
      ensures r == result
      ensures r == if history == [] then 0.0 else history[|history| - 1].result
    {
      r := result;
    }
  }
}
