/** The `match` dispatches of src/basic/exhaustiveness_checking.py, whose
    fall-through case calls `assert_never` and so raises for any case the
    match does not handle. */
module Exhaustiveness {
  import opened Wrappers

  datatype Op = Add | Subtract | Multiply

  /** The `AssertionError` raised by `assert_never(op)`. */
  datatype Unhandled<T> = Unhandled(value: T)

  /** `calculate`: adds or subtracts; `Multiply` has no case and fails. */
  function Calculate(left: int, op: Op, right: int): (r: Result<int, Unhandled<Op>>)
    ensures r.Err? <==> op == Multiply
    ensures r.Err? ==> r.error == Unhandled(op)
  {
    match op
    case Add => Ok(left + right)
    case Subtract => Ok(left - right)
    case _ => Err(Unhandled(op))
  }

  /** Subtracting what was added gives back the left operand, and the
      reverse. */
  lemma AddSubtractInverse(left: int, right: int)
    ensures Calculate(left, Add, right).Ok? && Calculate(left, Subtract, right).Ok?
    ensures Calculate(Calculate(left, Add, right).value, Subtract, right) == Ok(left)
    ensures Calculate(Calculate(left, Subtract, right).value, Add, right) == Ok(left)
  {
  }

  /** The calls at the end of the module: 8, 2, and a failure. */
  lemma CalculateExamples()
    ensures Calculate(5, Add, 3) == Ok(8)
    ensures Calculate(5, Subtract, 3) == Ok(2)
    ensures Calculate(5, Multiply, 3).Err?
  {
  }

  /** The values `process` can be given. A Python `bool` is an `int`, so
      `case int()` takes it too. A float is carried without its value. */
  datatype Value = IntValue(i: int) | BoolValue(b: bool) | StrValue(s: string) | FloatValue

  /** Which case of `process` handled a value. */
  datatype Handled = Integer | Text

  /** `process`: handles integers (booleans included) and strings; any
      other value, such as a float, fails. */
  function Process(value: Value): (r: Result<Handled, Unhandled<Value>>)
    ensures r.Err? <==> value.FloatValue?
    ensures r == Ok(Integer) <==> value.IntValue? || value.BoolValue?
    ensures r == Ok(Text) <==> value.StrValue?
    ensures r.Err? ==> r.error == Unhandled(value)
  {
    match value
    case IntValue(_) => Ok(Integer)
    case BoolValue(_) => Ok(Integer)
    case StrValue(_) => Ok(Text)
    case _ => Err(Unhandled(value))
  }
}
