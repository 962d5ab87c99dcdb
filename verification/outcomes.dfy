/**
 Failure-compatible results and the few Python/numpy primitives the rest of
 the model is written in terms of.

 The Python code signals every failure by raising an exception; here each
 raising path returns `Err` with the kind of exception it raises, so that a
 caller can tell "unsupported configuration" from "broken invariant" from
 "numerical failure", as the code does.
 */
module Outcomes {

  datatype Option<+T> = None | Some(value: T)

  /** The exceptions the modelled code can raise. */
  datatype Error =
    | NotImplemented     // NotImplementedError: an id the fixed catalogs do not know
    | AssertionFailed    // AssertionError from a validation `assert`
    | IndexError         // a sequence index outside the sequence
    | ShapeMismatch      // numpy ValueError: arrays of different lengths combined elementwise
    | NegativeDimension  // numpy ValueError: np.zeros with a negative length
    | NonFinite          // int() of inf or nan left by a numpy division by zero
    | ZeroDivision       // Python ZeroDivisionError
    | LowTooHigh         // calibration: the lower bracket end already overshoots
    | HighTooLow         // calibration: the upper bracket end still undershoots
    | OutOfFuel          // calibration: the iteration cap of the model was reached

  datatype Result<+T> = Ok(value: T) | Err(error: Error) {

    predicate IsFailure() {
      Err?
    }

    function PropagateFailure<U>(): Result<U>
      requires Err?
    {
      Err(error)
    }

    function Extract(): T
      requires Ok?
    {
      value
    }
  }

  /** `Ok(())` when the condition holds, the given failure otherwise. */
  function Need(condition: bool, e: Error): (r: Result<()>)
    ensures r.Ok? <==> condition
    ensures r.Err? ==> r.error == e
  {
    if condition then Ok(()) else Err(e)
  }

  /** Python's `int(x)` on a finite float: truncation toward zero. */
  function Trunc(x: real): (r: int)
    ensures 0.0 <= x ==> 0 <= r && r as real <= x < r as real + 1.0
    ensures x < 0.0 ==> r <= 0 && r as real - 1.0 < x <= r as real
  {
    if x >= 0.0 then x.Floor else -((-x).Floor)
  }

  /** The last element, Python's `s[-1]`. */
  function Last<T>(s: seq<T>): T
    requires |s| > 0
  {
    s[|s| - 1]
  }

  /** Python indexing `s[i]`, negative indices counting from the end. */
  function At<T>(s: seq<T>, i: int): (r: Result<T>)
    ensures r.Ok? <==> -|s| <= i < |s|
    ensures r.Err? ==> r.error == IndexError
    ensures 0 <= i < |s| ==> r == Ok(s[i])
  {
    if 0 <= i < |s| then Ok(s[i])
    else if -|s| <= i < 0 then Ok(s[|s| + i])
    else Err(IndexError)
  }
}
