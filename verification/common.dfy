/** Shared vocabulary of the model: the exceptions the sum operator can raise,
    a result type that carries them, and two small helpers. */
module Common {

  /** The exceptions a call on a sum operator can end in. */
  datatype Error =
    | ConstructionError   // an operand that is neither an operator nor a tensor (RuntimeError)
    | InvalidOperand      // `+` with something that is not an operator (AttributeError)
    | IndexError          // `[0]` or `[-1]` on an empty list of children
    | ShapeMismatch       // the tensor library adding tensors of different shapes
    | MissingAttribute    // reading an attribute that was never set (AttributeError)
    | TypeMismatch        // adding an operator to a plain tensor value

  /** Either the value a call returns or the exception it raises. */
  datatype Result<+T> = Success(value: T) | Failure(error: Error)

  function Min(a: int, b: int): (m: int)
    ensures m <= a && m <= b
    ensures m == a || m == b
  {
    if a <= b then a else b
  }

  /** Applies `f` to every element, keeping the order. */
  function Map<A, B>(xs: seq<A>, f: A -> B): (ys: seq<B>)
    ensures |ys| == |xs|
    ensures forall k :: 0 <= k < |xs| ==> ys[k] == f(xs[k])
  {
    seq(|xs|, k requires 0 <= k < |xs| => f(xs[k]))
  }
}
