/** The two closure factories of a sum operator. Each is handed the
    flattened representation tensors of all children, cuts the window that
    belongs to each child (module Slicing), asks that child's own factory
    for a closure over its window, and returns a closure over the list of
    per-child closures: the matmul closure adds their results up, the
    derivative closure concatenates them. A closure is modelled as the list
    of per-child closures it captured, together with the function that
    applies it. */
module Closures {
  import opened Common
  import opened Tensors
  import opened Slicing
  import opened SumOperators

  /** `len(child.representation())` for every child, in child order. */
  function ReprLengths<Op>(children: seq<Op>, reprLen: Op -> nat): seq<nat>
  {
    Map(children, reprLen)
  }

  lemma ReprLengthsAppend<Op>(xs: seq<Op>, ys: seq<Op>, reprLen: Op -> nat)
    ensures ReprLengths(xs + ys, reprLen) == ReprLengths(xs, reprLen) + ReprLengths(ys, reprLen)
  {
    assert Map(xs + ys, reprLen) == Map(xs, reprLen) + Map(ys, reprLen);
  }

  /** The loop both factories run: child `k` is given the window
      `args[off_k:off_k + len_k]` and returns its own closure over it. */
  function SubClosures<Op, F>(children: seq<Op>, reprLen: Op -> nat,
                              childFactory: (Op, seq<Vec>) -> F, args: seq<Vec>): (fs: seq<F>)
    ensures |fs| == |children|
    ensures var lens := ReprLengths(children, reprLen);
      forall k :: 0 <= k < |children| ==>
        fs[k] == childFactory(children[k], Window(args, Offset(lens, k), lens[k]))
  {
    var lens := ReprLengths(children, reprLen);
    var slices := Split(lens, args);
    SplitWindows(lens, args);
    seq(|children|, k requires 0 <= k < |children| => childFactory(children[k], slices[k]))
  }

  /** The closures captured for two groups of children in a row are those
      of the first group followed by those of the second, which reads the
      arguments the first group left over. */
  lemma SubClosuresAppend<Op, F>(xs: seq<Op>, ys: seq<Op>, reprLen: Op -> nat,
                                 childFactory: (Op, seq<Vec>) -> F, args: seq<Vec>)
    ensures var cut := Min(Total(ReprLengths(xs, reprLen)), |args|);
      SubClosures(xs + ys, reprLen, childFactory, args)
      == SubClosures(xs, reprLen, childFactory, args) + SubClosures(ys, reprLen, childFactory, args[cut..])
  {
    var lx := ReprLengths(xs, reprLen);
    var ly := ReprLengths(ys, reprLen);
    var cut := Min(Total(lx), |args|);
    ReprLengthsAppend(xs, ys, reprLen);
    SplitAppend(lx, ly, args);
    var sx := Split(lx, args);
    var sy := Split(ly, args[cut..]);
    SplitWindows(lx, args);
    SplitWindows(ly, args[cut..]);
    SplitWindows(lx + ly, args);
    var whole := SubClosures(xs + ys, reprLen, childFactory, args);
    var left := SubClosures(xs, reprLen, childFactory, args);
    var right := SubClosures(ys, reprLen, childFactory, args[cut..]);
    forall k | 0 <= k < |xs + ys| ensures whole[k] == (left + right)[k] {
      if k < |xs| {
        assert (xs + ys)[k] == xs[k];
        assert (sx + sy)[k] == sx[k];
      } else {
        assert (xs + ys)[k] == ys[k - |xs|];
        assert (sx + sy)[k] == sy[k - |xs|];
      }
    }
  }

  /** Every captured closure applied to the same argument, in child order. */
  function Outputs<X, Y>(subClosures: seq<X -> Y>, x: X): (outs: seq<Y>)
    ensures |outs| == |subClosures|
    ensures forall k :: 0 <= k < |subClosures| ==> outs[k] == subClosures[k](x)
  {
    Map(subClosures, (f: X -> Y) => f(x))
  }

  lemma OutputsAppend<X, Y>(xs: seq<X -> Y>, ys: seq<X -> Y>, x: X)
    ensures Outputs(xs + ys, x) == Outputs(xs, x) + Outputs(ys, x)
  {
  }

  // ---------------------------------------------------------------------
  // Matrix product

  /** The closure `_matmul_closure_factory` returns: it captured one
      closure per child, in child order. */
  datatype MatmulClosure = MatmulClosure(subClosures: seq<Vec -> Vec>)

  /** `_matmul_closure_factory(*args)`: child `k` is given the window
      `args[off_k:off_k + len_k]`, where `len_k` is its representation length
      and `off_k` the total length of the children before it. */
  function MatmulClosureFactory<Op>(s: SumOperator<Op>, reprLen: Op -> nat,
                                    childFactory: (Op, seq<Vec>) -> (Vec -> Vec),
                                    args: seq<Vec>): (c: MatmulClosure)
    ensures |c.subClosures| == |s.children|
    ensures var lens := ReprLengths(s.children, reprLen);
      forall k :: 0 <= k < |s.children| ==>
        c.subClosures[k] == childFactory(s.children[k], Window(args, Offset(lens, k), lens[k]))
  {
    MatmulClosure(SubClosures(s.children, reprLen, childFactory, args))
  }

  /** Calling the matmul closure: the children's products with the same
      right-hand side, added up. */
  function ApplyMatmul(c: MatmulClosure, rhs: Vec): (r: Result<Tensor>)
    ensures IsSumOf(Outputs(c.subClosures, rhs), r)
  {
    SumVecsIsSumOf(Outputs(c.subClosures, rhs));
    SumVecs(Outputs(c.subClosures, rhs))
  }

  /** A closure over two groups of sub-closures computes the first group's
      sum plus the second group's. */
  lemma ApplyMatmulAppend(xs: seq<Vec -> Vec>, ys: seq<Vec -> Vec>, rhs: Vec)
    ensures ApplyMatmul(MatmulClosure(xs + ys), rhs)
         == PlusResults(ApplyMatmul(MatmulClosure(xs), rhs), ApplyMatmul(MatmulClosure(ys), rhs))
  {
    OutputsAppend(xs, ys, rhs);
    SumVecsAppend(Outputs(xs, rhs), Outputs(ys, rhs));
  }

  /** Additivity: the product of `s + t` with a right-hand side is the
      product of `s` plus the product of `t`, where `s` reads the first part
      of the flattened arguments and `t` what follows it. */
  lemma MatmulOfAddedSums<Op>(s: SumOperator<Op>, t: SumOperator<Op>, reprLen: Op -> nat,
                              childFactory: (Op, seq<Vec>) -> (Vec -> Vec),
                              args: seq<Vec>, rhs: Vec)
    ensures Add(s, SumAddend(t)).Success?
    ensures var cut := Min(Total(ReprLengths(s.children, reprLen)), |args|);
      ApplyMatmul(MatmulClosureFactory(Add(s, SumAddend(t)).value, reprLen, childFactory, args), rhs)
      == PlusResults(ApplyMatmul(MatmulClosureFactory(s, reprLen, childFactory, args), rhs),
                     ApplyMatmul(MatmulClosureFactory(t, reprLen, childFactory, args[cut..]), rhs))
  {
    var u := Add(s, SumAddend(t)).value;
    assert u.children == s.children + t.children;
    var cut := Min(Total(ReprLengths(s.children, reprLen)), |args|);
    SubClosuresAppend(s.children, t.children, reprLen, childFactory, args);
    var cs := MatmulClosureFactory(s, reprLen, childFactory, args).subClosures;
    var ct := MatmulClosureFactory(t, reprLen, childFactory, args[cut..]).subClosures;
    assert MatmulClosureFactory(u, reprLen, childFactory, args) == MatmulClosure(cs + ct);
    ApplyMatmulAppend(cs, ct, rhs);
  }

  // ---------------------------------------------------------------------
  // Derivative of the quadratic form

  /** The closure `_derivative_quadratic_form_factory` returns: one
      closure per child, each mapping the closure arguments to a tuple of
      per-representation-tensor derivatives. */
  datatype DerivativeClosure = DerivativeClosure(subClosures: seq<seq<Vec> -> seq<Vec>>)

  /** `_derivative_quadratic_form_factory(*args)`: the same windows as the
      matmul factory. */
  function DerivativeClosureFactory<Op>(s: SumOperator<Op>, reprLen: Op -> nat,
                                        childFactory: (Op, seq<Vec>) -> (seq<Vec> -> seq<Vec>),
                                        args: seq<Vec>): (c: DerivativeClosure)
    ensures |c.subClosures| == |s.children|
    ensures var lens := ReprLengths(s.children, reprLen);
      forall k :: 0 <= k < |s.children| ==>
        c.subClosures[k] == childFactory(s.children[k], Window(args, Offset(lens, k), lens[k]))
  {
    DerivativeClosure(SubClosures(s.children, reprLen, childFactory, args))
  }

  /** Calling the derivative closure: the children's output tuples, one
      after the other, never added. Its length is the total of their
      lengths, and child `k`'s tuple is the stretch that starts at the total
      length of the tuples before it. */
  function ApplyDerivative(c: DerivativeClosure, closureArgs: seq<Vec>): (r: seq<Vec>)
    ensures |r| == Total(Lengths(Outputs(c.subClosures, closureArgs)))
    ensures var outs := Outputs(c.subClosures, closureArgs);
      forall k :: 0 <= k < |outs| ==>
        && Offset(Lengths(outs), k) + |outs[k]| <= |r|
        && r[Offset(Lengths(outs), k)..Offset(Lengths(outs), k) + |outs[k]|] == outs[k]
  {
    var outs := Outputs(c.subClosures, closureArgs);
    FlattenLength(outs);
    FlattenBlocks(outs);
    Flatten(outs)
  }

  /** Gradients reach the right child: cutting the derivative closure's
      output by the lengths of the children's tuples gives back each
      child's own tuple. */
  lemma DerivativeRecoversChildren(c: DerivativeClosure, closureArgs: seq<Vec>)
    ensures var outs := Outputs(c.subClosures, closureArgs);
      Split(Lengths(outs), ApplyDerivative(c, closureArgs)) == outs
  {
    SplitFlatten(Outputs(c.subClosures, closureArgs));
  }

  /** A closure over two groups of sub-closures returns the first group's
      tuple followed by the second group's. */
  lemma ApplyDerivativeAppend(xs: seq<seq<Vec> -> seq<Vec>>, ys: seq<seq<Vec> -> seq<Vec>>, closureArgs: seq<Vec>)
    ensures ApplyDerivative(DerivativeClosure(xs + ys), closureArgs)
         == ApplyDerivative(DerivativeClosure(xs), closureArgs) + ApplyDerivative(DerivativeClosure(ys), closureArgs)
  {
    OutputsAppend(xs, ys, closureArgs);
    FlattenAppend(Outputs(xs, closureArgs), Outputs(ys, closureArgs));
  }

  /** The derivative closure of `s + t` returns the tuple of `s` followed by
      the tuple of `t`, each read from its own part of the arguments. */
  lemma DerivativeOfAddedSums<Op>(s: SumOperator<Op>, t: SumOperator<Op>, reprLen: Op -> nat,
                                  childFactory: (Op, seq<Vec>) -> (seq<Vec> -> seq<Vec>),
                                  args: seq<Vec>, closureArgs: seq<Vec>)
    ensures Add(s, SumAddend(t)).Success?
    ensures var cut := Min(Total(ReprLengths(s.children, reprLen)), |args|);
      ApplyDerivative(DerivativeClosureFactory(Add(s, SumAddend(t)).value, reprLen, childFactory, args), closureArgs)
      == ApplyDerivative(DerivativeClosureFactory(s, reprLen, childFactory, args), closureArgs)
       + ApplyDerivative(DerivativeClosureFactory(t, reprLen, childFactory, args[cut..]), closureArgs)
  {
    var u := Add(s, SumAddend(t)).value;
    assert u.children == s.children + t.children;
    var cut := Min(Total(ReprLengths(s.children, reprLen)), |args|);
    SubClosuresAppend(s.children, t.children, reprLen, childFactory, args);
    var cs := DerivativeClosureFactory(s, reprLen, childFactory, args).subClosures;
    var ct := DerivativeClosureFactory(t, reprLen, childFactory, args[cut..]).subClosures;
    assert DerivativeClosureFactory(u, reprLen, childFactory, args) == DerivativeClosure(cs + ct);
    ApplyDerivativeAppend(cs, ct, closureArgs);
  }

  /** When the arguments are exactly the concatenated representations,
      child `k` is given exactly its own representation tensors. */
  lemma FactoriesSeeOwnRepresentation<Op>(s: SumOperator<Op>, reprLen: Op -> nat, reprs: seq<seq<Vec>>)
    requires |reprs| == |s.children|
    requires forall k :: 0 <= k < |s.children| ==> |reprs[k]| == reprLen(s.children[k])
    ensures var lens := ReprLengths(s.children, reprLen);
      forall k :: 0 <= k < |s.children| ==>
        Window(Flatten(reprs), Offset(lens, k), lens[k]) == reprs[k]
  {
    var lens := ReprLengths(s.children, reprLen);
    assert lens == Lengths(reprs);
    SplitFlatten(reprs);
    SplitWindows(lens, Flatten(reprs));
  }
}
