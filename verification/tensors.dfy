/** Integer stand-ins for the tensors the children return, and Python's `+`
    and `sum` over them. A tensor is modelled by its flattened entries; the
    integer 0 that `sum` starts from is a value of its own, because `sum` of
    no children returns it rather than a tensor. */
module Tensors {
  import opened Common

  /** The flattened entries of a tensor. */
  type Vec = seq<int>

  /** A value produced by `+` or `sum`: the integer 0, or a tensor. */
  datatype Tensor = Zero | Entries(values: Vec)

  /** `a + b`: 0 is the identity; two tensors add entry by entry when their
      entry counts agree, and the tensor library raises otherwise. */
  function Plus(a: Tensor, b: Tensor): (r: Result<Tensor>)
    ensures a == Zero ==> r == Success(b)
    ensures b == Zero ==> r == Success(a)
    ensures a.Entries? && b.Entries? ==> (r.Success? <==> |a.values| == |b.values|)
    ensures a.Entries? && b.Entries? && r.Success? ==>
      && r.value.Entries? && |r.value.values| == |a.values|
      && forall j :: 0 <= j < |a.values| ==> r.value.values[j] == a.values[j] + b.values[j]
    ensures r.Failure? ==> r == Failure(ShapeMismatch)
  {
    match (a, b)
    case (Zero, _) => Success(b)
    case (_, Zero) => Success(a)
    case (Entries(x), Entries(y)) =>
      if |x| == |y| then Success(Entries(seq(|x|, j requires 0 <= j < |x| => x[j] + y[j])))
      else Failure(ShapeMismatch)
  }

  /** `+` on the outcomes of two calls: the first exception raised wins. */
  function PlusResults(a: Result<Tensor>, b: Result<Tensor>): Result<Tensor>
  {
    if a.Failure? then a
    else if b.Failure? then b
    else Plus(a.value, b.value)
  }

  /** Python's `sum(vs)`: a left fold of `+` that starts from 0. */
  function SumVecs(vs: seq<Vec>): (r: Result<Tensor>)
    ensures r == Success(Zero) <==> |vs| == 0
    ensures r.Success? && r.value.Entries? ==> |r.value.values| == |vs[|vs| - 1]|
  {
    if |vs| == 0 then Success(Zero)
    else PlusResults(SumVecs(vs[..|vs| - 1]), Success(Entries(vs[|vs| - 1])))
  }

  /** Every tensor in `vs` has `n` entries. */
  predicate Uniform(vs: seq<Vec>, n: nat)
  {
    forall i :: 0 <= i < |vs| ==> |vs[i]| == n
  }

  /** The `j`-th entries of `vs`, added up from the front. */
  function ColumnSum(vs: seq<Vec>, j: nat): int
    requires forall i :: 0 <= i < |vs| ==> j < |vs[i]|
  {
    if |vs| == 0 then 0 else vs[0][j] + ColumnSum(vs[1..], j)
  }

  /** What adding up the children's results means: 0 when there are none;
      the entrywise total when they all have the same entry count; a shape
      error otherwise. */
  ghost predicate IsSumOf(vs: seq<Vec>, r: Result<Tensor>)
  {
    if |vs| == 0 then r == Success(Zero)
    else if Uniform(vs, |vs[0]|) then
      && r.Success? && r.value.Entries?
      && |r.value.values| == |vs[0]|
      && forall j :: 0 <= j < |vs[0]| ==> r.value.values[j] == ColumnSum(vs, j)
    else r == Failure(ShapeMismatch)
  }

  lemma {:induction false} ColumnSumAppend(xs: seq<Vec>, ys: seq<Vec>, j: nat)
    requires forall i :: 0 <= i < |xs| ==> j < |xs[i]|
    requires forall i :: 0 <= i < |ys| ==> j < |ys[i]|
    ensures forall i :: 0 <= i < |xs + ys| ==> j < |(xs + ys)[i]|
    ensures ColumnSum(xs + ys, j) == ColumnSum(xs, j) + ColumnSum(ys, j)
  {
    if |xs| == 0 {
      assert xs + ys == ys;
    } else {
      ColumnSumAppend(xs[1..], ys, j);
      assert (xs + ys)[1..] == xs[1..] + ys;
    }
  }

  /** `IsSumOf` pins the outcome down: at most one outcome is the sum. */
  lemma IsSumOfUnique(vs: seq<Vec>, a: Result<Tensor>, b: Result<Tensor>)
    requires IsSumOf(vs, a) && IsSumOf(vs, b)
    ensures a == b
  {
    if |vs| > 0 && Uniform(vs, |vs[0]|) {
      assert a.value.values == b.value.values;
    }
  }

  /** Adding the sums of two lists of child results is the sum of the
      concatenated list. */
  lemma IsSumOfAppend(xs: seq<Vec>, ys: seq<Vec>, a: Result<Tensor>, b: Result<Tensor>)
    requires IsSumOf(xs, a) && IsSumOf(ys, b)
    ensures IsSumOf(xs + ys, PlusResults(a, b))
  {
    var zs := xs + ys;
    if |xs| == 0 {
      assert zs == ys;
    } else if |ys| == 0 {
      assert zs == xs;
    } else if !Uniform(xs, |xs[0]|) {
      var i :| 0 <= i < |xs| && |xs[i]| != |xs[0]|;
      assert zs[i] == xs[i] && zs[0] == xs[0];
    } else if !Uniform(ys, |ys[0]|) {
      var i :| 0 <= i < |ys| && |ys[i]| != |ys[0]|;
      assert zs[|xs| + i] == ys[i] && zs[|xs|] == ys[0] && zs[0] == xs[0];
    } else if |xs[0]| != |ys[0]| {
      assert zs[|xs|] == ys[0] && zs[0] == xs[0];
    } else {
      var n := |xs[0]|;
      assert Uniform(zs, n) by {
        forall i | 0 <= i < |zs| ensures |zs[i]| == n {
          if i < |xs| { assert zs[i] == xs[i]; } else { assert zs[i] == ys[i - |xs|]; }
        }
      }
      var r := PlusResults(a, b);
      forall j | 0 <= j < n ensures r.value.values[j] == ColumnSum(zs, j) {
        ColumnSumAppend(xs, ys, j);
      }
    }
  }

  /** A single tensor sums to itself. */
  lemma IsSumOfSingle(v: Vec)
    ensures IsSumOf([v], Success(Entries(v)))
  {
    forall j | 0 <= j < |v| ensures ColumnSum([v], j) == v[j] {
      assert [v][1..] == [];
    }
  }

  /** Python's left-to-right `sum` adds the children's results up entry by
      entry, and fails exactly when their entry counts disagree. */
  lemma {:induction false} SumVecsIsSumOf(vs: seq<Vec>)
    ensures IsSumOf(vs, SumVecs(vs))
  {
    if |vs| > 0 {
      var init := vs[..|vs| - 1];
      var last := vs[|vs| - 1];
      SumVecsIsSumOf(init);
      IsSumOfSingle(last);
      IsSumOfAppend(init, [last], SumVecs(init), Success(Entries(last)));
      assert init + [last] == vs;
    }
  }

  /** Summing a concatenation in one go equals adding the two partial sums. */
  lemma SumVecsAppend(xs: seq<Vec>, ys: seq<Vec>)
    ensures SumVecs(xs + ys) == PlusResults(SumVecs(xs), SumVecs(ys))
  {
    SumVecsIsSumOf(xs);
    SumVecsIsSumOf(ys);
    SumVecsIsSumOf(xs + ys);
    IsSumOfAppend(xs, ys, SumVecs(xs), SumVecs(ys));
    IsSumOfUnique(xs + ys, SumVecs(xs + ys), PlusResults(SumVecs(xs), SumVecs(ys)));
  }
}
