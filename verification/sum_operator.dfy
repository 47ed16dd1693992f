/** `SumLazyVariable`: an operator that stands for the sum of an ordered list
    of child operators. The children are of an abstract type `Op`; every
    capability of a child that the sum calls (its diagonal, its entries, its
    jittered version, ...) is a function parameter of the member that uses
    it, so nothing is assumed about the children beyond what is passed in. */
module SumOperators {
  import opened Common
  import opened Tensors

  /** A sum operator owns its children, in order. */
  datatype SumOperator<Op> = SumOperator(children: seq<Op>)

  /** An argument given to the constructor: an operator, a raw tensor, or
      something else. */
  datatype Operand<Op> = OperatorOperand(op: Op) | TensorOperand(tensor: Vec) | OtherOperand

  /** The right-hand side of `+`: another sum, a single operator, or
      something else. */
  datatype Addend<Op> = SumAddend(sum: SumOperator<Op>) | OperatorAddend(op: Op) | OtherAddend

  /** What a child's `__getitem__` returns: still an operator, or a plain
      tensor value. */
  datatype Indexed<Op> = IndexedOperator(op: Op) | IndexedValue(value: Vec)

  /** What the sum's `__getitem__` returns: a new sum, or a plain value. */
  datatype Item<Op> = ItemSum(sum: SumOperator<Op>) | ItemValue(value: Tensor)

  /** The constructor: operators are kept, raw tensors are wrapped as leaf
      operators by `wrap`, anything else raises. */
  function Construct<Op>(operands: seq<Operand<Op>>, wrap: Vec -> Op): (r: Result<SumOperator<Op>>)
    ensures r.Success? <==> forall i :: 0 <= i < |operands| ==> !operands[i].OtherOperand?
    ensures r.Failure? ==> r.error == ConstructionError
    ensures r.Success? ==> |r.value.children| == |operands|
    ensures r.Success? ==> forall i :: 0 <= i < |operands| ==>
      && (operands[i].OperatorOperand? ==> r.value.children[i] == operands[i].op)
      && (operands[i].TensorOperand? ==> r.value.children[i] == wrap(operands[i].tensor))
  {
    if |operands| == 0 then Success(SumOperator([]))
    else
      var rest := Construct(operands[1..], wrap);
      match operands[0]
      case OtherOperand => Failure(ConstructionError)
      case OperatorOperand(op) =>
        if rest.Failure? then rest else Success(SumOperator([op] + rest.value.children))
      case TensorOperand(t) =>
        if rest.Failure? then rest else Success(SumOperator([wrap(t)] + rest.value.children))
  }

  /** Operands that are all operators already come through construction
      unchanged; this is how `+`, `add_jitter` and `sum_batch` rebuild a sum. */
  lemma ConstructKeepsOperators<Op>(ops: seq<Op>, wrap: Vec -> Op)
    ensures Construct(Map(ops, (op: Op) => OperatorOperand(op)), wrap) == Success(SumOperator(ops))
  {
    var r := Construct(Map(ops, (op: Op) => OperatorOperand(op)), wrap);
    assert r.value.children == ops;
  }

  /** `self + other`. Adding a sum concatenates the two child lists, so sums
      never nest; adding an operator appends it; anything else raises. */
  function Add<Op>(s: SumOperator<Op>, other: Addend<Op>): (r: Result<SumOperator<Op>>)
    ensures r.Success? <==> !other.OtherAddend?
    ensures r.Failure? ==> r.error == InvalidOperand
    ensures r.Success? ==>
      |s.children| <= |r.value.children| && r.value.children[..|s.children|] == s.children
    ensures other.SumAddend? ==>
      && r.Success?
      && |r.value.children| == |s.children| + |other.sum.children|
      && r.value.children[|s.children|..] == other.sum.children
    ensures other.OperatorAddend? ==>
      && r.Success?
      && |r.value.children| == |s.children| + 1
      && r.value.children[|s.children|] == other.op
  {
    match other
    case SumAddend(t) => Success(SumOperator(s.children + t.children))
    case OperatorAddend(op) => Success(SumOperator(s.children + [op]))
    case OtherAddend => Failure(InvalidOperand)
  }

  /** Because `+` flattens, the grouping of repeated additions does not
      matter: `(s + t) + u` and `s + (t + u)` have the same children. */
  lemma AddAssociative<Op>(s: SumOperator<Op>, t: SumOperator<Op>, u: SumOperator<Op>)
    ensures Add(s, SumAddend(t)).Success? && Add(t, SumAddend(u)).Success?
    ensures Add(Add(s, SumAddend(t)).value, SumAddend(u)) == Add(s, SumAddend(Add(t, SumAddend(u)).value))
  {
    assert (s.children + t.children) + u.children == s.children + (t.children + u.children);
  }

  /** Appending one operator is the same as adding a one-child sum. */
  lemma AddOperatorIsAddSingleton<Op>(s: SumOperator<Op>, op: Op)
    ensures Add(s, OperatorAddend(op)) == Add(s, SumAddend(SumOperator([op])))
  {
  }

  /** `_size`: the size of the first child; an empty sum raises on `[0]`. */
  function Size<Op>(s: SumOperator<Op>, childSize: Op -> seq<nat>): (r: Result<seq<nat>>)
    ensures r.Failure? <==> |s.children| == 0
    ensures r.Failure? ==> r.error == IndexError
    ensures r.Success? ==> r.value == childSize(s.children[0])
  {
    if |s.children| == 0 then Failure(IndexError) else Success(childSize(s.children[0]))
  }

  /** Adding to a non-empty sum does not change its size. */
  lemma SizeOfAdd<Op>(s: SumOperator<Op>, other: Addend<Op>, childSize: Op -> seq<nat>)
    requires |s.children| > 0 && !other.OtherAddend?
    ensures Add(s, other).Success?
    ensures Size(Add(s, other).value, childSize) == Size(s, childSize)
  {
    assert Add(s, other).value.children[0] == s.children[0];
  }

  /** `add_jitter`: a new sum whose last child is replaced by its jittered
      version; an empty sum raises on `[-1]`. */
  function AddJitter<Op>(s: SumOperator<Op>, jitter: Op -> Op): (r: Result<SumOperator<Op>>)
    ensures r.Failure? <==> |s.children| == 0
    ensures r.Failure? ==> r.error == IndexError
    ensures r.Success? ==>
      && |r.value.children| == |s.children|
      && (forall k :: 0 <= k < |s.children| - 1 ==> r.value.children[k] == s.children[k])
      && r.value.children[|s.children| - 1] == jitter(s.children[|s.children| - 1])
  {
    var n := |s.children|;
    if n == 0 then Failure(IndexError)
    else Success(SumOperator(s.children[..n - 1] + [jitter(s.children[n - 1])]))
  }

  /** Jittering a sum whose last summand was appended by `+` is appending
      the jittered summand instead. */
  lemma AddJitterOfAppend<Op>(s: SumOperator<Op>, op: Op, jitter: Op -> Op)
    ensures Add(s, OperatorAddend(op)).Success?
    ensures AddJitter(Add(s, OperatorAddend(op)).value, jitter) == Add(s, OperatorAddend(jitter(op)))
  {
    var appended := s.children + [op];
    assert appended[..|appended| - 1] == s.children;
  }

  /** Jittering keeps the size when there are other children before the
      last one, or when the jitter keeps that child's size. */
  lemma SizeAfterJitter<Op>(s: SumOperator<Op>, jitter: Op -> Op, childSize: Op -> seq<nat>)
    requires |s.children| >= 2
      || (|s.children| == 1 && childSize(jitter(s.children[0])) == childSize(s.children[0]))
    ensures AddJitter(s, jitter).Success?
    ensures Size(AddJitter(s, jitter).value, childSize) == Size(s, childSize)
  {
  }

  /** `diag`: the sum of the children's diagonals. */
  function Diag<Op>(s: SumOperator<Op>, childDiag: Op -> Vec): (r: Result<Tensor>)
    ensures IsSumOf(Map(s.children, childDiag), r)
  {
    SumVecsIsSumOf(Map(s.children, childDiag));
    SumVecs(Map(s.children, childDiag))
  }

  /** The diagonal of `s + t` is the diagonal of `s` plus that of `t`. */
  lemma DiagOfAddedSums<Op>(s: SumOperator<Op>, t: SumOperator<Op>, childDiag: Op -> Vec)
    ensures Add(s, SumAddend(t)).Success?
    ensures Diag(Add(s, SumAddend(t)).value, childDiag) == PlusResults(Diag(s, childDiag), Diag(t, childDiag))
  {
    var u := Add(s, SumAddend(t)).value;
    assert Map(u.children, childDiag) == Map(s.children, childDiag) + Map(t.children, childDiag);
    SumVecsAppend(Map(s.children, childDiag), Map(t.children, childDiag));
  }

  /** Every child's `_get_indices` at the same indices, in child order. */
  function ChildEntries<Op>(children: seq<Op>, childGet: (Op, Vec, Vec) -> Vec, left: Vec, right: Vec): (vs: seq<Vec>)
    ensures |vs| == |children|
    ensures forall k :: 0 <= k < |children| ==> vs[k] == childGet(children[k], left, right)
  {
    Map(children, (c: Op) => childGet(c, left, right))
  }

  /** `_get_indices`: the sum of the children's entries at the same indices. */
  function GetIndices<Op>(s: SumOperator<Op>, childGet: (Op, Vec, Vec) -> Vec, left: Vec, right: Vec): (r: Result<Tensor>)
    ensures IsSumOf(ChildEntries(s.children, childGet, left, right), r)
  {
    SumVecsIsSumOf(ChildEntries(s.children, childGet, left, right));
    SumVecs(ChildEntries(s.children, childGet, left, right))
  }

  /** Every child's `_batch_get_indices` at the same indices, in child order. */
  function ChildBatchEntries<Op>(children: seq<Op>, childGet: (Op, Vec, Vec, Vec) -> Vec,
                                 batch: Vec, left: Vec, right: Vec): (vs: seq<Vec>)
    ensures |vs| == |children|
    ensures forall k :: 0 <= k < |children| ==> vs[k] == childGet(children[k], batch, left, right)
  {
    Map(children, (c: Op) => childGet(c, batch, left, right))
  }

  /** `_batch_get_indices`: the sum of the children's entries at the same
      batch, row and column indices. */
  function BatchGetIndices<Op>(s: SumOperator<Op>, childGet: (Op, Vec, Vec, Vec) -> Vec,
                               batch: Vec, left: Vec, right: Vec): (r: Result<Tensor>)
    ensures IsSumOf(ChildBatchEntries(s.children, childGet, batch, left, right), r)
  {
    SumVecsIsSumOf(ChildBatchEntries(s.children, childGet, batch, left, right));
    SumVecs(ChildBatchEntries(s.children, childGet, batch, left, right))
  }

  /** The entries of `s + t` are the entries of `s` plus those of `t`. */
  lemma GetIndicesOfAddedSums<Op>(s: SumOperator<Op>, t: SumOperator<Op>, childGet: (Op, Vec, Vec) -> Vec, left: Vec, right: Vec)
    ensures Add(s, SumAddend(t)).Success?
    ensures GetIndices(Add(s, SumAddend(t)).value, childGet, left, right)
      == PlusResults(GetIndices(s, childGet, left, right), GetIndices(t, childGet, left, right))
  {
    var u := Add(s, SumAddend(t)).value;
    var xs := ChildEntries(s.children, childGet, left, right);
    var ys := ChildEntries(t.children, childGet, left, right);
    assert ChildEntries(u.children, childGet, left, right) == xs + ys;
    SumVecsAppend(xs, ys);
  }

  /** `sum_batch`: a sum of the children's batch-sums, same count and order. */
  function SumBatch<Op>(s: SumOperator<Op>, childSumBatch: Op -> Op): (r: SumOperator<Op>)
    ensures |r.children| == |s.children|
    ensures forall k :: 0 <= k < |s.children| ==> r.children[k] == childSumBatch(s.children[k])
  {
    SumOperator(Map(s.children, childSumBatch))
  }

  /** Batch-summing distributes over `+`. */
  lemma SumBatchOfAddedSums<Op>(s: SumOperator<Op>, t: SumOperator<Op>, childSumBatch: Op -> Op)
    ensures Add(s, SumAddend(t)).Success?
    ensures Add(SumBatch(s, childSumBatch), SumAddend(SumBatch(t, childSumBatch)))
      == Success(SumBatch(Add(s, SumAddend(t)).value, childSumBatch))
  {
    var u := Add(s, SumAddend(t)).value;
    assert SumBatch(u, childSumBatch).children
      == SumBatch(s, childSumBatch).children + SumBatch(t, childSumBatch).children;
  }

  /** Every child's `__getitem__` with the same index, in child order. */
  function ChildItems<Op, I>(children: seq<Op>, index: I, childGetItem: (Op, I) -> Indexed<Op>): (items: seq<Indexed<Op>>)
    ensures |items| == |children|
    ensures forall k :: 0 <= k < |children| ==> items[k] == childGetItem(children[k], index)
  {
    Map(children, (c: Op) => childGetItem(c, index))
  }

  /** A child result handed back to the constructor. */
  function AsOperand<Op>(x: Indexed<Op>): Operand<Op>
  {
    match x
    case IndexedOperator(op) => OperatorOperand(op)
    case IndexedValue(v) => TensorOperand(v)
  }

  predicate AllValues<Op>(items: seq<Indexed<Op>>)
  {
    forall k :: 0 <= k < |items| ==> items[k].IndexedValue?
  }

  function Values<Op>(items: seq<Indexed<Op>>): (vs: seq<Vec>)
    requires AllValues(items)
    ensures |vs| == |items|
    ensures forall k :: 0 <= k < |items| ==> vs[k] == items[k].value
  {
    seq(|items|, k requires 0 <= k < |items| => items[k].value)
  }

  /** The plain value an outcome of `__getitem__` denotes, if it is one. */
  function ValueOf<Op>(r: Result<Item<Op>>): Result<Tensor>
  {
    match r
    case Failure(e) => Failure(e)
    case Success(ItemValue(v)) => Success(v)
    case Success(ItemSum(_)) => Failure(TypeMismatch)
  }

  /** `__getitem__`: index every child. When the first result is still an
      operator the results become the children of a new sum (any plain
      value among them wrapped as a leaf); otherwise the results are added
      up. An empty sum raises on `results[0]`. */
  function GetItem<Op, I>(s: SumOperator<Op>, index: I, childGetItem: (Op, I) -> Indexed<Op>, wrap: Vec -> Op): (r: Result<Item<Op>>)
    ensures r == Failure(IndexError) <==> |s.children| == 0
    ensures var items := ChildItems(s.children, index, childGetItem);
      |items| > 0 && items[0].IndexedOperator? ==>
        && r.Success? && r.value.ItemSum?
        && |r.value.sum.children| == |items|
        && forall k :: 0 <= k < |items| ==>
          && (items[k].IndexedOperator? ==> r.value.sum.children[k] == items[k].op)
          && (items[k].IndexedValue? ==> r.value.sum.children[k] == wrap(items[k].value))
    ensures var items := ChildItems(s.children, index, childGetItem);
      |items| > 0 && AllValues(items) ==> IsSumOf(Values(items), ValueOf(r))
    ensures var items := ChildItems(s.children, index, childGetItem);
      |items| > 0 && items[0].IndexedValue? && !AllValues(items) ==> r == Failure(TypeMismatch)
  {
    var items := ChildItems(s.children, index, childGetItem);
    if |items| == 0 then Failure(IndexError)
    else if items[0].IndexedOperator? then
      var rebuilt := Construct(Map(items, AsOperand), wrap);
      Success(ItemSum(rebuilt.value))
    else if !AllValues(items) then Failure(TypeMismatch)
    else
      var total := SumVecs(Values(items));
      SumVecsIsSumOf(Values(items));
      if total.Failure? then Failure(total.error) else Success(ItemValue(total.value))
  }

  /** Reading an attribute of a sum operator: the constructor sets
      `lazy_vars` and nothing else of the sum's own. */
  function Attribute<Op>(s: SumOperator<Op>, name: string): (r: Result<seq<Op>>)
  {
    if name == "lazy_vars" then Success(s.children) else Failure(MissingAttribute)
  }

  /** `_transpose_nonbatch` reading its children from attribute `name`: a
      sum of the transposes of what it finds there. */
  function TransposeFrom<Op>(s: SumOperator<Op>, name: string, childTranspose: Op -> Op): Result<SumOperator<Op>>
  {
    match Attribute(s, name)
    case Failure(e) => Failure(e)
    case Success(children) => Success(SumOperator(Map(children, childTranspose)))
  }

  /** `_transpose_nonbatch` as written: it iterates `self.lazy_var`, an
      attribute the constructor never sets, so every call raises
      AttributeError. */
  function TransposeNonbatchAsWritten<Op>(s: SumOperator<Op>, childTranspose: Op -> Op): (r: Result<SumOperator<Op>>)
    ensures r == Failure(MissingAttribute)
  {
    TransposeFrom(s, "lazy_var", childTranspose)
  }

  /** `_transpose_nonbatch` as intended, reading `lazy_vars`: a sum of the
      children's transposes, in the same order. */
  function TransposeNonbatch<Op>(s: SumOperator<Op>, childTranspose: Op -> Op): (r: SumOperator<Op>)
    ensures |r.children| == |s.children|
    ensures forall k :: 0 <= k < |s.children| ==> r.children[k] == childTranspose(s.children[k])
  {
    TransposeFrom(s, "lazy_vars", childTranspose).value
  }

  /** The discrepancy lies in the attribute name alone: `lazy_vars` is the
      only name under which the transpose succeeds, so the written method
      fails on every sum, even one whose intended transpose has a child for
      each of its children. */
  lemma TransposeAsWrittenNeverSucceeds<Op>(s: SumOperator<Op>, childTranspose: Op -> Op)
    ensures forall name :: TransposeFrom(s, name, childTranspose).Success? <==> name == "lazy_vars"
    ensures TransposeNonbatchAsWritten(s, childTranspose).Failure?
         && |TransposeNonbatch(s, childTranspose).children| == |s.children|
  {
  }

  /** Transposing twice gives the sum back when every child's transpose is
      an involution. */
  lemma TransposeTwice<Op>(s: SumOperator<Op>, childTranspose: Op -> Op)
    requires forall k :: 0 <= k < |s.children| ==> childTranspose(childTranspose(s.children[k])) == s.children[k]
    ensures TransposeNonbatch(TransposeNonbatch(s, childTranspose), childTranspose) == s
  {
    assert TransposeNonbatch(TransposeNonbatch(s, childTranspose), childTranspose).children == s.children;
  }

  /** Transposing distributes over `+`. */
  lemma TransposeOfAddedSums<Op>(s: SumOperator<Op>, t: SumOperator<Op>, childTranspose: Op -> Op)
    ensures Add(s, SumAddend(t)).Success?
    ensures Add(TransposeNonbatch(s, childTranspose), SumAddend(TransposeNonbatch(t, childTranspose)))
      == Success(TransposeNonbatch(Add(s, SumAddend(t)).value, childTranspose))
  {
    var u := Add(s, SumAddend(t)).value;
    assert TransposeNonbatch(u, childTranspose).children
      == TransposeNonbatch(s, childTranspose).children + TransposeNonbatch(t, childTranspose).children;
  }
}
