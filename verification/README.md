# SumLazyVariable, modelled in Dafny

This project models `SumLazyVariable` from gpytorch
(`gpytorch/lazy/sum_lazy_variable.py`). It is a lazy operator that stands
for the elementwise sum of an ordered list of child operators (`lazy_vars`).
It has no numerics of its own. Most calls are fanned out to every child and
the results combined: summed (products, diagonals, entries, cache roots) or
concatenated (derivatives). `_size` asks only the first child, `add_jitter`
jitters only the last child and keeps the others, `sum_batch` builds a new
sum from the children's results, and `__getitem__` does the same when the
first child returns an operator and sums the results otherwise. `+` calls
no child at all: it concatenates the child lists, or appends a single
operator.

The children are an abstract type `Op`. Each child capability the sum calls
is a function parameter of the member that uses it: representation length,
closure factories, `size()`, `diag`, `_get_indices`, `_batch_get_indices`,
`add_jitter`, `t()`, `sum_batch`, `__getitem__`, the predictive-cache
routines, and the `NonLazyVariable` wrapper. Tensors are modelled by their
flattened integer entries (`Vec`). Python's `sum(...)` is modelled as a
left fold of `+` that starts from the integer `0` (`Tensors.SumVecs`).
Adding tensors whose entry counts differ raises `ShapeMismatch`. Every
exception the sum raises itself is returned as a `Result` naming it.

Modules:

- `Common`: the exceptions, `Result`, `Min`, `Map`.
- `Tensors`: `Vec`, Python `+` and `sum`, and `IsSumOf`. `IsSumOf` is the
  independent characterisation of "the entrywise total of these results"
  that the summing operations are proved against.
- `Slicing`: the representation-slicing protocol. It contains the offset
  loop `SliceArgs`, the reference partition `Split`, the window
  `args[i:i + len]` with Python's clamping, and the proofs that the windows
  partition the argument list.
- `SumOperators`: construction, `+`, `_size`, `add_jitter`, `diag`,
  `_get_indices`, `_batch_get_indices`, `sum_batch`, `__getitem__` and
  `_transpose_nonbatch`.
- `Closures`: `_matmul_closure_factory` and `_derivative_quadratic_form_factory`.
  Each returned closure is the list of per-child closures it captured, plus
  the function that calls it.
- `PredictiveCache`: `_exact_predictive_covar_inv_quad_form_cache` and
  `_exact_predictive_covar_inv_quad_form_root`. Caches are opaque values.
- `Scenario`: a worked instance with two dense 3 x 3 children.

Behaviour of the code worth knowing when reading the model:

- The constructor accepts an empty operand list. `_size`, `add_jitter` and
  `__getitem__` then raise `IndexError`, and the summing operations return
  the integer `0`.
- The predictive cache pairs children with Python's `zip`, which stops at
  the shorter list. It does not check that the test-train sum has as many
  children.
- Nested sums are flattened only by `+`, not by the constructor:
  `SumLazyVariable(SumLazyVariable(a, b), c)` has two children.

## Model

| member | source | states |
|---|---|---|
| SumOperators.Construct | gpytorch/lazy/sum_lazy_variable.py:12-22 | construction succeeds exactly when no operand is neither an operator nor a tensor, and otherwise raises the construction error; on success the children are as many as the operands and in the same order, each operator kept as is and each raw tensor wrapped as a leaf |
| SumOperators.ConstructKeepsOperators | gpytorch/lazy/sum_lazy_variable.py:12-22 | operands that are all operators become exactly the children |
| Slicing.SliceArgs | gpytorch/lazy/sum_lazy_variable.py:25-31 | the offset loop cuts one window per child, and child k gets args[off_k:off_k + len_k], where off_k is the total length of the earlier children |
| Slicing.Window | gpytorch/lazy/sum_lazy_variable.py:29 | Python's slice `args[i:i + len_repr]`: it holds min(len_repr, what is left after i) elements, the j-th being args[i + j], so a slice past the end is cut short or empty |
| Slicing.OffsetWindowsPartition | gpytorch/lazy/sum_lazy_variable.py:27-31 | the offset windows concatenate to the part of args the lengths cover, so to args itself when the lengths add up to len(args), and then each window has exactly its child's length |
| Slicing.WindowsAreSplit | gpytorch/lazy/sum_lazy_variable.py:27-31 | any list holding, for every child, its offset window is the reference partition |
| Slicing.OffsetStep | gpytorch/lazy/sum_lazy_variable.py:31 | the running offset after child k is the offset before it plus that child's length |
| Slicing.SplitWindows | gpytorch/lazy/sum_lazy_variable.py:27-31 | the reference partition, which takes each child's share from the front of what is left, gives child k the offset window |
| Slicing.SplitPartition | gpytorch/lazy/sum_lazy_variable.py:27-31 | the windows are contiguous and disjoint: their concatenation is the prefix of args that the lengths cover |
| Slicing.SplitLengths | gpytorch/lazy/sum_lazy_variable.py:28-29 | when args is at least as long as the total, every window has exactly its child's representation length |
| Slicing.SplitFlatten | gpytorch/lazy/sum_lazy_variable.py:27-31 | round trip: cutting a concatenation by its blocks' lengths gives back the blocks |
| Slicing.FlattenSplit | gpytorch/lazy/sum_lazy_variable.py:27-31 | round trip: when len(args) is the total, the windows concatenate back to args |
| Slicing.SplitAppend | gpytorch/lazy/sum_lazy_variable.py:27-31 | partitioning for two groups of children in a row is partitioning for the first group, then for the second on what the first left over |
| Closures.SubClosures | gpytorch/lazy/sum_lazy_variable.py:25-31 | one sub-closure per child, in child order, each obtained from that child's factory on its own offset window |
| Closures.SubClosuresAppend | gpytorch/lazy/sum_lazy_variable.py:25-31 | the sub-closures for two groups in a row are those of the first group followed by those of the second, read from what the first left over |
| Closures.FactoriesSeeOwnRepresentation | gpytorch/lazy/sum_lazy_variable.py:27-31 | when the arguments are the children's representations concatenated in order, every child is given exactly its own representation |
| Closures.MatmulClosureFactory | gpytorch/lazy/sum_lazy_variable.py:24-31 | the matmul closure captured one sub-closure per child, built on that child's window |
| Closures.ApplyMatmul | gpytorch/lazy/sum_lazy_variable.py:33-34 | calling the closure on rhs gives the entrywise sum of every sub-closure applied to the same rhs; 0 with no children; a shape error when their entry counts differ |
| Closures.ApplyMatmulAppend | gpytorch/lazy/sum_lazy_variable.py:33-34 | a matmul closure over two groups of sub-closures returns the first group's sum plus the second group's |
| Closures.MatmulOfAddedSums | gpytorch/lazy/sum_lazy_variable.py:24-35 | additivity: the product of s + t is the product of s plus the product of t, each reading its own part of the arguments |
| Closures.DerivativeClosureFactory | gpytorch/lazy/sum_lazy_variable.py:37-44 | the derivative closure captured one sub-closure per child, built on the same windows as the matmul factory |
| Closures.ApplyDerivative | gpytorch/lazy/sum_lazy_variable.py:46-47 | the output is never a sum: its length is the total of the children's tuple lengths, and child k's tuple sits at the total length of the tuples before it |
| Closures.DerivativeRecoversChildren | gpytorch/lazy/sum_lazy_variable.py:46-47 | cutting the output by the children's tuple lengths gives back each child's own tuple |
| Closures.ApplyDerivativeAppend | gpytorch/lazy/sum_lazy_variable.py:46-47 | a derivative closure over two groups of sub-closures returns the first group's tuple followed by the second group's |
| Closures.DerivativeOfAddedSums | gpytorch/lazy/sum_lazy_variable.py:37-48 | the derivative output of s + t is that of s followed by that of t |
| SumOperators.Size | gpytorch/lazy/sum_lazy_variable.py:50-51 | the size is the first child's size; it raises IndexError exactly when there are no children |
| SumOperators.SizeOfAdd | gpytorch/lazy/sum_lazy_variable.py:50-51 | adding to a non-empty sum does not change its size |
| SumOperators.TransposeNonbatchAsWritten | gpytorch/lazy/sum_lazy_variable.py:53-55 | reading the unset attribute `lazy_var` makes every call raise AttributeError |
| SumOperators.TransposeNonbatch | gpytorch/lazy/sum_lazy_variable.py:53-55 | the intended transpose is a sum with as many children, child k being the transpose of child k |
| SumOperators.TransposeAsWrittenNeverSucceeds | gpytorch/lazy/sum_lazy_variable.py:53-55 | `lazy_vars` is the only attribute, among those this class sets, under which the transpose succeeds, so the written method, reading `lazy_var`, fails on every sum, even one whose intended transpose has a child for each of its children |
| SumOperators.TransposeTwice | gpytorch/lazy/sum_lazy_variable.py:53-55 | transposing twice gives the sum back when each child's transpose is an involution |
| SumOperators.TransposeOfAddedSums | gpytorch/lazy/sum_lazy_variable.py:53-55 | transposing distributes over `+` |
| SumOperators.BatchGetIndices | gpytorch/lazy/sum_lazy_variable.py:57-59 | the entries are the entrywise sum of the children's entries at the same batch, row and column indices |
| SumOperators.GetIndices | gpytorch/lazy/sum_lazy_variable.py:61-63 | the entries are the entrywise sum of the children's entries at the same row and column indices |
| SumOperators.GetIndicesOfAddedSums | gpytorch/lazy/sum_lazy_variable.py:61-63 | the entries of s + t are the entries of s plus those of t |
| SumOperators.AddJitter | gpytorch/lazy/sum_lazy_variable.py:65-68 | the result has as many children, all but the last unchanged and the last replaced by its jittered version; an empty sum raises IndexError, and only it does |
| SumOperators.AddJitterOfAppend | gpytorch/lazy/sum_lazy_variable.py:65-68 | jittering s + op is appending the jittered op to s |
| SumOperators.SizeAfterJitter | gpytorch/lazy/sum_lazy_variable.py:65-68 | jittering keeps the size when there are at least two children, or when the jitter keeps the only child's size |
| PredictiveCache.ZipBuild | gpytorch/lazy/sum_lazy_variable.py:71-73 | zipping children with test-train children gives as many entries as the shorter list, entry k built from child k and test child k |
| PredictiveCache.BuildCache | gpytorch/lazy/sum_lazy_variable.py:70-73 | the cache has one entry per zipped pair, entry k built by child k from the shared training inverse root and test-train child k |
| PredictiveCache.ZipRoots | gpytorch/lazy/sum_lazy_variable.py:78-80 | the three-way zip has the length of the shortest list, term k computed by child k from cache entry k and test-train child k |
| PredictiveCache.ApplyCache | gpytorch/lazy/sum_lazy_variable.py:75-80 | the root is the entrywise sum of the children's root terms over the zipped triples |
| PredictiveCache.CachePairing | gpytorch/lazy/sum_lazy_variable.py:70-80 | building the cache and applying it sums, child by child, what each child computes from its own freshly built cache |
| PredictiveCache.CacheOfAddedSums | gpytorch/lazy/sum_lazy_variable.py:70-73 | the cache of s + t is the cache of s followed by the cache of t when the test-train sums are joined the same way |
| PredictiveCache.RootOfAddedSums | gpytorch/lazy/sum_lazy_variable.py:75-80 | the root of s + t is the root of s plus the root of t when caches and test-train sums are joined the same way |
| SumOperators.Add | gpytorch/lazy/sum_lazy_variable.py:82-88 | adding a sum concatenates the child lists without nesting; adding an operator appends it; anything else raises, and only that does |
| SumOperators.AddAssociative | gpytorch/lazy/sum_lazy_variable.py:83-84 | because `+` flattens, (s + t) + u and s + (t + u) are the same sum |
| SumOperators.AddOperatorIsAddSingleton | gpytorch/lazy/sum_lazy_variable.py:83-86 | appending an operator is adding a one-child sum |
| SumOperators.Diag | gpytorch/lazy/sum_lazy_variable.py:90-91 | the diagonal is the entrywise sum of the children's diagonals |
| SumOperators.DiagOfAddedSums | gpytorch/lazy/sum_lazy_variable.py:90-91 | the diagonal of s + t is the diagonal of s plus that of t |
| SumOperators.SumBatch | gpytorch/lazy/sum_lazy_variable.py:93-94 | a sum with as many children, child k being the batch sum of child k |
| SumOperators.SumBatchOfAddedSums | gpytorch/lazy/sum_lazy_variable.py:93-94 | batch summing distributes over `+` |
| SumOperators.GetItem | gpytorch/lazy/sum_lazy_variable.py:96-101 | with no children it raises IndexError, and only then; when the first child result is an operator the results, in order, become the children of a new sum; when all results are values their entrywise sum is returned; a value first and an operator later cannot be added |
| Tensors.Plus | gpytorch/lazy/sum_lazy_variable.py:34 | the `+` that `sum` applies: the integer 0 is its identity on either side; two tensors add exactly when their entry counts agree, entry by entry, and otherwise the only failure is a shape error |
| Tensors.SumVecs | gpytorch/lazy/sum_lazy_variable.py:34 | Python's `sum` returns the integer 0 exactly when there are no terms, and a tensor it returns has as many entries as the last term |
| Tensors.SumVecsIsSumOf | gpytorch/lazy/sum_lazy_variable.py:34 | Python's left-to-right `sum` starting from 0 is the entrywise total, 0 for no terms, and a shape error when the terms' entry counts differ |
| Tensors.SumVecsAppend | gpytorch/lazy/sum_lazy_variable.py:34 | summing a concatenation is adding the two partial sums |
| Scenario.ScenarioMatmul | gpytorch/lazy/sum_lazy_variable.py:24-35 | ten times the identity plus the all-ones matrix maps [1, 1, 1] to [13, 13, 13] |
| Scenario.ScenarioDiag | gpytorch/lazy/sum_lazy_variable.py:90-91 | the same sum has diagonal [11, 11, 11] |

## Left out

- Tensor arithmetic: entries are unbounded integers, so floating-point rounding is not modelled. There is no broadcasting: adding tensors whose entry counts differ is a shape error.
- Tensor shapes: a tensor is only its flattened entries, so two results with the same entry count but different shapes (2 x 3 and 3 x 2) are added by `Tensors.Plus`, where the tensor library would raise. Children applied to one right-hand side return results of one shape, so the summing operations do not meet this case.
- The base class `LazyVariable`, `NonLazyVariable` and `torch.autograd.Variable` are not part of this model. Each child operation is a function parameter. Wrapping a raw tensor is the parameter `wrap`. Whether an operand is an operator, a tensor or neither is given by the `Operand` datatype.
- `super().__init__(*lazy_vars)`: the base constructor is not part of this model.
- `len(lazy_var.representation())` is the parameter `reprLen`. The representation tensors themselves are not modelled. The sum's own `representation()` comes from the base class, which is not part of this model, so the claim that its length is the total of the children's lengths is not stated.
- Exceptions raised by children: child calls never raise in this model. Each child capability is a total function, so an exception raised inside a child is not modelled. Neither is which error surfaces first when `sum` or `tuple` calls the children one by one and a shape error comes before a later child is called.
- Calling a closure: closures are modelled as the list of sub-closures they capture, plus a function that calls them. Any caching inside the children's closures is not modelled.
- SumOperators.GetItem: when the first child result is a value and a later one is an operator, what `sum` does with that mix belongs to the tensor and operator classes, which are not part of this model. The model returns `TypeMismatch`.
- SumOperators.GetItem: the constructor's `RuntimeError` on a child result that is neither an operator nor a tensor cannot arise, because a child result is modelled as one or the other.
- PredictiveCache.BuildCache, PredictiveCache.ApplyCache: the test-train argument is modelled as a sum operator. The `AttributeError` raised when it has no `lazy_vars` is not modelled.
- The numerical content of predictive-covariance caches: cache entries are opaque values of a type parameter.
- Transposition as a whole (`t()` of the base class) is not modelled; only `_transpose_nonbatch` is.

## Findings

| source | as written | input that shows it | evidently intended | confidence | as-written member | corrected member |
|---|---|---|---|---|---|---|
| gpytorch/lazy/sum_lazy_variable.py:54 | iterates `self.lazy_var`, an attribute the constructor never sets (line 22 sets `self.lazy_vars`) | any sum, for example one with a single child | iterate `self.lazy_vars` and return the sum of the children's transposes | medium: the base class `LazyVariable` is not part of this model, and the failure assumes it defines no `lazy_var`; not executed | SumOperators.TransposeNonbatchAsWritten | SumOperators.TransposeNonbatch |
