/** A worked instance of a sum operator with two dense 3 x 3 children: ten
    times the identity and the all-ones matrix. Each dense child has a
    representation of length one, its row-major entries. */
module Scenario {
  import opened Common
  import opened Tensors
  import opened Slicing
  import opened SumOperators
  import opened Closures

  /** An `n` x `n` matrix given by its row-major entries. */
  datatype Dense = Dense(n: nat, entries: Vec)

  function Dot(a: Vec, b: Vec): int
  {
    if |a| == 0 || |b| == 0 then 0 else a[0] * b[0] + Dot(a[1..], b[1..])
  }

  /** The product of the `n` x `n` matrix with row-major entries `m` and `rhs`. */
  function MatVec(n: nat, m: Vec, rhs: Vec): (r: Vec)
    ensures |r| == n
  {
    seq(n, i requires 0 <= i < n => Dot(Window(m, i * n, n), rhs))
  }

  /** A dense child's own matmul closure factory: it multiplies by the
      matrix it is handed as its only representation tensor. */
  function DenseFactory(d: Dense, window: seq<Vec>): Vec -> Vec
  {
    rhs => MatVec(d.n, if |window| == 0 then [] else window[0], rhs)
  }

  function DenseDiag(d: Dense): (r: Vec)
    ensures |r| == d.n
  {
    seq(d.n, i requires 0 <= i < d.n => if i * d.n + i < |d.entries| then d.entries[i * d.n + i] else 0)
  }

  const TenI: Dense := Dense(3, [10, 0, 0, 0, 10, 0, 0, 0, 10])
  const Ones: Dense := Dense(3, [1, 1, 1, 1, 1, 1, 1, 1, 1])

  lemma TenIProduct()
    ensures MatVec(3, TenI.entries, [1, 1, 1]) == [10, 10, 10]
  {
    var m := TenI.entries;
    assert Window(m, 0, 3) == [10, 0, 0];
    assert Window(m, 3, 3) == [0, 10, 0];
    assert Window(m, 6, 3) == [0, 0, 10];
    assert Dot([10, 0, 0], [1, 1, 1]) == 10;
    assert Dot([0, 10, 0], [1, 1, 1]) == 10;
    assert Dot([0, 0, 10], [1, 1, 1]) == 10;
  }

  lemma OnesProduct()
    ensures MatVec(3, Ones.entries, [1, 1, 1]) == [3, 3, 3]
  {
    var m := Ones.entries;
    assert Window(m, 0, 3) == [1, 1, 1];
    assert Window(m, 3, 3) == [1, 1, 1];
    assert Window(m, 6, 3) == [1, 1, 1];
    assert Dot([1, 1, 1], [1, 1, 1]) == 3;
  }

  /** Two tensors of three entries add up entry by entry. */
  lemma PairSum(x: Vec, y: Vec, z: Vec)
    requires |x| == 3 && |y| == 3 && |z| == 3
    requires forall j :: 0 <= j < 3 ==> z[j] == x[j] + y[j]
    ensures IsSumOf([x, y], Success(Entries(z)))
  {
    var vs := [x, y];
    assert vs[1..] == [y] && [y][1..] == [];
    assert Uniform(vs, 3);
    forall j | 0 <= j < 3 ensures ColumnSum(vs, j) == z[j] {
      assert ColumnSum([y], j) == y[j];
    }
  }

  /** The sum of the two children multiplies `[1, 1, 1]` to `[13, 13, 13]`. */
  lemma ScenarioMatmul()
    ensures ApplyMatmul(MatmulClosureFactory(SumOperator([TenI, Ones]), d => 1, DenseFactory,
                                             [TenI.entries, Ones.entries]), [1, 1, 1])
         == Success(Entries([13, 13, 13]))
  {
    var args := [TenI.entries, Ones.entries];
    var c := MatmulClosureFactory(SumOperator([TenI, Ones]), d => 1, DenseFactory, args);
    var lens := ReprLengths([TenI, Ones], d => 1);
    assert lens == [1, 1];
    assert Window(args, Offset(lens, 0), 1) == [TenI.entries] by { assert lens[..0] == []; }
    assert Window(args, Offset(lens, 1), 1) == [Ones.entries] by { assert lens[..1] == [1]; }
    var outs := Outputs(c.subClosures, [1, 1, 1]);
    TenIProduct();
    OnesProduct();
    assert outs == [[10, 10, 10], [3, 3, 3]];
    PairSum([10, 10, 10], [3, 3, 3], [13, 13, 13]);
    IsSumOfUnique(outs, ApplyMatmul(c, [1, 1, 1]), Success(Entries([13, 13, 13])));
  }

  /** The diagonal of the sum is `[11, 11, 11]`. */
  lemma ScenarioDiag()
    ensures Diag(SumOperator([TenI, Ones]), DenseDiag) == Success(Entries([11, 11, 11]))
  {
    var ds := Map([TenI, Ones], DenseDiag);
    assert DenseDiag(TenI) == [10, 10, 10];
    assert DenseDiag(Ones) == [1, 1, 1];
    assert ds == [[10, 10, 10], [1, 1, 1]];
    PairSum([10, 10, 10], [1, 1, 1], [11, 11, 11]);
    IsSumOfUnique(ds, Diag(SumOperator([TenI, Ones]), DenseDiag), Success(Entries([11, 11, 11])));
  }
}
