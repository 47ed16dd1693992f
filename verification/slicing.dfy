/** The representation-slicing protocol. A sum operator's closure factories
    receive one flattened argument list holding the representation tensors of
    all children in child order, and hand each child the window
    `args[i:i + len]` where `len` is that child's representation length and
    `i` the running total of the earlier lengths. This module defines the
    windows, the loop that computes them, and proves that they partition the
    argument list. */
module Slicing {
  import opened Common

  /** The sum of a list of lengths. */
  function Total(lens: seq<nat>): nat
  {
    if |lens| == 0 then 0 else lens[0] + Total(lens[1..])
  }

  /** Where the `k`-th window starts: the total length of the earlier ones. */
  function Offset(lens: seq<nat>, k: nat): nat
    requires k <= |lens|
  {
    Total(lens[..k])
  }

  /** Python's `s[lo:lo + len]` for non-negative `lo` and `len`: both bounds
      are clamped to `|s|`, so a window past the end is cut short or empty. */
  function Window<A>(s: seq<A>, lo: nat, len: nat): (w: seq<A>)
    ensures |w| == Min(len, |s| - Min(lo, |s|))
    ensures forall j :: 0 <= j < |w| ==> w[j] == s[lo + j]
  {
    s[Min(lo, |s|)..Min(lo + len, |s|)]
  }

  /** Concatenation of blocks, in order. */
  function Flatten<A>(bs: seq<seq<A>>): seq<A>
  {
    if |bs| == 0 then [] else bs[0] + Flatten(bs[1..])
  }

  /** The length of every block. */
  function Lengths<A>(bs: seq<seq<A>>): (lens: seq<nat>)
    ensures |lens| == |bs|
    ensures forall k :: 0 <= k < |bs| ==> lens[k] == |bs[k]|
  {
    Map<seq<A>, nat>(bs, (b: seq<A>) => |b|)
  }

  /** Reference definition of the partition: each child takes its length
      from the front of what the earlier children left over. */
  function Split<A>(lens: seq<nat>, args: seq<A>): seq<seq<A>>
  {
    if |lens| == 0 then []
    else
      var h := Min(lens[0], |args|);
      [args[..h]] + Split(lens[1..], args[h..])
  }

  /** The offset loop of `_matmul_closure_factory` and
      `_derivative_quadratic_form_factory`: walk the children's lengths,
      cut `args[i:i + len]`, advance `i` by `len`. */
  method SliceArgs<A>(lens: seq<nat>, args: seq<A>) returns (slices: seq<seq<A>>)
    ensures |slices| == |lens|
    ensures forall k :: 0 <= k < |lens| ==>
      slices[k] == Window(args, Offset(lens, k), lens[k])
  {
    slices := [];
    var i: nat := 0;
    var k := 0;
    while k < |lens|
      invariant 0 <= k <= |lens|
      invariant i == Offset(lens, k)
      invariant |slices| == k
      invariant forall j :: 0 <= j < k ==> slices[j] == Window(args, Offset(lens, j), lens[j])
    {
      OffsetStep(lens, k);
      slices := slices + [Window(args, i, lens[k])];
      i := i + lens[k];
      k := k + 1;
    }
  }

  /** The offset windows are contiguous and disjoint: together they are the
      part of `args` the lengths cover, and when the lengths add up to
      `|args|` they concatenate back to `args`, each exactly as long as its
      child's representation. */
  lemma OffsetWindowsPartition<A>(lens: seq<nat>, args: seq<A>, slices: seq<seq<A>>)
    requires |slices| == |lens|
    requires forall k :: 0 <= k < |lens| ==>
      slices[k] == Window(args, Offset(lens, k), lens[k])
    ensures Flatten(slices) == args[..Min(Total(lens), |args|)]
    ensures |args| == Total(lens) ==> Lengths(slices) == lens
  {
    WindowsAreSplit(lens, args, slices);
    SplitPartition(lens, args);
    if |args| == Total(lens) {
      SplitLengths(lens, args);
    }
  }

  /** Any list of the offset windows is the reference partition. */
  lemma WindowsAreSplit<A>(lens: seq<nat>, args: seq<A>, slices: seq<seq<A>>)
    requires |slices| == |lens|
    requires forall k :: 0 <= k < |lens| ==>
      slices[k] == Window(args, Offset(lens, k), lens[k])
    ensures slices == Split(lens, args)
  {
    SplitWindows(lens, args);
  }

  lemma {:induction false} TotalAppend(a: seq<nat>, b: seq<nat>)
    ensures Total(a + b) == Total(a) + Total(b)
  {
    if |a| == 0 {
      assert a + b == b;
    } else {
      TotalAppend(a[1..], b);
      assert (a + b)[1..] == a[1..] + b;
    }
  }

  /** The running offset advances by exactly the current length. */
  lemma OffsetStep(lens: seq<nat>, k: nat)
    requires k < |lens|
    ensures Offset(lens, k + 1) == Offset(lens, k) + lens[k]
  {
    assert lens[..k + 1] == lens[..k] + [lens[k]];
    TotalAppend(lens[..k], [lens[k]]);
  }

  lemma OffsetTail(lens: seq<nat>, k: nat)
    requires 0 < |lens| && k < |lens|
    ensures Offset(lens, k + 1) == lens[0] + Offset(lens[1..], k)
  {
    assert lens[..k + 1][1..] == lens[1..][..k];
  }

  lemma OffsetAtMostTotal(lens: seq<nat>, k: nat)
    requires k <= |lens|
    ensures Offset(lens, k) <= Total(lens)
  {
    assert lens == lens[..k] + lens[k..];
    TotalAppend(lens[..k], lens[k..]);
  }

  lemma {:induction false} FlattenAppend<A>(xs: seq<seq<A>>, ys: seq<seq<A>>)
    ensures Flatten(xs + ys) == Flatten(xs) + Flatten(ys)
  {
    if |xs| == 0 {
      assert xs + ys == ys;
    } else {
      var zs := xs + ys;
      assert zs[0] == xs[0];
      assert zs[1..] == xs[1..] + ys;
      FlattenAppend(xs[1..], ys);
      calc {
        Flatten(zs);
        zs[0] + Flatten(zs[1..]);
        xs[0] + (Flatten(xs[1..]) + Flatten(ys));
        (xs[0] + Flatten(xs[1..])) + Flatten(ys);
      }
    }
  }

  lemma {:induction false} FlattenLength<A>(bs: seq<seq<A>>)
    ensures |Flatten(bs)| == Total(Lengths(bs))
  {
    if |bs| > 0 {
      FlattenLength(bs[1..]);
      assert Lengths(bs)[1..] == Lengths(bs[1..]);
    }
  }

  /** Block `k` is the stretch of the concatenation that starts at the
      block's offset. */
  lemma FlattenBlocks<A>(bs: seq<seq<A>>)
    ensures forall k :: 0 <= k < |bs| ==>
      && Offset(Lengths(bs), k) + |bs[k]| <= |Flatten(bs)|
      && Flatten(bs)[Offset(Lengths(bs), k)..Offset(Lengths(bs), k) + |bs[k]|] == bs[k]
  {
    forall k | 0 <= k < |bs|
      ensures Offset(Lengths(bs), k) + |bs[k]| <= |Flatten(bs)|
      ensures Flatten(bs)[Offset(Lengths(bs), k)..Offset(Lengths(bs), k) + |bs[k]|] == bs[k]
    {
      FlattenBlock(bs, k);
    }
  }

  /** Block `k` of a concatenation sits at its offset. */
  lemma FlattenBlock<A>(bs: seq<seq<A>>, k: nat)
    requires k < |bs|
    ensures Offset(Lengths(bs), k) + |bs[k]| <= |Flatten(bs)|
    ensures Flatten(bs)[Offset(Lengths(bs), k)..Offset(Lengths(bs), k) + |bs[k]|] == bs[k]
  {
    var lens := Lengths(bs);
    var flat := Flatten(bs);
    FlattenLength(bs);
    SplitFlatten(bs);
    SplitWindow(lens, flat, k);
    OffsetStep(lens, k);
    OffsetAtMostTotal(lens, k + 1);
  }

  /** Windows of what is left after the first `h` elements are windows of
      the whole list, shifted by the first child's length. */
  lemma WindowShift<A>(args: seq<A>, first: nat, lo: nat, len: nat)
    ensures Window(args[Min(first, |args|)..], lo, len) == Window(args, first + lo, len)
  {
  }

  lemma {:induction false} SplitLength<A>(lens: seq<nat>, args: seq<A>)
    ensures |Split(lens, args)| == |lens|
  {
    if |lens| > 0 {
      SplitLength(lens[1..], args[Min(lens[0], |args|)..]);
    }
  }

  /** Child `k` of the reference partition is the window the offset loop
      cuts for it. */
  lemma {:induction false} SplitWindow<A>(lens: seq<nat>, args: seq<A>, k: nat)
    requires k < |lens|
    ensures |Split(lens, args)| == |lens|
    ensures Split(lens, args)[k] == Window(args, Offset(lens, k), lens[k])
  {
    SplitLength(lens, args);
    if k == 0 {
      SplitHead(lens, args);
    } else {
      SplitWindow(lens[1..], args[Min(lens[0], |args|)..], k - 1);
      SplitWindowStep(lens, args, k);
    }
  }

  /** The inductive step of `SplitWindow`, given its hypothesis for the
      children after the first. */
  lemma SplitWindowStep<A>(lens: seq<nat>, args: seq<A>, k: nat)
    requires 0 < k < |lens| && |Split(lens, args)| == |lens|
    requires var rest := args[Min(lens[0], |args|)..];
      && |Split(lens[1..], rest)| == |lens| - 1
      && Split(lens[1..], rest)[k - 1] == Window(rest, Offset(lens[1..], k - 1), lens[1..][k - 1])
    ensures Split(lens, args)[k] == Window(args, Offset(lens, k), lens[k])
  {
    SplitTail(lens, args, k);
    OffsetTail(lens, k - 1);
    WindowShift(args, lens[0], Offset(lens[1..], k - 1), lens[k]);
  }

  /** The first window starts at the front. */
  lemma SplitHead<A>(lens: seq<nat>, args: seq<A>)
    requires 0 < |lens|
    ensures 0 < |Split(lens, args)|
    ensures Split(lens, args)[0] == Window(args, Offset(lens, 0), lens[0])
  {
  }

  /** Later windows come from the recursive call on what the first left. */
  lemma SplitTail<A>(lens: seq<nat>, args: seq<A>, k: nat)
    requires 0 < k < |lens| && |Split(lens, args)| == |lens|
    ensures var rest := Split(lens[1..], args[Min(lens[0], |args|)..]);
      k - 1 < |rest| && Split(lens, args)[k] == rest[k - 1] && lens[1..][k - 1] == lens[k]
  {
  }

  lemma SplitWindows<A>(lens: seq<nat>, args: seq<A>)
    ensures |Split(lens, args)| == |lens|
    ensures forall k :: 0 <= k < |lens| ==>
      Split(lens, args)[k] == Window(args, Offset(lens, k), lens[k])
  {
    SplitLength(lens, args);
    forall k | 0 <= k < |lens|
      ensures Split(lens, args)[k] == Window(args, Offset(lens, k), lens[k])
    {
      SplitWindow(lens, args, k);
    }
  }

  /** The windows are contiguous and disjoint: together they are the prefix
      of `args` that the lengths cover (all of it when the lengths add up
      to `|args|`). */
  lemma {:induction false} SplitPartition<A>(lens: seq<nat>, args: seq<A>)
    ensures Flatten(Split(lens, args)) == args[..Min(Total(lens), |args|)]
  {
    if |lens| > 0 {
      var h := Min(lens[0], |args|);
      SplitPartition(lens[1..], args[h..]);
      var rest := Split(lens[1..], args[h..]);
      assert ([args[..h]] + rest)[1..] == rest;
      assert args[..Min(Total(lens), |args|)] == args[..h] + args[h..][..Min(Total(lens[1..]), |args| - h)];
    }
  }

  /** Each window is exactly as long as its child's representation when the
      argument list is long enough. */
  lemma {:induction false} SplitLengths<A>(lens: seq<nat>, args: seq<A>)
    requires Total(lens) <= |args|
    ensures Lengths(Split(lens, args)) == lens
  {
    SplitWindows(lens, args);
    forall k | 0 <= k < |lens| ensures |Split(lens, args)[k]| == lens[k] {
      OffsetStep(lens, k);
      OffsetAtMostTotal(lens, k + 1);
    }
  }

  /** Round trip: cutting a concatenation by its blocks' lengths gives the
      blocks back. */
  lemma {:induction false} SplitFlatten<A>(bs: seq<seq<A>>)
    ensures Split(Lengths(bs), Flatten(bs)) == bs
  {
    if |bs| > 0 {
      SplitFlatten(bs[1..]);
      assert Lengths(bs)[1..] == Lengths(bs[1..]);
      var f := Flatten(bs);
      assert f == bs[0] + Flatten(bs[1..]);
      assert f[..|bs[0]|] == bs[0] && f[|bs[0]|..] == Flatten(bs[1..]);
      assert bs == [bs[0]] + bs[1..];
    }
  }

  /** Round trip the other way: the windows of an argument list whose length
      is the total concatenate back to it. */
  lemma FlattenSplit<A>(lens: seq<nat>, args: seq<A>)
    requires |args| == Total(lens)
    ensures Flatten(Split(lens, args)) == args
  {
    SplitPartition(lens, args);
  }

  /** Partitioning for a concatenated list of children is partitioning for
      the first group, then for the second group on what the first left. */
  lemma SplitAppend<A>(a: seq<nat>, b: seq<nat>, args: seq<A>)
    ensures Split(a + b, args) == Split(a, args) + Split(b, args[Min(Total(a), |args|)..])
  {
    var rest := args[Min(Total(a), |args|)..];
    var whole := Split(a + b, args);
    var left := Split(a, args);
    var right := Split(b, rest);
    SplitLength(a + b, args);
    SplitLength(a, args);
    SplitLength(b, rest);
    forall k | 0 <= k < |a| ensures whole[k] == left[k] {
      SplitAppendLeft(a, b, args, k);
    }
    forall k | 0 <= k < |b| ensures whole[|a| + k] == right[k] {
      SplitAppendRight(a, b, args, k);
    }
    assert whole == left + right;
  }

  /** A child of the first group gets the same window as without the second. */
  lemma SplitAppendLeft<A>(a: seq<nat>, b: seq<nat>, args: seq<A>, k: nat)
    requires k < |a|
    ensures |Split(a + b, args)| == |a + b| && |Split(a, args)| == |a|
    ensures Split(a + b, args)[k] == Split(a, args)[k]
  {
    SplitWindow(a + b, args, k);
    SplitWindow(a, args, k);
    OffsetOfPrefix(a, b, k);
    assert (a + b)[k] == a[k];
  }

  /** A child of the second group gets the window it would get from what
      the first group leaves over. */
  lemma SplitAppendRight<A>(a: seq<nat>, b: seq<nat>, args: seq<A>, k: nat)
    requires k < |b|
    ensures |Split(a + b, args)| == |a + b|
    ensures var right := Split(b, args[Min(Total(a), |args|)..]);
      |right| == |b| && Split(a + b, args)[|a| + k] == right[k]
  {
    SplitWindow(a + b, args, |a| + k);
    SplitWindow(b, args[Min(Total(a), |args|)..], k);
    OffsetOfSuffix(a, b, k);
    assert (a + b)[|a| + k] == b[k];
    WindowShift(args, Total(a), Offset(b, k), b[k]);
  }

  /** Children of the first group start where they did on their own. */
  lemma OffsetOfPrefix(a: seq<nat>, b: seq<nat>, k: nat)
    requires k < |a|
    ensures Offset(a + b, k) == Offset(a, k)
  {
    assert (a + b)[..k] == a[..k];
  }

  /** Children of the second group start after all of the first group. */
  lemma OffsetOfSuffix(a: seq<nat>, b: seq<nat>, k: nat)
    requires k < |b|
    ensures Offset(a + b, |a| + k) == Total(a) + Offset(b, k)
  {
    var pre := (a + b)[..|a| + k];
    assert pre == a + b[..k];
    TotalAppend(a, b[..k]);
  }
}
