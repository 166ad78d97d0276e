/** `make_contiguous` and `ensure_same_strides` (`utils/contiguous.py`). */
module Contiguous {
  import opened Values
  import opened Exceptions

  /** The number of elements of a tensor of the given shape. */
  function Product(s: seq<nat>): nat
  {
    if s == [] then 1 else s[0] * Product(s[1..])
  }

  /** A dimension's extent as the stride computation sees it: an empty
      dimension still counts as one. */
  function AtLeastOne(n: nat): nat
  {
    if n == 0 then 1 else n
  }

  /** The strides PyTorch gives a freshly allocated contiguous tensor: the
      last dimension is adjacent, and each other dimension steps over the
      next one, whose extent counts as at least one. */
  function ContiguousStrides(shape: seq<nat>): (r: seq<nat>)
    ensures |r| == |shape|
    ensures |shape| > 0 ==> r[|shape| - 1] == 1
    ensures forall i :: 0 <= i < |shape| - 1 ==> r[i] == AtLeastOne(shape[i + 1]) * r[i + 1]
  {
    ProductSteps(shape);
    seq(|shape|, i requires 0 <= i < |shape| => TailProduct(shape, i + 1))
  }

  /** The product of the extents (each at least one) of dimensions `j` onwards. */
  function TailProduct(shape: seq<nat>, j: nat): nat
    requires j <= |shape|
    decreases |shape| - j
  {
    if j == |shape| then 1 else AtLeastOne(shape[j]) * TailProduct(shape, j + 1)
  }

  lemma ProductSteps(shape: seq<nat>)
    ensures forall j :: 1 <= j < |shape| ==> TailProduct(shape, j) == AtLeastOne(shape[j]) * TailProduct(shape, j + 1)
  {
  }

  /** PyTorch's `is_contiguous()`: a tensor without elements always is;
      otherwise every dimension of extent other than one must carry the
      contiguous stride (a dimension of extent one may carry any stride). */
  predicate IsContiguous(t: Tensor)
  {
    |t.stride| == |t.shape|
    && (Product(t.shape) == 0
        || forall i :: 0 <= i < |t.shape| && t.shape[i] != 1 ==> t.stride[i] == ContiguousStrides(t.shape)[i])
  }

  /** `make_contiguous`: `x.contiguous()` for a tensor, which returns the
      tensor itself when it already is contiguous and a copy with the
      contiguous strides otherwise; any other value is returned unchanged. */
  function MakeContiguous(x: Value): (r: Value)
    ensures !x.TensorVal? ==> r == x
    ensures x.TensorVal? ==>
              r.TensorVal? && r.tensor.dtype == x.tensor.dtype && r.tensor.shape == x.tensor.shape
              && IsContiguous(r.tensor)
              && (r == x <==> IsContiguous(x.tensor))
              && (!IsContiguous(x.tensor) ==> r.tensor.stride == ContiguousStrides(x.tensor.shape))
  {
    match x
    case TensorVal(t) =>
      if IsContiguous(t) then x else TensorVal(Tensor(t.dtype, t.shape, ContiguousStrides(t.shape)))
    case _ => x
  }

  /** Making a value contiguous twice is the same as once. */
  lemma MakeContiguousIdempotent(x: Value)
    ensures MakeContiguous(MakeContiguous(x)) == MakeContiguous(x)
  {
  }

  /** A tensor with elements has a non-zero element count when no dimension
      is empty. */
  lemma {:induction false} ProductPositive(s: seq<nat>)
    requires forall k :: 0 <= k < |s| ==> s[k] > 0
    ensures Product(s) > 0
  {
    if s != [] {
      ProductPositive(s[1..]);
    }
  }

  /** Two contiguous tensors of one shape whose every dimension has extent
      at least two carry the same strides: contiguity then fixes them. */
  lemma ContiguousStridesUnique(t1: Tensor, t2: Tensor)
    requires IsContiguous(t1) && IsContiguous(t2) && t1.shape == t2.shape
    requires forall k :: 0 <= k < |t1.shape| ==> t1.shape[k] >= 2
    ensures t1.stride == t2.stride
  {
    ProductPositive(t1.shape);
    assert forall k :: 0 <= k < |t1.shape| ==> t1.stride[k] == ContiguousStrides(t1.shape)[k] == t2.stride[k];
  }

  function MapContiguous(args: seq<Value>): (r: seq<Value>)
    ensures |r| == |args|
    ensures forall i :: 0 <= i < |args| ==> r[i] == MakeContiguous(args[i])
  {
    seq(|args|, i requires 0 <= i < |args| => MakeContiguous(args[i]))
  }

  /** The stride of the first tensor argument, if there is one. */
  function FirstStride(args: seq<Value>): (r: Option<seq<nat>>)
    ensures r.None? <==> forall i :: 0 <= i < |args| ==> !args[i].TensorVal?
    ensures r.Some? ==>
              exists i :: (0 <= i < |args| && args[i].TensorVal? && args[i].tensor.stride == r.value
                           && forall m :: 0 <= m < i ==> !args[m].TensorVal?)
  {
    if args == [] then None
    else if args[0].TensorVal? then Some(args[0].tensor.stride)
    else
      var r := FirstStride(args[1..]);
      assert forall i :: 0 <= i < |args| - 1 ==> args[1..][i] == args[i + 1];
      r
  }

  /** Some tensor argument's stride differs from the first tensor's. */
  predicate StrideMismatch(args: seq<Value>)
  {
    exists j :: 0 <= j < |args| && args[j].TensorVal? && FirstStride(args) != Some(args[j].tensor.stride)
  }

  lemma FirstStrideOfPrefix(args: seq<Value>, i: nat)
    requires i < |args|
    ensures FirstStride(args[..i + 1]) ==
      if FirstStride(args[..i]).Some? then FirstStride(args[..i])
      else if args[i].TensorVal? then Some(args[i].tensor.stride) else None
  {
    if FirstStride(args[..i]).Some? {
      FirstStrideExtend(args[..i], args[..i + 1]);
    } else {
      assert forall m :: 0 <= m < i ==> !args[..i][m].TensorVal?;
      FirstStrideAfterNone(args[..i + 1], i);
    }
  }

  lemma {:induction false} FirstStrideExtend(pre: seq<Value>, whole: seq<Value>)
    requires |pre| <= |whole| && whole[..|pre|] == pre && FirstStride(pre).Some?
    ensures FirstStride(whole) == FirstStride(pre)
  {
    if !pre[0].TensorVal? {
      assert whole[1..][..|pre| - 1] == pre[1..];
      FirstStrideExtend(pre[1..], whole[1..]);
    }
  }

  lemma {:induction false} FirstStrideAfterNone(args: seq<Value>, i: nat)
    requires i < |args| && forall m :: 0 <= m < i ==> !args[m].TensorVal?
    ensures FirstStride(args) == if args[i].TensorVal? then Some(args[i].tensor.stride) else FirstStride(args[i + 1..])
  {
    if i > 0 {
      FirstStrideAfterNone(args[1..], i - 1);
      assert args[1..][i..] == args[i + 1..];
    }
  }

  /** `ensure_same_strides(*args, force_contiguous)`: with the flag every
      argument goes through `make_contiguous`; without it the arguments are
      scanned for a tensor whose stride differs from the first tensor's, and
      every argument is made contiguous only if one is found. */
  method EnsureSameStrides(args: seq<Value>, forceContiguous: bool) returns (output: seq<Value>)
    ensures forceContiguous ==> output == MapContiguous(args)
    ensures !forceContiguous ==> output == if StrideMismatch(args) then MapContiguous(args) else args
  {
    if forceContiguous {
      output := MapContiguous(args);
    } else {
      var mismatch := false;
      var expectedStride: Option<seq<nat>> := None;
      var i := 0;
      while i < |args|
        invariant 0 <= i <= |args|
        invariant expectedStride == FirstStride(args[..i])
        invariant forall j :: 0 <= j < i && args[j].TensorVal? ==> expectedStride == Some(args[j].tensor.stride)
      {
        var arg := args[i];
        FirstStrideOfPrefix(args, i);
        if arg.TensorVal? {
          if expectedStride.None? {
            expectedStride := Some(arg.tensor.stride);
          } else if arg.tensor.stride != expectedStride.value {
            FirstStrideExtend(args[..i], args);
            assert StrideMismatch(args) by {
              assert args[i].TensorVal? && FirstStride(args) != Some(args[i].tensor.stride);
            }
            mismatch := true;
            break;
          }
        }
        i := i + 1;
      }
      if !mismatch {
        assert args[..|args|] == args;
      }
      output := if mismatch then MapContiguous(args) else args;
    }
  }

  /** Tensors of one shape all carry one stride after `ensure_same_strides`,
      provided every dimension has extent at least two. */
  lemma SameShapeSameStride(args: seq<Value>, forceContiguous: bool, i: nat, j: nat)
    requires i < |args| && j < |args| && args[i].TensorVal? && args[j].TensorVal?
    requires args[i].tensor.shape == args[j].tensor.shape
    requires forall k :: 0 <= k < |args[i].tensor.shape| ==> args[i].tensor.shape[k] >= 2
    ensures var output := if forceContiguous || StrideMismatch(args) then MapContiguous(args) else args;
      output[i].tensor.stride == output[j].tensor.stride
  {
    if !forceContiguous && !StrideMismatch(args) {
      assert FirstStride(args) == Some(args[i].tensor.stride);
      assert FirstStride(args) == Some(args[j].tensor.stride);
    } else {
      ContiguousStridesUnique(MakeContiguous(args[i]).tensor, MakeContiguous(args[j]).tensor);
    }
  }

  /** Without that proviso the strides may still differ: two `(1, 3)`
      tensors with strides `(3, 1)` and `(1, 1)` are a mismatch, yet both are
      already contiguous, so both come back unchanged. */
  lemma SameShapeStridesMayDiffer(d: DType)
    ensures var args := [TensorVal(Tensor(d, [1, 3], [3, 1])), TensorVal(Tensor(d, [1, 3], [1, 1]))];
      StrideMismatch(args) && MapContiguous(args) == args
  {
    var args := [TensorVal(Tensor(d, [1, 3], [3, 1])), TensorVal(Tensor(d, [1, 3], [1, 1]))];
    assert args[1].TensorVal? && FirstStride(args) != Some(args[1].tensor.stride);
    assert ContiguousStrides([1, 3])[1] == 1;
    assert IsContiguous(args[0].tensor) && IsContiguous(args[1].tensor);
  }
}
