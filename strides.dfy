/**
 Stride-based addressing of a flat-array-backed n-dimensional image.

 An image with extents `dims` stores its elements in one flat buffer with
 dimension 0 varying fastest. Moving one unit along dimension `d` moves
 `steps[d]` slots in the buffer, and the slot of a coordinate vector `pos`
 is the dot product of `pos` and `steps`.
 */
module Strides {

  /** Number of elements of an image with extents `dims`. */
  function Product(dims: seq<int>): int
  {
    if |dims| == 0 then 1 else Product(dims[..|dims| - 1]) * dims[|dims| - 1]
  }

  /** `steps` are the canonical strides of `dims`: one slot along dimension 0,
      and each further dimension steps over a whole slab of the previous ones. */
  predicate IsStrides(steps: seq<int>, dims: seq<int>)
  {
    && |steps| == |dims|
    && (|dims| > 0 ==> steps[0] == 1)
    && forall d :: 0 < d < |dims| ==> steps[d] == steps[d - 1] * dims[d - 1]
  }

  /** `pos` lies inside the image: `0 <= pos[d] < dims[d]` in every dimension. */
  predicate InBox(pos: seq<int>, dims: seq<int>)
  {
    |pos| == |dims| && forall d :: 0 <= d < |dims| ==> 0 <= pos[d] < dims[d]
  }

  /** The flat buffer index of `pos`: the sum of `pos[d] * steps[d]` over all dimensions. */
  function FlatOffset(pos: seq<int>, steps: seq<int>): int
    requires |pos| == |steps|
  {
    if |pos| == 0 then 0
    else FlatOffset(pos[..|pos| - 1], steps[..|steps| - 1]) + pos[|pos| - 1] * steps[|steps| - 1]
  }

  /** Accumulating the dot product one dimension at a time, as the loops of the
      handle do, extends the offset of a prefix by one term. */
  lemma FlatOffsetExtend(pos: seq<int>, steps: seq<int>, d: nat)
    requires d < |pos| && d < |steps|
    ensures FlatOffset(pos[..d + 1], steps[..d + 1])
            == FlatOffset(pos[..d], steps[..d]) + pos[d] * steps[d]
  {
    assert pos[..d + 1][..d] == pos[..d];
    assert steps[..d + 1][..d] == steps[..d];
  }

  /** Replacing one coordinate changes the offset by the change of that
      coordinate times its stride; every other term is untouched. */
  lemma {:induction false} FlatOffsetUpdate(pos: seq<int>, steps: seq<int>, d: nat, v: int)
    requires |pos| == |steps| && d < |pos|
    ensures FlatOffset(pos[d := v], steps) == FlatOffset(pos, steps) + (v - pos[d]) * steps[d]
  {
    var m := |pos| - 1;
    var q := pos[d := v];
    if d == m {
      assert q[..m] == pos[..m];
    } else {
      assert q[..m] == pos[..m][d := v];
      FlatOffsetUpdate(pos[..m], steps[..m], d, v);
    }
  }

  /** The origin, and more generally any all-zero coordinate vector, sits at offset 0. */
  lemma {:induction false} FlatOffsetOfZeros(pos: seq<int>, steps: seq<int>)
    requires |pos| == |steps|
    requires forall d :: 0 <= d < |pos| ==> pos[d] == 0
    ensures FlatOffset(pos, steps) == 0
  {
    if |pos| > 0 {
      FlatOffsetOfZeros(pos[..|pos| - 1], steps[..|steps| - 1]);
    }
  }

  /** With non-negative coordinates and strides every term only adds to the offset. */
  lemma {:induction false} FlatOffsetAtLeastTerm(pos: seq<int>, steps: seq<int>, k: nat)
    requires |pos| == |steps| && k < |pos|
    requires forall d :: 0 <= d < |pos| ==> pos[d] >= 0 && steps[d] >= 0
    ensures FlatOffset(pos, steps) >= pos[k] * steps[k] >= 0
  {
    var m := |pos| - 1;
    var rest := FlatOffset(pos[..m], steps[..m]);
    if m > 0 {
      FlatOffsetAtLeastTerm(pos[..m], steps[..m], if k < m then k else 0);
    }
    assert rest >= 0;
    assert pos[m] * steps[m] >= 0;
  }

  /** A stride is the number of elements in the slab spanned by the dimensions before it. */
  lemma {:induction false} StridesAreProducts(steps: seq<int>, dims: seq<int>, d: nat)
    requires IsStrides(steps, dims) && d < |dims|
    ensures steps[d] == Product(dims[..d])
  {
    if d == 0 {
      assert dims[..0] == [];
    } else {
      StridesAreProducts(steps, dims, d - 1);
      assert dims[..d][..d - 1] == dims[..d - 1];
    }
  }

  /** Canonical strides of an image with positive extents are positive. */
  lemma {:induction false} StridesArePositive(steps: seq<int>, dims: seq<int>, d: nat)
    requires IsStrides(steps, dims) && d < |dims|
    requires forall e :: 0 <= e < |dims| ==> dims[e] > 0
    ensures steps[d] > 0
  {
    if d > 0 {
      StridesArePositive(steps, dims, d - 1);
      assert steps[d] == steps[d - 1] * dims[d - 1];
    }
  }

  lemma PrefixIsStrides(steps: seq<int>, dims: seq<int>, m: nat)
    requires IsStrides(steps, dims) && m <= |dims|
    ensures IsStrides(steps[..m], dims[..m])
  {
  }

  lemma MulBelow(x: int, bound: int, p: int)
    requires 0 <= x < bound && p > 0
    ensures 0 <= x * p <= (bound - 1) * p
  {
  }

  /** A coordinate inside the image addresses a slot inside its buffer. */
  lemma {:induction false} FlatOffsetInBox(pos: seq<int>, steps: seq<int>, dims: seq<int>)
    requires IsStrides(steps, dims) && InBox(pos, dims)
    ensures 0 <= FlatOffset(pos, steps) < Product(dims)
  {
    if |pos| > 0 {
      var m := |pos| - 1;
      PrefixIsStrides(steps, dims, m);
      assert InBox(pos[..m], dims[..m]);
      FlatOffsetInBox(pos[..m], steps[..m], dims[..m]);
      StridesAreProducts(steps, dims, m);
      var p := Product(dims[..m]);
      MulBelow(pos[m], dims[m], p);
      assert FlatOffset(pos, steps) < p + (dims[m] - 1) * p;
    }
  }

  lemma MulAtLeast(k: int, p: int)
    requires k >= 1 && p >= 0
    ensures k * p >= p
  {
  }

  lemma DigitsUnique(a: int, x: int, b: int, y: int, p: int)
    requires 0 <= a < p && 0 <= b < p
    requires a + x * p == b + y * p
    ensures x == y && a == b
  {
    assert b - a == (x - y) * p;
    if x > y {
      MulAtLeast(x - y, p);
    } else if x < y {
      assert a - b == (y - x) * p;
      MulAtLeast(y - x, p);
    }
  }

  /** Distinct coordinates inside the image address distinct slots, so no two
      positions of a handle alias the same element. */
  lemma {:induction false} FlatOffsetInjective(p: seq<int>, q: seq<int>, steps: seq<int>, dims: seq<int>)
    requires IsStrides(steps, dims) && InBox(p, dims) && InBox(q, dims)
    requires FlatOffset(p, steps) == FlatOffset(q, steps)
    ensures p == q
  {
    if |p| > 0 {
      var m := |p| - 1;
      PrefixIsStrides(steps, dims, m);
      assert InBox(p[..m], dims[..m]) && InBox(q[..m], dims[..m]);
      FlatOffsetInBox(p[..m], steps[..m], dims[..m]);
      FlatOffsetInBox(q[..m], steps[..m], dims[..m]);
      StridesAreProducts(steps, dims, m);
      DigitsUnique(FlatOffset(p[..m], steps[..m]), p[m], FlatOffset(q[..m], steps[..m]), q[m], Product(dims[..m]));
      FlatOffsetInjective(p[..m], q[..m], steps[..m], dims[..m]);
      assert p == p[..m] + [p[m]] && q == q[..m] + [q[m]];
    }
  }
}
