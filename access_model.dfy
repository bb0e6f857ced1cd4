/**
 The observable state of an array random access, as a value, and what each
 positioning operation does to it.

 A handle is a coordinate vector plus the flat index its linked element proxy
 is bound to. The handle is "synced" when that index is the flat offset of the
 coordinate vector; every positioning operation except the dimension-0
 absolute setter keeps a synced handle synced.
 */
module RandomAccessModel {
  import opened Strides

  datatype Access = Access(position: seq<int>, index: int)

  /** The index of the linked proxy is the flat offset of the coordinates. */
  predicate Synced(a: Access, steps: seq<int>)
  {
    |a.position| == |steps| && a.index == FlatOffset(a.position, steps)
  }

  /** A fresh handle: every coordinate 0, index 0. */
  function Origin(n: nat): Access
  {
    Access(seq(n, _ => 0), 0)
  }

  /** Relative step along `dim`: the index moves by the stride times the distance. */
  function Move(a: Access, steps: seq<int>, distance: int, dim: nat): Access
    requires dim < |a.position| && dim < |steps|
  {
    Access(a.position[dim := a.position[dim] + distance], a.index + steps[dim] * distance)
  }

  /** Absolute positioning: only the first `|steps|` entries of `pos` are read,
      and the index is recomputed from scratch. */
  function SetPosition(pos: seq<int>, steps: seq<int>): Access
    requires |pos| >= |steps|
  {
    Access(pos[..|steps|], FlatOffset(pos[..|steps|], steps))
  }

  /** Absolute positioning in one dimension, done incrementally from the old coordinate. */
  function SetPositionDim(a: Access, steps: seq<int>, value: int, dim: nat): Access
    requires dim < |a.position| && dim < |steps|
  {
    Access(a.position[dim := value], a.index + (value - a.position[dim]) * steps[dim])
  }

  /** Dimension-0 fast path: coordinate 0 and the index move by the same raw distance. */
  function MoveDim0(a: Access, distance: int): Access
    requires |a.position| > 0
  {
    Access(a.position[0 := a.position[0] + distance], a.index + distance)
  }

  /** Dimension-0 absolute setter: the index becomes the new coordinate itself. */
  function SetPositionDim0(a: Access, value: int): Access
    requires |a.position| > 0
  {
    Access(a.position[0 := value], value)
  }

  /** A fresh handle is synced. */
  lemma OriginSynced(n: nat, steps: seq<int>)
    requires |steps| == n
    ensures Synced(Origin(n), steps)
  {
    FlatOffsetOfZeros(Origin(n).position, steps);
  }

  /** A relative step neither establishes nor breaks the invariant. */
  lemma MoveSync(a: Access, steps: seq<int>, distance: int, dim: nat)
    requires |a.position| == |steps| && dim < |steps|
    ensures Synced(Move(a, steps, distance, dim), steps) <==> Synced(a, steps)
  {
    FlatOffsetUpdate(a.position, steps, dim, a.position[dim] + distance);
  }

  /** Moving by `k` and then by `-k` along the same dimension restores the handle. */
  lemma MoveUndo(a: Access, steps: seq<int>, k: int, dim: nat)
    requires dim < |a.position| && dim < |steps|
    ensures Move(Move(a, steps, k, dim), steps, -k, dim) == a
  {
  }

  /** Setting one coordinate keeps the invariant in both directions, and on a
      synced handle it lands exactly where a full absolute positioning with
      that one coordinate replaced would. */
  lemma SetPositionDimSync(a: Access, steps: seq<int>, value: int, dim: nat)
    requires |a.position| == |steps| && dim < |steps|
    ensures Synced(SetPositionDim(a, steps, value, dim), steps) <==> Synced(a, steps)
    ensures Synced(a, steps) ==>
              SetPositionDim(a, steps, value, dim) == SetPosition(a.position[dim := value], steps)
  {
    FlatOffsetUpdate(a.position, steps, dim, value);
    assert a.position[dim := value][..|steps|] == a.position[dim := value];
  }

  /** Absolute positioning ignores the prior state: repeating it changes nothing,
      and it is the only synced state at those coordinates. */
  lemma SetPositionCanonical(a: Access, pos: seq<int>, steps: seq<int>)
    requires |pos| >= |steps|
    ensures Synced(SetPosition(pos, steps), steps)
    ensures SetPosition(SetPosition(pos, steps).position, steps) == SetPosition(pos, steps)
    ensures Synced(a, steps) && a.position == pos[..|steps|] <==> a == SetPosition(pos, steps)
  {
  }

  /** The dimension-0 fast path keeps a synced handle synced exactly when the
      stride of dimension 0 is one (or nothing moves); with unit stride it is
      the general relative step along dimension 0. */
  lemma MoveDim0Sync(a: Access, steps: seq<int>, distance: int)
    requires Synced(a, steps) && |steps| > 0
    ensures Synced(MoveDim0(a, distance), steps) <==> (distance == 0 || steps[0] == 1)
    ensures steps[0] == 1 ==> MoveDim0(a, distance) == Move(a, steps, distance, 0)
  {
    FlatOffsetUpdate(a.position, steps, 0, a.position[0] + distance);
    assert FlatOffset(MoveDim0(a, distance).position, steps) == a.index + distance * steps[0];
    if distance != 0 && steps[0] != 1 {
      assert distance * steps[0] - distance == distance * (steps[0] - 1);
      assert distance * (steps[0] - 1) != 0;
    }
  }

  /** Setting coordinate 0 absolutely gives a synced handle exactly when the
      other coordinates contribute nothing to the offset, whatever the prior index. */
  lemma SetPositionDim0Sync(a: Access, steps: seq<int>, value: int)
    requires |a.position| == |steps| > 0 && steps[0] == 1
    ensures Synced(SetPositionDim0(a, value), steps) <==> FlatOffset(a.position[0 := 0], steps) == 0
  {
    FlatOffsetUpdate(a.position[0 := 0], steps, 0, value);
    assert a.position[0 := 0][0 := value] == a.position[0 := value];
  }

  /** In a one-dimensional situation (all other coordinates zero) the setter
      lands exactly where the full absolute positioning would. */
  lemma SetPositionDim0OtherZero(a: Access, steps: seq<int>, value: int)
    requires |a.position| == |steps| > 0 && steps[0] == 1
    requires forall d :: 0 < d < |a.position| ==> a.position[d] == 0
    ensures SetPositionDim0(a, value) == SetPosition(a.position[0 := value], steps)
  {
    FlatOffsetOfZeros(a.position[0 := 0], steps);
    SetPositionDim0Sync(a, steps, value);
    assert a.position[0 := value][..|steps|] == a.position[0 := value];
  }

  /** Inside an image, any other non-zero coordinate makes the setter desynchronise
      the index from the coordinates. */
  lemma SetPositionDim0Desyncs(a: Access, steps: seq<int>, dims: seq<int>, value: int, k: nat)
    requires IsStrides(steps, dims) && InBox(a.position, dims)
    requires 0 < k < |a.position| && a.position[k] != 0
    ensures !Synced(SetPositionDim0(a, value), steps)
  {
    var z := a.position[0 := 0];
    forall d | 0 <= d < |steps| ensures steps[d] > 0 {
      StridesArePositive(steps, dims, d);
    }
    FlatOffsetAtLeastTerm(z, steps, k);
    StridesArePositive(steps, dims, k);
    assert z[k] * steps[k] > 0;
    SetPositionDim0Sync(a, steps, value);
  }

  /** A synced handle inside the image reads its buffer in bounds, and two
      synced handles inside the image share an index only at equal coordinates. */
  lemma SyncedInBoxAddressable(a: Access, b: Access, steps: seq<int>, dims: seq<int>)
    requires IsStrides(steps, dims)
    requires Synced(a, steps) && InBox(a.position, dims)
    requires Synced(b, steps) && InBox(b.position, dims)
    ensures 0 <= a.index < Product(dims)
    ensures a.index == b.index <==> a == b
  {
    FlatOffsetInBox(a.position, steps, dims);
    if a.index == b.index {
      FlatOffsetInjective(a.position, b.position, steps, dims);
    }
  }

  /** A copy recomputes its index from the coordinates: it equals the original
      exactly when the original was synced. */
  lemma CopyMatchesOriginal(a: Access, steps: seq<int>)
    requires |a.position| == |steps|
    ensures Synced(SetPosition(a.position, steps), steps)
    ensures SetPosition(a.position, steps) == a <==> Synced(a, steps)
  {
  }
}
