/**
 The positionable handle into a flat-array-backed n-dimensional image.

 The handle keeps a coordinate vector `position` and the flat index of its
 linked element proxy. Its methods update both in place; each one is specified
 by the function of `RandomAccessModel` that says what it does to the pair.
 */
module ArrayAccess {
  import opened Strides
  import M = RandomAccessModel

  /** The container, as far as the handle sees it: the extents, the strides
      derived from them, and the one flat buffer of elements. */
  class ArrayImg<T> {
    const dimensions: seq<int>
    const steps: seq<int>
    const data: array<T>

    ghost predicate Valid()
    {
      IsStrides(steps, dimensions) && data.Length == Product(dimensions)
    }

    constructor (dimensions: seq<int>, steps: seq<int>, data: array<T>)
      requires IsStrides(steps, dimensions) && data.Length == Product(dimensions)
      ensures Valid()
      ensures this.dimensions == dimensions && this.steps == steps && this.data == data
    {
      this.dimensions := dimensions;
      this.steps := steps;
      this.data := data;
    }
  }

  class ArrayRandomAccess<T> {
    const container: ArrayImg<T>
    /** Number of dimensions. */
    const n: nat
    const position: array<int>
    /** The flat buffer index the linked element proxy is bound to. */
    var index: int

    /** The handle's coordinates live in its own array, never in the image buffer. */
    ghost predicate Valid()
    {
      && container.Valid() && n == |container.dimensions| && position.Length == n
      && (position as object) != (container.data as object)
    }

    /** The coordinates and proxy index as a value. */
    ghost function Snapshot(): M.Access
      reads this, position
    {
      M.Access(position[..], index)
    }

    /** The proxy index is the flat offset of the coordinates. */
    ghost predicate Synced()
      reads this, position
      requires Valid()
    {
      M.Synced(Snapshot(), container.steps)
    }

    /** A fresh handle at the origin of `container`. */
    constructor (container: ArrayImg<T>)
      requires container.Valid()
      ensures Valid() && this.container == container && fresh(position)
      ensures Snapshot() == M.Origin(n) && Synced()
    {
      this.container := container;
      n := |container.dimensions|;
      position := new int[|container.dimensions|];
      new;
      for d := 0 to n
        invariant forall k :: 0 <= k < d ==> position[k] == 0
      {
        position[d] := 0;
      }
      index := 0;
      assert position[..] == M.Origin(n).position;
      M.OriginSynced(n, container.steps);
    }

    /** A handle on the same container at the coordinates of `other`, with
        its index recomputed from those coordinates. */
    constructor CopyOf(other: ArrayRandomAccess<T>)
      requires other.Valid()
      ensures Valid() && container == other.container && n == other.n && fresh(position)
      ensures Snapshot() == M.SetPosition(other.position[..], container.steps) && Synced()
    {
      container := other.container;
      n := other.n;
      position := new int[other.n];
      new;
      var idx := 0;
      for d := 0 to n
        invariant position[..d] == other.position[..d]
        invariant idx == FlatOffset(other.position[..d], container.steps[..d])
      {
        position[d] := other.position[d];
        idx := idx + position[d] * container.steps[d];
        FlatOffsetExtend(other.position[..], container.steps, d);
        assert position[..d + 1] == other.position[..d + 1];
      }
      index := idx;
      assert position[..] == position[..n] && other.position[..] == other.position[..n];
      assert container.steps[..n] == container.steps;
    }

    /** The element the linked proxy is bound to. */
    method Get() returns (t: T)
      requires Valid() && 0 <= index < container.data.Length
      ensures t == container.data[index]
    {
      t := container.data[index];
    }

    /** One step forward along `dim`. */
    method Fwd(dim: nat)
      requires Valid() && dim < n
      modifies this, position
      ensures Snapshot() == M.Move(old(Snapshot()), container.steps, 1, dim)
      ensures Synced() <==> old(Synced())
    {
      ghost var before := Snapshot();
      index := index + container.steps[dim];
      position[dim] := position[dim] + 1;
      M.MoveSync(before, container.steps, 1, dim);
    }

    /** One step backward along `dim`. */
    method Bck(dim: nat)
      requires Valid() && dim < n
      modifies this, position
      ensures Snapshot() == M.Move(old(Snapshot()), container.steps, -1, dim)
      ensures Synced() <==> old(Synced())
    {
      ghost var before := Snapshot();
      index := index - container.steps[dim];
      position[dim] := position[dim] - 1;
      M.MoveSync(before, container.steps, -1, dim);
    }

    /** `distance` steps along `dim`, forward or backward. */
    method Move(distance: int, dim: nat)
      requires Valid() && dim < n
      modifies this, position
      ensures Snapshot() == M.Move(old(Snapshot()), container.steps, distance, dim)
      ensures Synced() <==> old(Synced())
    {
      ghost var before := Snapshot();
      index := index + container.steps[dim] * distance;
      position[dim] := position[dim] + distance;
      M.MoveSync(before, container.steps, distance, dim);
    }

    /** Absolute positioning at the first `n` entries of `pos`. */
    method SetPosition(pos: seq<int>)
      requires Valid() && |pos| >= n
      modifies this, position
      ensures Snapshot() == M.SetPosition(pos, container.steps) && Synced()
    {
      var idx := 0;
      for d := 0 to n
        invariant position[..d] == pos[..d]
        invariant idx == FlatOffset(pos[..d], container.steps[..d])
      {
        position[d] := pos[d];
        idx := idx + pos[d] * container.steps[d];
        FlatOffsetExtend(pos, container.steps, d);
        assert position[..d + 1] == pos[..d + 1];
      }
      index := idx;
      assert position[..] == position[..n];
      assert container.steps[..n] == container.steps;
      M.SetPositionCanonical(Snapshot(), pos, container.steps);
    }

    /** Absolute positioning of coordinate `dim` only. */
    method SetPositionDim(value: int, dim: nat)
      requires Valid() && dim < n
      modifies this, position
      ensures Snapshot() == M.SetPositionDim(old(Snapshot()), container.steps, value, dim)
      ensures Synced() <==> old(Synced())
      ensures old(Synced()) ==> Snapshot() == M.SetPosition(old(position[..])[dim := value], container.steps)
    {
      ghost var before := Snapshot();
      index := index + (value - position[dim]) * container.steps[dim];
      position[dim] := value;
      M.SetPositionDimSync(before, container.steps, value, dim);
    }

    /** An independent handle at the same coordinates on the same container. */
    method Copy() returns (c: ArrayRandomAccess<T>)
      requires Valid()
      ensures fresh(c) && fresh(c.position) && c.Valid()
      ensures c.container == container && c.n == n
      ensures c.Snapshot() == M.SetPosition(position[..], container.steps) && c.Synced()
      ensures Synced() ==> c.Snapshot() == Snapshot()
    {
      c := new ArrayRandomAccess.CopyOf(this);
      M.CopyMatchesOriginal(Snapshot(), container.steps);
    }

    /** The same as `Copy`. */
    method CopyRandomAccess() returns (c: ArrayRandomAccess<T>)
      requires Valid()
      ensures fresh(c) && fresh(c.position) && c.Valid()
      ensures c.container == container && c.n == n
      ensures c.Snapshot() == M.SetPosition(position[..], container.steps) && c.Synced()
      ensures Synced() ==> c.Snapshot() == Snapshot()
    {
      c := Copy();
    }

    /** One step forward along dimension 0 by incrementing the index. */
    method FwdDim0()
      requires Valid() && n > 0
      modifies this, position
      ensures Snapshot() == M.MoveDim0(old(Snapshot()), 1)
      ensures Snapshot() == M.Move(old(Snapshot()), container.steps, 1, 0)
      ensures Synced() <==> old(Synced())
    {
      ghost var before := Snapshot();
      index := index + 1;
      position[0] := position[0] + 1;
      M.MoveSync(before, container.steps, 1, 0);
    }

    /** One step backward along dimension 0 by decrementing the index. */
    method BckDim0()
      requires Valid() && n > 0
      modifies this, position
      ensures Snapshot() == M.MoveDim0(old(Snapshot()), -1)
      ensures Snapshot() == M.Move(old(Snapshot()), container.steps, -1, 0)
      ensures Synced() <==> old(Synced())
    {
      ghost var before := Snapshot();
      index := index - 1;
      position[0] := position[0] - 1;
      M.MoveSync(before, container.steps, -1, 0);
    }

    /** `distance` steps along dimension 0, moving the index by the raw distance. */
    method MoveDim0(distance: int)
      requires Valid() && n > 0
      modifies this, position
      ensures Snapshot() == M.MoveDim0(old(Snapshot()), distance)
      ensures Snapshot() == M.Move(old(Snapshot()), container.steps, distance, 0)
      ensures Synced() <==> old(Synced())
    {
      ghost var before := Snapshot();
      index := index + distance;
      position[0] := position[0] + distance;
      M.MoveSync(before, container.steps, distance, 0);
    }

    /** Coordinate 0 and the index both set to `value`; the other coordinates
        are assumed to be zero and are not consulted. */
    method SetPositionDim0(value: int)
      requires Valid() && n > 0
      modifies this, position
      ensures Snapshot() == M.SetPositionDim0(old(Snapshot()), value)
      ensures Synced() <==> FlatOffset(old(position[..])[0 := 0], container.steps) == 0
    {
      ghost var before := Snapshot();
      index := value;
      position[0] := value;
      M.SetPositionDim0Sync(before, container.steps, value);
    }
  }
}
