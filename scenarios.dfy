/**
 Clients of the handle, stated on concrete images and on arbitrary handles.
 */
module Scenarios {
  import opened Strides
  import M = RandomAccessModel
  import opened ArrayAccess

  /** A fresh handle on a rank-2 image with extents [3, 2] whose buffer holds
      0, 1, ..., 5 in buffer order. */
  method ThreeByTwo() returns (ra: ArrayRandomAccess<int>)
    ensures ra.Valid() && fresh(ra) && fresh(ra.position) && fresh(ra.container.data)
    ensures ra.container.dimensions == [3, 2] && ra.container.steps == [1, 3]
    ensures ra.position[..] == [0, 0] && ra.index == 0 && ra.Synced()
    ensures ra.container.data.Length == 6
    ensures forall i :: 0 <= i < ra.container.data.Length ==> ra.container.data[i] == i
  {
    var data := new int[6](i => i);
    var img := new ArrayImg([3, 2], [1, 3], data);
    ra := new ArrayRandomAccess(img);
    assert ra.Snapshot().position == [0, 0];
  }

  /** Coordinate (2, 1) of the [3, 2] image lies at flat index 2 * 1 + 1 * 3. */
  lemma OffsetOfTwoOne()
    ensures FlatOffset([2, 1], [1, 3]) == 5
  {
  }

  /** Absolute positioning at (2, 1) reads the element at flat index 5. */
  method ReadDirect() returns (v: int)
    ensures v == 5
  {
    var ra := ThreeByTwo();
    ra.SetPosition([2, 1]);
    assert [2, 1][..2] == [2, 1];
    OffsetOfTwoOne();
    v := ra.Get();
  }

  /** Stepping from the origin to (2, 1), once through the dimension-0 fast
      path, reads the same element as absolute positioning. */
  method ReadWalked() returns (v: int)
    ensures v == 5
  {
    var ra := ThreeByTwo();
    ra.Fwd(0);
    ra.FwdDim0();
    ra.Fwd(1);
    v := ra.Get();
  }

  /** From (0, 1), the dimension-0 setter moves the handle to (2, 1) but binds
      the proxy to flat index 2: the handle is out of sync and reads the
      element of (2, 0). */
  method ReadViaDim0Setter() returns (v: int, position: seq<int>)
    ensures position == [2, 1] && v == 2
  {
    var ra := ThreeByTwo();
    ra.SetPosition([0, 1]);
    ra.SetPositionDim0(2);
    position := ra.position[..];
    OffsetOfTwoOne();
    assert !ra.Synced();
    v := ra.Get();
  }

  /** Stepping a copy leaves the original untouched. */
  method StepCopy<T>(ra: ArrayRandomAccess<T>, dim: nat) returns (c: ArrayRandomAccess<T>)
    requires ra.Valid() && dim < ra.n
    ensures ra.Snapshot() == old(ra.Snapshot())
    ensures c.Valid() && c.Synced() && c.container == ra.container
    ensures c.Snapshot() == M.Move(M.SetPosition(ra.position[..], ra.container.steps), ra.container.steps, 1, dim)
  {
    c := ra.Copy();
    c.Fwd(dim);
  }

  /** Positioning a handle never writes the image buffer. */
  method StepKeepsImage<T>(ra: ArrayRandomAccess<T>, dim: nat)
    requires ra.Valid() && dim < ra.n
    modifies ra, ra.position
    ensures ra.container.data[..] == old(ra.container.data[..])
    ensures ra.Snapshot() == M.Move(old(ra.Snapshot()), ra.container.steps, 1, dim)
  {
    ra.Fwd(dim);
  }

  /** `move(k, dim)` followed by `move(-k, dim)` restores the handle. */
  method MoveAndBack<T>(ra: ArrayRandomAccess<T>, k: int, dim: nat)
    requires ra.Valid() && dim < ra.n
    modifies ra, ra.position
    ensures ra.Snapshot() == old(ra.Snapshot())
  {
    ghost var before := ra.Snapshot();
    ra.Move(k, dim);
    ra.Move(-k, dim);
    M.MoveUndo(before, ra.container.steps, k, dim);
  }
}
