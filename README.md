# ArrayRandomAccess: a verified model

This project models `ArrayRandomAccess` from imglib2. It is the positionable
handle into an n-dimensional image stored in one flat array, with dimension 0
varying fastest. The handle has two pieces of state:

- a coordinate vector `position[0..n)`;
- the flat buffer index that its linked element proxy is bound to.

Moving one unit along dimension `d` moves `steps[d]` slots in the buffer.
The handle is *synced* when its index equals `Σ position[d] * steps[d]`.
Every positioning operation updates the coordinates and the index together.
The relative steps and the per-dimension setter keep the invariant. Absolute
positioning and copying set it up from scratch, whatever the state was
before. The dimension-0 fast paths keep it because `steps[0] == 1`. The
dimension-0 absolute setter keeps it only when every other coordinate adds
nothing to the offset, which means in practice that they are all zero.

Modules:

- `Strides` (`strides.dfy`): `FlatOffset`, `Product`, and the canonical-stride
  condition `IsStrides` (`steps[0] == 1` and `steps[d] == steps[d-1] * dims[d-1]`).
  It has lemmas saying how the offset changes when one coordinate changes,
  that coordinates inside the image address slots inside the buffer, and
  that distinct coordinates inside the image address distinct slots.
- `RandomAccessModel` (`access_model.dfy`): the handle's state as a value
  (`Access`), one function per positioning operation, and the sync lemmas.
- `ArrayAccess` (`array_random_access.dfy`): the classes. `ArrayImg` holds
  the container fields the handle reads (extents, strides, buffer).
  `ArrayRandomAccess` has `position: array<int>` and `index: int`. Every
  method updates them in place. Each method's `ensures` ties the new
  `Snapshot()` to the matching model function of the old one, and says
  whether the handle is still synced. `Valid()` also records that the
  handle's `position` array is never the image buffer.
- `Scenarios` (`scenarios.dfy`): client methods. One is a 3 × 2 image holding
  `0..5`. There, both absolute positioning and stepping to `(2, 1)` read
  element 5. The dimension-0 setter leaves the handle at `(2, 1)` but reads
  element 2. Others show that stepping a copy leaves the original untouched,
  that a step never writes the image buffer, and that a move followed by the
  opposite move restores the handle.

Two behaviours of the source are worth stating on their own:

- `setPositionDim0` (ArrayRandomAccess.java:196-220) keeps the index and the
  coordinates in step only when the other coordinates are zero, as its doc
  comment says (`SetPositionDim0Sync`, `SetPositionDim0Desyncs`).
- The copy constructor (ArrayRandomAccess.java:51-59) copies the coordinates
  but recomputes the index from them. So a copy of an out-of-step handle is in
  step and differs from the original (`CopyMatchesOriginal`).

The functions that specify the methods model these lines of
`imglib2/core/src/main/java/net/imglib2/img/array/ArrayRandomAccess.java`:

- `Strides.FlatOffset`: the index accumulated at :51-56, :113-119 and :125-131.
- `RandomAccessModel.Origin`: the fresh state set at :69-73.
- `RandomAccessModel.Move`: the relative steps at :83-108.
- `RandomAccessModel.SetPosition`: absolute positioning at :111-133, and the copy at :51-59.
- `RandomAccessModel.SetPositionDim`: the per-dimension setter at :136-140.
- `RandomAccessModel.MoveDim0`: the dimension-0 steps at :159-194.
- `RandomAccessModel.SetPositionDim0`: the dimension-0 setter at :203-220.
- `Strides.IsStrides` and `Strides.Product`: the layout of the container's
  `steps`. That layout is computed in `ArrayImg`, which is not part of this
  model, and is assumed here (see "## Left out").

## Model

| member | source | states |
|---|---|---|
| `ArrayAccess.ArrayImg.constructor` | imglib2/core/src/main/java/net/imglib2/img/array/ArrayRandomAccess.java:42 | the container the handle reads has canonical strides for its extents and a buffer of exactly `Π dims` elements |
| `ArrayAccess.ArrayRandomAccess.constructor` | imglib2/core/src/main/java/net/imglib2/img/array/ArrayRandomAccess.java:62-74 | a fresh handle has every coordinate 0 and index 0, in a freshly allocated position array, and is synced |
| `ArrayAccess.ArrayRandomAccess.CopyOf` | imglib2/core/src/main/java/net/imglib2/img/array/ArrayRandomAccess.java:44-60 | the copy constructor's loop gives a new, separate position array equal to the original's, and an index recomputed as `Σ position[d]*steps[d]` (proved with loop invariants), so the copy is synced |
| `ArrayAccess.ArrayRandomAccess.Get` | imglib2/core/src/main/java/net/imglib2/img/array/ArrayRandomAccess.java:76-80 | returns the buffer element at the proxy's index; the caller must keep the index inside the buffer |
| `ArrayAccess.ArrayRandomAccess.Fwd` | imglib2/core/src/main/java/net/imglib2/img/array/ArrayRandomAccess.java:82-87 | only `position[dim]` changes, by +1; the index grows by `steps[dim]`; synced afterwards exactly when synced before |
| `ArrayAccess.ArrayRandomAccess.Bck` | imglib2/core/src/main/java/net/imglib2/img/array/ArrayRandomAccess.java:89-94 | only `position[dim]` changes, by -1; the index shrinks by `steps[dim]`; synced afterwards exactly when synced before |
| `ArrayAccess.ArrayRandomAccess.Move` | imglib2/core/src/main/java/net/imglib2/img/array/ArrayRandomAccess.java:96-108 | `position[dim]` grows by `distance` and the index by `steps[dim]*distance`, nothing else changes; synced afterwards exactly when synced before |
| `ArrayAccess.ArrayRandomAccess.SetPosition` | imglib2/core/src/main/java/net/imglib2/img/array/ArrayRandomAccess.java:110-133 | position becomes the first `n` entries of `pos` and the index becomes their flat offset (loop invariants), whatever the prior state; the handle is synced |
| `ArrayAccess.ArrayRandomAccess.SetPositionDim` | imglib2/core/src/main/java/net/imglib2/img/array/ArrayRandomAccess.java:135-140 | only `position[dim]` changes and the index moves by `(value - old)*steps[dim]`; sync is kept both ways; from a synced handle the result is a full absolute positioning with that one coordinate replaced |
| `ArrayAccess.ArrayRandomAccess.Copy` | imglib2/core/src/main/java/net/imglib2/img/array/ArrayRandomAccess.java:142-146 | a fresh handle on the same container with a fresh position array, equal coordinates and index `FlatOffset(position)`; it equals the original whenever the original is synced |
| `ArrayAccess.ArrayRandomAccess.CopyRandomAccess` | imglib2/core/src/main/java/net/imglib2/img/array/ArrayRandomAccess.java:148-152 | the same result as `Copy` |
| `ArrayAccess.ArrayRandomAccess.FwdDim0` | imglib2/core/src/main/java/net/imglib2/img/array/ArrayRandomAccess.java:156-163 | position[0] and the index both grow by 1, which is a general forward step along dimension 0 because `steps[0] == 1`; sync kept both ways |
| `ArrayAccess.ArrayRandomAccess.BckDim0` | imglib2/core/src/main/java/net/imglib2/img/array/ArrayRandomAccess.java:165-172 | position[0] and the index both shrink by 1, which is a general backward step along dimension 0; sync kept both ways |
| `ArrayAccess.ArrayRandomAccess.MoveDim0` | imglib2/core/src/main/java/net/imglib2/img/array/ArrayRandomAccess.java:174-194 | position[0] and the index both move by the raw `distance`, which is `Move(distance, 0)`; sync kept both ways |
| `ArrayAccess.ArrayRandomAccess.SetPositionDim0` | imglib2/core/src/main/java/net/imglib2/img/array/ArrayRandomAccess.java:196-220 | position[0] and the index both become `value`; the handle is synced afterwards exactly when the other coordinates have flat offset 0, whatever the prior index |
| `Strides.FlatOffsetUpdate` | imglib2/core/src/main/java/net/imglib2/img/array/ArrayRandomAccess.java:135-140 | replacing coordinate `d` changes the flat offset by exactly `(v - pos[d]) * steps[d]`, which is why the incremental updates are correct |
| `Strides.FlatOffsetExtend` | imglib2/core/src/main/java/net/imglib2/img/array/ArrayRandomAccess.java:113-119 | adding `pos[d]*steps[d]` to the running index extends the flat offset of the first `d` coordinates to the first `d+1` |
| `Strides.FlatOffsetOfZeros` | imglib2/core/src/main/java/net/imglib2/img/array/ArrayRandomAccess.java:69-73 | an all-zero coordinate vector has flat offset 0, for any strides |
| `Strides.FlatOffsetInBox` | imglib2/core/src/main/java/net/imglib2/img/array/ArrayRandomAccess.java:76-80 | with canonical strides, every coordinate in `[0, dims[d])` maps into `[0, Π dims)`, i.e. inside the buffer |
| `Strides.FlatOffsetInjective` | imglib2/core/src/main/java/net/imglib2/img/array/ArrayRandomAccess.java:111-120 | with canonical strides, two coordinates inside the image with the same flat offset are equal |
| `Strides.StridesAreProducts` | imglib2/core/src/main/java/net/imglib2/img/array/ArrayRandomAccess.java:85 | under the assumed `ArrayImg` layout (`IsStrides`, see "## Left out"), the stride `steps[d]` that the index is stepped by is the product of the extents before `d` |
| `RandomAccessModel.OriginSynced` | imglib2/core/src/main/java/net/imglib2/img/array/ArrayRandomAccess.java:62-74 | the origin state (zeros, index 0) is synced |
| `RandomAccessModel.MoveSync` | imglib2/core/src/main/java/net/imglib2/img/array/ArrayRandomAccess.java:96-101 | a relative step along any dimension by any distance leaves the handle synced exactly when it was synced |
| `RandomAccessModel.MoveUndo` | imglib2/core/src/main/java/net/imglib2/img/array/ArrayRandomAccess.java:103-108 | moving by `k` and then by `-k` along one dimension restores coordinates and index |
| `RandomAccessModel.SetPositionCanonical` | imglib2/core/src/main/java/net/imglib2/img/array/ArrayRandomAccess.java:122-133 | absolute positioning yields a synced state, is idempotent, and is the only synced state with those coordinates |
| `RandomAccessModel.SetPositionDimSync` | imglib2/core/src/main/java/net/imglib2/img/array/ArrayRandomAccess.java:136-139 | the per-dimension setter keeps sync in both directions and, from a synced state, equals absolute positioning at the updated coordinates |
| `RandomAccessModel.MoveDim0Sync` | imglib2/core/src/main/java/net/imglib2/img/array/ArrayRandomAccess.java:179-183 | a raw-delta step on dimension 0 keeps a synced handle synced exactly when `steps[0] == 1` or the delta is 0; with `steps[0] == 1` it is the general move |
| `RandomAccessModel.SetPositionDim0Sync` | imglib2/core/src/main/java/net/imglib2/img/array/ArrayRandomAccess.java:203-207 | the dimension-0 setter yields a synced state exactly when the other coordinates contribute flat offset 0 |
| `RandomAccessModel.SetPositionDim0OtherZero` | imglib2/core/src/main/java/net/imglib2/img/array/ArrayRandomAccess.java:196-202 | when all other coordinates are zero, the dimension-0 setter equals absolute positioning at the new coordinates |
| `RandomAccessModel.SetPositionDim0Desyncs` | imglib2/core/src/main/java/net/imglib2/img/array/ArrayRandomAccess.java:209-220 | inside an image, if any other coordinate is non-zero, the dimension-0 setter leaves index and coordinates out of sync |
| `RandomAccessModel.SyncedInBoxAddressable` | imglib2/core/src/main/java/net/imglib2/img/array/ArrayRandomAccess.java:77-79 | a synced handle inside the image has an index inside the buffer, and two such handles share an index exactly when they are equal |
| `RandomAccessModel.CopyMatchesOriginal` | imglib2/core/src/main/java/net/imglib2/img/array/ArrayRandomAccess.java:51-59 | recomputing the index from the coordinates gives a synced state, equal to the original exactly when the original was synced |
| `Scenarios.OffsetOfTwoOne` | imglib2/core/src/main/java/net/imglib2/img/array/ArrayRandomAccess.java:113-119 | in a [3, 2] image with strides [1, 3], coordinate (2, 1) has flat offset 5 |
| `Scenarios.ThreeByTwo` | imglib2/core/src/main/java/net/imglib2/img/array/ArrayRandomAccess.java:64-73 | a fresh handle on the [3, 2] image holding 0..5 sits at (0, 0) with index 0 |
| `Scenarios.ReadDirect` | imglib2/core/src/main/java/net/imglib2/img/array/ArrayRandomAccess.java:111-120 | absolute positioning at (2, 1) of that image reads 5 |
| `Scenarios.ReadWalked` | imglib2/core/src/main/java/net/imglib2/img/array/ArrayRandomAccess.java:83-87 | stepping twice along dimension 0 (once through the fast path) and once along dimension 1 reads the same 5 |
| `Scenarios.ReadViaDim0Setter` | imglib2/core/src/main/java/net/imglib2/img/array/ArrayRandomAccess.java:203-207 | from (0, 1), the dimension-0 setter to 2 leaves the handle at (2, 1) but reading 2: it is out of sync |
| `Scenarios.StepCopy` | imglib2/core/src/main/java/net/imglib2/img/array/ArrayRandomAccess.java:143-146 | stepping a copy leaves the original's coordinates and index unchanged |
| `Scenarios.StepKeepsImage` | imglib2/core/src/main/java/net/imglib2/img/array/ArrayRandomAccess.java:82-87 | a positioning step changes only the handle: the image buffer is unchanged |
| `Scenarios.MoveAndBack` | imglib2/core/src/main/java/net/imglib2/img/array/ArrayRandomAccess.java:97-101 | on a handle, `move(k, dim)` followed by `move(-k, dim)` restores the state |

## Left out

- Each pair of `int`/`long` overloads is one member. `move(int, dim)` and `move(long, dim)` are `Move`. `setPosition(int[])` and `setPosition(long[])` are `SetPosition`. `moveDim0(int)` and `move(long)` are `MoveDim0`. Both `setPositionDim0` overloads are `SetPositionDim0`. Without 32-bit narrowing, each pair behaves the same.
- Java `int` arithmetic is not modelled. Coordinates, strides and the index are unbounded integers, so overflow and the `(int)` casts of the `long` overloads do not appear. The `long` overloads `move(long, dim)` (:106), `setPosition(long[])` (:128), `move(long)` (:192) and `setPositionDim0(long)` (:218) truncate a value outside 32-bit range; the model does not.
- The linked-type proxy (`NativeType`, `createLinkedType`, `updateContainer`, `incIndex`, `decIndex`, `updateIndex`) is modelled as the integer `index`. `Get` returns the buffer element at that index, not a live view that later steps re-bind.
- `AbstractRandomAccessInt` is not part of this model. Only its `n` and `position` fields appear, as fields of the class.
- `ArrayImg` is not part of this model. Its strides are a constructor argument that must satisfy `IsStrides`, and its buffer must have length `Product(dimensions)`. Invalid shapes and the computation of the strides are not modelled.
- No operation checks bounds. `Get` requires the index to lie inside the buffer, since the underlying array read fails otherwise. `SyncedInBoxAddressable` shows that a synced handle inside the image meets that requirement.
- A dimension argument outside `[0, n)` is a precondition. There `fwd`, `bck`, `move` and `setPosition(pos, dim)` throw an array-index exception before changing any state.
- Calling a dimension-0 method on a 0-dimensional handle is a precondition (`n > 0`). In the source each of them first changes the index (:161, :170, :181, :192, :205, :218) and then throws at `position[0]`, leaving the index changed. The model does not capture that partial update.
- The argument of `setPosition(int[]/long[])` is a sequence value. The source reads only its first `n` entries, and the model requires at least `n` of them. With a shorter array the source writes `position[0..pos.length)` and then throws (:116, :128) before updating the index; the model does not capture that partial update. Aliasing between that argument and the handle's own array is not modelled; it would give the same result.
- Cursors, linear interpolation and the index-to-position inverse of the layout are not modelled here. Without the inverse, only injectivity and range of the flat offset are proved, and surjectivity is not.
- The adaptive median filter, the pixel-drawing tutorial and the interpolated-display test are not part of this model. They use the handle through other code and do file I/O, GUI display, randomness and floating point.
- Concurrency: none. Like the source, a handle is a single-threaded object.
