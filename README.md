# Menger sponge mesh generator, in Dafny

This project models the mesh generator of the Menger-sponge viewer
(`src/menger/MengerSponge.ts` and its compiled copy
`dist/menger/MengerSponge.js`) and proves properties of what it builds.

- **`Cube`** fills three flat buffers from three fixed tables:
  - 8 corner points (`FLAT_PTS`);
  - 12 triangles of corner numbers (`FLAT_IDX`);
  - 12 normal rows (`FLAT_N`).

  Every triangle corner is its own vertex, so a cube has 144 position
  floats, 36 indices and 144 normal floats. Its index buffer is the
  identity.
- **`MengerSponge.setLevel(n)`**, for a positive level that differs from
  the recorded one:
  - builds the unit cube centred on the origin when n is 1;
  - otherwise builds a sponge of level n - 1, shrinks its positions in
    place into the first third of the cell, and walks the 3 x 3 x 3
    placement mask (`to_place`, 20 true cells) in x, y, z loop order;
  - for each true cell, writes one copy of the sub-sponge: positions
    moved by a third of the cell's place, normals copied, indices raised
    by the slot number times the sub-sponge's vertex count.

  Every call then records the level and sets the dirty flag.
- **The lifecycle**:
  - `isDirty` and `setClean` read and clear the dirty flag;
  - `positionsFlat`, `indicesFlat` and `normalsFlat` hand out the buffers.

## Modules

- `Arith` (`arith.dfy`): facts about division and remainder for buffers
  made of equal slots.
- `MeshModel` (`mesh.dfy`): the three buffers as a `Mesh` value, and the
  properties stated about them: w = 1, a bounding box, axis-aligned unit
  normals, valid indices.
- `CubeUnit` (`cube.dfy`):
  - the three tables;
  - the loops of the `Cube` constructor, as methods over arrays;
  - the class `Cube`;
  - the geometry of the tables.
- `Placement` (`mask.dfy`):
  - the mask;
  - the Menger rule it encodes;
  - the list `SLOTS` of the cells that receive copies, slot by slot, in the
    order the loops visit them.
- `SpongeBuilder` (`builder.dfy`): the pure specification. `Level(n)` is
  the mesh of level n: the cube at level 1, and 20 shrunk and moved copies
  of level n - 1 above it. The lemmas prove what every level satisfies.
- `SpongeState` (`sponge.dfy`):
  - the class `MengerSponge`, with its fields and methods;
  - the in-place rescale and copy loops that `setLevel` runs, each proved to
    produce `Level(n)`.

`setLevel` and the constructor call each other, as they do in the source:
the constructor runs `SetLevel`, and a rebuild constructs a sponge one
level down. The termination measure is the level.

The compiled copy `dist/menger/MengerSponge.js` has the same code as the
TypeScript, statement for statement, so one model covers both:

| part | MengerSponge.ts | MengerSponge.js |
|---|---|---|
| `Cube` constructor | lines 88-111 | lines 18-40 |
| tables | lines 16-65 | lines 42-94 |
| `to_place` | lines 114-130 | lines 95-111 |
| `setLevel` | lines 160-223 | lines 129-188 |
| accessors | lines 226-248 | lines 190-210 |

The table below cites the TypeScript lines.

Geometry of the tables:
- Seen from outside the cube, every one of the 12 triangles turns
  counter-clockwise (`WoundAtLow`, `WoundAtHigh`).
- The source's comments label the back, left and bottom pairs "clock" and
  the others "counter". Those labels describe a different viewpoint, not
  the outside of the cube; the tables themselves are consistent.

## Model

| member | source | states |
|---|---|---|
| CubeUnit.FillCube | src/menger/MengerSponge.ts:88-111 | The triangle, corner and coordinate loops fill fresh arrays of 144, 36 and 144 entries. Each position is the table corner scaled by len and moved to origin, with w from the table. Each normal is the triangle's row. Each index is its own position. The position and normal arrays are distinct. |
| CubeUnit.FillVertex | src/menger/MengerSponge.ts:98-108 | The coordinate loop extends the filled prefix of both buffers by the four floats of one vertex, and keeps everything before it. |
| CubeUnit.Cube.constructor | src/menger/MengerSponge.ts:88-111 | A new cube's buffers are fresh and hold the cube mesh for the given origin and side length. |
| CubeUnit.CubeIndicesIdentity | src/menger/MengerSponge.ts:90-97 | A cube has 144 position floats, 36 indices and 144 normal floats, and index k is k. |
| CubeUnit.CubeVertex | src/menger/MengerSponge.ts:95-108 | For corner i of triangle t: x, y and z are origin plus table corner FLAT_IDX[3t+i] times len, w is 1, and the normal is row t of FLAT_N. |
| CubeUnit.FlatPointsHomogeneous | src/menger/MengerSponge.ts:16-25 | Every FLAT_PTS row has w = 1. |
| CubeUnit.FlatPointsOnUnitCube | src/menger/MengerSponge.ts:16-25 | Every x, y and z in FLAT_PTS is between 0 and 1. |
| CubeUnit.FlatCornersDistinct | src/menger/MengerSponge.ts:16-25 | No two FLAT_PTS rows are the same corner. |
| CubeUnit.NormalRowsAxisAligned | src/menger/MengerSponge.ts:46-65 | Every FLAT_N row has w = 0 and exactly one nonzero component, equal to 1 or -1. |
| CubeUnit.OutwardFaceAtLow | src/menger/MengerSponge.ts:26-35 | For triangles 0 to 5 (front, right, back), all three corners lie on the cube face that the triangle's normal row points out of. |
| CubeUnit.OutwardFaceAtHigh | src/menger/MengerSponge.ts:36-45 | The same for triangles 6 to 11 (left, bottom, top). |
| CubeUnit.WoundAtLow | src/menger/MengerSponge.ts:26-35 | Triangles 0 to 5 wind counter-clockwise about their outward normal: the cross product of their edges points along the normal row. |
| CubeUnit.WoundAtHigh | src/menger/MengerSponge.ts:36-45 | The same for triangles 6 to 11. |
| CubeUnit.CubeHomogeneous | src/menger/MengerSponge.ts:103-105 | Every vertex of a cube has w = 1. |
| CubeUnit.CubeWithinBox | src/menger/MengerSponge.ts:101-102 | A cube with min corner (lo, lo, lo) and side len >= 0 lies within [lo, lo + len] on every axis. |
| CubeUnit.CubeNormalsAxisAligned | src/menger/MengerSponge.ts:107 | Every normal tuple of a cube is an axis-aligned unit direction with w = 0. |
| Placement.MaskShape | src/menger/MengerSponge.ts:114-130 | The mask is 3 x 3 x 3. |
| Placement.MaskIsMengerRule | src/menger/MengerSponge.ts:114-130 | A mask entry is true exactly when at most one of the cell's coordinates is the middle one. The mask is the Menger rule. |
| Placement.MaskEntry | src/menger/MengerSponge.ts:193 | The mask lookup in the fill loop answers the Menger rule for the cell. |
| Placement.SlotCount | src/menger/MengerSponge.ts:114-130 | Exactly 20 cells are true, so a sponge holds exactly 20 copies. |
| Placement.PlacedOrdered | src/menger/MengerSponge.ts:187-193 | The true cells among the first i loop steps are in range, kept, and listed in strictly increasing step order. |
| Placement.PlacedComplete | src/menger/MengerSponge.ts:187-193 | No true cell visited in the first i loop steps is missing from the list. |
| Placement.SlotsAreTheTrueCells | src/menger/MengerSponge.ts:187-193 | The 20 slots are exactly the true cells of the mask, each once, in the order the x, y, z loops visit them. |
| Placement.VisitCell | src/menger/MengerSponge.ts:191-211 | At the loop step for cell (x, y, z), the running counter grows by one exactly when the cell is kept. When it grows, its old value is the slot that holds this cell. |
| SpongeBuilder.Level | src/menger/MengerSponge.ts:165-215 | Size law: level n has 144 * 20^(n-1) position floats, 36 * 20^(n-1) indices and 144 * 20^(n-1) normal floats. |
| SpongeBuilder.LevelShape | src/menger/MengerSponge.ts:179-184 | Every level is non-empty and made of whole 4-tuples, with one index per vertex and one normal float per position float. |
| SpongeBuilder.TilePositionSlot | src/menger/MengerSponge.ts:195-202 | Entry j of slot s of a tiled mesh is entry j of the sub-mesh moved by a third of the place of cell SLOTS[s], and w is written as 1. |
| SpongeBuilder.TileNormalSlot | src/menger/MengerSponge.ts:204-206 | The normals of slot s are the sub-mesh's normals, verbatim. |
| SpongeBuilder.TileIndexSlot | src/menger/MengerSponge.ts:208-210 | Index j of slot s is the sub-mesh's index j plus s times the sub-mesh's vertex count. |
| SpongeBuilder.PositionsStep | src/menger/MengerSponge.ts:195-202 | Writing the moved copy into slot s, after s filled slots, leaves s + 1 slots filled as the tiled mesh has them. |
| SpongeBuilder.IndicesStep | src/menger/MengerSponge.ts:208-210 | The same for the raised indices. |
| SpongeBuilder.NormalsStep | src/menger/MengerSponge.ts:204-206 | The same for the copied normals. |
| SpongeBuilder.FilledIsTile | src/menger/MengerSponge.ts:186-215 | Once all 20 slots are filled, the three buffers are the tiled mesh. |
| SpongeBuilder.StepPositionAt | src/menger/MengerSponge.ts:173-199 | After a rebuild step, x, y or z at entry k is the sub-sponge's entry, shrunk, plus the offset of the cell of slot k / L. |
| SpongeBuilder.StepConfinedAt | src/menger/MengerSponge.ts:173-199 | Every coordinate of slot s after a rebuild step lies in the third of the cell that SLOTS[s] names, and within [-0.5, 0.5]. |
| SpongeBuilder.StepSlotConfined | src/menger/MengerSponge.ts:195-199 | Coordinate j of the copy in slot s lies in the sub-box of cell SLOTS[s]. |
| SpongeBuilder.StepHomogeneous | src/menger/MengerSponge.ts:201 | A rebuild step writes w = 1 into every vertex. |
| SpongeBuilder.StepNormalsPeriodic | src/menger/MengerSponge.ts:204-206 | Normal entry k of the next level equals the sub-sponge's entry k mod its length. |
| SpongeBuilder.StepNormalTuple | src/menger/MengerSponge.ts:204-206 | Every normal tuple of the next level is a normal tuple of the sub-sponge, so it is axis-aligned when the sub-sponge's are. |
| SpongeBuilder.StepAxisNormals | src/menger/MengerSponge.ts:204-206 | A rebuild step keeps every normal an axis-aligned unit direction with w = 0. |
| SpongeBuilder.StepIndicesIdentity | src/menger/MengerSponge.ts:208-210 | When the sub-sponge's indices are the identity, so are the next level's. The slot offset s * (L / 4) is exactly where the slot's vertices start. |
| SpongeBuilder.LevelHomogeneous | src/menger/MengerSponge.ts:165-201 | Every vertex of every level has w = 1. |
| SpongeBuilder.SubSpongeWChecksHold | src/menger/MengerSponge.ts:177-200 | Both console.assert checks on w pass: the sub-sponge has w = 1 before and after the rescale. |
| SpongeBuilder.ShrinkBounds | src/menger/MengerSponge.ts:174 | The rescale (v + 0.5) / 3 - 0.5 maps [-0.5, 0.5] into [-0.5, -0.5 + 1/3]. |
| SpongeBuilder.PlacedBounds | src/menger/MengerSponge.ts:174-199 | A shrunk coordinate plus the offset of an in-range cell lies in that cell's third, and within [-0.5, 0.5]. |
| SpongeBuilder.StepInUnitBox | src/menger/MengerSponge.ts:173-199 | A rebuild step keeps every vertex in [-0.5, 0.5] on every axis. |
| SpongeBuilder.LevelInUnitBox | src/menger/MengerSponge.ts:165-199 | Every vertex of every level lies in [-0.5, 0.5] on x, y and z. |
| SpongeBuilder.LevelAxisNormals | src/menger/MengerSponge.ts:165-206 | Every normal of every level is an axis-aligned unit direction with w = 0. |
| SpongeBuilder.LevelIndicesIdentity | src/menger/MengerSponge.ts:165-210 | The index buffer of every level is the identity. |
| SpongeBuilder.LevelIndicesValid | src/menger/MengerSponge.ts:208-210 | Every index names a vertex of the position buffer, and every vertex is named. |
| SpongeState.RescaleInPlace | src/menger/MengerSponge.ts:173-178 | The stride-4 loop shrinks x, y and z of every vertex in place and leaves w alone. |
| SpongeState.CopyPositions | src/menger/MengerSponge.ts:195-202 | The copy loop writes the translated sub-positions with w = 1 into one slot and nothing else. |
| SpongeState.CopyNormals | src/menger/MengerSponge.ts:204-206 | The normal loop copies the sub-normals verbatim into one slot and nothing else. |
| SpongeState.CopyIndices | src/menger/MengerSponge.ts:208-210 | The index loop writes the raised sub-indices into one slot and nothing else. |
| SpongeState.WriteSlot | src/menger/MengerSponge.ts:194-211 | Writing the three copies for slot subidx extends the filled slots by one. |
| SpongeState.VisitSlot | src/menger/MengerSponge.ts:191-212 | One turn of the z loop keeps the counter equal to the number of true cells visited so far, and keeps the filled slots in step with it. |
| SpongeState.FillRow | src/menger/MengerSponge.ts:191-213 | A whole z loop advances the counter by the true cells of its row, and the buffers stay filled up to the counter. |
| SpongeState.Assemble | src/menger/MengerSponge.ts:179-215 | Allocating 20 times the sub-buffers and running the x, y, z loops leaves exactly the tiled mesh of the rescaled sub-sponge in fresh arrays. |
| SpongeState.Rebuild | src/menger/MengerSponge.ts:165-217 | For every level n >= 1, the buffers setLevel builds are fresh and hold Level(n). |
| SpongeState.MengerSponge.constructor | src/menger/MengerSponge.ts:144-147 | A new sponge has recorded level n and is dirty. When n > 0 it has built level n into fresh buffers; otherwise it has no buffers. |
| SpongeState.MengerSponge.IsDirty | src/menger/MengerSponge.ts:152-154 | Returns the dirty flag. |
| SpongeState.MengerSponge.SetClean | src/menger/MengerSponge.ts:156-158 | Clears the dirty flag and changes nothing else: level, buffers and built level stay. |
| SpongeState.MengerSponge.SetLevel | src/menger/MengerSponge.ts:160-223 | Rebuilds exactly when n > 0 and n differs from the recorded level, and then the buffers hold Level(n). Otherwise the buffers stay. Either way it records level n and sets the dirty flag, keeping the object invariant. |
| SpongeState.MengerSponge.PositionsFlat | src/menger/MengerSponge.ts:226-230 | Returns the position buffer: null exactly when nothing was built, otherwise it holds the built level's positions. |
| SpongeState.MengerSponge.IndicesFlat | src/menger/MengerSponge.ts:235-239 | The same for the index buffer. |
| SpongeState.MengerSponge.NormalsFlat | src/menger/MengerSponge.ts:244-248 | The same for the normal buffer. |
| SpongeState.BuildAndRead | src/menger/MengerSponge.ts:144-248 | A new sponge of level n > 0 hands out three non-null buffers holding level n's mesh. For n <= 0 it hands out none. |
| SpongeState.DirtyProtocol | src/menger/MengerSponge.ts:152-222 | The dirty flag is set after SetLevel and cleared after SetClean. A repeated SetLevel(n) sets it again without replacing the buffers. |

## Left out

- Float32 and Uint32 storage:
  - positions and normals are exact `real`s, so the rescale and the offsets
    k / 3 are exact; nothing is claimed about Float32 rounding;
  - indices are unbounded `nat`s; the 2^32 wrap of a `Uint32Array` could
    only be reached at levels whose buffers exceed the largest typed array.
- Levels are integers. A fractional level (possible in a JavaScript
  `number`) is not modelled: it would recurse down to a level in (0, 1)
  and fail on missing buffers.
- The fields `level` and `dirty` are unset before the constructor's call.
  They are modelled as `None` for the level and as false for the flag,
  which that call overwrites.
- `console.log` and `console.assert` are output only.
  - The w checks are proved to hold, in SubSpongeWChecksHold.
  - The non-null checks in the accessors are turned into postconditions
    saying when a buffer is null.
- `uMatrix` returns the identity matrix of an external matrix library that
  is not part of this model.
- The rest of the repository is not part of this model:
  - the user interface, camera, WebGL and shader files;
  - the floor mesh;
  - the ray-marching and Mandelbrot demos.
- Loop-structure rearrangements. Each is proved to produce what the loop
  produces.
  - Some loop bodies of the source are methods of their own: FillVertex (the coordinate loop of the `Cube`
    constructor), FillRow and VisitSlot (the z loop and one turn of it),
    and Assemble and Rebuild (the rebuild branch of `setLevel`).
  - The base offset of the `Cube` coordinate loop is computed once per
    vertex rather than once per coordinate.
  - The mask lookup is MaskEntry.
- Aliasing of a level-1 sponge's buffers with the `Cube` object it came
  from is kept. That cube is not reachable afterwards, so nothing is stated
  about it.
