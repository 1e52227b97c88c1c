/**
 * What a sponge of level n holds, as values. Level 1 is the unit cube
 * centred on the origin; level n is 20 copies of level n - 1, each shrunk
 * into a third of the cell and moved to one true cell of the mask, with
 * its normals copied and its indices shifted past the copies before it.
 */
module SpongeBuilder {
  import opened Arith
  import opened MeshModel
  import opened CubeUnit
  import opened Placement

  // ---- One rebuild step ----

  /** One coordinate moved from [-0.5, 0.5] into the first third of the cell. */
  function Shrink(v: real): real
  {
    (v + 0.5) / (N_DIM as real) - 0.5
  }

  /** A position buffer after the in-place rescale: x, y and z shrunk, w kept. */
  function Rescaled(p: seq<real>): (r: seq<real>)
    ensures |r| == |p|
  {
    seq(|p|, k requires 0 <= k < |p| => if k % POINT_SIZE < N_DIM then Shrink(p[k]) else p[k])
  }

  /** A sponge's mesh after its positions are rescaled. */
  function Shrunk(m: Mesh): Mesh
  {
    Mesh(Rescaled(m.positions), m.indices, m.normals)
  }

  /** The translation of the copy placed in a cell: a third of the cell's place along each axis. */
  function CellOffset(c: Cell): Vec3
  {
    ((c.x as real) / (N_DIM as real), (c.y as real) / (N_DIM as real), (c.z as real) / (N_DIM as real))
  }

  /** Entry j of a copy translated by off: x, y and z moved, w set to 1. */
  function Shifted(r: seq<real>, off: Vec3, j: nat): real
    requires j < |r|
  {
    if j % POINT_SIZE < N_DIM then r[j] + Component(off, j % POINT_SIZE) else 1.0
  }

  /** The four entries of tuple j / 4 of a translated copy. */
  lemma ShiftedTuple(r: seq<real>, off: Vec3, j: nat)
    requires j % POINT_SIZE == 0 && j + 3 < |r|
    ensures Shifted(r, off, j) == r[j] + off.0 && Shifted(r, off, j + 1) == r[j + 1] + off.1
    ensures Shifted(r, off, j + 2) == r[j + 2] + off.2 && Shifted(r, off, j + 3) == 1.0
  {
    SlotDecompose(j / POINT_SIZE, 1, POINT_SIZE);
    SlotDecompose(j / POINT_SIZE, 2, POINT_SIZE);
    SlotDecompose(j / POINT_SIZE, 3, POINT_SIZE);
  }

  /** Entry k of the tiled position buffer: entry k % L of the copy in slot k / L. */
  function TilePosition(r: seq<real>, k: nat): real
    requires k < N_SLOTS * |r|
  {
    SlotCount();
    SlotBelow(k, |r|, N_SLOTS);
    Shifted(r, CellOffset(SLOTS[k / |r|]), k % |r|)
  }

  /** Entry k of the tiled index buffer: the sub-index shifted by verts per earlier slot. */
  function TileIndex(ix: seq<nat>, verts: nat, k: nat): nat
    requires k < N_SLOTS * |ix|
  {
    ix[k % |ix|] + (k / |ix|) * verts
  }

  /** Entry k of the tiled normal buffer: a verbatim copy. */
  function TileNormal(n: seq<real>, k: nat): real
    requires k < N_SLOTS * |n|
  {
    n[k % |n|]
  }

  /** Twenty copies of a mesh, one per slot. */
  function Tile(sub: Mesh): Mesh
  {
    var r, ix, n := sub.positions, sub.indices, sub.normals;
    Mesh(seq(N_SLOTS * |r|, k requires 0 <= k < N_SLOTS * |r| => TilePosition(r, k)),
         seq(N_SLOTS * |ix|, k requires 0 <= k < N_SLOTS * |ix| => TileIndex(ix, |r| / POINT_SIZE, k)),
         seq(N_SLOTS * |n|, k requires 0 <= k < N_SLOTS * |n| => TileNormal(n, k)))
  }

  /** The mesh of a sponge of level n, with its sizes: 144, 36 and 144 entries times 20^(n-1). */
  function Level(n: nat): (m: Mesh)
    requires n >= 1
    ensures |m.positions| == CUBE_FLOATS * Pow(N_SLOTS, n - 1)
    ensures |m.indices| == CUBE_CORNERS * Pow(N_SLOTS, n - 1)
    ensures |m.normals| == CUBE_FLOATS * Pow(N_SLOTS, n - 1)
    decreases n
  {
    if n == 1 then CubeMesh((-0.5, -0.5, -0.5), 1.0)
    else Tile(Shrunk(Level(n - 1)))
  }

  // ---- Filling the tiled buffers slot by slot ----

  /** p with the copy of r translated by off written at base. */
  function PlaceInto(p: seq<real>, r: seq<real>, base: nat, off: Vec3): (q: seq<real>)
    requires base + |r| <= |p|
    ensures |q| == |p|
  {
    seq(|p|, k requires 0 <= k < |p| => if base <= k < base + |r| then Shifted(r, off, k - base) else p[k])
  }

  /** p with r copied verbatim at base. */
  function CopyInto(p: seq<real>, r: seq<real>, base: nat): (q: seq<real>)
    requires base + |r| <= |p|
    ensures |q| == |p|
  {
    seq(|p|, k requires 0 <= k < |p| => if base <= k < base + |r| then r[k - base] else p[k])
  }

  /** p with ix, each entry raised by shift, written at base. */
  function ShiftInto(p: seq<nat>, ix: seq<nat>, base: nat, shift: nat): (q: seq<nat>)
    requires base + |ix| <= |p|
    ensures |q| == |p|
  {
    seq(|p|, k requires 0 <= k < |p| => if base <= k < base + |ix| then ix[k - base] + shift else p[k])
  }

  /** The first s slots of p hold what the tiled buffers hold there. */
  predicate PositionsFilled(p: seq<real>, r: seq<real>, s: nat)
    requires |p| == N_SLOTS * |r|
  {
    forall k :: 0 <= k < s * |r| && k < |p| ==> p[k] == TilePosition(r, k)
  }

  predicate IndicesFilled(p: seq<nat>, ix: seq<nat>, verts: nat, s: nat)
    requires |p| == N_SLOTS * |ix|
  {
    forall k :: 0 <= k < s * |ix| && k < |p| ==> p[k] == TileIndex(ix, verts, k)
  }

  predicate NormalsFilled(p: seq<real>, n: seq<real>, s: nat)
    requires |p| == N_SLOTS * |n|
  {
    forall k :: 0 <= k < s * |n| && k < |p| ==> p[k] == TileNormal(n, k)
  }

  /** The first s slots of all three buffers hold what the tiled mesh of sub holds there. */
  predicate Filled(p: seq<real>, ix: seq<nat>, n: seq<real>, sub: Mesh, s: nat)
    requires |p| == N_SLOTS * |sub.positions| && |ix| == N_SLOTS * |sub.indices| && |n| == N_SLOTS * |sub.normals|
  {
    && PositionsFilled(p, sub.positions, s)
    && IndicesFilled(ix, sub.indices, |sub.positions| / POINT_SIZE, s)
    && NormalsFilled(n, sub.normals, s)
  }

  /** Writing the copy for slot s after the first s slots fills the first s + 1. */
  lemma PositionsStep(p: seq<real>, r: seq<real>, s: nat)
    requires |p| == N_SLOTS * |r| && s < N_SLOTS && PositionsFilled(p, r, s)
    ensures |SLOTS| == N_SLOTS && s * |r| + |r| <= |p|
    ensures PositionsFilled(PlaceInto(p, r, s * |r|, CellOffset(SLOTS[s])), r, s + 1)
  {
    SlotCount();
    SlotEnd(s, |r|, N_SLOTS);
    var q := PlaceInto(p, r, s * |r|, CellOffset(SLOTS[s]));
    forall k | 0 <= k < (s + 1) * |r| && k < |q|
      ensures q[k] == TilePosition(r, k)
    {
      if k >= s * |r| {
        SlotDecompose(s, k - s * |r|, |r|);
      }
    }
  }

  lemma IndicesStep(p: seq<nat>, ix: seq<nat>, verts: nat, s: nat)
    requires |p| == N_SLOTS * |ix| && s < N_SLOTS && IndicesFilled(p, ix, verts, s)
    ensures s * |ix| + |ix| <= |p|
    ensures IndicesFilled(ShiftInto(p, ix, s * |ix|, s * verts), ix, verts, s + 1)
  {
    SlotEnd(s, |ix|, N_SLOTS);
    var q := ShiftInto(p, ix, s * |ix|, s * verts);
    forall k | 0 <= k < (s + 1) * |ix| && k < |q|
      ensures q[k] == TileIndex(ix, verts, k)
    {
      if k >= s * |ix| {
        SlotDecompose(s, k - s * |ix|, |ix|);
      }
    }
  }

  lemma NormalsStep(p: seq<real>, n: seq<real>, s: nat)
    requires |p| == N_SLOTS * |n| && s < N_SLOTS && NormalsFilled(p, n, s)
    ensures s * |n| + |n| <= |p|
    ensures NormalsFilled(CopyInto(p, n, s * |n|), n, s + 1)
  {
    SlotEnd(s, |n|, N_SLOTS);
    var q := CopyInto(p, n, s * |n|);
    forall k | 0 <= k < (s + 1) * |n| && k < |q|
      ensures q[k] == TileNormal(n, k)
    {
      if k >= s * |n| {
        SlotDecompose(s, k - s * |n|, |n|);
      }
    }
  }

  /** Once all 20 slots are filled, the buffers are the tiled mesh. */
  lemma FilledIsTile(p: seq<real>, ix: seq<nat>, n: seq<real>, sub: Mesh)
    requires |p| == N_SLOTS * |sub.positions| && |ix| == N_SLOTS * |sub.indices| && |n| == N_SLOTS * |sub.normals|
    requires Filled(p, ix, n, sub, N_SLOTS)
    ensures Mesh(p, ix, n) == Tile(sub)
  {
    var t := Tile(sub);
    assert p == t.positions;
    assert ix == t.indices;
    assert n == t.normals;
  }

  // ---- The slot layout of a tiled mesh ----

  /**
   * Slot s of a tiled mesh is the copy for cell SLOTS[s]: its positions are
   * the sub-mesh's, translated by a third of the cell's place, with w = 1.
   */
  lemma TilePositionSlot(sub: Mesh, s: nat, j: nat)
    requires s < N_SLOTS && j < |sub.positions|
    ensures |SLOTS| == N_SLOTS
    ensures var t, L := Tile(sub), |sub.positions|;
      s * L + j < |t.positions| && t.positions[s * L + j] == Shifted(sub.positions, CellOffset(SLOTS[s]), j)
  {
    SlotCount();
    SlotDecompose(s, j, |sub.positions|);
    SlotEnd(s, |sub.positions|, N_SLOTS);
  }

  /** The normals of slot s of a tiled mesh are the sub-mesh's, verbatim. */
  lemma TileNormalSlot(sub: Mesh, s: nat, j: nat)
    requires s < N_SLOTS && j < |sub.normals|
    ensures var t := Tile(sub);
      s * |sub.normals| + j < |t.normals| && t.normals[s * |sub.normals| + j] == sub.normals[j]
  {
    SlotDecompose(s, j, |sub.normals|);
    SlotEnd(s, |sub.normals|, N_SLOTS);
  }

  /** The indices of slot s of a tiled mesh are the sub-mesh's, raised by s times its vertex count. */
  lemma TileIndexSlot(sub: Mesh, s: nat, j: nat)
    requires s < N_SLOTS && j < |sub.indices|
    ensures var t := Tile(sub);
      s * |sub.indices| + j < |t.indices| &&
      t.indices[s * |sub.indices| + j] == sub.indices[j] + s * (|sub.positions| / POINT_SIZE)
  {
    SlotDecompose(s, j, |sub.indices|);
    SlotEnd(s, |sub.indices|, N_SLOTS);
  }

  // ---- What one rebuild step keeps ----

  /** The sub-mesh shapes a rebuild step relies on: whole tuples, one index per vertex. */
  predicate WellShaped(m: Mesh)
  {
    |m.positions| > 0 && |m.positions| % POINT_SIZE == 0 &&
    |m.indices| == |m.positions| / POINT_SIZE && |m.normals| == |m.positions|
  }

  /** Entry k of the next level's positions, for x, y or z: the sub-mesh's entry shrunk and moved to its slot's cell. */
  lemma StepPositionAt(m: Mesh, k: nat)
    requires WellShaped(m) && k < |Tile(Shrunk(m)).positions| && k % 4 != 3
    ensures |SLOTS| == N_SLOTS && k / |m.positions| < N_SLOTS && k % |m.positions| % 4 == k % 4
    ensures var s, j := k / |m.positions|, k % |m.positions|;
      Tile(Shrunk(m)).positions[k] == Shrink(m.positions[j]) + Component(CellOffset(SLOTS[s]), k % 4)
  {
    SlotCount();
    var L := |m.positions|;
    SlotBelow(k, L, N_SLOTS);
    ModOfMod(k, POINT_SIZE, L / POINT_SIZE);
    assert Tile(Shrunk(m)).positions[k] == TilePosition(Rescaled(m.positions), k);
  }

  /** A shrunk coordinate moved to cell c stays in that cell's third, and in [-0.5, 0.5]. */
  lemma PlacedBounds(v: real, c: Cell, a: nat)
    requires -0.5 <= v <= 0.5 && InRange(c) && a < 3
    ensures CellLow(c, a) <= Shrink(v) + Component(CellOffset(c), a) <= CellLow(c, a) + 1.0 / 3.0
    ensures -0.5 <= Shrink(v) + Component(CellOffset(c), a) <= 0.5
  {
    ShrinkBounds(v);
    var i := if a == 0 then c.x else if a == 1 then c.y else c.z;
    assert Component(CellOffset(c), a) == (i as real) / 3.0;
    assert i <= 2;
  }

  /** A vertex of slot s of the next level lies in the sub-box of cell SLOTS[s]. */
  lemma StepConfinedAt(m: Mesh, k: nat)
    requires WellShaped(m) && WithinBox(m.positions, -0.5, 0.5)
    requires k < |Tile(Shrunk(m)).positions| && k % 4 != 3
    ensures |SLOTS| == N_SLOTS && k / |m.positions| < N_SLOTS
    ensures var s, a := k / |m.positions|, k % 4;
      CellLow(SLOTS[s], a) <= Tile(Shrunk(m)).positions[k] <= CellLow(SLOTS[s], a) + 1.0 / 3.0
    ensures -0.5 <= Tile(Shrunk(m)).positions[k] <= 0.5
  {
    StepPositionAt(m, k);
    SlotsAreTheTrueCells();
    var s, j := k / |m.positions|, k % |m.positions|;
    PlacedBounds(m.positions[j], SLOTS[s], k % 4);
  }

  /** A rebuild step writes w = 1 into every vertex. */
  lemma StepHomogeneous(m: Mesh)
    requires WellShaped(m)
    ensures Homogeneous(Tile(Shrunk(m)).positions)
  {
    var r := Rescaled(m.positions);
    var p := Tile(Shrunk(m)).positions;
    forall k | 0 <= k < |p| && k % 4 == 3
      ensures p[k] == 1.0
    {
      ModOfMod(k, POINT_SIZE, |r| / POINT_SIZE);
      assert p[k] == TilePosition(r, k);
    }
  }

  /** Every normal of the next level is the sub-mesh's normal at the same place in its block. */
  lemma StepNormalsPeriodic(m: Mesh, k: nat)
    requires k < |Tile(Shrunk(m)).normals|
    ensures |m.normals| > 0 && Tile(Shrunk(m)).normals[k] == m.normals[k % |m.normals|]
  {
  }

  /** Normal tuple v of the next level is tuple v % V of the sub-mesh, V being its tuple count. */
  lemma StepNormalTuple(m: Mesh, v: nat)
    requires WellShaped(m) && AxisNormals(m.normals) && 4 * v + 3 < |Tile(Shrunk(m)).normals|
    ensures NormalTupleOk(Tile(Shrunk(m)).normals, v)
  {
    var N := m.normals;
    var V := |N| / 4;
    assert |N| == 4 * V;
    TupleMod(v, 0, 4, V);
    TupleMod(v, 1, 4, V);
    TupleMod(v, 2, 4, V);
    TupleMod(v, 3, 4, V);
    StepNormalsPeriodic(m, 4 * v);
    StepNormalsPeriodic(m, 4 * v + 1);
    StepNormalsPeriodic(m, 4 * v + 2);
    StepNormalsPeriodic(m, 4 * v + 3);
    assert NormalTupleOk(N, v % V);
  }

  /** A rebuild step keeps every normal an axis-aligned unit direction. */
  lemma StepAxisNormals(m: Mesh)
    requires WellShaped(m) && AxisNormals(m.normals)
    ensures AxisNormals(Tile(Shrunk(m)).normals)
  {
    var T := Tile(Shrunk(m)).normals;
    var V := |m.normals| / 4;
    assert |m.normals| == 4 * V;
    assert |T| == 4 * (N_SLOTS * V);
    DivModUnique(|T|, 4, N_SLOTS * V, 0);
    assert |T| / 4 == N_SLOTS * V && |T| % 4 == 0;
    forall v | 0 <= v < |T| / 4
      ensures NormalTupleOk(T, v)
    {
      assert 4 * v + 3 < |T|;
      StepNormalTuple(m, v);
    }
  }

  /** A rebuild step keeps the index buffer the identity. */
  lemma StepIndicesIdentity(m: Mesh)
    requires WellShaped(m)
    requires forall k :: 0 <= k < |m.indices| ==> m.indices[k] == k
    ensures forall k :: 0 <= k < |Tile(Shrunk(m)).indices| ==> Tile(Shrunk(m)).indices[k] == k
  {
    var LI := |m.indices|;
    var T := Tile(Shrunk(m)).indices;
    forall k | 0 <= k < |T|
      ensures T[k] == k
    {
      assert T[k] == TileIndex(m.indices, |Rescaled(m.positions)| / POINT_SIZE, k);
      assert k == (k / LI) * LI + k % LI;
    }
  }

  // ---- Properties of every level ----

  /** Level n is level n - 1 shrunk and tiled. */
  lemma LevelStep(n: nat)
    requires n >= 2
    ensures Level(n) == Tile(Shrunk(Level(n - 1)))
  {
  }

  /** Buffer shapes at every level: whole tuples, one index per vertex, one normal per position. */
  lemma LevelShape(n: nat)
    requires n >= 1
    ensures WellShaped(Level(n))
  {
    var P := Pow(N_SLOTS, n - 1);
    PowPositive(N_SLOTS, n - 1);
    assert |Level(n).positions| == POINT_SIZE * (CUBE_CORNERS * P);
    DivModUnique(|Level(n).positions|, POINT_SIZE, CUBE_CORNERS * P, 0);
  }

  /** Every vertex of every level has w = 1. */
  lemma LevelHomogeneous(n: nat)
    requires n >= 1
    ensures Homogeneous(Level(n).positions)
  {
    if n == 1 {
      CubeHomogeneous((-0.5, -0.5, -0.5), 1.0);
    } else {
      LevelShape(n - 1);
      LevelStep(n);
      StepHomogeneous(Level(n - 1));
    }
  }

  /**
   * The w checks of the rescale loop and of the copy loop always pass: the
   * sub-sponge's positions have w = 1 before and after the rescale.
   */
  lemma SubSpongeWChecksHold(n: nat)
    requires n >= 1
    ensures Homogeneous(Level(n).positions) && Homogeneous(Rescaled(Level(n).positions))
  {
    LevelHomogeneous(n);
  }

  /** Shrinking maps [-0.5, 0.5] into [-0.5, -0.5 + 1/3]. */
  lemma ShrinkBounds(v: real)
    requires -0.5 <= v <= 0.5
    ensures -0.5 <= Shrink(v) <= -0.5 + 1.0 / 3.0
  {
  }

  /** The low corner of cell c along axis a, in the [-0.5, 0.5] cell of the sponge. */
  function CellLow(c: Cell, a: nat): real
    requires a < 3
  {
    -0.5 + Component(CellOffset(c), a)
  }

  /** A rebuild step keeps every vertex in [-0.5, 0.5] along x, y and z. */
  lemma StepInUnitBox(m: Mesh)
    requires WellShaped(m) && WithinBox(m.positions, -0.5, 0.5)
    ensures WithinBox(Tile(Shrunk(m)).positions, -0.5, 0.5)
  {
    forall k | 0 <= k < |Tile(Shrunk(m)).positions| && k % 4 != 3
      ensures -0.5 <= Tile(Shrunk(m)).positions[k] <= 0.5
    {
      StepConfinedAt(m, k);
    }
  }

  /** Every vertex of every level lies in [-0.5, 0.5] along x, y and z. */
  lemma {:induction false} LevelInUnitBox(n: nat)
    requires n >= 1
    ensures WithinBox(Level(n).positions, -0.5, 0.5)
  {
    if n == 1 {
      CubeWithinBox(-0.5, 1.0);
    } else {
      LevelInUnitBox(n - 1);
      LevelShape(n - 1);
      LevelStep(n);
      StepInUnitBox(Level(n - 1));
    }
  }

  /**
   * Coordinate j of slot s of the next level lies in the third of the cell
   * that SLOTS[s] names: with LevelInUnitBox, the 20 copies of the smaller
   * sponge stay inside their own cells at every level.
   */
  lemma StepSlotConfined(m: Mesh, s: nat, j: nat)
    requires WellShaped(m) && WithinBox(m.positions, -0.5, 0.5)
    requires s < N_SLOTS && j < |m.positions| && j % 4 != 3
    ensures |SLOTS| == N_SLOTS && s * |m.positions| + j < |Tile(Shrunk(m)).positions|
    ensures var k := s * |m.positions| + j;
      CellLow(SLOTS[s], j % 4) <= Tile(Shrunk(m)).positions[k] <= CellLow(SLOTS[s], j % 4) + 1.0 / 3.0
  {
    var L := |m.positions|;
    SlotCount();
    SlotEnd(s, L, N_SLOTS);
    SlotDecompose(s, j, L);
    SlotTuplePosition(s, j, L, POINT_SIZE);
    StepConfinedAt(m, s * L + j);
  }

  /** Every normal of every level is an axis-aligned unit direction with w = 0. */
  lemma {:induction false} LevelAxisNormals(n: nat)
    requires n >= 1
    ensures AxisNormals(Level(n).normals)
  {
    if n == 1 {
      CubeNormalsAxisAligned((-0.5, -0.5, -0.5), 1.0);
    } else {
      LevelAxisNormals(n - 1);
      LevelShape(n - 1);
      LevelStep(n);
      StepAxisNormals(Level(n - 1));
    }
  }

  /** The index buffer of every level is the identity: entry k names vertex k. */
  lemma {:induction false} LevelIndicesIdentity(n: nat)
    requires n >= 1
    ensures forall k :: 0 <= k < |Level(n).indices| ==> Level(n).indices[k] == k
  {
    if n == 1 {
      CubeIndicesIdentity((-0.5, -0.5, -0.5), 1.0);
    } else {
      LevelIndicesIdentity(n - 1);
      LevelShape(n - 1);
      LevelStep(n);
      StepIndicesIdentity(Level(n - 1));
    }
  }

  /** Every index of every level names a vertex of its position buffer, and every vertex is named. */
  lemma LevelIndicesValid(n: nat)
    requires n >= 1
    ensures IndicesValid(Level(n))
    ensures forall v :: 0 <= v < |Level(n).positions| / POINT_SIZE ==> v in Level(n).indices
  {
    LevelIndicesIdentity(n);
    LevelShape(n);
    forall v | 0 <= v < |Level(n).positions| / POINT_SIZE
      ensures v in Level(n).indices
    {
      assert Level(n).indices[v] == v;
    }
  }
}
