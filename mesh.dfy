/**
 * The three flat buffers a sponge hands to the renderer, and the
 * properties of their contents. Positions and normals are 4-wide tuples
 * laid out back to back; component 3 of a position is the homogeneous
 * coordinate w, component 3 of a normal is 0.
 */
module MeshModel {

  /** Floats per position or normal tuple. */
  const POINT_SIZE: nat := 4
  /** Spatial dimensions, and corners per triangle. */
  const N_DIM: nat := 3

  datatype Mesh = Mesh(positions: seq<real>, indices: seq<nat>, normals: seq<real>)

  /** Every w component of a position buffer is exactly 1. */
  predicate Homogeneous(p: seq<real>)
  {
    forall k :: 0 <= k < |p| && k % 4 == 3 ==> p[k] == 1.0
  }

  /** Every x, y and z component of a position buffer lies in [lo, hi]. */
  predicate WithinBox(p: seq<real>, lo: real, hi: real)
  {
    forall k :: 0 <= k < |p| && k % 4 != 3 ==> lo <= p[k] <= hi
  }

  /** Exactly one component is nonzero, and it is 1 or -1. */
  predicate IsAxisUnit(x: real, y: real, z: real)
  {
    || ((x == 1.0 || x == -1.0) && y == 0.0 && z == 0.0)
    || (x == 0.0 && (y == 1.0 || y == -1.0) && z == 0.0)
    || (x == 0.0 && y == 0.0 && (z == 1.0 || z == -1.0))
  }

  /** Normal tuple v is an axis-aligned unit direction with w = 0. */
  predicate NormalTupleOk(n: seq<real>, v: nat)
    requires 4 * v + 3 < |n|
  {
    IsAxisUnit(n[4 * v], n[4 * v + 1], n[4 * v + 2]) && n[4 * v + 3] == 0.0
  }

  /** A normal buffer made only of axis-aligned unit directions. */
  predicate AxisNormals(n: seq<real>)
  {
    |n| % 4 == 0 && forall v :: 0 <= v < |n| / 4 ==> NormalTupleOk(n, v)
  }

  /** Every index names a vertex tuple of the position buffer. */
  predicate IndicesValid(m: Mesh)
  {
    forall k :: 0 <= k < |m.indices| ==> m.indices[k] < |m.positions| / 4
  }
}
