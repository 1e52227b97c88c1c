/**
 * The unit of the sponge: the flat mesh of one axis-aligned cube, built
 * from three fixed tables. Every triangle corner is its own vertex, so
 * each buffer has 36 entries (12 triangles, 3 corners each) and the index
 * buffer is the identity. Corner p is row p of FLAT_PTS; CornerRows lists
 * all eight.
 */
module CubeUnit {
  import opened MeshModel

  /** A row of the corner table. */
  type CornerId = p: nat | p < 8

  /** The 8 corners of the unit cube, as (x, y, z, w) with w = 1. */
  const FLAT_PTS: seq<real> :=
    [0.0, 0.0, 0.0, 1.0] +
    [1.0, 1.0, 0.0, 1.0] +
    [1.0, 0.0, 0.0, 1.0] +
    [1.0, 1.0, 1.0, 1.0] +
    [1.0, 0.0, 1.0, 1.0] +
    [0.0, 1.0, 1.0, 1.0] +
    [0.0, 0.0, 1.0, 1.0] +
    [0.0, 1.0, 0.0, 1.0]

  /** The 12 triangles, two per face (front, right, back, left, bottom, top). */
  const FLAT_IDX: seq<CornerId> :=
    [0, 7, 2] +
    [2, 7, 1] +
    [1, 4, 2] +
    [1, 3, 4] +
    [3, 6, 4] +
    [3, 5, 6] +
    [0, 6, 5] +
    [5, 7, 0] +
    [2, 6, 0] +
    [4, 6, 2] +
    [3, 1, 7] +
    [3, 7, 5]

  /** One normal row per triangle; both triangles of a face share it. */
  const FLAT_N: seq<real> :=
    [0.0, 0.0, -1.0, 0.0] +
    [0.0, 0.0, -1.0, 0.0] +
    [1.0, 0.0, 0.0, 0.0] +
    [1.0, 0.0, 0.0, 0.0] +
    [0.0, 0.0, 1.0, 0.0] +
    [0.0, 0.0, 1.0, 0.0] +
    [-1.0, 0.0, 0.0, 0.0] +
    [-1.0, 0.0, 0.0, 0.0] +
    [0.0, -1.0, 0.0, 0.0] +
    [0.0, -1.0, 0.0, 0.0] +
    [0.0, 1.0, 0.0, 0.0] +
    [0.0, 1.0, 0.0, 0.0]

  const N_FACES: nat := 6
  const N_TRI: nat := N_FACES * 2

  /** Floats in the position (and the normal) buffer of one cube. */
  const CUBE_FLOATS: nat := POINT_SIZE * N_TRI * N_DIM
  /** Entries in the index buffer of one cube. */
  const CUBE_CORNERS: nat := N_DIM * N_TRI

  type Vec3 = (real, real, real)

  function Component(o: Vec3, c: nat): real
    requires c < 3
  {
    if c == 0 then o.0 else if c == 1 then o.1 else o.2
  }

  // ---- Reading the tables ----

  /** The tables have the sizes the code indexes them with. */
  predicate TablesSized(pts: seq<real>, idx: seq<CornerId>, nrm: seq<real>)
  {
    |pts| == 8 * POINT_SIZE && |idx| == CUBE_CORNERS && |nrm| == N_TRI * POINT_SIZE
  }

  /** Component c of corner p of a corner table. */
  function Pt(pts: seq<real>, p: CornerId, c: nat): real
    requires |pts| == 8 * POINT_SIZE && c < POINT_SIZE
  {
    pts[p * POINT_SIZE + c]
  }

  /** Component c of row t of a normal table. */
  function Nrm(nrm: seq<real>, t: nat, c: nat): real
    requires |nrm| == N_TRI * POINT_SIZE && t < N_TRI && c < POINT_SIZE
  {
    nrm[t * POINT_SIZE + c]
  }

  // ---- The cube mesh, entry by entry ----

  /**
   * Entry k of the position buffer: vertex k / 4 is corner idx[k / 4] of the
   * corner table; x, y and z are scaled by len and moved to origin, and w is
   * copied from the table.
   */
  function PositionAt(pts: seq<real>, idx: seq<CornerId>, origin: Vec3, len: real, k: nat): real
    requires |pts| == 8 * POINT_SIZE && |idx| == CUBE_CORNERS && k < CUBE_FLOATS
  {
    var p := idx[k / POINT_SIZE];
    var c := k % POINT_SIZE;
    if c < N_DIM then Component(origin, c) + Pt(pts, p, c) * len else Pt(pts, p, c)
  }

  /** Entry k of the normal buffer: component k % 4 of the row of triangle k / 12. */
  function NormalAt(nrm: seq<real>, k: nat): real
    requires |nrm| == N_TRI * POINT_SIZE && k < CUBE_FLOATS
  {
    Nrm(nrm, k / (N_DIM * POINT_SIZE), k % POINT_SIZE)
  }

  /** The cube mesh the constructor's loops build from the given tables. */
  function MeshOf(pts: seq<real>, idx: seq<CornerId>, nrm: seq<real>, origin: Vec3, len: real): Mesh
    requires TablesSized(pts, idx, nrm)
  {
    Mesh(seq(CUBE_FLOATS, k requires 0 <= k < CUBE_FLOATS => PositionAt(pts, idx, origin, len, k)),
         seq(CUBE_CORNERS, k requires 0 <= k < CUBE_CORNERS => k),
         seq(CUBE_FLOATS, k requires 0 <= k < CUBE_FLOATS => NormalAt(nrm, k)))
  }

  /** The mesh of the cube with its min corner at origin and side len. */
  function CubeMesh(origin: Vec3, len: real): Mesh
  {
    MeshOf(FLAT_PTS, FLAT_IDX, FLAT_N, origin, len)
  }

  // ---- The cube as the source builds it ----

  /**
   * The constructor's loops: triangle by triangle, corner by corner,
   * coordinate by coordinate, with the tables passed in.
   */
  method FillCube(pts: seq<real>, idx: seq<CornerId>, nrm: seq<real>, origin: Vec3, len: real)
    returns (positions: array<real>, indices: array<nat>, norms: array<real>)
    requires TablesSized(pts, idx, nrm)
    ensures fresh(positions) && fresh(indices) && fresh(norms) && positions != norms
    ensures Mesh(positions[..], indices[..], norms[..]) == MeshOf(pts, idx, nrm, origin, len)
  {
    positions := new real[POINT_SIZE * N_TRI * N_DIM];
    indices := new nat[N_DIM * N_TRI];
    norms := new real[POINT_SIZE * N_TRI * N_DIM];
    assert positions != norms;
    var face := 0;
    while face < N_TRI
      invariant 0 <= face <= N_TRI
      invariant forall k :: 0 <= k < face * N_DIM ==> indices[k] == k
      invariant forall k :: 0 <= k < face * N_DIM * POINT_SIZE ==>
        positions[k] == PositionAt(pts, idx, origin, len, k) && norms[k] == NormalAt(nrm, k)
    {
      var point := 0;
      while point < N_DIM
        invariant 0 <= point <= N_DIM
        invariant forall k :: 0 <= k < face * N_DIM + point ==> indices[k] == k
        invariant forall k :: 0 <= k < (face * N_DIM + point) * POINT_SIZE ==>
          positions[k] == PositionAt(pts, idx, origin, len, k) && norms[k] == NormalAt(nrm, k)
      {
        indices[face * N_DIM + point] := face * N_DIM + point;
        FillVertex(positions, norms, pts, idx, nrm, origin, len, face, point);
        point := point + 1;
      }
      face := face + 1;
    }
  }

  /** The innermost loop: the four floats of vertex face * 3 + point, in both buffers. */
  method FillVertex(positions: array<real>, norms: array<real>, pts: seq<real>, idx: seq<CornerId>, nrm: seq<real>,
                    origin: Vec3, len: real, face: nat, point: nat)
    requires TablesSized(pts, idx, nrm) && face < N_TRI && point < N_DIM
    requires positions.Length == CUBE_FLOATS && norms.Length == CUBE_FLOATS && positions != norms
    requires forall k :: 0 <= k < (face * N_DIM + point) * POINT_SIZE ==>
      positions[k] == PositionAt(pts, idx, origin, len, k) && norms[k] == NormalAt(nrm, k)
    modifies positions, norms
    ensures forall k :: 0 <= k < (face * N_DIM + point + 1) * POINT_SIZE ==>
      positions[k] == PositionAt(pts, idx, origin, len, k) && norms[k] == NormalAt(nrm, k)
  {
    var pointIdx := idx[face * N_DIM + point];
    var base := (face * N_DIM + point) * POINT_SIZE;
    var coord := 0;
    while coord < POINT_SIZE
      invariant 0 <= coord <= POINT_SIZE
      invariant forall k :: 0 <= k < base + coord ==> positions[k] == PositionAt(pts, idx, origin, len, k) && norms[k] == NormalAt(nrm, k)
    {
      FlatSplit(face, point, coord);
      if coord < N_DIM {
        positions[base + coord] := Component(origin, coord) + pts[pointIdx * POINT_SIZE + coord] * len;
      } else {
        positions[base + coord] := pts[pointIdx * POINT_SIZE + coord];
      }
      norms[base + coord] := nrm[face * POINT_SIZE + coord];
      coord := coord + 1;
    }
  }

  /** Where entry (face, point, coord) of the loops sits in the flat buffers. */
  lemma FlatSplit(face: nat, point: nat, coord: nat)
    requires face < N_TRI && point < N_DIM && coord < POINT_SIZE
    ensures var k := (face * N_DIM + point) * POINT_SIZE + coord;
      k < CUBE_FLOATS && k / POINT_SIZE == face * N_DIM + point && k % POINT_SIZE == coord &&
      k / (N_DIM * POINT_SIZE) == face
  {
  }

  class Cube {
    var positions: array<real>
    var indices: array<nat>
    var norms: array<real>

    /** A cube with its min corner at origin and side lengths len. */
    constructor (origin: Vec3, len: real)
      ensures fresh(positions) && fresh(indices) && fresh(norms) && positions != norms
      ensures Mesh(positions[..], indices[..], norms[..]) == CubeMesh(origin, len)
    {
      var p, i, n := FillCube(FLAT_PTS, FLAT_IDX, FLAT_N, origin, len);
      positions, indices, norms := p, i, n;
    }
  }

  // ---- What the mesh inherits from its tables ----

  /** Every corner of a corner table has w = 1. */
  predicate CornersHomogeneous(pts: seq<real>)
    requires |pts| == 8 * POINT_SIZE
  {
    forall p: CornerId :: Pt(pts, p, 3) == 1.0
  }

  /** Every coordinate of every corner of a corner table lies between 0 and 1. */
  predicate CornersOnUnitCube(pts: seq<real>)
    requires |pts| == 8 * POINT_SIZE
  {
    forall p: CornerId, c :: 0 <= c < N_DIM ==> 0.0 <= Pt(pts, p, c) <= 1.0
  }

  /** Row t of a normal table is an axis-aligned unit direction with w = 0. */
  predicate IsNormalRow(nrm: seq<real>, t: nat)
    requires |nrm| == N_TRI * POINT_SIZE && t < N_TRI
  {
    IsAxisUnit(Nrm(nrm, t, 0), Nrm(nrm, t, 1), Nrm(nrm, t, 2)) && Nrm(nrm, t, 3) == 0.0
  }

  lemma {:induction false} MeshOfHomogeneous(pts: seq<real>, idx: seq<CornerId>, nrm: seq<real>, origin: Vec3, len: real)
    requires TablesSized(pts, idx, nrm) && CornersHomogeneous(pts)
    ensures Homogeneous(MeshOf(pts, idx, nrm, origin, len).positions)
  {
    var P := MeshOf(pts, idx, nrm, origin, len).positions;
    forall k | 0 <= k < |P| && k % 4 == 3
      ensures P[k] == 1.0
    {
      assert P[k] == Pt(pts, idx[k / POINT_SIZE], 3);
    }
  }

  lemma {:induction false} MeshOfWithinBox(pts: seq<real>, idx: seq<CornerId>, nrm: seq<real>, lo: real, len: real)
    requires TablesSized(pts, idx, nrm) && CornersOnUnitCube(pts) && len >= 0.0
    ensures WithinBox(MeshOf(pts, idx, nrm, (lo, lo, lo), len).positions, lo, lo + len)
  {
    var P := MeshOf(pts, idx, nrm, (lo, lo, lo), len).positions;
    forall k | 0 <= k < |P| && k % 4 != 3
      ensures lo <= P[k] <= lo + len
    {
      var p, c := idx[k / POINT_SIZE], k % POINT_SIZE;
      var a := Pt(pts, p, c);
      var m := a * len;
      assert 0.0 <= a <= 1.0;
      ScaledWithin(a, len);
      assert P[k] == lo + m;
    }
  }

  /** A fraction in [0, 1] of a non-negative length lies between 0 and that length. */
  lemma ScaledWithin(a: real, len: real)
    requires 0.0 <= a <= 1.0 && len >= 0.0
    ensures 0.0 <= a * len <= len
  {
    assert len - a * len == (1.0 - a) * len;
  }

  lemma {:induction false} MeshOfNormals(pts: seq<real>, idx: seq<CornerId>, nrm: seq<real>, origin: Vec3, len: real)
    requires TablesSized(pts, idx, nrm)
    requires forall t :: 0 <= t < N_TRI ==> IsNormalRow(nrm, t)
    ensures AxisNormals(MeshOf(pts, idx, nrm, origin, len).normals)
  {
    var N := MeshOf(pts, idx, nrm, origin, len).normals;
    forall v | 0 <= v < |N| / 4
      ensures NormalTupleOk(N, v)
    {
      var t := v / N_DIM;
      assert (4 * v) / (N_DIM * POINT_SIZE) == t && (4 * v + 1) / (N_DIM * POINT_SIZE) == t;
      assert (4 * v + 2) / (N_DIM * POINT_SIZE) == t && (4 * v + 3) / (N_DIM * POINT_SIZE) == t;
      assert IsNormalRow(nrm, t);
    }
  }

  // ---- Geometry of the fixed tables ----

  /** Corner p of the corner table, as a point. */
  function Corner(p: CornerId): Vec3
  {
    (Pt(FLAT_PTS, p, 0), Pt(FLAT_PTS, p, 1), Pt(FLAT_PTS, p, 2))
  }

  /** Row t of the normal table, as a direction. */
  function Normal(t: nat): Vec3
    requires t < N_TRI
  {
    (Nrm(FLAT_N, t, 0), Nrm(FLAT_N, t, 1), Nrm(FLAT_N, t, 2))
  }

  function Minus(a: Vec3, b: Vec3): Vec3 { (a.0 - b.0, a.1 - b.1, a.2 - b.2) }
  function Dot(a: Vec3, b: Vec3): real { a.0 * b.0 + a.1 * b.1 + a.2 * b.2 }
  function Cross(a: Vec3, b: Vec3): Vec3
  {
    (a.1 * b.2 - a.2 * b.1, a.2 * b.0 - a.0 * b.2, a.0 * b.1 - a.1 * b.0)
  }

  /** Corner i of triangle t. */
  function TriCorner(t: nat, i: nat): Vec3
    requires t < N_TRI && i < N_DIM
  {
    Corner(FLAT_IDX[N_DIM * t + i])
  }

  /** Point q lies on the face of the unit cube that direction n points out of. */
  predicate OnFace(n: Vec3, q: Vec3)
  {
    Dot(n, Minus(q, (0.5, 0.5, 0.5))) == 0.5
  }

  /** The three corners of triangle t lie on the face its normal row points out of. */
  predicate OnOutwardFace(t: nat)
    requires t < N_TRI
  {
    OnFace(Normal(t), TriCorner(t, 0)) && OnFace(Normal(t), TriCorner(t, 1)) && OnFace(Normal(t), TriCorner(t, 2))
  }

  /** Triangle t turns counter-clockwise when seen from the side its normal points to. */
  predicate WoundAlongNormal(t: nat)
    requires t < N_TRI
  {
    var a, b, c := TriCorner(t, 0), TriCorner(t, 1), TriCorner(t, 2);
    Dot(Cross(Minus(b, a), Minus(c, a)), Normal(t)) > 0.0
  }

  // The rows of the three tables, written out.

  lemma CornerRows()
    ensures
      Corner(0) == (0.0, 0.0, 0.0) &&
      Corner(1) == (1.0, 1.0, 0.0) &&
      Corner(2) == (1.0, 0.0, 0.0) &&
      Corner(3) == (1.0, 1.0, 1.0) &&
      Corner(4) == (1.0, 0.0, 1.0) &&
      Corner(5) == (0.0, 1.0, 1.0) &&
      Corner(6) == (0.0, 0.0, 1.0) &&
      Corner(7) == (0.0, 1.0, 0.0)
  {
  }

  lemma NormalRows()
    ensures
      Normal(0) == (0.0, 0.0, -1.0) &&
      Normal(1) == (0.0, 0.0, -1.0) &&
      Normal(2) == (1.0, 0.0, 0.0) &&
      Normal(3) == (1.0, 0.0, 0.0) &&
      Normal(4) == (0.0, 0.0, 1.0) &&
      Normal(5) == (0.0, 0.0, 1.0) &&
      Normal(6) == (-1.0, 0.0, 0.0) &&
      Normal(7) == (-1.0, 0.0, 0.0) &&
      Normal(8) == (0.0, -1.0, 0.0) &&
      Normal(9) == (0.0, -1.0, 0.0) &&
      Normal(10) == (0.0, 1.0, 0.0) &&
      Normal(11) == (0.0, 1.0, 0.0)
  {
  }

  /** Corner rows of the two triangles of the front face. */
  lemma TriangleRowsFront()
    ensures
      FLAT_IDX[0] == 0 && FLAT_IDX[1] == 7 && FLAT_IDX[2] == 2 &&
      FLAT_IDX[3] == 2 && FLAT_IDX[4] == 7 && FLAT_IDX[5] == 1
  {
  }

  /** Corner rows of the two triangles of the right face. */
  lemma TriangleRowsRight()
    ensures
      FLAT_IDX[6] == 1 && FLAT_IDX[7] == 4 && FLAT_IDX[8] == 2 &&
      FLAT_IDX[9] == 1 && FLAT_IDX[10] == 3 && FLAT_IDX[11] == 4
  {
  }

  /** Corner rows of the two triangles of the back face. */
  lemma TriangleRowsBack()
    ensures
      FLAT_IDX[12] == 3 && FLAT_IDX[13] == 6 && FLAT_IDX[14] == 4 &&
      FLAT_IDX[15] == 3 && FLAT_IDX[16] == 5 && FLAT_IDX[17] == 6
  {
  }

  /** Corner rows of the two triangles of the left face. */
  lemma TriangleRowsLeft()
    ensures
      FLAT_IDX[18] == 0 && FLAT_IDX[19] == 6 && FLAT_IDX[20] == 5 &&
      FLAT_IDX[21] == 5 && FLAT_IDX[22] == 7 && FLAT_IDX[23] == 0
  {
  }

  /** Corner rows of the two triangles of the bottom face. */
  lemma TriangleRowsBottom()
    ensures
      FLAT_IDX[24] == 2 && FLAT_IDX[25] == 6 && FLAT_IDX[26] == 0 &&
      FLAT_IDX[27] == 4 && FLAT_IDX[28] == 6 && FLAT_IDX[29] == 2
  {
  }

  /** Corner rows of the two triangles of the top face. */
  lemma TriangleRowsTop()
    ensures
      FLAT_IDX[30] == 3 && FLAT_IDX[31] == 1 && FLAT_IDX[32] == 7 &&
      FLAT_IDX[33] == 3 && FLAT_IDX[34] == 7 && FLAT_IDX[35] == 5
  {
  }

  /** Every row of FLAT_PTS has w = 1. */
  lemma FlatPointsHomogeneous()
    ensures CornersHomogeneous(FLAT_PTS)
  {
    forall p: CornerId ensures Pt(FLAT_PTS, p, 3) == 1.0 {
      assert p == 0 || p == 1 || p == 2 || p == 3 || p == 4 || p == 5 || p == 6 || p == 7;
    }
  }

  /** Every x, y and z of a FLAT_PTS row lies between 0 and 1. */
  lemma FlatPointsOnUnitCube()
    ensures CornersOnUnitCube(FLAT_PTS)
  {
    CornerRows();
    forall p: CornerId, c | 0 <= c < N_DIM ensures 0.0 <= Pt(FLAT_PTS, p, c) <= 1.0 {
      assert Pt(FLAT_PTS, p, c) == Component(Corner(p), c);
      assert p == 0 || p == 1 || p == 2 || p == 3 || p == 4 || p == 5 || p == 6 || p == 7;
    }
  }

  /** No two rows of FLAT_PTS are the same corner. */
  lemma FlatCornersDistinct()
    ensures forall p: CornerId, q: CornerId :: Corner(p) == Corner(q) ==> p == q
  {
    CornerRows();
    forall p: CornerId, q: CornerId | Corner(p) == Corner(q) ensures p == q {
      assert p == 0 || p == 1 || p == 2 || p == 3 || p == 4 || p == 5 || p == 6 || p == 7;
      assert q == 0 || q == 1 || q == 2 || q == 3 || q == 4 || q == 5 || q == 6 || q == 7;
    }
  }

  /** Every row of FLAT_N has w = 0 and exactly one nonzero component, equal to 1 or -1. */
  lemma NormalRowsAxisAligned()
    ensures forall t :: 0 <= t < N_TRI ==> IsNormalRow(FLAT_N, t)
  {
    forall t | 0 <= t < N_TRI ensures IsNormalRow(FLAT_N, t) {
      assert t == 0 || t == 1 || t == 2 || t == 3 || t == 4 || t == 5 ||
             t == 6 || t == 7 || t == 8 || t == 9 || t == 10 || t == 11;
    }
  }

  /** Each of triangles 0 to 5 (front, right and back faces) has all three corners on the face its normal row points out of. */
  lemma OutwardFaceAtLow()
    ensures
      OnOutwardFace(0) &&
      OnOutwardFace(1) &&
      OnOutwardFace(2) &&
      OnOutwardFace(3) &&
      OnOutwardFace(4) &&
      OnOutwardFace(5)
  {
    CornerRows();
    NormalRows();
    TriangleRowsFront();
    TriangleRowsRight();
    TriangleRowsBack();
  }

  /** Each of triangles 6 to 11 (left, bottom and top faces) has all three corners on the face its normal row points out of. */
  lemma OutwardFaceAtHigh()
    ensures
      OnOutwardFace(6) &&
      OnOutwardFace(7) &&
      OnOutwardFace(8) &&
      OnOutwardFace(9) &&
      OnOutwardFace(10) &&
      OnOutwardFace(11)
  {
    CornerRows();
    NormalRows();
    TriangleRowsLeft();
    TriangleRowsBottom();
    TriangleRowsTop();
  }

  /**
   * Each of triangles 0 to 5 winds counter-clockwise when seen from outside
   * the cube, so it is a front face under the usual counter-clockwise rule.
   */
  lemma WoundAtLow()
    ensures
      WoundAlongNormal(0) &&
      WoundAlongNormal(1) &&
      WoundAlongNormal(2) &&
      WoundAlongNormal(3) &&
      WoundAlongNormal(4) &&
      WoundAlongNormal(5)
  {
    CornerRows();
    NormalRows();
    TriangleRowsFront();
    TriangleRowsRight();
    TriangleRowsBack();
  }

  /** Each of triangles 6 to 11 winds counter-clockwise when seen from outside the cube. */
  lemma WoundAtHigh()
    ensures
      WoundAlongNormal(6) &&
      WoundAlongNormal(7) &&
      WoundAlongNormal(8) &&
      WoundAlongNormal(9) &&
      WoundAlongNormal(10) &&
      WoundAlongNormal(11)
  {
    CornerRows();
    NormalRows();
    TriangleRowsLeft();
    TriangleRowsBottom();
    TriangleRowsTop();
  }

  // ---- The unit cube's mesh ----

  /** Every vertex of a cube has w = 1. */
  lemma CubeHomogeneous(origin: Vec3, len: real)
    ensures Homogeneous(CubeMesh(origin, len).positions)
  {
    FlatPointsHomogeneous();
    MeshOfHomogeneous(FLAT_PTS, FLAT_IDX, FLAT_N, origin, len);
  }

  /** A cube with min corner (lo, lo, lo) and side len >= 0 lies in [lo, lo + len] along every axis. */
  lemma CubeWithinBox(lo: real, len: real)
    requires len >= 0.0
    ensures WithinBox(CubeMesh((lo, lo, lo), len).positions, lo, lo + len)
  {
    FlatPointsOnUnitCube();
    MeshOfWithinBox(FLAT_PTS, FLAT_IDX, FLAT_N, lo, len);
  }

  /** Every normal of a cube is an axis-aligned unit direction with w = 0. */
  lemma CubeNormalsAxisAligned(origin: Vec3, len: real)
    ensures AxisNormals(CubeMesh(origin, len).normals)
  {
    NormalRowsAxisAligned();
    MeshOfNormals(FLAT_PTS, FLAT_IDX, FLAT_N, origin, len);
  }

  /** Vertex t * 3 + i of a mesh built from tables whose corners have w = 1. */
  lemma MeshOfVertex(pts: seq<real>, idx: seq<CornerId>, nrm: seq<real>, origin: Vec3, len: real, t: nat, i: nat, c: nat)
    requires TablesSized(pts, idx, nrm) && CornersHomogeneous(pts)
    requires t < N_TRI && i < N_DIM && c < POINT_SIZE
    ensures var m, k := MeshOf(pts, idx, nrm, origin, len), (t * N_DIM + i) * POINT_SIZE + c;
      k < |m.positions| && k < |m.normals| &&
      m.positions[k] == (if c < N_DIM then Component(origin, c) + Pt(pts, idx[t * N_DIM + i], c) * len else 1.0) &&
      m.normals[k] == Nrm(nrm, t, c)
  {
    FlatSplit(t, i, c);
  }

  /**
   * Corner i of triangle t of a cube: x, y and z are the table corner
   * FLAT_IDX[t * 3 + i] scaled by len and moved to origin, w is 1, and the
   * normal is row t of FLAT_N.
   */
  lemma CubeVertex(origin: Vec3, len: real, t: nat, i: nat, c: nat)
    requires t < N_TRI && i < N_DIM && c < POINT_SIZE
    ensures var m, k := CubeMesh(origin, len), (t * N_DIM + i) * POINT_SIZE + c;
      |m.positions| == CUBE_FLOATS && |m.normals| == CUBE_FLOATS && k < CUBE_FLOATS &&
      m.positions[k] == (if c < N_DIM then Component(origin, c) + Pt(FLAT_PTS, FLAT_IDX[t * N_DIM + i], c) * len else 1.0) &&
      m.normals[k] == Nrm(FLAT_N, t, c)
  {
    FlatPointsHomogeneous();
    MeshOfVertex(FLAT_PTS, FLAT_IDX, FLAT_N, origin, len, t, i, c);
  }

  /** A cube has 144 position floats, 36 indices and 144 normal floats, and its index buffer is the identity. */
  lemma CubeIndicesIdentity(origin: Vec3, len: real)
    ensures |CubeMesh(origin, len).positions| == 144 && |CubeMesh(origin, len).normals| == 144
    ensures |CubeMesh(origin, len).indices| == CUBE_CORNERS == 36
    ensures forall k :: 0 <= k < CUBE_CORNERS ==> CubeMesh(origin, len).indices[k] == k
  {
  }
}
