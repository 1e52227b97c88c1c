/**
 * The sponge object: three buffers, the level last asked for and a dirty
 * flag the renderer clears once it has uploaded the buffers. Asking for a
 * new positive level rebuilds the buffers from a freshly built sponge one
 * level down; every request, rebuilding or not, records the level and
 * marks the sponge dirty.
 */
module SpongeState {
  import opened Arith
  import opened MeshModel
  import opened CubeUnit
  import opened Placement
  import opened SpongeBuilder

  datatype Option<T> = None | Some(value: T)

  // ---- The loops of a rebuild ----

  /** Shrinks x, y and z of every vertex into the first third of the cell, in place. */
  method RescaleInPlace(a: array<real>)
    requires a.Length % POINT_SIZE == 0
    modifies a
    ensures a[..] == Rescaled(old(a[..]))
  {
    var i := 0;
    while i < a.Length
      invariant 0 <= i <= a.Length && i % POINT_SIZE == 0
      invariant forall k :: 0 <= k < i ==> a[k] == Rescaled(old(a[..]))[k]
      invariant forall k :: i <= k < a.Length ==> a[k] == old(a[k])
    {
      a[i] := (a[i] + 0.5) / (N_DIM as real) - 0.5;
      a[i + 1] := (a[i + 1] + 0.5) / (N_DIM as real) - 0.5;
      a[i + 2] := (a[i + 2] + 0.5) / (N_DIM as real) - 0.5;
      i := i + POINT_SIZE;
    }
  }

  /** Writes the copy of src translated by off at base, with w = 1. */
  method CopyPositions(dst: array<real>, src: array<real>, base: nat, off: Vec3)
    requires dst != src && src.Length % POINT_SIZE == 0 && base + src.Length <= dst.Length
    modifies dst
    ensures dst[..] == PlaceInto(old(dst[..]), src[..], base, off)
  {
    var j := 0;
    while j < src.Length
      invariant 0 <= j <= src.Length && j % POINT_SIZE == 0
      invariant forall k :: 0 <= k < dst.Length && !(base <= k < base + j) ==> dst[k] == old(dst[k])
      invariant forall k :: base <= k < base + j ==> dst[k] == Shifted(src[..], off, k - base)
    {
      ShiftedTuple(src[..], off, j);
      dst[base + j] := src[j] + off.0;
      dst[base + j + 1] := src[j + 1] + off.1;
      dst[base + j + 2] := src[j + 2] + off.2;
      dst[base + j + 3] := 1.0;
      j := j + POINT_SIZE;
    }
  }

  /** Copies src verbatim to base. */
  method CopyNormals(dst: array<real>, src: array<real>, base: nat)
    requires dst != src && base + src.Length <= dst.Length
    modifies dst
    ensures dst[..] == CopyInto(old(dst[..]), src[..], base)
  {
    var j := 0;
    while j < src.Length
      invariant 0 <= j <= src.Length
      invariant forall k :: 0 <= k < dst.Length && !(base <= k < base + j) ==> dst[k] == old(dst[k])
      invariant forall k :: base <= k < base + j ==> dst[k] == src[k - base]
    {
      dst[base + j] := src[j];
      j := j + 1;
    }
  }

  /** Copies src to base, raising every index by shift. */
  method CopyIndices(dst: array<nat>, src: array<nat>, base: nat, shift: nat)
    requires dst != src && base + src.Length <= dst.Length
    modifies dst
    ensures dst[..] == ShiftInto(old(dst[..]), src[..], base, shift)
  {
    var j := 0;
    while j < src.Length
      invariant 0 <= j <= src.Length
      invariant forall k :: 0 <= k < dst.Length && !(base <= k < base + j) ==> dst[k] == old(dst[k])
      invariant forall k :: base <= k < base + j ==> dst[k] == src[k - base] + shift
    {
      dst[base + j] := src[j] + shift;
      j := j + 1;
    }
  }

  /** Writes the copy of the sub-sponge for slot subidx, whose cell is offset by off. */
  method WriteSlot(pos: array<real>, idx: array<nat>, nrm: array<real>,
                   subP: array<real>, subI: array<nat>, subN: array<real>, subidx: nat, off: Vec3)
    requires pos != subP && pos != subN && nrm != subP && nrm != subN && pos != nrm && idx != subI
    requires subP.Length % POINT_SIZE == 0
    requires pos.Length == N_SLOTS * subP.Length && idx.Length == N_SLOTS * subI.Length && nrm.Length == N_SLOTS * subN.Length
    requires |SLOTS| == N_SLOTS && subidx < N_SLOTS && off == CellOffset(SLOTS[subidx])
    requires Filled(pos[..], idx[..], nrm[..], Mesh(subP[..], subI[..], subN[..]), subidx)
    modifies pos, idx, nrm
    ensures Filled(pos[..], idx[..], nrm[..], Mesh(subP[..], subI[..], subN[..]), subidx + 1)
  {
    PositionsStep(pos[..], subP[..], subidx);
    IndicesStep(idx[..], subI[..], subP.Length / POINT_SIZE, subidx);
    NormalsStep(nrm[..], subN[..], subidx);
    CopyPositions(pos, subP, subidx * subP.Length, off);
    CopyNormals(nrm, subN, subidx * subN.Length);
    CopyIndices(idx, subI, subidx * subI.Length, subidx * (subP.Length / POINT_SIZE));
  }

  /**
   * One turn of the z loop at cell (xi, yi, zi), whose step number is s:
   * reads the mask entry and, when it is true, writes the next copy.
   * subidx0 counts the true cells before this one.
   */
  method VisitSlot(pos: array<real>, idx: array<nat>, nrm: array<real>,
                   subP: array<real>, subI: array<nat>, subN: array<real>,
                   xi: nat, yi: nat, zi: nat, off: Vec3, subidx0: nat, ghost s: nat)
    returns (subidx: nat)
    requires pos != subP && pos != subN && nrm != subP && nrm != subN && pos != nrm && idx != subI
    requires subP.Length % POINT_SIZE == 0
    requires pos.Length == N_SLOTS * subP.Length && idx.Length == N_SLOTS * subI.Length && nrm.Length == N_SLOTS * subN.Length
    requires xi < N_DIM && yi < N_DIM && zi < N_DIM && s == 9 * xi + 3 * yi + zi && subidx0 == |PlacedCells(s)|
    requires off == CellOffset(Cell(xi, yi, zi))
    requires Filled(pos[..], idx[..], nrm[..], Mesh(subP[..], subI[..], subN[..]), subidx0)
    modifies pos, idx, nrm
    ensures subidx == |PlacedCells(s + 1)|
    ensures Filled(pos[..], idx[..], nrm[..], Mesh(subP[..], subI[..], subN[..]), subidx)
  {
    subidx := subidx0;
    var placed := MaskEntry(xi, yi, zi);
    VisitCell(xi, yi, zi, s);
    if placed {
      WriteSlot(pos, idx, nrm, subP, subI, subN, subidx, off);
      subidx := subidx + 1;
    }
  }

  /**
   * The z loop of a rebuild for row (xi, yi). step is the step number of
   * the row's first cell, and subidx0 counts the true cells before it.
   */
  method FillRow(pos: array<real>, idx: array<nat>, nrm: array<real>,
                 subP: array<real>, subI: array<nat>, subN: array<real>,
                 xi: nat, yi: nat, subidx0: nat, ghost step: nat)
    returns (subidx: nat)
    requires pos != subP && pos != subN && nrm != subP && nrm != subN && pos != nrm && idx != subI
    requires subP.Length % POINT_SIZE == 0
    requires pos.Length == N_SLOTS * subP.Length && idx.Length == N_SLOTS * subI.Length && nrm.Length == N_SLOTS * subN.Length
    requires xi < N_DIM && yi < N_DIM && step == 9 * xi + 3 * yi && subidx0 == |PlacedCells(step)|
    requires Filled(pos[..], idx[..], nrm[..], Mesh(subP[..], subI[..], subN[..]), subidx0)
    modifies pos, idx, nrm
    ensures subidx == |PlacedCells(step + 3)|
    ensures Filled(pos[..], idx[..], nrm[..], Mesh(subP[..], subI[..], subN[..]), subidx)
  {
    var xOff := (xi as real) / (N_DIM as real);
    var yOff := (yi as real) / (N_DIM as real);
    subidx := subidx0;
    ghost var s := step;
    var zi := 0;
    while zi < N_DIM
      invariant 0 <= zi <= N_DIM
      invariant s == step + zi && subidx == |PlacedCells(s)|
      invariant Filled(pos[..], idx[..], nrm[..], Mesh(subP[..], subI[..], subN[..]), subidx)
    {
      var zOff := (zi as real) / (N_DIM as real);
      subidx := VisitSlot(pos, idx, nrm, subP, subI, subN, xi, yi, zi, (xOff, yOff, zOff), subidx, s);
      zi := zi + 1;
      s := s + 1;
    }
  }

  /**
   * Allocates buffers 20 times the sub-sponge's and walks the mask in x, y,
   * z order, writing one copy of the sub-sponge for every true cell.
   */
  method Assemble(subP: array<real>, subI: array<nat>, subN: array<real>)
    returns (pos: array<real>, idx: array<nat>, nrm: array<real>)
    requires subP != subN && subP.Length % POINT_SIZE == 0
    ensures fresh(pos) && fresh(idx) && fresh(nrm) && pos != nrm
    ensures Mesh(pos[..], idx[..], nrm[..]) == Tile(Mesh(subP[..], subI[..], subN[..]))
  {
    ghost var sub := Mesh(subP[..], subI[..], subN[..]);
    var posLength := subP.Length * N_SLOTS;
    var idxLength := subI.Length * N_SLOTS;
    var normLength := subN.Length * N_SLOTS;
    pos := new real[posLength](_ => 0.0);
    idx := new nat[idxLength](_ => 0);
    nrm := new real[normLength](_ => 0.0);

    var subidx := 0;
    // The step number 9 * xi + 3 * yi of the next row's first cell.
    ghost var step := 0;
    var xi := 0;
    while xi < N_DIM
      invariant 0 <= xi <= N_DIM
      invariant step == 9 * xi && subidx == |PlacedCells(step)|
      invariant Filled(pos[..], idx[..], nrm[..], sub, subidx)
    {
      var yi := 0;
      while yi < N_DIM
        invariant 0 <= yi <= N_DIM
        invariant step == 9 * xi + 3 * yi && subidx == |PlacedCells(step)|
        invariant Filled(pos[..], idx[..], nrm[..], sub, subidx)
      {
        subidx := FillRow(pos, idx, nrm, subP, subI, subN, xi, yi, subidx, step);
        step := step + 3;
        yi := yi + 1;
      }
      xi := xi + 1;
    }
    SlotCount();
    assert step == N_CELLS;
    FilledIsTile(pos[..], idx[..], nrm[..], sub);
  }

  /**
   * The buffers setLevel builds for a positive level n: the unit cube at
   * level 1; otherwise a fresh sponge one level down, shrunk in place into
   * the first sub-cell and tiled into the 20 kept cells.
   */
  method Rebuild(n: int) returns (pos: array<real>, idx: array<nat>, nrm: array<real>)
    requires n >= 1
    ensures fresh(pos) && fresh(idx) && fresh(nrm) && pos != nrm
    ensures Mesh(pos[..], idx[..], nrm[..]) == Level(n)
    decreases n, 0
  {
    if n == 1 {
      var cube := new Cube((-0.5, -0.5, -0.5), 1.0);
      pos, idx, nrm := cube.positions, cube.indices, cube.norms;
    } else {
      var subSponge := new MengerSponge(n - 1);
      var subP, subI, subN := subSponge.positions, subSponge.indices, subSponge.normals;
      LevelShape(n - 1);
      RescaleInPlace(subP);
      pos, idx, nrm := Assemble(subP, subI, subN);
      LevelStep(n);
    }
  }

  // ---- The sponge ----

  class MengerSponge {
    var positions: array?<real>
    var indices: array?<nat>
    var normals: array?<real>
    /** The level last asked for; None before the first request. */
    var level: Option<int>
    var dirty: bool
    /** The level whose mesh the buffers hold; 0 while there are none. */
    ghost var built: nat

    /**
     * The buffers are all there or all absent; when there, they hold the
     * mesh of level built. A positive recorded level is the level built.
     */
    ghost predicate Valid()
      reads this, positions, indices, normals
    {
      (positions == null <==> built == 0) &&
      (indices == null <==> built == 0) &&
      (normals == null <==> built == 0) &&
      (built > 0 ==>
        positions != null && indices != null && normals != null && positions != normals &&
        Mesh(positions[..], indices[..], normals[..]) == Level(built)) &&
      (level == None ==> built == 0) &&
      (level.Some? && level.value > 0 ==> built == level.value)
    }

    /** A sponge of level n: no level recorded yet, so any n > 0 builds. */
    constructor (n: int)
      ensures Valid() && level == Some(n) && dirty
      ensures built == (if n > 0 then n else 0)
      ensures built > 0 ==> fresh(positions) && fresh(indices) && fresh(normals)
      decreases if n > 0 then n else 0, 2
    {
      positions, indices, normals := null, null, null;
      level := None;
      dirty := false;
      built := 0;
      new;
      SetLevel(n);
    }

    /** Whether the buffers changed since the last SetClean. */
    method IsDirty() returns (d: bool)
      ensures d == dirty
    {
      d := dirty;
    }

    /** Marks the buffers as uploaded; nothing else changes. */
    method SetClean()
      requires Valid()
      modifies this
      ensures Valid() && !dirty
      ensures level == old(level) && built == old(built)
      ensures positions == old(positions) && indices == old(indices) && normals == old(normals)
    {
      dirty := false;
    }

    /**
     * Rebuilds the buffers for level n when n > 0 and n differs from the
     * recorded level; then records n and marks the sponge dirty either way.
     */
    method SetLevel(n: int)
      requires Valid()
      modifies this
      ensures Valid() && level == Some(n) && dirty
      ensures n > 0 && old(level) != Some(n) ==>
        built == n && fresh(positions) && fresh(indices) && fresh(normals)
      ensures !(n > 0 && old(level) != Some(n)) ==>
        built == old(built) && positions == old(positions) && indices == old(indices) && normals == old(normals)
      decreases if n > 0 then n else 0, 1
    {
      if n > 0 {
        if level != Some(n) {
          var pos, idx, nrm := Rebuild(n);
          positions, indices, normals := pos, idx, nrm;
          built := n;
        }
      }
      level := Some(n);
      dirty := true;
    }

    /** The position buffer: absent exactly when nothing was built, else level built's positions. */
    method PositionsFlat() returns (r: array?<real>)
      requires Valid()
      ensures r == positions
      ensures r != null <==> built > 0
      ensures r != null ==> built >= 1 && r[..] == Level(built).positions
    {
      r := positions;
    }

    /** The index buffer: absent exactly when nothing was built, else level built's indices. */
    method IndicesFlat() returns (r: array?<nat>)
      requires Valid()
      ensures r == indices
      ensures r != null <==> built > 0
      ensures r != null ==> built >= 1 && r[..] == Level(built).indices
    {
      r := indices;
    }

    /** The normal buffer: absent exactly when nothing was built, else level built's normals. */
    method NormalsFlat() returns (r: array?<real>)
      requires Valid()
      ensures r == normals
      ensures r != null <==> built > 0
      ensures r != null ==> built >= 1 && r[..] == Level(built).normals
    {
      r := normals;
    }
  }

  // ---- Using a sponge ----

  /**
   * A new sponge of level n hands out non-null buffers holding level n's
   * mesh when n > 0, and null buffers otherwise.
   */
  method BuildAndRead(n: int) returns (p: array?<real>, ix: array?<nat>, nm: array?<real>)
    ensures n > 0 ==> p != null && ix != null && nm != null
    ensures n > 0 ==> p[..] == Level(n).positions && ix[..] == Level(n).indices && nm[..] == Level(n).normals
    ensures n <= 0 ==> p == null && ix == null && nm == null
  {
    var s := new MengerSponge(n);
    p := s.PositionsFlat();
    ix := s.IndicesFlat();
    nm := s.NormalsFlat();
  }

  /**
   * The dirty flag as the renderer sees it: set by every SetLevel, cleared
   * by SetClean; asking twice for the same level rebuilds nothing the second
   * time, and a non-positive level keeps the old buffers.
   */
  method DirtyProtocol(n: int) returns (afterSet: bool, afterClean: bool, afterRepeat: bool, sameBuffers: bool)
    ensures afterSet && !afterClean && afterRepeat && sameBuffers
  {
    var s := new MengerSponge(2);
    s.SetLevel(n);
    afterSet := s.IsDirty();
    var before := s.positions;
    s.SetClean();
    afterClean := s.IsDirty();
    s.SetLevel(n);
    afterRepeat := s.IsDirty();
    sameBuffers := s.positions == before;
  }
}
