/**
 * The 3 x 3 x 3 placement mask of the sponge and the order in which its
 * cells are visited. A sponge of level n is made of 20 copies of level
 * n - 1, one per true cell; the running counter of the fill loop numbers
 * those copies 0 .. 19 in the order the loops visit the cells: x
 * outermost, z innermost.
 */
module Placement {

  import opened Arith

  /** Which of the 27 sub-cells receive a copy of the smaller sponge, indexed [x][y][z]. */
  const TO_PLACE: seq<seq<seq<bool>>> := [
    [
      [true, true, true],
      [true, false, true],
      [true, true, true]
    ],
    [
      [true, false, true],
      [false, false, false],
      [true, false, true]
    ],
    [
      [true, true, true],
      [true, false, true],
      [true, true, true]
    ]
  ]

  /** Sub-cells along each axis. */
  const SIDE: nat := 3
  /** Copies of the smaller sponge in a larger one. */
  const N_SLOTS: nat := 20

  /** The mask is 3 x 3 x 3. */
  lemma MaskShape()
    ensures |TO_PLACE| == SIDE
    ensures forall x :: 0 <= x < SIDE ==> |TO_PLACE[x]| == SIDE
    ensures forall x, y :: 0 <= x < SIDE && 0 <= y < SIDE ==> |TO_PLACE[x][y]| == SIDE
  {
    forall x, y | 0 <= x < SIDE && 0 <= y < SIDE
      ensures |TO_PLACE[x][y]| == SIDE
    {
      assert x == 0 || x == 1 || x == 2;
      assert y == 0 || y == 1 || y == 2;
    }
  }

  /** A sub-cell, by its position along x, y and z. */
  datatype Cell = Cell(x: nat, y: nat, z: nat)

  predicate InRange(c: Cell)
  {
    c.x < SIDE && c.y < SIDE && c.z < SIDE
  }

  /** The step at which the x/y/z loops visit a cell: SIDE * SIDE * x + SIDE * y + z. */
  function Code(c: Cell): nat
  {
    9 * c.x + 3 * c.y + c.z
  }

  /** The mask entry of a cell. */
  predicate Placed(c: Cell)
    requires InRange(c)
  {
    TO_PLACE[c.x][c.y][c.z]
  }

  /** The Menger rule: a cell is kept unless it is central along two or more axes. */
  predicate Kept(c: Cell)
  {
    (if c.x == 1 then 1 else 0) + (if c.y == 1 then 1 else 0) + (if c.z == 1 then 1 else 0) <= 1
  }

  /** Cells of the mask. */
  const N_CELLS: nat := SIDE * SIDE * SIDE

  /** The cell whose step number is i: the inverse of Code on in-range cells. */
  function CellAt(i: nat): Cell
  {
    Cell(i / 9, (i / 3) % 3, i % 3)
  }

  /** The kept cells among the first i step numbers, in step order. */
  function PlacedCells(i: nat): seq<Cell>
  {
    if i == 0 then []
    else PlacedCells(i - 1) + (if Kept(CellAt(i - 1)) then [CellAt(i - 1)] else [])
  }

  /** The cells that receive copies, slot by slot: the kept cells in step order. */
  const SLOTS: seq<Cell> := PlacedCells(N_CELLS)

  /** CellAt undoes Code on in-range cells: s is the step number of (x, y, z). */
  lemma CellAtCode(x: nat, y: nat, z: nat, s: nat)
    requires x < SIDE && y < SIDE && z < SIDE && s == 9 * x + 3 * y + z
    ensures Code(Cell(x, y, z)) == s && CellAt(s) == Cell(x, y, z)
  {
    DivModUnique(s, 9, x, 3 * y + z);
    DivModUnique(s, 3, 3 * x + y, z);
    DivModUnique(3 * x + y, 3, x, y);
  }

  /** The step number of an in-range step is a cell in range whose Code is that step. */
  lemma CodeCellAt(i: nat)
    requires i < N_CELLS
    ensures InRange(CellAt(i)) && Code(CellAt(i)) == i
  {
    var q := i / 3;
    assert i == 3 * q + i % 3;
    assert q == 3 * (q / 3) + q % 3;
    DivModUnique(i, 9, q / 3, 3 * (q % 3) + i % 3);
    SlotBelow(i, 9, 3);
  }

  /** Step s - 1 of the filter, at the cell c whose step number it is. */
  lemma PlacedAt(s: nat, c: Cell)
    requires 0 < s && CellAt(s - 1) == c
    ensures PlacedCells(s) == PlacedCells(s - 1) + (if Kept(c) then [c] else [])
  {
  }

  /** The mask is the Menger rule: an entry is true exactly when its cell is kept. */
  lemma MaskIsMengerRule(c: Cell)
    requires InRange(c)
    ensures Placed(c) <==> Kept(c)
  {
    assert c.x == 0 || c.x == 1 || c.x == 2;
    assert c.y == 0 || c.y == 1 || c.y == 2;
    assert c.z == 0 || c.z == 1 || c.z == 2;
  }

  /** Reads the mask entry of cell (x, y, z): true exactly when the Menger rule keeps the cell. */
  method MaskEntry(x: nat, y: nat, z: nat) returns (placed: bool)
    requires x < SIDE && y < SIDE && z < SIDE
    ensures placed == Kept(Cell(x, y, z))
  {
    MaskShape();
    placed := TO_PLACE[x][y][z];
    MaskIsMengerRule(Cell(x, y, z));
  }

  /** Exactly 20 cells are kept, so a sponge holds exactly 20 copies of the smaller one. */
  lemma SlotCount()
    ensures |SLOTS| == N_SLOTS
  {
    assert N_CELLS == 27;
    assert |PlacedCells(9)| == 8;
    assert |PlacedCells(18)| == 12;
    assert |PlacedCells(27)| == 20;
  }

  /** Every listed cell is in range and kept, and is visited at a step in [lo, hi). */
  predicate KeptWithin(s: seq<Cell>, lo: nat, hi: nat)
  {
    forall i :: 0 <= i < |s| ==> InRange(s[i]) && Kept(s[i]) && lo <= Code(s[i]) < hi
  }

  /** The listed cells come in strictly increasing visiting order. */
  predicate Increasing(s: seq<Cell>)
  {
    forall i, j :: 0 <= i < j < |s| ==> Code(s[i]) < Code(s[j])
  }

  /** Two ordered runs over adjacent step ranges make one ordered run. */
  lemma ConcatOrdered(a: seq<Cell>, b: seq<Cell>, lo: nat, mid: nat, hi: nat)
    requires lo <= mid <= hi
    requires KeptWithin(a, lo, mid) && Increasing(a)
    requires KeptWithin(b, mid, hi) && Increasing(b)
    ensures KeptWithin(a + b, lo, hi) && Increasing(a + b)
  {
    forall i, j | 0 <= i < j < |a + b|
      ensures Code((a + b)[i]) < Code((a + b)[j])
    {
      if j < |a| {
        assert (a + b)[i] == a[i] && (a + b)[j] == a[j];
      } else if i < |a| {
        assert (a + b)[i] == a[i] && (a + b)[j] == b[j - |a|];
      } else {
        assert (a + b)[i] == b[i - |a|] && (a + b)[j] == b[j - |a|];
      }
    }
  }

  /** The first i steps keep only in-range kept cells, in increasing step order. */
  lemma {:induction false} PlacedOrdered(i: nat)
    requires i <= N_CELLS
    ensures KeptWithin(PlacedCells(i), 0, i) && Increasing(PlacedCells(i))
  {
    if i > 0 {
      PlacedOrdered(i - 1);
      CodeCellAt(i - 1);
      var c := CellAt(i - 1);
      ConcatOrdered(PlacedCells(i - 1), if Kept(c) then [c] else [], 0, i - 1, i);
    }
  }

  /** A cell listed after i - 1 steps is still listed after i. */
  lemma PlacedGrows(i: nat, c: Cell)
    requires 0 < i && c in PlacedCells(i - 1)
    ensures c in PlacedCells(i)
  {
    PlacedAt(i, CellAt(i - 1));
  }

  /** A kept cell is listed right after the step that visits it. */
  lemma PlacedLast(c: Cell)
    requires InRange(c) && Kept(c)
    ensures c in PlacedCells(Code(c) + 1)
  {
    var s := Code(c);
    CellAtCode(c.x, c.y, c.z, s);
    PlacedAt(s + 1, c);
    var pre := PlacedCells(s);
    assert PlacedCells(s + 1) == pre + [c];
    assert (pre + [c])[|pre|] == c;
  }

  /** A kept cell is listed once the steps have gone past its step number. */
  lemma {:induction false} PlacedIncludes(c: Cell, i: nat)
    requires InRange(c) && Kept(c) && Code(c) < i
    ensures c in PlacedCells(i)
    decreases i
  {
    if Code(c) == i - 1 {
      PlacedLast(c);
    } else {
      PlacedIncludes(c, i - 1);
      PlacedGrows(i, c);
    }
  }

  /** The first i steps miss no kept cell whose step number is below i. */
  lemma PlacedComplete(i: nat)
    ensures forall c: Cell :: InRange(c) && Kept(c) && Code(c) < i ==> c in PlacedCells(i)
  {
    forall c: Cell | InRange(c) && Kept(c) && Code(c) < i
      ensures c in PlacedCells(i)
    {
      PlacedIncludes(c, i);
    }
  }

  /** The slots are exactly the true cells of the mask, each once, in visiting order. */
  lemma SlotsAreTheTrueCells()
    ensures |SLOTS| == N_SLOTS
    ensures forall s :: 0 <= s < |SLOTS| ==> InRange(SLOTS[s]) && Placed(SLOTS[s])
    ensures forall c :: InRange(c) && Placed(c) ==> c in SLOTS
    ensures forall s, t :: 0 <= s < t < |SLOTS| ==> Code(SLOTS[s]) < Code(SLOTS[t])
  {
    SlotCount();
    PlacedOrdered(N_CELLS);
    PlacedComplete(N_CELLS);
    forall s | 0 <= s < |SLOTS|
      ensures Placed(SLOTS[s])
    {
      MaskIsMengerRule(SLOTS[s]);
    }
    forall c | InRange(c) && Placed(c)
      ensures c in SLOTS
    {
      MaskIsMengerRule(c);
      assert Code(c) < N_CELLS;
    }
  }

  lemma PrefixTrans(a: seq<Cell>, b: seq<Cell>, c: seq<Cell>)
    requires a <= b && b <= c
    ensures a <= c
  {
    assert b[..|a|] == a;
    assert c[..|b|] == b;
    assert c[..|a|] == b[..|a|];
  }

  /** The filter of a shorter run of steps is a prefix of the filter of a longer one. */
  lemma {:induction false} PlacedPrefix(i: nat, n: nat)
    requires i <= n
    ensures PlacedCells(i) <= PlacedCells(n)
  {
    if i < n {
      PlacedPrefix(i, n - 1);
      PrefixTrans(PlacedCells(i), PlacedCells(n - 1), PlacedCells(n));
    }
  }

  /**
   * One step of the x/y/z loops at cell (x, y, z), whose step number is s:
   * the running counter grows by one exactly at a kept cell (a true mask
   * entry, by MaskIsMengerRule), and there the counter names the slot that
   * holds this cell.
   */
  lemma VisitCell(x: nat, y: nat, z: nat, s: nat)
    requires x < SIDE && y < SIDE && z < SIDE && s == 9 * x + 3 * y + z
    ensures |PlacedCells(s + 1)| == |PlacedCells(s)| + (if Kept(Cell(x, y, z)) then 1 else 0)
    ensures Kept(Cell(x, y, z)) ==>
              && |SLOTS| == N_SLOTS
              && |PlacedCells(s)| < N_SLOTS
              && SLOTS[|PlacedCells(s)|] == Cell(x, y, z)
  {
    CellAtCode(x, y, z, s);
    PlacedAt(s + 1, Cell(x, y, z));
    if Kept(Cell(x, y, z)) {
      SlotCount();
      PlacedPrefix(s + 1, N_CELLS);
    }
  }
}
