/**
 * The yard invariant that Allocate's placement rules keep when every
 * placement is an Allocate followed by Update(Stacking) at the returned slot,
 * interleaved with Update(Unstacking) at a container's own slot:
 *   - no stack is taller than MaxNumTiers, and stacks lie in rows 1..NumRows;
 *   - no normalised column mixes 20 ft and 40 ft containers;
 *   - every 40 ft container sits at the same height in both of its columns.
 * Stated for one block; keys of other blocks are neither read nor written.
 */
module InventoryInvariant {
  import opened Wrappers
  import opened Slots
  import opened Port
  import opened Inventories

  /** The stack at normalised column d, row r of block id. */
  function Col(m: Store, id: int, d: int, r: int): seq<Container>
  {
    Column(m, GroundKey(id, d, r))
  }

  /** Every container of column d (all rows) has the given size. */
  ghost predicate Holds(m: Store, id: int, d: int, size: ContainerSize)
  {
    forall r, i :: 0 <= i < |Col(m, id, d, r)| ==> Col(m, id, d, r)[i].size == size
  }

  predicate FortyStack(s: seq<Container>)
  {
    s != [] && s[0].size == FortyFeet
  }

  /**
   * The conditions on the stack at (d, r):
   * bounded height, rows in range, a 40 ft container shared at the same
   * height with column d+1 makes the two stacks identical, no 40 ft stack is
   * identical to both neighbours, and a 40 ft stack is identical to one of them.
   */
  ghost predicate CellOk(m: Store, blk: Block, d: int, r: int)
  {
    var id := blk.index;
    var here := Col(m, id, d, r);
    var left := Col(m, id, d - 1, r);
    var right := Col(m, id, d + 1, r);
    && |here| <= blk.maxNumTiers
    && (here != [] ==> 1 <= r <= blk.numRows)
    && (forall i :: 0 <= i < |here| && i < |right| && here[i] == right[i] && here[i].size == FortyFeet ==>
          here == right)
    && (FortyStack(here) && left == here ==> right != here)
    && (FortyStack(here) ==> left == here || right == here)
  }

  ghost predicate Inv(m: Store, blk: Block)
  {
    && (forall d, r :: CellOk(m, blk, d, r))
    && (forall d :: Holds(m, blk.index, d, FortyFeet) || Holds(m, blk.index, d, TwentyFeet))
  }

  /** c is stored nowhere in the map. */
  ghost predicate Absent(m: Store, c: Container)
  {
    forall k :: k in m ==> c !in m[k]
  }

  lemma EmptyInv(blk: Block)
    requires blk.maxNumTiers >= 0
    ensures Inv(map[], blk)
  {
  }

  // ---------------------------------------------------------------------------
  // Consequences of the invariant
  // ---------------------------------------------------------------------------

  /** No normalised column holds both sizes, across all of its rows. */
  lemma SingleSizePerColumn(m: Store, blk: Block, d: int, r1: int, i: int, r2: int, j: int)
    requires Inv(m, blk)
    requires 0 <= i < |Col(m, blk.index, d, r1)| && 0 <= j < |Col(m, blk.index, d, r2)|
    ensures Col(m, blk.index, d, r1)[i].size == Col(m, blk.index, d, r2)[j].size
  {
    assert Holds(m, blk.index, d, FortyFeet) || Holds(m, blk.index, d, TwentyFeet);
  }

  /** A 40 ft container stands at the same height in a neighbouring column. */
  lemma FortyHasPartner(m: Store, blk: Block, d: int, r: int, i: int)
    requires Inv(m, blk)
    requires 0 <= i < |Col(m, blk.index, d, r)| && Col(m, blk.index, d, r)[i].size == FortyFeet
    ensures || (i < |Col(m, blk.index, d - 1, r)| && Col(m, blk.index, d - 1, r)[i] == Col(m, blk.index, d, r)[i])
            || (i < |Col(m, blk.index, d + 1, r)| && Col(m, blk.index, d + 1, r)[i] == Col(m, blk.index, d, r)[i])
  {
    assert Holds(m, blk.index, d, FortyFeet) || Holds(m, blk.index, d, TwentyFeet);
    assert FortyStack(Col(m, blk.index, d, r));
    assert CellOk(m, blk, d, r);
  }

  /** Every stack stays within MaxNumTiers. */
  lemma HeightBounded(m: Store, blk: Block, k: GroundKey)
    requires Inv(m, blk) && k in m && k.blockId == blk.index
    ensures |m[k]| <= blk.maxNumTiers
  {
    assert CellOk(m, blk, k.dim1, k.dim2);
  }

  // ---------------------------------------------------------------------------
  // Preservation, stated on the columns a stacking or unstacking changes
  // ---------------------------------------------------------------------------

  function DropLast(s: seq<Container>): seq<Container>
  {
    if s == [] then [] else s[..|s| - 1]
  }

  /** m' is m with c pushed onto the stacks of row `row` in the columns `cols` of block id. */
  ghost predicate PushedOn(m: Store, m': Store, id: int, cols: set<int>, row: int, c: Container)
  {
    forall d, r :: Col(m', id, d, r) ==
      if r == row && d in cols then Col(m, id, d, r) + [c] else Col(m, id, d, r)
  }

  /** m' is m with the top of each stack of row `row` in the columns `cols` of block id removed. */
  ghost predicate PoppedFrom(m: Store, m': Store, id: int, cols: set<int>, row: int)
  {
    forall d, r :: Col(m', id, d, r) ==
      if r == row && d in cols then DropLast(Col(m, id, d, r)) else Col(m, id, d, r)
  }

  lemma AbsentFromColumns(m: Store, c: Container, id: int)
    requires Absent(m, c)
    ensures forall d, r :: c !in Col(m, id, d, r)
  {
  }

  /** A column none of whose in-range stacks is topped by a 20 ft container holds only 40 ft ones. */
  lemma NoTwentyTopsMeansForty(m: Store, blk: Block, d: int)
    requires Inv(m, blk)
    requires forall r :: 1 <= r <= blk.numRows ==> !IsTwenty(TopOf(Col(m, blk.index, d, r)))
    ensures Holds(m, blk.index, d, FortyFeet)
  {
    forall r, i | 0 <= i < |Col(m, blk.index, d, r)|
      ensures Col(m, blk.index, d, r)[i].size == FortyFeet
    {
      var s := Col(m, blk.index, d, r);
      assert CellOk(m, blk, d, r);
      assert s[|s| - 1].size != TwentyFeet;
      assert Holds(m, blk.index, d, FortyFeet) || Holds(m, blk.index, d, TwentyFeet);
    }
  }

  /** A column none of whose in-range stacks is topped by a 40 ft container holds only 20 ft ones. */
  lemma NoFortyTopsMeansTwenty(m: Store, blk: Block, d: int)
    requires Inv(m, blk)
    requires forall r :: 1 <= r <= blk.numRows ==> !IsForty(TopOf(Col(m, blk.index, d, r)))
    ensures Holds(m, blk.index, d, TwentyFeet)
  {
    forall r, i | 0 <= i < |Col(m, blk.index, d, r)|
      ensures Col(m, blk.index, d, r)[i].size == TwentyFeet
    {
      var s := Col(m, blk.index, d, r);
      assert CellOk(m, blk, d, r);
      assert s[|s| - 1].size != FortyFeet;
      assert Holds(m, blk.index, d, FortyFeet) || Holds(m, blk.index, d, TwentyFeet);
    }
  }

  /** A cell whose own stack and both neighbouring stacks are unchanged keeps its conditions. */
  lemma UnchangedCell(m: Store, m': Store, blk: Block, d: int, r: int)
    requires CellOk(m, blk, d, r)
    requires Col(m', blk.index, d - 1, r) == Col(m, blk.index, d - 1, r)
    requires Col(m', blk.index, d, r) == Col(m, blk.index, d, r)
    requires Col(m', blk.index, d + 1, r) == Col(m, blk.index, d + 1, r)
    ensures CellOk(m', blk, d, r)
  {
  }

  /** Removing tops never mixes sizes into a column. */
  lemma PopKeepsHolds(m: Store, m': Store, id: int, cols: set<int>, row: int, d: int)
    requires PoppedFrom(m, m', id, cols, row)
    requires Holds(m, id, d, FortyFeet) || Holds(m, id, d, TwentyFeet)
    ensures Holds(m', id, d, FortyFeet) || Holds(m', id, d, TwentyFeet)
  {
    var size := if Holds(m, id, d, FortyFeet) then FortyFeet else TwentyFeet;
    assert Holds(m, id, d, size);
    forall r, i | 0 <= i < |Col(m', id, d, r)|
      ensures Col(m', id, d, r)[i].size == size
    {
      assert Col(m', id, d, r)[i] == Col(m, id, d, r)[i];
    }
  }

  /** Pushing c onto the columns `cols` keeps a column's single size when c has it or the column is not pushed. */
  lemma PushKeepsHolds(m: Store, m': Store, id: int, cols: set<int>, row: int, c: Container, d: int)
    requires PushedOn(m, m', id, cols, row, c)
    requires d in cols ==> Holds(m, id, d, c.size)
    requires Holds(m, id, d, FortyFeet) || Holds(m, id, d, TwentyFeet)
    ensures Holds(m', id, d, FortyFeet) || Holds(m', id, d, TwentyFeet)
  {
    var size := if d in cols then c.size else if Holds(m, id, d, FortyFeet) then FortyFeet else TwentyFeet;
    assert Holds(m, id, d, size);
    forall r, i | 0 <= i < |Col(m', id, d, r)|
      ensures Col(m', id, d, r)[i].size == size
    {
      if !(r == row && d in cols && i == |Col(m, id, d, r)|) {
        assert Col(m', id, d, r)[i] == Col(m, id, d, r)[i];
      }
    }
  }

  /** Pushing a new 40 ft container onto two identical, non-full, 40 ft-only columns keeps the invariant. */
  lemma PushFortyKeepsInv(m: Store, m': Store, blk: Block, e: int, row: int, c: Container)
    requires Inv(m, blk)
    requires c.size == FortyFeet && Absent(m, c)
    requires 1 <= row <= blk.numRows
    requires Col(m, blk.index, e, row) == Col(m, blk.index, e + 1, row)
    requires |Col(m, blk.index, e, row)| < blk.maxNumTiers
    requires Holds(m, blk.index, e, FortyFeet) && Holds(m, blk.index, e + 1, FortyFeet)
    requires PushedOn(m, m', blk.index, {e, e + 1}, row, c)
    ensures Inv(m', blk)
  {
    var id := blk.index;
    AbsentFromColumns(m, c, id);
    forall d, r ensures CellOk(m', blk, d, r) {
      if r == row && e - 1 <= d <= e + 2 {
        PushFortyNear(m, m', blk, e, row, c, d);
      } else {
        UnchangedCell(m, m', blk, d, r);
      }
    }
    forall d ensures Holds(m', id, d, FortyFeet) || Holds(m', id, d, TwentyFeet) {
      PushKeepsHolds(m, m', id, {e, e + 1}, row, c, d);
    }
  }

  /** The four stacks of the row whose neighbourhood a 40 ft push changes. */
  lemma PushFortyNear(m: Store, m': Store, blk: Block, e: int, row: int, c: Container, d: int)
    requires Inv(m, blk)
    requires c.size == FortyFeet && forall d', r :: c !in Col(m, blk.index, d', r)
    requires 1 <= row <= blk.numRows
    requires Col(m, blk.index, e, row) == Col(m, blk.index, e + 1, row)
    requires |Col(m, blk.index, e, row)| < blk.maxNumTiers
    requires Holds(m, blk.index, e, FortyFeet) && Holds(m, blk.index, e + 1, FortyFeet)
    requires PushedOn(m, m', blk.index, {e, e + 1}, row, c)
    requires e - 1 <= d <= e + 2
    ensures CellOk(m', blk, d, row)
  {
    var id := blk.index;
    var X := Col(m, id, e, row);
    var L := Col(m, id, e - 1, row);
    var R := Col(m, id, e + 2, row);
    assert Col(m', id, e, row) == X + [c] && Col(m', id, e + 1, row) == X + [c];
    assert (X + [c])[|X|] == c;
    assert c !in L && c !in R;
    assert CellOk(m, blk, e, row) && CellOk(m, blk, e + 1, row);
    if d == e - 1 {
      assert Col(m', id, e - 2, row) == Col(m, id, e - 2, row) && Col(m', id, e - 1, row) == L;
      assert CellOk(m, blk, e - 1, row);
    } else if d == e + 2 {
      assert Col(m', id, e + 3, row) == Col(m, id, e + 3, row) && Col(m', id, e + 2, row) == R;
      assert CellOk(m, blk, e + 2, row);
    } else if d == e {
      assert Col(m', id, e - 1, row) == L;
    } else {
      assert Col(m', id, e + 2, row) == R;
    }
  }

  /** Pushing a new 20 ft container onto a non-full, 20 ft-only column keeps the invariant. */
  lemma PushTwentyKeepsInv(m: Store, m': Store, blk: Block, d0: int, row: int, c: Container)
    requires Inv(m, blk)
    requires c.size == TwentyFeet
    requires 1 <= row <= blk.numRows
    requires |Col(m, blk.index, d0, row)| < blk.maxNumTiers
    requires Holds(m, blk.index, d0, TwentyFeet)
    requires PushedOn(m, m', blk.index, {d0}, row, c)
    ensures Inv(m', blk)
  {
    var id := blk.index;
    forall d, r ensures CellOk(m', blk, d, r) {
      if r == row && d0 - 1 <= d <= d0 + 1 {
        PushTwentyNear(m, m', blk, d0, row, c, d);
      } else {
        UnchangedCell(m, m', blk, d, r);
      }
    }
    forall d ensures Holds(m', id, d, FortyFeet) || Holds(m', id, d, TwentyFeet) {
      PushKeepsHolds(m, m', id, {d0}, row, c, d);
    }
  }

  /** The three stacks of the row whose neighbourhood a 20 ft push changes. */
  lemma PushTwentyNear(m: Store, m': Store, blk: Block, d0: int, row: int, c: Container, d: int)
    requires Inv(m, blk)
    requires c.size == TwentyFeet
    requires 1 <= row <= blk.numRows
    requires |Col(m, blk.index, d0, row)| < blk.maxNumTiers
    requires Holds(m, blk.index, d0, TwentyFeet)
    requires PushedOn(m, m', blk.index, {d0}, row, c)
    requires d0 - 1 <= d <= d0 + 1
    ensures CellOk(m', blk, d, row)
  {
    var id := blk.index;
    var Y := Col(m, id, d0, row);
    assert Col(m', id, d0, row) == Y + [c];
    assert forall i :: 0 <= i < |Y + [c]| ==> (Y + [c])[i].size == TwentyFeet;
    if d == d0 - 1 {
      assert Col(m', id, d0 - 2, row) == Col(m, id, d0 - 2, row);
      assert Col(m', id, d0 - 1, row) == Col(m, id, d0 - 1, row);
      assert CellOk(m, blk, d0 - 1, row);
    } else if d == d0 + 1 {
      assert Col(m', id, d0 + 2, row) == Col(m, id, d0 + 2, row);
      assert Col(m', id, d0 + 1, row) == Col(m, id, d0 + 1, row);
      assert CellOk(m, blk, d0 + 1, row);
    } else {
      assert Col(m', id, d0 - 1, row) == Col(m, id, d0 - 1, row);
      assert Col(m', id, d0 + 1, row) == Col(m, id, d0 + 1, row);
      assert CellOk(m, blk, d0, row);
    }
  }

  /** Popping the top of a nonempty 20 ft stack keeps the invariant. */
  lemma PopTwentyKeepsInv(m: Store, m': Store, blk: Block, d0: int, row: int)
    requires Inv(m, blk)
    requires Col(m, blk.index, d0, row) != []
    requires Col(m, blk.index, d0, row)[|Col(m, blk.index, d0, row)| - 1].size == TwentyFeet
    requires PoppedFrom(m, m', blk.index, {d0}, row)
    ensures Inv(m', blk)
  {
    var id := blk.index;
    assert Holds(m, id, d0, FortyFeet) || Holds(m, id, d0, TwentyFeet);
    forall d, r ensures CellOk(m', blk, d, r) {
      if r == row && d0 - 1 <= d <= d0 + 1 {
        PopTwentyNear(m, m', blk, d0, row, d);
      } else {
        UnchangedCell(m, m', blk, d, r);
      }
    }
    forall d ensures Holds(m', id, d, FortyFeet) || Holds(m', id, d, TwentyFeet) {
      PopKeepsHolds(m, m', id, {d0}, row, d);
    }
  }

  /** The three stacks of the row whose neighbourhood a 20 ft pop changes. */
  lemma PopTwentyNear(m: Store, m': Store, blk: Block, d0: int, row: int, d: int)
    requires Inv(m, blk)
    requires Col(m, blk.index, d0, row) != []
    requires Col(m, blk.index, d0, row)[|Col(m, blk.index, d0, row)| - 1].size == TwentyFeet
    requires PoppedFrom(m, m', blk.index, {d0}, row)
    requires d0 - 1 <= d <= d0 + 1
    ensures CellOk(m', blk, d, row)
  {
    var id := blk.index;
    var Y := Col(m, id, d0, row);
    var Y' := Y[..|Y| - 1];
    assert Holds(m, id, d0, FortyFeet) || Holds(m, id, d0, TwentyFeet);
    assert Holds(m, id, d0, TwentyFeet);
    assert Col(m', id, d0, row) == Y';
    assert forall i :: 0 <= i < |Y'| ==> Y'[i].size == TwentyFeet;
    assert CellOk(m, blk, d0, row);
    if d == d0 - 1 {
      assert Col(m', id, d0 - 2, row) == Col(m, id, d0 - 2, row);
      assert Col(m', id, d0 - 1, row) == Col(m, id, d0 - 1, row);
      assert CellOk(m, blk, d0 - 1, row);
    } else if d == d0 + 1 {
      assert Col(m', id, d0 + 2, row) == Col(m, id, d0 + 2, row);
      assert Col(m', id, d0 + 1, row) == Col(m, id, d0 + 1, row);
      assert CellOk(m, blk, d0 + 1, row);
    } else {
      assert Col(m', id, d0 - 1, row) == Col(m, id, d0 - 1, row);
      assert Col(m', id, d0 + 1, row) == Col(m, id, d0 + 1, row);
    }
  }

  /** Popping the top of two identical nonempty 40 ft stacks (a 40 ft container and its partner) keeps the invariant. */
  lemma PopFortyKeepsInv(m: Store, m': Store, blk: Block, d0: int, row: int)
    requires Inv(m, blk)
    requires Col(m, blk.index, d0, row) != []
    requires Col(m, blk.index, d0, row)[|Col(m, blk.index, d0, row)| - 1].size == FortyFeet
    requires Col(m, blk.index, d0, row) == Col(m, blk.index, d0 + 1, row)
    requires PoppedFrom(m, m', blk.index, {d0, d0 + 1}, row)
    ensures Inv(m', blk)
  {
    var id := blk.index;
    forall d, r ensures CellOk(m', blk, d, r) {
      if r == row && d0 - 1 <= d <= d0 + 2 {
        PopFortyNear(m, m', blk, d0, row, d);
      } else {
        UnchangedCell(m, m', blk, d, r);
      }
    }
    forall d ensures Holds(m', id, d, FortyFeet) || Holds(m', id, d, TwentyFeet) {
      PopKeepsHolds(m, m', id, {d0, d0 + 1}, row, d);
    }
  }

  /** The four stacks of the row whose neighbourhood a 40 ft pop changes. */
  lemma PopFortyNear(m: Store, m': Store, blk: Block, d0: int, row: int, d: int)
    requires Inv(m, blk)
    requires Col(m, blk.index, d0, row) != []
    requires Col(m, blk.index, d0, row)[|Col(m, blk.index, d0, row)| - 1].size == FortyFeet
    requires Col(m, blk.index, d0, row) == Col(m, blk.index, d0 + 1, row)
    requires PoppedFrom(m, m', blk.index, {d0, d0 + 1}, row)
    requires d0 - 1 <= d <= d0 + 2
    ensures CellOk(m', blk, d, row)
  {
    var id := blk.index;
    var Y := Col(m, id, d0, row);
    var Y' := Y[..|Y| - 1];
    var L := Col(m, id, d0 - 1, row);
    var R := Col(m, id, d0 + 2, row);
    assert Holds(m, id, d0, FortyFeet) || Holds(m, id, d0, TwentyFeet);
    assert Holds(m, id, d0, FortyFeet);
    assert FortyStack(Y);
    assert Col(m', id, d0, row) == Y' && Col(m', id, d0 + 1, row) == Y';
    assert Col(m', id, d0 - 1, row) == L && Col(m', id, d0 + 2, row) == R;
    assert forall i :: 0 <= i < |Y'| ==> Y'[i] == Y[i];
    assert CellOk(m, blk, d0 - 1, row) && CellOk(m, blk, d0, row) && CellOk(m, blk, d0 + 1, row);
    if d == d0 - 1 {
      assert Col(m', id, d0 - 2, row) == Col(m, id, d0 - 2, row);
    } else if d == d0 + 2 {
      assert Col(m', id, d0 + 3, row) == Col(m, id, d0 + 3, row);
      assert CellOk(m, blk, d0 + 2, row);
    }
  }

  /** Two maps with the same columns of block blk agree on the invariant. */
  lemma SameColumnsKeepInv(m: Store, m': Store, blk: Block)
    requires Inv(m, blk)
    requires forall k :: Column(m', k) == Column(m, k)
    ensures Inv(m', blk)
  {
    forall d, r ensures CellOk(m', blk, d, r) {
      assert CellOk(m, blk, d, r);
    }
    forall d ensures Holds(m', blk.index, d, FortyFeet) || Holds(m', blk.index, d, TwentyFeet) {
      var size := if Holds(m, blk.index, d, FortyFeet) then FortyFeet else TwentyFeet;
      assert Holds(m, blk.index, d, size);
      forall r, i | 0 <= i < |Col(m', blk.index, d, r)|
        ensures Col(m', blk.index, d, r)[i].size == size
      {
        assert Col(m', blk.index, d, r) == Col(m, blk.index, d, r);
      }
    }
  }

  // ---------------------------------------------------------------------------
  // Preservation by the inventory's own operations
  // ---------------------------------------------------------------------------

  /**
   * Unstacking at slot s removes a 40 ft container together with its partner:
   * when the addressed column is topped by a 40 ft container, the column to its
   * right is identical.
   */
  ghost predicate Anchored(m: Store, id: int, s: Slot)
  {
    var d0 := ToDim1(s.bay);
    IsForty(TopOf(Col(m, id, d0, s.row))) ==> Col(m, id, d0, s.row) == Col(m, id, d0 + 1, s.row)
  }

  /**
   * Stacking a new container at a position any phase of Allocate proposes keeps
   * the invariant, and leaves the slot anchored for a later unstacking.
   */
  lemma AllocatedStackKeepsInv(m: Store, blk: Block, c: Container, phase: Phase, s: Slot)
    requires Inv(m, blk) && blk.maxNumTiers >= 1
    requires Candidate(m, blk, c, phase, s.bay, s.row)
    requires Absent(m, c)
    ensures Inv(StackOn(m, blk.index, s, c), blk)
    ensures Anchored(StackOn(m, blk.index, s, c), blk.index, s)
  {
    CandidateFits(m, blk, c, phase, s.bay, s.row);
    if c.size == FortyFeet {
      FortyStackKeepsInv(m, blk, c, s);
    } else {
      TwentyStackKeepsInv(m, blk, c, s);
    }
  }

  lemma FortyStackKeepsInv(m: Store, blk: Block, c: Container, s: Slot)
    requires Inv(m, blk)
    requires c.size == FortyFeet && Fits(m, blk, c.size, s.bay, s.row)
    requires Absent(m, c)
    ensures Inv(StackOn(m, blk.index, s, c), blk)
    ensures Anchored(StackOn(m, blk.index, s, c), blk.index, s)
  {
    var id := blk.index;
    var m' := StackOn(m, id, s, c);
    var e := s.bay / 2;
    FortyFitsColumns(m, blk, s.bay, s.row);
    StackFortyEffect(m, id, s, c);
    assert PushedOn(m, m', id, {e, e + 1}, s.row, c);
    PushFortyKeepsInv(m, m', blk, e, s.row, c);
    assert ToDim1(s.bay) == e;
  }

  /** What CanPlaceForty's verdict says about the two columns under even bay `bay`. */
  lemma FortyFitsColumns(m: Store, blk: Block, bay: int, row: int)
    requires Inv(m, blk)
    requires FortyFits(m, blk, bay, row) && 1 <= row <= blk.numRows
    ensures bay % 2 == 0
    ensures Holds(m, blk.index, bay / 2, FortyFeet) && Holds(m, blk.index, bay / 2 + 1, FortyFeet)
    ensures Col(m, blk.index, bay / 2, row) == Col(m, blk.index, bay / 2 + 1, row)
    ensures |Col(m, blk.index, bay / 2, row)| < blk.maxNumTiers
  {
    var id := blk.index;
    var e := bay / 2;
    var e1 := e + 1;
    var leftBay, rightBay := bay - 1, bay + 1;
    assert ToDim1(leftBay) == e && ToDim1(rightBay) == e1;
    assert forall r :: Top(m, blk, leftBay, r) == TopOf(Col(m, id, e, r));
    assert forall r :: Top(m, blk, rightBay, r) == TopOf(Col(m, id, e1, r));
    NoTwentyTopsMeansForty(m, blk, e);
    NoTwentyTopsMeansForty(m, blk, e1);
    var X := Col(m, id, e, row);
    var Y := Col(m, id, e1, row);
    assert |X| == |Y|;
    if X != [] {
      assert X[|X| - 1] == Y[|Y| - 1] && X[|X| - 1].size == FortyFeet;
      assert CellOk(m, blk, e, row);
    }
  }

  lemma TwentyStackKeepsInv(m: Store, blk: Block, c: Container, s: Slot)
    requires Inv(m, blk)
    requires c.size == TwentyFeet && Fits(m, blk, c.size, s.bay, s.row)
    ensures Inv(StackOn(m, blk.index, s, c), blk)
    ensures Anchored(StackOn(m, blk.index, s, c), blk.index, s)
  {
    var id := blk.index;
    var m' := StackOn(m, id, s, c);
    var d0 := (s.bay + 1) / 2;
    assert ToDim1(s.bay) == d0;
    assert forall r :: Top(m, blk, s.bay, r) == TopOf(Col(m, id, d0, r));
    NoFortyTopsMeansTwenty(m, blk, d0);
    StackTwentyEffect(m, id, s, c);
    assert PushedOn(m, m', id, {d0}, s.row, c);
    PushTwentyKeepsInv(m, m', blk, d0, s.row, c);
  }

  /** Unstacking at an anchored slot keeps the invariant. */
  lemma UnstackKeepsInv(m: Store, blk: Block, s: Slot)
    requires Inv(m, blk)
    requires Anchored(m, blk.index, s)
    ensures Inv(UnstackOn(m, blk.index, s).0, blk)
  {
    var id := blk.index;
    var m' := UnstackOn(m, id, s).0;
    var d0 := ToDim1(s.bay);
    var k := KeyOf(id, s.bay, s.row);
    var col := Column(m, k);
    UnstackEffect(m, id, s);
    if col == [] {
      SameColumnsKeepInv(m, m', blk);
    } else if col[|col| - 1].size == TwentyFeet {
      assert PoppedFrom(m, m', id, {d0}, s.row);
      PopTwentyKeepsInv(m, m', blk, d0, s.row);
    } else {
      assert ToDim1(s.bay + 2) == d0 + 1;
      assert PoppedFrom(m, m', id, {d0, d0 + 1}, s.row);
      PopFortyKeepsInv(m, m', blk, d0, s.row);
    }
  }

  /** A 40 ft container stored at the same height in columns b/2 and b/2+1 makes even bay b's slot anchored. */
  lemma StoredFortyIsAnchored(m: Store, blk: Block, s: Slot, c: Container, i: int)
    requires Inv(m, blk)
    requires c.size == FortyFeet && s.bay % 2 == 0
    requires 0 <= i < |Col(m, blk.index, s.bay / 2, s.row)| && i < |Col(m, blk.index, s.bay / 2 + 1, s.row)|
    requires Col(m, blk.index, s.bay / 2, s.row)[i] == c && Col(m, blk.index, s.bay / 2 + 1, s.row)[i] == c
    ensures Anchored(m, blk.index, s)
  {
    assert CellOk(m, blk, s.bay / 2, s.row);
  }

  /** A slot whose column holds a 20 ft container is anchored: that column has no 40 ft top. */
  lemma StoredTwentyIsAnchored(m: Store, blk: Block, s: Slot, c: Container)
    requires Inv(m, blk)
    requires c.size == TwentyFeet && c in Col(m, blk.index, ToDim1(s.bay), s.row)
    ensures Anchored(m, blk.index, s)
  {
    var col := Col(m, blk.index, ToDim1(s.bay), s.row);
    var i :| 0 <= i < |col| && col[i] == c;
    SingleSizePerColumn(m, blk, ToDim1(s.bay), s.row, i, s.row, |col| - 1);
  }
}
