/**
 * The inventory: the ground-slot map that records which containers stand where,
 * the four-phase slot search (Allocate), stacking and unstacking (Update), and
 * the choice of the next container of a group to retrieve (GetBestJobByPswc).
 *
 * Ground slots are keyed by (block index, normalised column, row). The odd/even
 * bay numbering is collapsed by ToDim1: odd bay 2d-1 and even bay 2d both map to
 * column d, so a 40 ft container at even bay b stands on columns b/2 and b/2+1.
 */
module Inventories {
  import opened Wrappers
  import opened Slots
  import opened Port

  datatype JobType = Stacking | Unstacking

  /** (block index, normalised column, row). */
  datatype GroundKey = GroundKey(blockId: int, dim1: int, dim2: int)

  /** The ground-slot map: each key holds a bottom-to-top list of containers. */
  type Store = map<GroundKey, seq<Container>>

  /** Normalised column of a bay: odd bay 2d-1 and even bay 2d both give d. */
  function ToDim1(bay: int): (d: int)
    ensures 2 * d - 1 <= bay <= 2 * d
  {
    if bay % 2 == 0 then bay / 2 else (bay + 1) / 2
  }

  function KeyOf(blockId: int, bay: int, row: int): GroundKey
  {
    GroundKey(blockId, ToDim1(bay), row)
  }

  /** The containers at key k, bottom first; a key never touched holds none. */
  function Column(m: Store, k: GroundKey): seq<Container>
  {
    if k in m then m[k] else []
  }

  function TopOf(s: seq<Container>): (top: Option<Container>)
    ensures top.None? <==> s == []
    ensures top.Some? ==> top.value == s[|s| - 1]
  {
    if s == [] then None else Some(s[|s| - 1])
  }

  /** Stack height at (bay, row) of a block. */
  function Height(m: Store, blk: Block, bay: int, row: int): nat
  {
    |Column(m, KeyOf(blk.index, bay, row))|
  }

  /** Top container at (bay, row) of a block. */
  function Top(m: Store, blk: Block, bay: int, row: int): Option<Container>
  {
    TopOf(Column(m, KeyOf(blk.index, bay, row)))
  }

  predicate IsForty(t: Option<Container>)
  {
    t.Some? && t.value.size == FortyFeet
  }

  predicate IsTwenty(t: Option<Container>)
  {
    t.Some? && t.value.size == TwentyFeet
  }

  /** `maxBayIndex`: the last bay index of the block. */
  function LastBay(blk: Block): int
  {
    blk.numBays * 2 - 1
  }

  // ---------------------------------------------------------------------------
  // The placement rules of Allocate
  // ---------------------------------------------------------------------------

  /** IsBayBlockedFor20: some row of the bay is topped by a 40 ft container. */
  predicate BlockedFor20(m: Store, blk: Block, bay: int)
  {
    exists row :: 1 <= row <= blk.numRows && IsForty(Top(m, blk, bay, row))
  }

  /** No row of the bay is topped by a 20 ft container. */
  predicate NoTwentyInBay(m: Store, blk: Block, bay: int)
  {
    forall row :: 1 <= row <= blk.numRows ==> !IsTwenty(Top(m, blk, bay, row))
  }

  /** CanPlaceForty's verdict for the 40 ft position at even bay `bay`, row `row`. */
  predicate FortyFits(m: Store, blk: Block, bay: int, row: int)
  {
    var top1 := Top(m, blk, bay - 1, row);
    var top2 := Top(m, blk, bay + 1, row);
    var h1 := Height(m, blk, bay - 1, row);
    var h2 := Height(m, blk, bay + 1, row);
    && bay % 2 == 0
    && !(bay <= 1 || bay >= LastBay(blk))
    && !IsTwenty(top1) && !IsTwenty(top2)
    && NoTwentyInBay(m, blk, bay - 1) && NoTwentyInBay(m, blk, bay + 1)
    && h1 == h2
    && ((IsForty(top1) && top1 == top2) || (!IsForty(top1) && !IsForty(top2)))
    && h1 < blk.maxNumTiers
  }

  /** The positions Allocate's loops visit: even bays 2..LastBay-1 for 40 ft, odd bays 1..LastBay for 20 ft. */
  predicate Scanned(blk: Block, size: ContainerSize, bay: int, row: int)
  {
    && 1 <= row <= blk.numRows
    && (if size == FortyFeet then bay % 2 == 0 && 2 <= bay < LastBay(blk)
        else bay % 2 == 1 && 1 <= bay <= LastBay(blk))
  }

  /** The column whose height gives the new tier: the left one for 40 ft. */
  function Anchor(size: ContainerSize, bay: int): int
  {
    if size == FortyFeet then bay - 1 else bay
  }

  function AnchorHeight(m: Store, blk: Block, size: ContainerSize, bay: int, row: int): nat
  {
    Height(m, blk, Anchor(size, bay), row)
  }

  /** A legal, non-full position for a container of `size`. */
  predicate Fits(m: Store, blk: Block, size: ContainerSize, bay: int, row: int)
  {
    && Scanned(blk, size, bay, row)
    && if size == FortyFeet then FortyFits(m, blk, bay, row)
       else !BlockedFor20(m, blk, bay) && Height(m, blk, bay, row) < blk.maxNumTiers
  }

  datatype Phase = SameGroup | EmptySlot | Highest

  /** Whether (bay, row) is a candidate of the given phase for container c. */
  predicate Candidate(m: Store, blk: Block, c: Container, phase: Phase, bay: int, row: int)
  {
    match phase
    case SameGroup =>
      && Fits(m, blk, c.size, bay, row)
      && var top := Top(m, blk, Anchor(c.size, bay), row);
         top.Some? && top.value.group.index == c.group.index
    case EmptySlot =>
      if c.size == FortyFeet then
        && Height(m, blk, bay - 1, row) == 0 && Height(m, blk, bay + 1, row) == 0
        && Fits(m, blk, c.size, bay, row)
      else
        // the 20 ft empty-slot phase does not compare with MaxNumTiers
        && Scanned(blk, c.size, bay, row)
        && !BlockedFor20(m, blk, bay) && Height(m, blk, bay, row) == 0
    case Highest =>
      Fits(m, blk, c.size, bay, row)
  }

  ghost predicate HasCandidate(m: Store, blk: Block, c: Container, phase: Phase)
  {
    exists bay, row :: Candidate(m, blk, c, phase, bay, row)
  }

  /** (b1, r1) comes before (b2, r2) in Allocate's scan order. */
  predicate Before(b1: int, r1: int, b2: int, r2: int)
  {
    b1 < b2 || (b1 == b2 && r1 < r2)
  }

  /** (bay, row) is the first candidate of `phase` in scan order. */
  ghost predicate IsFirst(m: Store, blk: Block, c: Container, phase: Phase, bay: int, row: int)
  {
    && Candidate(m, blk, c, phase, bay, row)
    && forall b, w :: Candidate(m, blk, c, phase, b, w) ==> !Before(b, w, bay, row)
  }

  /** (bay, row) is the first of the tallest legal positions in scan order. */
  ghost predicate IsFirstHighest(m: Store, blk: Block, c: Container, bay: int, row: int)
  {
    && Candidate(m, blk, c, Highest, bay, row)
    && forall b, w :: Candidate(m, blk, c, Highest, b, w) ==>
         || AnchorHeight(m, blk, c.size, b, w) < AnchorHeight(m, blk, c.size, bay, row)
         || (AnchorHeight(m, blk, c.size, b, w) == AnchorHeight(m, blk, c.size, bay, row) && !Before(b, w, bay, row))
  }

  /**
   * The state of Allocate's third phase once every position before (bay, row)
   * has been visited: (bestBay, bestRow) is the first of the tallest candidates
   * seen so far at height bestHeight, or bestBay is -1 when none was seen.
   */
  ghost predicate LeadsScan(m: Store, blk: Block, c: Container, bestBay: int, bestRow: int, bestHeight: int,
                            bay: int, row: int)
  {
    && (bestBay == -1 ==>
          bestHeight == -1 && forall b, w :: Candidate(m, blk, c, Highest, b, w) ==> !Before(b, w, bay, row))
    && (bestBay != -1 ==>
          && Candidate(m, blk, c, Highest, bestBay, bestRow)
          && bestHeight == AnchorHeight(m, blk, c.size, bestBay, bestRow)
          && Before(bestBay, bestRow, bay, row))
    && forall b, w :: Candidate(m, blk, c, Highest, b, w) && Before(b, w, bay, row) ==>
         || AnchorHeight(m, blk, c.size, b, w) < bestHeight
         || (AnchorHeight(m, blk, c.size, b, w) == bestHeight && !Before(b, w, bestBay, bestRow))
  }

  /** LeadsNextRow in terms of what CheckCandidate reports at (bay, row). */
  lemma LeadsStep(m: Store, blk: Block, c: Container, bestBay: int, bestRow: int, bestHeight: int,
                  bay: int, row: int, ok: bool, tier: int)
    requires LeadsScan(m, blk, c, bestBay, bestRow, bestHeight, bay, row)
    requires ok <==> Candidate(m, blk, c, Highest, bay, row)
    requires ok ==> tier == AnchorHeight(m, blk, c.size, bay, row) + 1
    ensures ok && tier - 1 > bestHeight ==> LeadsScan(m, blk, c, bay, row, tier - 1, bay, row + 1)
    ensures !(ok && tier - 1 > bestHeight) ==> LeadsScan(m, blk, c, bestBay, bestRow, bestHeight, bay, row + 1)
  {
    LeadsNextRow(m, blk, c, bestBay, bestRow, bestHeight, bay, row);
  }

  /** Visiting (bay, row) keeps the leader, or makes (bay, row) the leader when it is a strictly taller candidate. */
  lemma LeadsNextRow(m: Store, blk: Block, c: Container, bestBay: int, bestRow: int, bestHeight: int,
                     bay: int, row: int)
    requires LeadsScan(m, blk, c, bestBay, bestRow, bestHeight, bay, row)
    ensures Candidate(m, blk, c, Highest, bay, row) && AnchorHeight(m, blk, c.size, bay, row) > bestHeight ==>
      LeadsScan(m, blk, c, bay, row, AnchorHeight(m, blk, c.size, bay, row), bay, row + 1)
    ensures !(Candidate(m, blk, c, Highest, bay, row) && AnchorHeight(m, blk, c.size, bay, row) > bestHeight) ==>
      LeadsScan(m, blk, c, bestBay, bestRow, bestHeight, bay, row + 1)
  {
    var h := AnchorHeight(m, blk, c.size, bay, row);
    if Candidate(m, blk, c, Highest, bay, row) && h > bestHeight {
      forall b, w | Candidate(m, blk, c, Highest, b, w) && Before(b, w, bay, row + 1)
        ensures AnchorHeight(m, blk, c.size, b, w) < h
             || (AnchorHeight(m, blk, c.size, b, w) == h && !Before(b, w, bay, row))
      {
        if Before(b, w, bay, row) {
          assert bestBay != -1;
        }
      }
    } else {
      if bestBay == -1 {
        assert !Candidate(m, blk, c, Highest, bay, row);
      }
    }
  }

  /** Having visited every row of `bay`, the next position is the first row of the next bay of the same parity. */
  lemma LeadsNextBay(m: Store, blk: Block, c: Container, bestBay: int, bestRow: int, bestHeight: int,
                     bay: int, row: int)
    requires bay % 2 == (if c.size == FortyFeet then 0 else 1) && row > blk.numRows
    requires LeadsScan(m, blk, c, bestBay, bestRow, bestHeight, bay, row)
    ensures LeadsScan(m, blk, c, bestBay, bestRow, bestHeight, bay + 2, 1)
  {
    forall b, w | Candidate(m, blk, c, Highest, b, w) && Before(b, w, bay + 2, 1)
      ensures Before(b, w, bay, row)
    {
    }
  }

  /** Past the last bay, the leader is the answer of the third phase. */
  lemma LeadsEnd(m: Store, blk: Block, c: Container, bestBay: int, bestRow: int, bestHeight: int, bay: int)
    requires bay > (if c.size == FortyFeet then LastBay(blk) - 1 else LastBay(blk))
    requires LeadsScan(m, blk, c, bestBay, bestRow, bestHeight, bay, 1)
    ensures bestBay == -1 <==> !HasCandidate(m, blk, c, Highest)
    ensures bestBay != -1 ==>
      bestBay > 0 && IsFirstHighest(m, blk, c, bestBay, bestRow) && bestHeight == AnchorHeight(m, blk, c.size, bestBay, bestRow)
  {
    forall b, w | Candidate(m, blk, c, Highest, b, w)
      ensures Before(b, w, bay, 1)
    {
    }
  }

  // ---------------------------------------------------------------------------
  // Stacking and unstacking as functions of the map
  // ---------------------------------------------------------------------------

  /** GetGroundSlot: the key exists afterwards, holding an empty list if it was new. */
  function Touch(m: Store, k: GroundKey): Store
  {
    if k in m then m else m[k := []]
  }

  function Push(m: Store, k: GroundKey, c: Container): Store
  {
    m[k := Column(m, k) + [c]]
  }

  /** The map after stacking c at slot s of block blockId (Inventory.Stack). */
  function StackOn(m: Store, blockId: int, s: Slot, c: Container): Store
  {
    if c.size == FortyFeet then
      Push(Push(m, KeyOf(blockId, s.bay - 1, s.row), c), KeyOf(blockId, s.bay + 1, s.row), c)
    else
      Push(m, KeyOf(blockId, s.bay, s.row), c)
  }

  /** The map after unstacking at slot s, and the container removed (Inventory.Unstack). */
  function UnstackOn(m: Store, blockId: int, s: Slot): (Store, Option<Container>)
  {
    var k := KeyOf(blockId, s.bay, s.row);
    var col := Column(m, k);
    if col == [] then (Touch(m, k), None)
    else
      var top := col[|col| - 1];
      var m1 := m[k := col[..|col| - 1]];
      if top.size == FortyFeet then
        var kp := KeyOf(blockId, s.bay + 2, s.row);
        var pair := Column(m1, kp);
        (if pair == [] then Touch(m1, kp) else m1[kp := pair[..|pair| - 1]], Some(top))
      else (m1, Some(top))
  }

  /** Update ignores a container whose slot is missing or has a zero coordinate. */
  predicate Unset(s: Option<Slot>)
  {
    s.None? || s.value.bay == 0 || s.value.row == 0 || s.value.tier == 0
  }

  // ---------------------------------------------------------------------------
  // Choosing a group's container to retrieve
  // ---------------------------------------------------------------------------

  /** A container of group g: same group index and the size g's TEUs give. */
  predicate Matches(c: Container, g: Group)
  {
    c.size == SizeForTeus(g.teus) && c.group.index == g.index
  }

  /** Position of the topmost container of s that matches g. */
  function TopMatch(s: seq<Container>, g: Group): (r: Option<nat>)
    ensures r.Some? ==>
      r.value < |s| && Matches(s[r.value], g) && forall j :: r.value < j < |s| ==> !Matches(s[j], g)
    ensures r.None? ==> forall j :: 0 <= j < |s| ==> !Matches(s[j], g)
    decreases |s|
  {
    if s == [] then None
    else if Matches(s[|s| - 1], g) then Some(|s| - 1)
    else TopMatch(s[..|s| - 1], g)
  }

  /** A ground slot of block blockId holding a container of g. */
  predicate IsJob(m: Store, blockId: int, g: Group, k: GroundKey)
  {
    k in m && k.blockId == blockId && TopMatch(m[k], g).Some?
  }

  /** The sort key of GetBestJobByPswc: depth from the top, stack height, column, row. */
  datatype Rank = Rank(depth: int, height: int, dim1: int, row: int)

  /** a is strictly preferred to b: shallower, then taller, then larger column, then larger row. */
  predicate Outranks(a: Rank, b: Rank)
  {
    || a.depth < b.depth
    || (a.depth == b.depth &&
        (|| a.height > b.height
         || (a.height == b.height && (a.dim1 > b.dim1 || (a.dim1 == b.dim1 && a.row > b.row)))))
  }

  function RankOf(m: Store, blockId: int, g: Group, k: GroundKey): Rank
    requires IsJob(m, blockId, g, k)
  {
    Rank(|m[k]| - 1 - TopMatch(m[k], g).value, |m[k]|, k.dim1, k.dim2)
  }

  function JobAt(m: Store, blockId: int, g: Group, k: GroundKey): Container
    requires IsJob(m, blockId, g, k)
  {
    m[k][TopMatch(m[k], g).value]
  }

  /** No ground slot of the block offers a better-ranked container of g than k. */
  ghost predicate Unbeaten(m: Store, blockId: int, g: Group, k: GroundKey)
  {
    && IsJob(m, blockId, g, k)
    && forall k' :: IsJob(m, blockId, g, k') ==> !Outranks(RankOf(m, blockId, g, k'), RankOf(m, blockId, g, k))
  }

  // ---------------------------------------------------------------------------
  // The inventory object
  // ---------------------------------------------------------------------------

  class Inventory {
    /** `_map` of the source. */
    var ground: Store

    constructor ()
      ensures ground == map[]
    {
      ground := map[];
    }

    /** Stack height of the ground slot under `slot`. */
    function GetHeight(block: Block, slot: Slot): (h: nat)
      reads this
      ensures h == 0 <==> Column(ground, KeyOf(block.index, slot.bay, slot.row)) == []
    {
      Height(ground, block, slot.bay, slot.row)
    }

    /** Top container of the ground slot under `slot`, None when it is empty. */
    function Peek(block: Block, slot: Slot): (top: Option<Container>)
      reads this
      ensures top.None? <==> GetHeight(block, slot) == 0
      ensures top.Some? ==>
        var col := Column(ground, KeyOf(block.index, slot.bay, slot.row));
        top.value == col[|col| - 1]
    {
      Top(ground, block, slot.bay, slot.row)
    }

    /** The local function IsBayBlockedFor20 of Allocate. */
    method IsBayBlockedFor20(block: Block, bay: int) returns (blocked: bool)
      ensures blocked <==> BlockedFor20(ground, block, bay)
    {
      var row := 1;
      while row <= block.numRows
        invariant 1 <= row
        invariant forall r :: 1 <= r < row && r <= block.numRows ==> !IsForty(Top(ground, block, bay, r))
      {
        var self := Peek(block, Slot(bay, row, 1));
        if IsForty(self) {
          return true;
        }
        row := row + 1;
      }
      return false;
    }

    /** The local function CanPlaceForty of Allocate; `tier` is -1 when it fails. */
    method CanPlaceForty(block: Block, bay: int, row: int) returns (ok: bool, tier: int)
      ensures ok <==> FortyFits(ground, block, bay, row)
      ensures tier == if ok then Height(ground, block, bay - 1, row) + 1 else -1
    {
      tier := -1;
      if bay % 2 != 0 {
        return false, tier;
      }
      if bay <= 1 || bay >= block.numBays * 2 - 1 {
        return false, tier;
      }
      var leftBay := bay - 1;
      var rightBay := bay + 1;
      var h1 := GetHeight(block, Slot(leftBay, row, 1));
      var h2 := GetHeight(block, Slot(rightBay, row, 1));
      var top1 := Peek(block, Slot(leftBay, row, 1));
      var top2 := Peek(block, Slot(rightBay, row, 1));
      if IsTwenty(top1) || IsTwenty(top2) {
        return false, tier;
      }
      var r := 1;
      while r <= block.numRows
        invariant 1 <= r
        invariant forall q :: 1 <= q < r && q <= block.numRows ==>
          !IsTwenty(Top(ground, block, leftBay, q)) && !IsTwenty(Top(ground, block, rightBay, q))
      {
        if IsTwenty(Peek(block, Slot(leftBay, r, 1))) {
          return false, tier;
        }
        if IsTwenty(Peek(block, Slot(rightBay, r, 1))) {
          return false, tier;
        }
        r := r + 1;
      }
      var topsCrossSameForty := IsForty(top1) && top1 == top2;
      var topsWithoutForty := !IsForty(top1) && !IsForty(top2);
      if !(h1 == h2 && (topsCrossSameForty || topsWithoutForty)) {
        return false, tier;
      }
      if h1 >= block.maxNumTiers {
        return false, tier;
      }
      tier := h1 + 1;
      return true, tier;
    }

    /** The test one phase of Allocate makes at (bay, row), with the tier it would use. */
    method CheckCandidate(block: Block, c: Container, phase: Phase, bay: int, row: int)
      returns (ok: bool, tier: int)
      requires Scanned(block, c.size, bay, row)
      ensures ok <==> Candidate(ground, block, c, phase, bay, row)
      ensures ok ==> tier == AnchorHeight(ground, block, c.size, bay, row) + 1
    {
      if c.size == FortyFeet {
        match phase
        case SameGroup =>
          ok, tier := CanPlaceForty(block, bay, row);
          if ok {
            var topJob := Peek(block, Slot(bay - 1, row, 1));
            ok := topJob.Some? && topJob.value.group.index == c.group.index;
          }
        case EmptySlot =>
          if GetHeight(block, Slot(bay - 1, row, 1)) != 0 || GetHeight(block, Slot(bay + 1, row, 1)) != 0 {
            return false, -1;
          }
          ok, tier := CanPlaceForty(block, bay, row);
        case Highest =>
          ok, tier := CanPlaceForty(block, bay, row);
      } else {
        var baseSlot := Slot(bay, row, 1);
        match phase
        case SameGroup =>
          var height := GetHeight(block, baseSlot);
          if height <= 0 {
            return false, -1;
          }
          var topJob := Peek(block, baseSlot);
          var blocked := IsBayBlockedFor20(block, bay);
          ok := topJob.Some? && topJob.value.group.index == c.group.index && !blocked
                && height < block.maxNumTiers;
          tier := height + 1;
        case EmptySlot =>
          var blocked := IsBayBlockedFor20(block, bay);
          ok := !blocked && GetHeight(block, baseSlot) == 0;
          tier := 1;
        case Highest =>
          var blocked := IsBayBlockedFor20(block, bay);
          var height := GetHeight(block, baseSlot);
          ok := !blocked && height < block.maxNumTiers;
          tier := height + 1;
      }
    }

    /** Phases 1 and 2 of Allocate: the first candidate of `phase` in (bay, row) order. */
    method FirstCandidate(block: Block, c: Container, phase: Phase) returns (found: Option<Slot>)
      requires phase != Highest
      ensures found.None? <==> !HasCandidate(ground, block, c, phase)
      ensures found.Some? ==>
        && IsFirst(ground, block, c, phase, found.value.bay, found.value.row)
        && found.value.tier == AnchorHeight(ground, block, c.size, found.value.bay, found.value.row) + 1
    {
      var first := if c.size == FortyFeet then 2 else 1;
      var last := if c.size == FortyFeet then LastBay(block) - 1 else LastBay(block);
      var bay := first;
      while bay <= last
        invariant bay % 2 == first % 2 && bay >= first
        invariant forall b, w :: Candidate(ground, block, c, phase, b, w) ==> b >= bay
      {
        var row := 1;
        while row <= block.numRows
          invariant 1 <= row
          invariant forall b, w :: Candidate(ground, block, c, phase, b, w) ==> b > bay || (b == bay && w >= row)
        {
          var ok, tier := CheckCandidate(block, c, phase, bay, row);
          if ok {
            return Some(Slot(bay, row, tier));
          }
          row := row + 1;
        }
        bay := bay + 2;
      }
      return None;
    }

    /** One visit of phase 3: (bay, row) becomes the leader when it is a strictly taller candidate. */
    method HighestAt(block: Block, c: Container, bay: int, row: int, bay0: int, row0: int, height0: int)
      returns (bestBay: int, bestRow: int, bestHeight: int)
      requires Scanned(block, c.size, bay, row)
      requires LeadsScan(ground, block, c, bay0, row0, height0, bay, row)
      ensures LeadsScan(ground, block, c, bestBay, bestRow, bestHeight, bay, row + 1)
    {
      var ok, tier := CheckCandidate(block, c, Highest, bay, row);
      LeadsStep(ground, block, c, bay0, row0, height0, bay, row, ok, tier);
      if ok && tier - 1 > height0 {
        return bay, row, tier - 1;
      }
      return bay0, row0, height0;
    }

    /** The row loop of phase 3 over one bay: the leader after visiting every row of `bay`. */
    method HighestInBay(block: Block, c: Container, bay: int, bay0: int, row0: int, height0: int)
      returns (bestBay: int, bestRow: int, bestHeight: int, row: int)
      requires Scanned(block, c.size, bay, 1) || block.numRows < 1
      requires LeadsScan(ground, block, c, bay0, row0, height0, bay, 1)
      ensures row > block.numRows
      ensures LeadsScan(ground, block, c, bestBay, bestRow, bestHeight, bay, row)
    {
      bestBay, bestRow, bestHeight := bay0, row0, height0;
      row := 1;
      while row <= block.numRows
        invariant 1 <= row
        invariant LeadsScan(ground, block, c, bestBay, bestRow, bestHeight, bay, row)
      {
        bestBay, bestRow, bestHeight := HighestAt(block, c, bay, row, bestBay, bestRow, bestHeight);
        row := row + 1;
      }
    }

    /** Phase 3 of Allocate: the first of the tallest legal positions. */
    method HighestCandidate(block: Block, c: Container) returns (found: Option<Slot>)
      ensures found.None? <==> !HasCandidate(ground, block, c, Highest)
      ensures found.Some? ==>
        && IsFirstHighest(ground, block, c, found.value.bay, found.value.row)
        && found.value.tier == AnchorHeight(ground, block, c.size, found.value.bay, found.value.row) + 1
    {
      var bestBay, bestRow, bestHeight := -1, -1, -1;
      var first := if c.size == FortyFeet then 2 else 1;
      var last := if c.size == FortyFeet then LastBay(block) - 1 else LastBay(block);
      var bay := first;
      while bay <= last
        invariant bay % 2 == first % 2 && bay >= first
        invariant LeadsScan(ground, block, c, bestBay, bestRow, bestHeight, bay, 1)
      {
        var row;
        bestBay, bestRow, bestHeight, row := HighestInBay(block, c, bay, bestBay, bestRow, bestHeight);
        LeadsNextBay(ground, block, c, bestBay, bestRow, bestHeight, bay, row);
        bay := bay + 2;
      }
      LeadsEnd(ground, block, c, bestBay, bestRow, bestHeight, bay);
      if bestBay > 0 {
        return Some(Slot(bestBay, bestRow, bestHeight + 1));
      }
      return None;
    }

    /**
     * Finds a slot for c in its block: the first same-group top, else the first
     * empty slot, else the first of the tallest non-full slots, else None.
     * The map is not changed.
     */
    method Allocate(c: Container) returns (r: Option<Slot>)
      requires c.block != null
      ensures r.Some? ==>
        r.value.tier == AnchorHeight(ground, c.block, c.size, r.value.bay, r.value.row) + 1
      ensures r.Some? ==> exists phase :: Candidate(ground, c.block, c, phase, r.value.bay, r.value.row)
      ensures HasCandidate(ground, c.block, c, SameGroup) ==>
        r.Some? && IsFirst(ground, c.block, c, SameGroup, r.value.bay, r.value.row)
      ensures !HasCandidate(ground, c.block, c, SameGroup) && HasCandidate(ground, c.block, c, EmptySlot) ==>
        r.Some? && IsFirst(ground, c.block, c, EmptySlot, r.value.bay, r.value.row)
      ensures !HasCandidate(ground, c.block, c, SameGroup) && !HasCandidate(ground, c.block, c, EmptySlot) ==>
        (r.None? <==> !HasCandidate(ground, c.block, c, Highest))
      ensures !HasCandidate(ground, c.block, c, SameGroup) && !HasCandidate(ground, c.block, c, EmptySlot) ==>
        r.Some? ==> IsFirstHighest(ground, c.block, c, r.value.bay, r.value.row)
    {
      var block := c.block;
      r := FirstCandidate(block, c, SameGroup);
      if r.Some? {
        return;
      }
      r := FirstCandidate(block, c, EmptySlot);
      if r.Some? {
        return;
      }
      r := HighestCandidate(block, c);
    }

    /** Commits a stacking or an unstacking at c's slot; a no-op while the slot is unset. */
    method Update(c: Container, op: JobType)
      requires !Unset(c.slot) ==> c.block != null
      modifies this
      ensures Unset(c.slot) ==> ground == old(ground)
      ensures !Unset(c.slot) && op == Stacking ==> ground == StackOn(old(ground), c.block.index, c.slot.value, c)
      ensures !Unset(c.slot) && op == Unstacking ==> ground == UnstackOn(old(ground), c.block.index, c.slot.value).0
    {
      if c.slot.None? || c.slot.value.bay == 0 || c.slot.value.row == 0 || c.slot.value.tier == 0 {
        return;
      }
      if op == Stacking {
        Stack(c.block, c.slot.value, c);
      } else {
        var _ := Unstack(c.block, c.slot.value);
      }
    }

    /** Pushes c onto its column, or onto both columns of a 40 ft position. */
    method Stack(block: Block, slot: Slot, c: Container)
      modifies this
      ensures ground == StackOn(old(ground), block.index, slot, c)
    {
      if c.size == FortyFeet {
        var left := KeyOf(block.index, slot.bay - 1, slot.row);
        var right := KeyOf(block.index, slot.bay + 1, slot.row);
        ground := ground[left := Column(ground, left) + [c]];
        ground := ground[right := Column(ground, right) + [c]];
      } else {
        var k := KeyOf(block.index, slot.bay, slot.row);
        ground := ground[k := Column(ground, k) + [c]];
      }
    }

    /** Pops the top of the addressed column and, for a 40 ft top, the top of the column at bay + 2. */
    method Unstack(block: Block, slot: Slot) returns (top: Option<Container>)
      modifies this
      ensures (ground, top) == UnstackOn(old(ground), block.index, slot)
    {
      var k := KeyOf(block.index, slot.bay, slot.row);
      ground := Touch(ground, k);
      var gs := ground[k];
      if |gs| == 0 {
        return None;
      }
      var t := gs[|gs| - 1];
      ground := ground[k := gs[..|gs| - 1]];
      if t.size == FortyFeet {
        var kp := KeyOf(block.index, slot.bay + 2, slot.row);
        ground := Touch(ground, kp);
        var pair := ground[kp];
        if |pair| > 0 {
          ground := ground[kp := pair[..|pair| - 1]];
        }
      }
      return Some(t);
    }

    /**
     * The container of group g to retrieve next from block bu: over every ground
     * slot of the block, the topmost container of g, ranked by depth from the top
     * (shallower first), then stack height, column and row (larger first).
     */
    method GetBestJobByPswc(bu: Block, g: Group) returns (best: Option<Container>)
      ensures best.None? <==> forall k :: k in ground ==> !IsJob(ground, bu.index, g, k)
      ensures best.Some? ==> Matches(best.value, g)
      ensures best.Some? ==>
        exists k :: Unbeaten(ground, bu.index, g, k) && best.value == JobAt(ground, bu.index, g, k)
    {
      best := None;
      var bestRank := Rank(0, 0, 0, 0);
      ghost var bestKey := GroundKey(0, 0, 0);
      var keys := ground.Keys;
      while keys != {}
        invariant keys <= ground.Keys
        invariant best.None? ==> forall k :: k in ground && k !in keys ==> !IsJob(ground, bu.index, g, k)
        invariant best.Some? ==>
          && IsJob(ground, bu.index, g, bestKey)
          && best.value == JobAt(ground, bu.index, g, bestKey)
          && bestRank == RankOf(ground, bu.index, g, bestKey)
        invariant best.Some? ==>
          forall k :: k in ground && k !in keys && IsJob(ground, bu.index, g, k) ==>
            !Outranks(RankOf(ground, bu.index, g, k), bestRank)
        decreases keys
      {
        ghost var some := SomeMember(keys);
        var key :| key in keys;
        keys := keys - {key};
        if key.blockId != bu.index {
          continue;
        }
        var stack := ground[key];
        if |stack| == 0 {
          continue;
        }
        // from the top down, stop at the first container of the group
        var idx := |stack| - 1;
        while idx >= 0
          invariant -1 <= idx < |stack|
          invariant forall j :: idx < j < |stack| ==> !Matches(stack[j], g)
          invariant best.None? ==> forall k :: k in ground && k !in keys && k != key ==> !IsJob(ground, bu.index, g, k)
        {
          var container := stack[idx];
          if !Matches(container, g) {
            idx := idx - 1;
            continue;
          }
          var rank := Rank(|stack| - 1 - idx, |stack|, key.dim1, key.dim2);
          var better := best.None? || Outranks(rank, bestRank);
          if better {
            best := Some(container);
            bestRank := rank;
            bestKey := key;
          }
          break;
        }
      }
    }
  }

  // ---------------------------------------------------------------------------
  // Facts about the operations
  // ---------------------------------------------------------------------------

  /** A candidate of any phase is a legal, non-full position once a stack may hold at least one container. */
  lemma CandidateFits(m: Store, blk: Block, c: Container, phase: Phase, bay: int, row: int)
    requires Candidate(m, blk, c, phase, bay, row)
    requires blk.maxNumTiers >= 1
    ensures Fits(m, blk, c.size, bay, row)
  {
    if phase == EmptySlot && c.size == TwentyFeet {
      assert Height(m, blk, bay, row) == 0;
    }
  }

  /** Stacking a 20 ft container at odd bay b appends it to column (b+1)/2 of its row and nowhere else. */
  lemma StackTwentyEffect(m: Store, blockId: int, s: Slot, c: Container)
    requires c.size == TwentyFeet && s.bay % 2 == 1
    ensures forall k :: (Column(StackOn(m, blockId, s, c), k) ==
      if k == GroundKey(blockId, (s.bay + 1) / 2, s.row) then Column(m, k) + [c] else Column(m, k))
  {
    assert KeyOf(blockId, s.bay, s.row) == GroundKey(blockId, (s.bay + 1) / 2, s.row);
  }

  /** Stacking a 40 ft container at even bay b appends the same object to columns b/2 and b/2+1 of its row and nowhere else. */
  lemma StackFortyEffect(m: Store, blockId: int, s: Slot, c: Container)
    requires c.size == FortyFeet && s.bay % 2 == 0
    ensures forall k :: (Column(StackOn(m, blockId, s, c), k) ==
      if k == GroundKey(blockId, s.bay / 2, s.row) || k == GroundKey(blockId, s.bay / 2 + 1, s.row)
      then Column(m, k) + [c] else Column(m, k))
  {
    var left := KeyOf(blockId, s.bay - 1, s.row);
    var right := KeyOf(blockId, s.bay + 1, s.row);
    assert left == GroundKey(blockId, s.bay / 2, s.row);
    assert right == GroundKey(blockId, s.bay / 2 + 1, s.row);
    assert left != right;
  }

  /** GetGroundSlot's insertion of an empty entry changes no column. */
  lemma TouchKeepsColumns(m: Store, k: GroundKey)
    ensures forall k' :: Column(Touch(m, k), k') == Column(m, k')
  {
    forall k' ensures Column(Touch(m, k), k') == Column(m, k') {
      if k' == k && k !in m {
        assert Touch(m, k)[k] == [];
      }
    }
  }

  /**
   * Unstacking at slot s: on an empty column nothing changes and nothing is
   * returned; otherwise the top of the addressed column is removed and
   * returned, and when it is a 40 ft container the top of the column at bay+2
   * is removed too, if there is one.
   */
  lemma UnstackEffect(m: Store, blockId: int, s: Slot)
    ensures var k := KeyOf(blockId, s.bay, s.row);
      var col := Column(m, k);
      var after := UnstackOn(m, blockId, s).0;
      var top := UnstackOn(m, blockId, s).1;
      && (col == [] ==> top.None? && forall k' :: Column(after, k') == Column(m, k'))
      && (col != [] ==> top == Some(col[|col| - 1]) && Column(after, k) == col[..|col| - 1])
      && (col != [] && col[|col| - 1].size == TwentyFeet ==>
            forall k' :: k' != k ==> Column(after, k') == Column(m, k'))
      && (col != [] && col[|col| - 1].size == FortyFeet ==>
            var kp := KeyOf(blockId, s.bay + 2, s.row);
            var pair := Column(m, kp);
            && kp != k
            && Column(after, kp) == (if pair == [] then [] else pair[..|pair| - 1])
            && forall k' :: k' != k && k' != kp ==> Column(after, k') == Column(m, k'))
  {
    var k := KeyOf(blockId, s.bay, s.row);
    var col := Column(m, k);
    if col == [] {
      TouchKeepsColumns(m, k);
    } else if col[|col| - 1].size == FortyFeet {
      var kp := KeyOf(blockId, s.bay + 2, s.row);
      var m1 := m[k := col[..|col| - 1]];
      assert kp.dim1 == k.dim1 + 1;
      TouchKeepsColumns(m1, kp);
    }
  }

  /**
   * Stacking and then unstacking at the same slot returns the container and
   * restores every column, for a 20 ft container at any bay and for a 40 ft
   * container at an even bay.
   */
  lemma StackUnstackRoundTrip(m: Store, blockId: int, s: Slot, c: Container)
    requires c.size == TwentyFeet || s.bay % 2 == 0
    ensures UnstackOn(StackOn(m, blockId, s, c), blockId, s).1 == Some(c)
    ensures forall k :: Column(UnstackOn(StackOn(m, blockId, s, c), blockId, s).0, k) == Column(m, k)
  {
    if c.size == FortyFeet {
      RoundTripForty(m, blockId, s, c);
    } else {
      RoundTripTwenty(m, blockId, s, c);
    }
  }

  /** The 20 ft case of StackUnstackRoundTrip: one column gains c and loses it again. */
  lemma RoundTripTwenty(m: Store, blockId: int, s: Slot, c: Container)
    requires c.size == TwentyFeet
    ensures UnstackOn(StackOn(m, blockId, s, c), blockId, s).1 == Some(c)
    ensures forall k :: Column(UnstackOn(StackOn(m, blockId, s, c), blockId, s).0, k) == Column(m, k)
  {
    var k := KeyOf(blockId, s.bay, s.row);
    var col := Column(m, k);
    var m1 := Push(m, k, c);
    assert StackOn(m, blockId, s, c) == m1;
    var col1 := Column(m1, k);
    assert col1 == col + [c];
    assert col1[..|col1| - 1] == col;
    var after := m1[k := col];
    assert UnstackOn(m1, blockId, s) == (after, Some(c));
    forall k' ensures Column(after, k') == Column(m, k') {
      if k' != k {
        assert Column(after, k') == Column(m1, k');
      }
    }
  }

  /** The 40 ft case of StackUnstackRoundTrip: the two columns of the even bay gain c and lose it again. */
  lemma RoundTripForty(m: Store, blockId: int, s: Slot, c: Container)
    requires c.size == FortyFeet && s.bay % 2 == 0
    ensures UnstackOn(StackOn(m, blockId, s, c), blockId, s).1 == Some(c)
    ensures forall k :: Column(UnstackOn(StackOn(m, blockId, s, c), blockId, s).0, k) == Column(m, k)
  {
    var k := GroundKey(blockId, s.bay / 2, s.row);
    var kp := GroundKey(blockId, s.bay / 2 + 1, s.row);
    assert KeyOf(blockId, s.bay - 1, s.row) == k && KeyOf(blockId, s.bay, s.row) == k;
    assert KeyOf(blockId, s.bay + 1, s.row) == kp && KeyOf(blockId, s.bay + 2, s.row) == kp;
    var col := Column(m, k);
    var pair := Column(m, kp);
    var m0 := m[k := col + [c]];
    var m1 := StackOn(m, blockId, s, c);
    assert m1 == m0[kp := pair + [c]];
    assert Column(m1, k) == col + [c] && Column(m1, kp) == pair + [c];
    assert (col + [c])[..|col|] == col && (pair + [c])[..|pair|] == pair;
    var m2 := m1[k := col];
    assert Column(m2, kp) == pair + [c];
    var after := UnstackOn(m1, blockId, s).0;
    assert after == m2[kp := pair];
    forall k' ensures Column(after, k') == Column(m, k') {
      if k' != k && k' != kp {
        assert Column(after, k') == Column(m1, k');
      }
    }
  }

  /** Outranks is a strict order: never both ways. */
  lemma OutranksAsymmetric(a: Rank, b: Rank)
    ensures !(Outranks(a, b) && Outranks(b, a))
  {
  }

  /** Two different ground slots of one block always have comparable ranks. */
  lemma RanksOfDistinctJobsCompare(m: Store, blockId: int, g: Group, k1: GroundKey, k2: GroundKey)
    requires IsJob(m, blockId, g, k1) && IsJob(m, blockId, g, k2) && k1 != k2
    ensures Outranks(RankOf(m, blockId, g, k1), RankOf(m, blockId, g, k2))
         || Outranks(RankOf(m, blockId, g, k2), RankOf(m, blockId, g, k1))
  {
    assert k1.dim1 != k2.dim1 || k1.dim2 != k2.dim2;
  }

  /**
   * At most one ground slot is unbeaten, so the container GetBestJobByPswc
   * returns does not depend on the order in which the map's keys are visited.
   */
  lemma UnbeatenUnique(m: Store, blockId: int, g: Group, k1: GroundKey, k2: GroundKey)
    requires Unbeaten(m, blockId, g, k1) && Unbeaten(m, blockId, g, k2)
    ensures k1 == k2
  {
    if k1 != k2 {
      RanksOfDistinctJobsCompare(m, blockId, g, k1, k2);
    }
  }
}
