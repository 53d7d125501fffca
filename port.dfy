/**
 * The yard's entities: container groups, containers, and the older Block/Bay
 * occupancy model, in which a block opens bays lazily and each bay keeps one
 * bottom-to-top stack of containers per row.
 *
 * Block and Bay pick among their candidates with a random draw `rs.Next(n)`;
 * here the caller supplies `choice` and the candidate at `choice % n` is taken,
 * so every index 0 <= k < n can be chosen.
 */
module Port {
  import opened Wrappers
  import opened Slots

  datatype ContainerSize = FortyFeet | TwentyFeet

  /** A container's size comes from its group's TEUs: 2 TEUs is 40 ft, any other value 20 ft. */
  function SizeForTeus(teus: int): (size: ContainerSize)
    ensures size == FortyFeet <==> teus == 2
    ensures size == TwentyFeet <==> teus != 2
  {
    if teus == 2 then FortyFeet else TwentyFeet
  }

  /** The `ref int?` parameters bayIndex, rowIndex and tierIndex of StackContainer. */
  datatype Indices = Indices(bay: Option<int>, row: Option<int>, tier: Option<int>)

  /** The candidate a random draw over `candidates` lands on, or None when there is none. */
  function Pick(candidates: seq<int>, choice: nat): (r: Option<int>)
    ensures r.None? <==> candidates == []
    ensures r.Some? ==> r.value in candidates
  {
    if candidates == [] then None else Some(candidates[choice % |candidates|])
  }

  /** A nonempty set has a member: the witness that lets a loop pick an arbitrary key with `:|`. */
  lemma SomeMember<X>(s: set<X>) returns (x: X)
    requires s != {}
    ensures x in s
  {
    x :| x in s;
  }

  /** Division truncating toward zero, as C#'s `/` on int does. */
  function TruncDiv(a: int, b: int): (q: int)
    requires b > 0
    ensures a >= 0 ==> q * b <= a < q * b + b
    ensures a < 0 ==> q * b - b < a <= q * b
  {
    if a >= 0 then a / b else -((-a) / b)
  }

  /**
   * A static instance counter (Block.Count, Container.Count), held as an
   * explicit object. The source's setter is private: only the Block and
   * Container constructors below change `count`, and indices are increasing
   * only as long as nothing else assigns it.
   */
  class Counter {
    var count: int

    constructor ()
      ensures count == 0
    {
      count := 0;
    }
  }

  /**
   * An arrival batch. Index, TEUs and Size have setters in the source but are
   * assigned only when the group is created, so they are constants here.
   */
  class Group {
    const index: int
    const teus: int
    const size: int
    var containers: seq<Container>

    constructor (index: int, teus: int, size: int)
      ensures this.index == index && this.teus == teus && this.size == size
      ensures containers == []
    {
      this.index := index;
      this.teus := teus;
      this.size := size;
      containers := [];
    }
  }

  /**
   * A container. Its index is drawn from the shared counter, its size from its
   * group; its block and slot are set later by the driver.
   */
  class Container {
    const index: int
    const size: ContainerSize
    const group: Group
    var block: Block?
    var slot: Option<Slot>

    constructor (counter: Counter, group: Group)
      modifies counter
      ensures counter.count == old(counter.count) + 1 && index == counter.count
      ensures index > old(counter.count)
      ensures this.group == group && size == SizeForTeus(group.teus)
      ensures block == null && slot == None
    {
      counter.count := counter.count + 1;
      index := counter.count;
      this.group := group;
      size := SizeForTeus(group.teus);
      block := null;
      slot := None;
    }
  }

  /** Number of containers in rows lo..hi of a bay's stacks. */
  function RowsTotal(stacks: map<int, seq<Container>>, lo: int, hi: int): nat
    requires forall r :: lo <= r <= hi ==> r in stacks
    decreases hi - lo
  {
    if lo > hi then 0 else RowsTotal(stacks, lo, hi - 1) + |stacks[hi]|
  }

  /** Pushing one container onto one of the rows lo..hi adds one to their total. */
  lemma {:induction false} RowsTotalPush(stacks: map<int, seq<Container>>, lo: int, hi: int, row: int, c: Container)
    requires forall r :: lo <= r <= hi ==> r in stacks
    requires lo <= row <= hi
    ensures RowsTotal(stacks[row := stacks[row] + [c]], lo, hi) == RowsTotal(stacks, lo, hi) + 1
    decreases hi - lo
  {
    var pushed := stacks[row := stacks[row] + [c]];
    if hi == row {
      RowsTotalSame(stacks, pushed, lo, hi - 1);
    } else {
      RowsTotalPush(stacks, lo, hi - 1, row, c);
    }
  }

  /** Rows that hold the same stacks have the same total. */
  lemma {:induction false} RowsTotalSame(s1: map<int, seq<Container>>, s2: map<int, seq<Container>>, lo: int, hi: int)
    requires forall r :: lo <= r <= hi ==> r in s1 && r in s2 && |s1[r]| == |s2[r]|
    ensures RowsTotal(s1, lo, hi) == RowsTotal(s2, lo, hi)
    decreases hi - lo
  {
    if lo <= hi {
      RowsTotalSame(s1, s2, lo, hi - 1);
    }
  }

  /** The lowest stack among rows lo..hi (`Stacks.Values.Min(v => v.Count)`). */
  function MinRows(stacks: map<int, seq<Container>>, lo: int, hi: int): (m: nat)
    requires lo <= hi && forall r :: lo <= r <= hi ==> r in stacks
    ensures exists r :: lo <= r <= hi && |stacks[r]| == m
    ensures forall r :: lo <= r <= hi ==> m <= |stacks[r]|
    decreases hi - lo
  {
    if lo == hi then |stacks[hi]|
    else
      var rest := MinRows(stacks, lo, hi - 1);
      if |stacks[hi]| < rest then |stacks[hi]| else rest
  }

  /** One bay of a block: a fixed container size and one stack per row 1..NumRows. */
  class Bay {
    const size: ContainerSize
    const block: Block
    var stacks: map<int, seq<Container>>

    ghost predicate Valid()
      reads this
    {
      forall r :: r in stacks <==> 1 <= r <= block.numRows
    }

    constructor (block: Block, size: ContainerSize)
      ensures this.block == block && this.size == size
      ensures Valid()
      ensures forall r :: r in stacks ==> stacks[r] == []
    {
      var rows: map<int, seq<Container>> := map[];
      var r := 1;
      while r <= block.numRows
        invariant 1 <= r && (r <= block.numRows + 1 || r == 1)
        invariant forall q :: q in rows <==> 1 <= q < r
        invariant forall q :: q in rows ==> rows[q] == []
      {
        rows := rows[r := []];
        r := r + 1;
      }
      this.block := block;
      this.size := size;
      stacks := rows;
    }

    function NumContainers(): (n: nat)
      reads this
      requires Valid()
      ensures forall r :: r in stacks ==> |stacks[r]| <= n
    {
      RowsTotalBound(stacks, 1, block.numRows);
      RowsTotal(stacks, 1, block.numRows)
    }

    /** TEUs held: a 40 ft container counts twice. */
    function NumTEUs(): (n: nat)
      reads this
      requires Valid()
      ensures size == FortyFeet ==> n == 2 * NumContainers()
      ensures size == TwentyFeet ==> n == NumContainers()
    {
      NumContainers() * (if size == FortyFeet then 2 else 1)
    }

    /** Every row has reached the tier cap. */
    predicate AllRowsFull()
      reads this
    {
      forall r :: r in stacks ==> |stacks[r]| >= block.maxNumTiers
    }

    /** The IsFull property: a scan of the rows that stops at the first one below the cap. */
    method IsFull() returns (full: bool)
      ensures full <==> AllRowsFull()
    {
      var rest := stacks.Keys;
      while rest != {}
        invariant rest <= stacks.Keys
        invariant forall r :: r in stacks && r !in rest ==> |stacks[r]| >= block.maxNumTiers
        decreases rest
      {
        ghost var some := SomeMember(rest);
        var r :| r in rest;
        if |stacks[r]| < block.maxNumTiers {
          return false;
        }
        rest := rest - {r};
      }
      return true;
    }

    /** The row checks of GetRowIndexToStack, in the order the source applies them. */
    predicate RowSelectable(i: int)
      reads this
      requires Valid() && 1 <= i <= block.numRows
    {
      var n := block.numRows;
      var h := |stacks[i]|;
      // below the tier cap
      && h < block.maxNumTiers
      // at most three tiers above the lowest row
      && h < MinRows(stacks, 1, n) + 4
      // no steep slope on either side
      && !(i < n && h > |stacks[i + 1]|)
      && !(i > 1 && h > |stacks[i - 1]|)
      // no hidden hole on either side
      && !(i < n - 1 && h == |stacks[i + 1]| && exists j :: i + 2 <= j <= n && |stacks[j]| > h)
      && !(i > 2 && h == |stacks[i - 1]| && exists j :: 1 <= j <= i - 2 && |stacks[j]| > h)
    }

    /** The rows 1..upTo that pass RowSelectable, ascending: the list the source builds. */
    function SelectableRows(upTo: int): (rows: seq<int>)
      reads this
      requires Valid() && (upTo < 1 || upTo <= block.numRows)
      ensures forall i :: i in rows <==> 1 <= i <= upTo && RowSelectable(i)
      ensures forall a, b :: 0 <= a < b < |rows| ==> rows[a] < rows[b]
      decreases upTo
    {
      if upTo < 1 then []
      else
        var below := SelectableRows(upTo - 1);
        assert forall a :: 0 <= a < |below| ==> below[a] < upTo by {
          forall a | 0 <= a < |below| ensures below[a] < upTo {
            assert below[a] in below;
          }
        }
        below + (if RowSelectable(upTo) then [upTo] else [])
    }

    /** Chooses the row to stack into, or None when no row passes the checks. */
    method GetRowIndexToStack(choice: nat) returns (row: Option<int>)
      requires Valid()
      ensures row == Pick(SelectableRows(block.numRows), choice)
      ensures row.None? <==> forall i :: 1 <= i <= block.numRows ==> !RowSelectable(i)
      ensures row.Some? ==> 1 <= row.value <= block.numRows && RowSelectable(row.value)
    {
      var indices: seq<int> := [];
      var i := 1;
      while i <= block.numRows
        invariant 1 <= i && (i - 1 < 1 || i - 1 <= block.numRows)
        invariant indices == SelectableRows(i - 1)
      {
        if RowSelectable(i) {
          indices := indices + [i];
        }
        i := i + 1;
      }
      if indices == [] {
        return None;
      }
      return Some(indices[choice % |indices|]);
    }

    /** Stacks `c` onto `row` unless the sizes differ or the row is at the tier cap. */
    method StackContainerAt(c: Container, row: int, idx: Indices) returns (ok: bool, idx': Indices)
      requires Valid() && 1 <= row <= block.numRows
      modifies this
      ensures Valid()
      ensures ok <==> c.size == size && |old(stacks[row])| < block.maxNumTiers
      ensures stacks == if ok then old(stacks)[row := old(stacks[row]) + [c]] else old(stacks)
      ensures idx' == if ok then idx.(tier := Some(|stacks[row]|)) else idx
      ensures ok ==> |stacks[row]| <= block.maxNumTiers
      ensures ok ==> NumContainers() == old(NumContainers()) + 1
    {
      if c.size != size || |stacks[row]| >= block.maxNumTiers {
        return false, idx;
      }
      RowsTotalPush(stacks, 1, block.numRows, row, c);
      stacks := stacks[row := stacks[row] + [c]];
      return true, idx.(tier := Some(|stacks[row]|));
    }

    /** Picks a row with GetRowIndexToStack and stacks `c` there. */
    method StackContainer(c: Container, choice: nat, idx: Indices) returns (ok: bool, idx': Indices)
      requires Valid()
      modifies this
      ensures Valid()
      ensures idx'.bay == idx.bay
      ensures idx'.row == old(Pick(SelectableRows(block.numRows), choice))
      ensures idx'.row.None? ==> !ok && stacks == old(stacks) && idx'.tier == idx.tier
      ensures idx'.row.Some? ==>
        var r := idx'.row.value;
        && 1 <= r <= block.numRows && old(RowSelectable(r))
        && (ok <==> c.size == size)
        && stacks == (if ok then old(stacks)[r := old(stacks[r]) + [c]] else old(stacks))
        && idx'.tier == (if ok then Some(|stacks[r]|) else idx.tier)
    {
      var row := GetRowIndexToStack(choice);
      if row.None? {
        return false, idx.(row := None);
      }
      ok, idx' := StackContainerAt(c, row.value, idx.(row := row));
    }

    /**
     * What a selectable row looks like: below the tier cap, fewer than four
     * tiers above every row, no taller than either neighbour, and no taller
     * row hidden behind an equally high neighbour.
     */
    lemma SelectedRowShape(i: int)
      requires Valid() && 1 <= i <= block.numRows && RowSelectable(i)
      ensures |stacks[i]| < block.maxNumTiers
      ensures forall j :: 1 <= j <= block.numRows ==> |stacks[i]| < |stacks[j]| + 4
      ensures i < block.numRows ==> |stacks[i]| <= |stacks[i + 1]|
      ensures i > 1 ==> |stacks[i]| <= |stacks[i - 1]|
      ensures i < block.numRows - 1 && |stacks[i]| == |stacks[i + 1]| ==>
        forall j :: i + 2 <= j <= block.numRows ==> |stacks[j]| <= |stacks[i]|
      ensures i > 2 && |stacks[i]| == |stacks[i - 1]| ==>
        forall j :: 1 <= j <= i - 2 ==> |stacks[j]| <= |stacks[i]|
    {
      var low := MinRows(stacks, 1, block.numRows);
      assert forall j :: 1 <= j <= block.numRows ==> low <= |stacks[j]|;
    }

    /** In a bay with no container, rows 1..upTo are all selectable when the tier cap is positive, and none is otherwise. */
    lemma {:induction false} EmptyBaySelectable(upTo: int)
      requires Valid() && (upTo < 1 || upTo <= block.numRows)
      requires forall r :: r in stacks ==> stacks[r] == []
      ensures SelectableRows(upTo) == if upTo >= 1 && block.maxNumTiers > 0 then seq(upTo, k => k + 1) else []
      decreases upTo
    {
      if upTo >= 1 {
        EmptyBaySelectable(upTo - 1);
        assert forall j :: 1 <= j <= block.numRows ==> |stacks[j]| == 0;
        assert MinRows(stacks, 1, block.numRows) == 0;
        assert RowSelectable(upTo) <==> block.maxNumTiers > 0;
        if block.maxNumTiers > 0 {
          assert seq(upTo, k => k + 1) == seq(upTo - 1, k => k + 1) + [upTo];
        }
      }
    }
  }

  /** A row total bounds each of its rows. */
  lemma {:induction false} RowsTotalBound(stacks: map<int, seq<Container>>, lo: int, hi: int)
    requires forall r :: lo <= r <= hi ==> r in stacks
    ensures forall r :: lo <= r <= hi ==> |stacks[r]| <= RowsTotal(stacks, lo, hi)
    decreases hi - lo
  {
    if lo <= hi {
      RowsTotalBound(stacks, lo, hi - 1);
    }
  }

  /** The members of `s` among lo, lo+2, ... below hi, ascending. */
  function Stride(s: set<int>, lo: int, hi: int): seq<int>
    decreases hi - lo
  {
    if lo >= hi then [] else (if lo in s then [lo] else []) + Stride(s, lo + 2, hi)
  }

  /** Stride lists exactly the members of `s` of lo's parity in lo..hi-1. */
  lemma {:induction false} StrideExactly(s: set<int>, lo: int, hi: int, j: int)
    ensures j in Stride(s, lo, hi) <==> lo <= j < hi && (j - lo) % 2 == 0 && j in s
    decreases hi - lo
  {
    if lo < hi {
      var rest := Stride(s, lo + 2, hi);
      assert Stride(s, lo, hi) == (if lo in s then [lo] else []) + rest;
      StrideExactly(s, lo + 2, hi, j);
    }
  }

  /** Count of bays, their containers and their TEUs. */
  datatype Tally = Tally(bays: nat, containers: nat, teus: nat)

  /** The mean number of containers per bay, 0 when there is no bay (float averages as reals). */
  function Average(t: Tally): real
  {
    if t.bays > 0 then t.containers as real / t.bays as real else 0.0
  }

  /**
   * A storage block. Its dimensions are fixed at creation; bays are created
   * lazily, at most one per index 1..2*NumBays-1 (odd: 20 ft, even: 40 ft).
   */
  class Block {
    const index: int
    const numBays: int
    const numRows: int
    const maxNumTiers: int
    var bays: map<int, Bay>

    /**
     * Bays sit at indices 1..2*NumBays-1, are distinct objects of this block,
     * no two sit side by side and no two even bays are two apart.
     */
    ghost predicate Valid()
      reads this, bays.Values
    {
      && (forall i :: i in bays ==> 1 <= i <= 2 * numBays - 1)
      && (forall i, j :: i in bays && j in bays && i != j ==> bays[i] != bays[j])
      && (forall i :: i in bays ==> bays[i].block == this && bays[i].Valid())
      && (forall i :: i in bays ==> i + 1 !in bays && (i % 2 == 0 ==> i + 2 !in bays))
    }

    constructor (counter: Counter, numBays: int, numRows: int, maxNumTiers: int)
      modifies counter
      ensures counter.count == old(counter.count) + 1 && index == counter.count
      ensures this.numBays == numBays && this.numRows == numRows && this.maxNumTiers == maxNumTiers
      ensures bays == map[] && Valid()
    {
      counter.count := counter.count + 1;
      index := counter.count;
      this.numBays := numBays;
      this.numRows := numRows;
      this.maxNumTiers := maxNumTiers;
      bays := map[];
    }

    /** (NumBays + 1) / 2 * NumRows * MaxNumTiers, with C#'s truncating division. */
    function CapacityTEUs(): (cap: int)
      ensures numBays >= -1 ==> cap == (numBays + 1) / 2 * numRows * maxNumTiers
      ensures numBays < -1 ==> cap == -((-numBays - 1) / 2) * numRows * maxNumTiers
    {
      TruncDiv(numBays + 1, 2) * numRows * maxNumTiers
    }

    /** Bays (of `size`, or of any size) at indices lo..2*NumBays-1 and what they hold. */
    function BaysFrom(lo: int, size: Option<ContainerSize>): (t: Tally)
      reads this, bays.Values
      requires Valid()
      decreases 2 * numBays - lo
    {
      if lo > 2 * numBays - 1 then Tally(0, 0, 0)
      else
        var rest := BaysFrom(lo + 1, size);
        if lo in bays && (size.None? || bays[lo].size == size.value) then
          Tally(rest.bays + 1, rest.containers + bays[lo].NumContainers(), rest.teus + bays[lo].NumTEUs())
        else rest
    }

    function NumContainers(): (n: nat)
      reads this, bays.Values
      requires Valid()
      ensures forall i :: i in bays ==> bays[i].NumContainers() <= n
    {
      assert forall i :: i in bays ==> bays[i].NumContainers() <= BaysFrom(1, None).containers by {
        forall i | i in bays ensures bays[i].NumContainers() <= BaysFrom(1, None).containers {
          BaysFromBound(1, None, i);
        }
      }
      BaysFrom(1, None).containers
    }

    function NumTEUs(): (n: nat)
      reads this, bays.Values
      requires Valid()
      ensures forall i :: i in bays ==> bays[i].NumTEUs() <= n
    {
      assert forall i :: i in bays ==> bays[i].NumTEUs() <= BaysFrom(1, None).teus by {
        forall i | i in bays ensures bays[i].NumTEUs() <= BaysFrom(1, None).teus {
          BaysFromBound(1, None, i);
        }
      }
      BaysFrom(1, None).teus
    }

    /** Each bay counted by BaysFrom is bounded by its totals, and makes its bay count positive. */
    lemma {:induction false} BaysFromBound(lo: int, size: Option<ContainerSize>, i: int)
      requires Valid() && i in bays && lo <= i && (size.None? || bays[i].size == size.value)
      ensures BaysFrom(lo, size).bays > 0
      ensures bays[i].NumContainers() <= BaysFrom(lo, size).containers
      ensures bays[i].NumTEUs() <= BaysFrom(lo, size).teus
      decreases 2 * numBays - lo
    {
      if lo < i {
        BaysFromBound(lo + 1, size, i);
      }
    }

    /** `lessTwentyBays`: 20 ft bays are on average at least as full as 40 ft bays. */
    predicate LessTwentyBays()
      reads this, bays.Values
      requires Valid()
    {
      Average(BaysFrom(1, Some(TwentyFeet))) >= Average(BaysFrom(1, Some(FortyFeet)))
    }

    /** Whether a 20 ft bay may be opened at the free odd index i. */
    predicate MayOpenTwenty(i: int)
      reads this, bays.Values
      requires Valid()
    {
      && (|| BaysFrom(1, Some(TwentyFeet)).bays == 0
          // at most one twenty-feet gap
          || ((i == 1 || i - 2 in bays || i - 3 in bays) &&
              (i + 2 in bays || i + 3 in bays || i == numBays * 2 - 1))
          || LessTwentyBays())
      // no bay right beside it
      && i - 1 !in bays && i + 1 !in bays
      // and not a bubble: some bay two or three indices away
      && (i - 2 in bays || i - 3 in bays || i + 2 in bays || i + 3 in bays)
    }

    /** Whether a 40 ft bay may be opened at the free even index i. */
    predicate MayOpenForty(i: int)
      reads this, bays.Values
      requires Valid()
    {
      && (BaysFrom(1, Some(FortyFeet)).bays == 0 || !LessTwentyBays())
      && i - 1 !in bays && i + 1 !in bays && i - 2 !in bays && i + 2 !in bays
    }

    /** Whether index i is proposed for `size` (bays exist already). */
    predicate Proposed(size: ContainerSize, i: int)
      reads this, bays.Values
      requires Valid()
    {
      if i in bays then !bays[i].AllRowsFull()
      else if size == TwentyFeet then MayOpenTwenty(i)
      else MayOpenForty(i)
    }

    /** The indices 0..2*NumBays-1 proposed for `size`. */
    function ProposedSet(size: ContainerSize): (s: set<int>)
      reads this, bays.Values
      requires Valid()
      ensures forall i :: i in s <==> 0 <= i < 2 * numBays && Proposed(size, i)
    {
      set i | 0 <= i < 2 * numBays && Proposed(size, i)
    }

    /** Proposed indices lo, lo+2, ... below 2*NumBays, ascending. */
    function ProposedFrom(size: ContainerSize, lo: int): (r: seq<int>)
      reads this, bays.Values
      requires Valid()
    {
      Stride(ProposedSet(size), lo, 2 * numBays)
    }

    /** The candidate list GetBayIndexToStack builds for `size`. */
    function Candidates(size: ContainerSize): seq<int>
      reads this, bays.Values
      requires Valid()
    {
      if size == TwentyFeet then
        if bays == map[] then (if 1 < 2 * numBays then [1] else [])
        else ProposedFrom(TwentyFeet, 1)
      else ProposedFrom(FortyFeet, 2)
    }

    /** The checks CreateBayIfNotExist makes before creating a bay at the free index i. */
    predicate CanCreateBay(i: int)
      reads this
    {
      && 1 <= i <= numBays * 2 - 1
      && i - 1 !in bays && i + 1 !in bays
      && !(i % 2 == 0 && (i - 2 in bays || i + 2 in bays))
    }

    /** Chooses the bay index to stack a container of `size` into; changes nothing. */
    method GetBayIndexToStack(size: ContainerSize, choice: nat) returns (r: Option<int>)
      requires Valid()
      ensures r == Pick(Candidates(size), choice)
    {
      var indices: seq<int>;
      if size == TwentyFeet {
        indices := TwentyFeetIndices();
      } else {
        indices := FortyFeetIndices();
      }
      if indices == [] {
        return None;
      }
      return Some(indices[choice % |indices|]);
    }

    /** The 20 ft case of GetBayIndexToStack: odd indices 1, 3, ... below 2*NumBays. */
    method TwentyFeetIndices() returns (indices: seq<int>)
      requires Valid()
      ensures indices == Candidates(TwentyFeet)
    {
      indices := [];
      var i := 1;
      while i < numBays * 2
        invariant i >= 1 && (i - 1) % 2 == 0
        invariant bays == map[] ==> i == 1 && indices == []
        invariant bays != map[] ==> indices + ProposedFrom(TwentyFeet, i) == ProposedFrom(TwentyFeet, 1)
        decreases numBays * 2 - i
      {
        if bays == map[] {
          indices := indices + [i];
          break;
        }
        var proposed := false;
        if i in bays {
          proposed := !bays[i].AllRowsFull();
        } else {
          proposed := MayOpenTwenty(i);
        }
        assert proposed <==> i in ProposedSet(TwentyFeet);
        ghost var rest := ProposedFrom(TwentyFeet, i + 2);
        assert ProposedFrom(TwentyFeet, i) == (if proposed then [i] else []) + rest;
        if proposed {
          assert (indices + [i]) + rest == indices + ([i] + rest);
          indices := indices + [i];
        }
        i := i + 2;
      }
    }

    /** The 40 ft case of GetBayIndexToStack: even indices 2, 4, ... below 2*NumBays. */
    method FortyFeetIndices() returns (indices: seq<int>)
      requires Valid()
      ensures indices == Candidates(FortyFeet)
    {
      indices := [];
      var i := 2;
      while i < numBays * 2
        invariant i >= 2 && i % 2 == 0
        invariant indices + ProposedFrom(FortyFeet, i) == ProposedFrom(FortyFeet, 2)
        decreases numBays * 2 - i
      {
        var proposed := false;
        if i in bays {
          proposed := !bays[i].AllRowsFull();
        } else {
          proposed := MayOpenForty(i);
        }
        assert proposed <==> i in ProposedSet(FortyFeet);
        ghost var rest := ProposedFrom(FortyFeet, i + 2);
        assert ProposedFrom(FortyFeet, i) == (if proposed then [i] else []) + rest;
        if proposed {
          assert (indices + [i]) + rest == indices + ([i] + rest);
          indices := indices + [i];
        }
        i := i + 2;
      }
    }

    /** Returns the bay at `i`, creating an empty one of `size` there first when legal. */
    method CreateBayIfNotExist(i: int, size: ContainerSize) returns (r: Outcome<Bay>)
      requires Valid()
      modifies this
      ensures Valid()
      ensures r.Returned? ==> i in bays && r.value == bays[i]
      ensures i in old(bays) ==> r == Returned(old(bays)[i]) && bays == old(bays)
      ensures i !in old(bays) && !old(CanCreateBay(i)) ==> r.Thrown? && bays == old(bays)
      ensures i !in old(bays) && old(CanCreateBay(i)) ==>
        && r.Returned? && fresh(r.value) && bays == old(bays)[i := r.value]
        && r.value.size == size && forall row :: row in r.value.stacks ==> r.value.stacks[row] == []
    {
      if i !in bays {
        if i < 1 || i > numBays * 2 - 1 || i - 1 in bays || i + 1 in bays {
          return Thrown("Bay Index Infeasible.");
        }
        if i % 2 == 0 && (i - 2 in bays || i + 2 in bays) {
          return Thrown("Bay Index Infeasible.");
        }
        var bay := new Bay(this, size);
        bays := bays[i := bay];
      }
      return Returned(bays[i]);
    }

    /**
     * What stacking `c` into the bay at `i` did: the row is the random pick
     * among the bay's selectable rows (every row of a freshly created, empty
     * bay while the tier cap is positive), `c` is appended to it exactly when
     * the sizes match, and no other row or bay changes.
     */
    twostate predicate StackedInto(c: Container, rowChoice: nat, i: int, idx: Indices, r: Outcome<bool>, idx': Indices)
      reads this, bays.Values
      requires old(Valid()) && Valid()
    {
      && r.Returned?
      && i in bays
      && idx'.bay == idx.bay
      && (forall j :: j in old(bays) && j != i ==> j in bays && bays[j] == old(bays[j]) && bays[j].stacks == old(bays[j].stacks))
      && (i in old(bays) ==>
            var b := old(bays[i]);
            && bays == old(bays)
            && idx'.row == old(Pick(b.SelectableRows(numRows), rowChoice))
            && (idx'.row.None? ==> !r.value && b.stacks == old(b.stacks) && idx'.tier == idx.tier)
            && (idx'.row.Some? ==>
                  var row := idx'.row.value;
                  && 1 <= row <= numRows
                  && (r.value <==> c.size == b.size)
                  && b.stacks == (if r.value then old(b.stacks)[row := old(b.stacks[row]) + [c]] else old(b.stacks))
                  && idx'.tier == (if r.value then Some(|b.stacks[row]|) else idx.tier)))
      && (i !in old(bays) ==>
            var b := bays[i];
            && bays == old(bays)[i := b]
            && b.size == c.size
            && idx'.row == (if numRows >= 1 && maxNumTiers >= 1 then Some(1 + rowChoice % numRows) else None)
            && (r.value <==> idx'.row.Some?)
            && idx'.tier == (if r.value then Some(1) else idx.tier)
            && forall q :: q in b.stacks ==> b.stacks[q] == (if Some(q) == idx'.row then [c] else []))
    }

    /** Stacks `c` into the existing bay at `i` (Bay.StackContainer), leaving the other bays alone. */
    method StackIntoBay(c: Container, rowChoice: nat, i: int, idx: Indices) returns (ok: bool, idx': Indices)
      requires Valid() && i in bays
      modifies bays[i]
      ensures Valid()
      ensures forall j :: j in bays && j != i ==> bays[j].stacks == old(bays[j].stacks)
      ensures idx'.bay == idx.bay
      ensures idx'.row == old(Pick(bays[i].SelectableRows(numRows), rowChoice))
      ensures idx'.row.None? ==> !ok && bays[i].stacks == old(bays[i].stacks) && idx'.tier == idx.tier
      ensures idx'.row.Some? ==>
        var row := idx'.row.value;
        && 1 <= row <= numRows
        && (ok <==> c.size == bays[i].size)
        && bays[i].stacks == (if ok then old(bays[i].stacks)[row := old(bays[i].stacks[row]) + [c]] else old(bays[i].stacks))
        && idx'.tier == (if ok then Some(|bays[i].stacks[row]|) else idx.tier)
    {
      var b := bays[i];
      assert forall j :: j in bays && j != i ==> bays[j] != b;
      ok, idx' := b.StackContainer(c, rowChoice, idx);
    }

    /** Finds or creates the bay at `i` and stacks `c` into a row chosen by `rowChoice`. */
    method StackContainerAt(c: Container, rowChoice: nat, i: int, idx: Indices)
      returns (r: Outcome<bool>, idx': Indices)
      requires Valid()
      modifies this, bays.Values
      ensures Valid()
      ensures r.Thrown? <==> i !in old(bays) && !old(CanCreateBay(i))
      ensures r.Thrown? ==> bays == old(bays) && idx' == idx
      ensures r.Thrown? ==> forall j :: j in bays ==> bays[j].stacks == old(bays[j].stacks)
      ensures r.Returned? ==> i in bays && (i in old(bays) || fresh(bays[i]))
      ensures r.Returned? ==> StackedInto(c, rowChoice, i, idx, r, idx')
      ensures r.Returned? && r.value ==>
        (idx'.row.Some? && idx'.tier.Some? &&
         bays[i].size == c.size && idx'.row.value in bays[i].stacks &&
         |bays[i].stacks[idx'.row.value]| == idx'.tier.value <= maxNumTiers)
    {
      if i in bays {
        var ok;
        ok, idx' := StackIntoBay(c, rowChoice, i, idx);
        r := Returned(ok);
        return;
      }
      var bay := CreateBayIfNotExist(i, c.size);
      if bay.Thrown? {
        return Thrown(bay.message), idx;
      }
      var ok;
      ok, idx' := StackIntoNewBay(c, rowChoice, i, idx);
      r := Returned(ok);
    }

    /** Stacks `c` into the empty bay of its size just created at `i`: every row is a candidate while the tier cap is positive. */
    method StackIntoNewBay(c: Container, rowChoice: nat, i: int, idx: Indices) returns (ok: bool, idx': Indices)
      requires Valid() && i in bays && bays[i].size == c.size
      requires forall q :: q in bays[i].stacks ==> bays[i].stacks[q] == []
      modifies bays[i]
      ensures Valid()
      ensures forall j :: j in bays && j != i ==> bays[j].stacks == old(bays[j].stacks)
      ensures idx'.bay == idx.bay
      ensures idx'.row == (if numRows >= 1 && maxNumTiers >= 1 then Some(1 + rowChoice % numRows) else None)
      ensures ok <==> idx'.row.Some?
      ensures idx'.tier == (if ok then Some(1) else idx.tier)
      ensures forall q :: q in bays[i].stacks ==> bays[i].stacks[q] == (if Some(q) == idx'.row then [c] else [])
    {
      bays[i].EmptyBaySelectable(numRows);
      if numRows >= 1 && maxNumTiers > 0 {
        assert seq(numRows, k => k + 1)[rowChoice % numRows] == 1 + rowChoice % numRows;
      }
      ok, idx' := StackIntoBay(c, rowChoice, i, idx);
    }

    /** Chooses a bay with GetBayIndexToStack and stacks `c` there; this path never throws. */
    method StackContainer(c: Container, bayChoice: nat, rowChoice: nat, idx: Indices)
      returns (r: Outcome<bool>, idx': Indices)
      requires Valid()
      modifies this, bays.Values
      ensures Valid()
      ensures r.Returned?
      ensures idx'.bay == old(Pick(Candidates(c.size), bayChoice))
      ensures idx'.bay.None? ==>
        && r == Returned(false) && bays == old(bays) && idx'.row == idx.row && idx'.tier == idx.tier
        && forall j :: j in bays ==> bays[j].stacks == old(bays[j].stacks)
      ensures idx'.bay.Some? ==> idx'.bay.value in bays && (idx'.bay.value in old(bays) || fresh(bays[idx'.bay.value]))
      ensures idx'.bay.Some? ==> StackedInto(c, rowChoice, idx'.bay.value, idx.(bay := idx'.bay), r, idx')
    {
      var bay := GetBayIndexToStack(c.size, bayChoice);
      if bay.None? {
        return Returned(false), idx.(bay := None);
      }
      ProposalsCanBeCreated(c.size, bay.value);
      r, idx' := StackContainerAt(c, rowChoice, bay.value, idx.(bay := bay));
    }

    /** Every index GetBayIndexToStack can propose passes CreateBayIfNotExist's checks. */
    lemma ProposalsCanBeCreated(size: ContainerSize, i: int)
      requires Valid() && i in Candidates(size)
      ensures i in bays || CanCreateBay(i)
      ensures size == TwentyFeet ==> i % 2 == 1 && 1 <= i <= 2 * numBays - 1
      ensures size == FortyFeet ==> i % 2 == 0 && 2 <= i <= 2 * numBays - 2
    {
      if size == FortyFeet {
        ProposedFromExactly(size, 2, i);
      } else if bays != map[] {
        ProposedFromExactly(size, 1, i);
      }
    }

    /** What ProposedFrom lists: exactly the proposed indices of lo's parity from lo up. */
    lemma ProposedFromExactly(size: ContainerSize, lo: int, j: int)
      requires Valid() && lo >= 0
      ensures j in ProposedFrom(size, lo) <==> lo <= j < 2 * numBays && (j - lo) % 2 == 0 && Proposed(size, j)
    {
      StrideExactly(ProposedSet(size), lo, 2 * numBays, j);
    }

    /**
     * The candidates, exactly: with bays present, every index of the size's
     * parity in range that is proposed, i.e. an existing bay that is not full or
     * a free index that may be opened; with no bay at all, index 1 for 20 ft.
     */
    lemma CandidatesExactly(size: ContainerSize, i: int)
      requires Valid()
      ensures size == FortyFeet ==>
        (i in Candidates(size) <==> i % 2 == 0 && 2 <= i < 2 * numBays && Proposed(size, i))
      ensures size == TwentyFeet && bays != map[] ==>
        (i in Candidates(size) <==> i % 2 == 1 && 1 <= i < 2 * numBays && Proposed(size, i))
      ensures size == TwentyFeet && bays == map[] ==>
        (i in Candidates(size) <==> i == 1 && numBays >= 1)
      ensures i in bays && (size == FortyFeet || bays != map[]) ==>
        (i in Candidates(size) <==> (i % 2 == (if size == FortyFeet then 0 else 1) && !bays[i].AllRowsFull()))
    {
      var lo := if size == FortyFeet then 2 else 1;
      if size == FortyFeet || bays != map[] {
        ProposedFromExactly(size, lo, i);
      }
    }
  }
}
