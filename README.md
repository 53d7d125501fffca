# SingaPort yard model

A Dafny model of the container-yard core of SimpleMotionDemo (`Assets/SingaPort`), with proofs about it.

It covers three parts:

- **The inventory.** This is the ground-slot map, keyed by (block, normalised column, row). Each key holds a bottom-to-top stack of containers. Three operations act on it:
  - `Allocate`, a four-phase slot search: same-group top, then empty slot, then the tallest non-full position, then none.
  - `Update`, which stacks or unstacks. A 40 ft container is pushed onto and popped from both of its columns.
  - `GetBestJobByPswc`, which picks the next container of a group to retrieve.
- **The Block/Bay occupancy model.**
  - A block opens bays lazily, obeying parity, adjacency and load-balance rules.
  - A bay keeps one stack per row and chooses rows by tier cap, unevenness, slope and hidden-hole rules.
  - Both pick randomly among their candidates.
- **The data types.** Groups, containers with a shared index counter, and slots.

Files:

- `wrappers.dfy`: `Option` and `Outcome`. `Outcome` stands for a call that returns or throws.
- `slot.dfy`: the `Slot` (bay, row, tier) value.
- `port.dfy`: module `Port`. It holds container size, `Counter`, `Group`, `Container`, `Bay` and `Block`.
- `inventory.dfy`: module `Inventories`.
  - The ground-slot map as a value: `Store`, `Column`, `StackOn`, `UnstackOn`.
  - The placement rules of `Allocate`, as predicates over the map.
  - The ranking of `GetBestJobByPswc`.
  - The `Inventory` class, whose methods are proved against those predicates.
  - Lemmas about stacking, unstacking and ranking.
- `inventory_invariant.dfy`: module `InventoryInvariant`. It defines the yard invariant and proves that allocated stackings and anchored unstackings preserve it.

Modelling choices:

- **Containers, groups, blocks and bays are classes.** The source compares containers by reference identity (`ReferenceEquals` in `CanPlaceForty`), and here that is `==` on references. Fields the source sets only when an object is created are `const`.
- **Random draws.** A draw `rs.Next(n)` becomes a caller-supplied `choice`, and the candidate at `choice % n` is taken (`Port.Pick`).
- **Static counters.** `Block.Count` and `Container.Count` become an explicit `Counter` object passed to the constructors.
- **Averages.** The float averages of `Block.GetBayIndexToStack` are reals.
- **Behaviour of the code that is easy to misread:**
  - `GetBestJobByPswc` breaks ties by the normalised column `dim1` of the ground-slot key, not by a bay number (Inventory.cs:235, 261).
  - A row is selectable only while its height `h` satisfies `h < min + 4`, where `min` is the lowest row of the bay (Bay.cs:40).
  - `Allocate` is deterministic: phases 1 and 2 return the first qualifying position in (bay, row) order, and phase 3 returns the first of the tallest legal positions, because its comparisons with the best height so far are strict (Inventory.cs:163, 180).

## Model

| member | source | states |
|---|---|---|
| Port.SizeForTeus | Assets/SingaPort/Container.cs:36 | A container is 40 ft exactly when its group has 2 TEUs; any other TEU value gives 20 ft. |
| Port.Pick | Assets/SingaPort/Block.cs:96-99 | A random pick yields nothing exactly when the candidate list is empty; otherwise it yields a member of the list. |
| Port.TruncDiv | Assets/SingaPort/Block.cs:23 | C#'s integer division truncates toward zero. The quotient is bounded from both sides for positive and for negative dividends. |
| Port.Counter.constructor | Assets/SingaPort/Container.cs:25 | The instance counter starts at 0. |
| Port.Group.constructor | Assets/SingaPort/Container.cs:9-14 | A new group stores its index, TEUs and size, and starts with an empty container list. |
| Port.Container.constructor | Assets/SingaPort/Container.cs:32-37 | The counter is incremented, and the index is its new value, so it is strictly greater than every earlier index as long as only the constructors change the counter (the source's setter is private). The group is the argument and the size follows the group's TEUs. Block and slot start unset. |
| Port.MinRows | Assets/SingaPort/Bay.cs:40 | The minimum row height is attained by some row and is at most every row's height. |
| Port.Bay.constructor | Assets/SingaPort/Bay.cs:25-30 | A new bay has rows exactly 1..NumRows, all empty, with the given block and size. |
| Port.Bay.NumContainers | Assets/SingaPort/Bay.cs:14 | The container count is at least the height of every row. |
| Port.Bay.NumTEUs | Assets/SingaPort/Bay.cs:15 | TEUs are twice the container count in a 40 ft bay and equal to it in a 20 ft bay. |
| Port.Bay.IsFull | Assets/SingaPort/Bay.cs:16-24 | The early-exit scan answers true exactly when every row has reached MaxNumTiers. |
| Port.Bay.SelectableRows | Assets/SingaPort/Bay.cs:34-54 | The list holds exactly the rows 1..upTo that pass all six row checks, in strictly ascending order. |
| Port.Bay.GetRowIndexToStack | Assets/SingaPort/Bay.cs:32-57 | The result is the random pick from the ascending list of passing rows. It is null exactly when no row passes; otherwise it is a passing row in range. |
| Port.Bay.SelectedRowShape | Assets/SingaPort/Bay.cs:37-52 | A chosen row is below the tier cap and fewer than four tiers above every row. It is no taller than either neighbour. When it ties a neighbour, no row further out on that side is taller. |
| Port.Bay.EmptyBaySelectable | Assets/SingaPort/Bay.cs:34-54 | In a bay holding no container, every row is selectable when MaxNumTiers is positive and none is otherwise. |
| Port.Bay.StackContainerAt | Assets/SingaPort/Bay.cs:67-75 | It succeeds exactly when the sizes match and the row is below the cap. On success it appends to that row only and sets the tier to the new height, which is at most MaxNumTiers, and the container count grows by one. On failure nothing changes. |
| Port.Bay.StackContainer | Assets/SingaPort/Bay.cs:59-65 | The row is the random pick of GetRowIndexToStack. With no row it fails and changes nothing. Otherwise it stacks into the chosen selectable row exactly when the sizes match. |
| Port.Block.constructor | Assets/SingaPort/Block.cs:29-36 | The block counter is incremented and becomes the index. The dimensions are stored and there are no bays. |
| Port.Block.CapacityTEUs | Assets/SingaPort/Block.cs:23 | The capacity is (NumBays+1)/2 × NumRows × MaxNumTiers, with truncating division for every sign of NumBays. |
| Port.Block.NumContainers | Assets/SingaPort/Block.cs:24 | The block total is at least the container count of every bay. |
| Port.Block.NumTEUs | Assets/SingaPort/Block.cs:25 | The block TEU total is at least the TEUs of every bay. |
| Port.Block.GetBayIndexToStack | Assets/SingaPort/Block.cs:37-100 | The result is the random pick from the candidate list; it is null exactly when the list is empty. Bays are not modified. |
| Port.Block.TwentyFeetIndices | Assets/SingaPort/Block.cs:50-76 | The 20 ft loop builds exactly the candidate list: index 1 when there is no bay, otherwise the proposed odd indices in ascending order. |
| Port.Block.FortyFeetIndices | Assets/SingaPort/Block.cs:77-91 | The 40 ft loop builds exactly the proposed even indices 2, 4, … below 2·NumBays, in ascending order. |
| Port.Block.CandidatesExactly | Assets/SingaPort/Block.cs:51-88 | An index is a candidate if and only if it has the size's parity, lies in range and is proposed. An existing bay is proposed exactly when it is not full. With no bay, a 20 ft request gets index 1 alone. |
| Port.Block.ProposalsCanBeCreated | Assets/SingaPort/Block.cs:123-131 | Every candidate either exists or passes CreateBayIfNotExist's range and adjacency checks. 20 ft candidates are odd in 1..2·NumBays−1; 40 ft candidates are even in 2..2·NumBays−2. |
| Port.Block.CreateBayIfNotExist | Assets/SingaPort/Block.cs:123-135 | An existing bay is returned unchanged. An absent index throws exactly when it fails the range or adjacency checks. Otherwise exactly one new, empty bay of the given size is added. |
| Port.Block.StackContainerAt | Assets/SingaPort/Block.cs:110-115 | It throws exactly when the index is absent and cannot be created, and then changes nothing. Otherwise (`StackedInto`) the row is the random pick among the bay's selectable rows; for a freshly created empty bay that is row 1 + choice mod NumRows while NumRows and MaxNumTiers are positive, and no row otherwise. `c` is appended to that row exactly when its size matches the bay's, the tier becomes the row's new height, a false result leaves the bay's stacks unchanged, and no other bay or row changes. |
| Port.Block.StackIntoBay | Assets/SingaPort/Block.cs:110-115 | Stacking into an existing bay picks a row from its selectable rows, appends `c` there exactly when the sizes match, sets the tier to the new height and leaves every other bay's stacks unchanged. |
| Port.Block.StackIntoNewBay | Assets/SingaPort/Block.cs:110-115 | Stacking into a just-created empty bay of `c`'s size always succeeds while NumRows and MaxNumTiers are positive, at row 1 + choice mod NumRows and tier 1, and leaves every other row empty. |
| Port.Block.StackContainer | Assets/SingaPort/Block.cs:102-108 | It never throws. The bay index is the random pick of GetBayIndexToStack. With no candidate it returns false and leaves every bay and stack unchanged. Otherwise the chosen bay exists afterwards and the effect is `StackedInto` at that bay: the selected row, `c` appended exactly when the sizes match, and every other bay untouched. |
| Inventories.ToDim1 | Assets/SingaPort/Inventory.cs:26 | Bays 2d−1 and 2d both map to column d. |
| Inventories.TopMatch | Assets/SingaPort/Inventory.cs:241-249 | The result is the position of the topmost container of the group, or none when no container matches. |
| Inventories.Inventory.constructor | Assets/SingaPort/Inventory.cs:23 | The ground-slot map starts empty. |
| Inventories.Inventory.GetHeight | Assets/SingaPort/Inventory.cs:219-222 | The height is 0 exactly when the addressed ground slot holds nothing. |
| Inventories.Inventory.Peek | Assets/SingaPort/Inventory.cs:324-328 | The top is null exactly when the height is 0; otherwise it is the last (topmost) container of that ground slot. |
| Inventories.Inventory.IsBayBlockedFor20 | Assets/SingaPort/Inventory.cs:38-46 | The result is true exactly when some row 1..NumRows of the bay is topped by a 40 ft container. |
| Inventories.Inventory.CanPlaceForty | Assets/SingaPort/Inventory.cs:49-74 | It accepts exactly the following, and then the tier is the common height + 1 (otherwise −1): an even bay strictly between 1 and maxBayIndex; no 20 ft top in any row of either column; equal heights; either the same 40 ft container on both tops or no 40 ft top; height below MaxNumTiers. |
| Inventories.Inventory.CheckCandidate | Assets/SingaPort/Inventory.cs:76-188 | A phase's test at one position accepts exactly that phase's candidates, and the tier it reports is the anchor column's height + 1. |
| Inventories.Inventory.FirstCandidate | Assets/SingaPort/Inventory.cs:76-149 | Phases 1 and 2 return the first candidate in (bay, row) order, or nothing exactly when there is no candidate. |
| Inventories.Inventory.HighestCandidate | Assets/SingaPort/Inventory.cs:151-194 | Phase 3 returns the first of the tallest legal positions, or nothing exactly when there is no legal position. |
| Inventories.Inventory.Allocate | Assets/SingaPort/Inventory.cs:29-199 | If a same-group candidate exists, it returns the first one. Otherwise, if an empty candidate exists, it returns the first one. Otherwise it returns the first tallest legal position, and null exactly when none exists. The tier is always the anchor height + 1, and the map is never changed. |
| Inventories.Inventory.Update | Assets/SingaPort/Inventory.cs:201-217 | With a missing slot or a zero coordinate nothing changes. Otherwise the map becomes the stacked or unstacked map. |
| Inventories.Inventory.Stack | Assets/SingaPort/Inventory.cs:294-308 | The map becomes StackOn of the old map: a push onto one column, or onto both columns for 40 ft. |
| Inventories.Inventory.Unstack | Assets/SingaPort/Inventory.cs:310-322 | The map and the returned top are UnstackOn of the old map. |
| Inventories.Inventory.GetBestJobByPswc | Assets/SingaPort/Inventory.cs:224-281 | The result is null exactly when no ground slot of the block holds a container of the group. Otherwise it matches the group's index and size, and it is the topmost match of a ground slot that no other ground slot outranks. |
| Inventories.CandidateFits | Assets/SingaPort/Inventory.cs:137-148 | Once MaxNumTiers ≥ 1, any phase's candidate is a legal, non-full position. The 20 ft empty-slot phase skips the cap check. |
| Inventories.StackTwentyEffect | Assets/SingaPort/Inventory.cs:304-307 | A 20 ft container at odd bay b is appended to column (b+1)/2 of its row, and no other column changes. |
| Inventories.StackFortyEffect | Assets/SingaPort/Inventory.cs:297-303 | A 40 ft container at even bay b is appended to columns b/2 and b/2+1 of its row, and no other column changes. |
| Inventories.TouchKeepsColumns | Assets/SingaPort/Inventory.cs:283-292 | Creating an empty ground slot on first access changes no column. |
| Inventories.UnstackEffect | Assets/SingaPort/Inventory.cs:310-322 | An empty column leaves everything unchanged and returns null. Otherwise the top is removed and returned. For a 40 ft top, the column at bay+2 also loses its top if it has one. No other column changes. |
| Inventories.StackUnstackRoundTrip | Assets/SingaPort/Inventory.cs:294-322 | Stacking then unstacking at the same slot returns the container and restores every column. This holds for 20 ft at any bay and for 40 ft at an even bay. |
| Inventories.OutranksAsymmetric | Assets/SingaPort/Inventory.cs:254-264 | The preference order is never satisfied both ways. |
| Inventories.RanksOfDistinctJobsCompare | Assets/SingaPort/Inventory.cs:254-264 | Of two different ground slots of one block, one always outranks the other. |
| Inventories.UnbeatenUnique | Assets/SingaPort/Inventory.cs:232-280 | At most one ground slot is unbeaten, so the result does not depend on the map's iteration order. |
| InventoryInvariant.EmptyInv | Assets/SingaPort/Inventory.cs:23 | The empty map satisfies the yard invariant. |
| InventoryInvariant.SingleSizePerColumn | Assets/SingaPort/Inventory.cs:37-46 | Under the invariant, no normalised column holds both sizes across its rows. |
| InventoryInvariant.FortyHasPartner | Assets/SingaPort/Inventory.cs:296-303 | Under the invariant, every 40 ft container has the same object at the same height in a neighbouring column. |
| InventoryInvariant.HeightBounded | Assets/SingaPort/Inventory.cs:70-72 | Under the invariant, no stack of the block exceeds MaxNumTiers. |
| InventoryInvariant.NoTwentyTopsMeansForty | Assets/SingaPort/Inventory.cs:60-66 | A column with no 20 ft top in rows 1..NumRows holds only 40 ft containers. |
| InventoryInvariant.NoFortyTopsMeansTwenty | Assets/SingaPort/Inventory.cs:38-46 | A column with no 40 ft top in rows 1..NumRows holds only 20 ft containers. |
| InventoryInvariant.PushFortyKeepsInv | Assets/SingaPort/Inventory.cs:297-303 | Pushing a new 40 ft container onto two identical, non-full, 40 ft-only columns keeps the invariant. |
| InventoryInvariant.PushTwentyKeepsInv | Assets/SingaPort/Inventory.cs:304-307 | Pushing a 20 ft container onto a non-full, 20 ft-only column keeps the invariant. |
| InventoryInvariant.PopTwentyKeepsInv | Assets/SingaPort/Inventory.cs:312-315 | Popping a 20 ft top keeps the invariant. |
| InventoryInvariant.PopFortyKeepsInv | Assets/SingaPort/Inventory.cs:312-320 | Popping a 40 ft top from two identical columns keeps the invariant. |
| InventoryInvariant.AllocatedStackKeepsInv | Assets/SingaPort/Inventory.cs:29-199 | Stacking a new container at any position an Allocate phase proposes keeps the invariant and leaves the slot anchored. |
| InventoryInvariant.FortyStackKeepsInv | Assets/SingaPort/Inventory.cs:49-74 | Stacking a new 40 ft container where CanPlaceForty accepts keeps the invariant. |
| InventoryInvariant.TwentyStackKeepsInv | Assets/SingaPort/Inventory.cs:38-46 | Stacking a 20 ft container at an unblocked, non-full odd bay keeps the invariant. |
| InventoryInvariant.UnstackKeepsInv | Assets/SingaPort/Inventory.cs:310-322 | Unstacking at an anchored slot keeps the invariant. |
| InventoryInvariant.StoredFortyIsAnchored | Assets/SingaPort/Inventory.cs:316-320 | A 40 ft container at the same height in columns b/2 and b/2+1 makes even bay b's slot anchored, so its unstacking pops the right partner. |
| InventoryInvariant.StoredTwentyIsAnchored | Assets/SingaPort/Inventory.cs:316-320 | The slot of a stored 20 ft container is anchored, because its column has no 40 ft top. |

## Left out

- Inventory.Insight, the debug formatter, and GroundSlot.FlippedLayers are not modelled. Neither affects any decision.
- Inventories.Inventory.GetHeight: reads without creating the empty ground slot that the source's GetGroundSlot adds on first access. The same holds for Peek. Only Stack and Unstack create entries (`Touch`). The extra entries are empty stacks, and GetBestJobByPswc skips empty stacks.
- Inventories.Inventory.GetBestJobByPswc: the int.MaxValue/int.MinValue starting values are modelled as "no best yet". A list cannot hold int.MaxValue containers, so the first match is always better, as in the source.
- Port.Block.CapacityTEUs: does not model 32-bit wrap-around of the product. Integers here are unbounded.
- Port.Block.LessTwentyBays: compares exact real averages. The source averages single-precision floats, and their rounding is not modelled.
- Port.Bay.StackContainerAt: requires a row in 1..NumRows. The source throws KeyNotFoundException for any other row (Assets/SingaPort/Bay.cs:70); every caller passes a selectable row, which is in range.
- Port.Bay.constructor: a negative NumRows gives an empty row map. The source throws there, because Enumerable.Range rejects a negative count.
- Inventories.Inventory.Allocate: requires the container's Block to be set. The source would dereference null otherwise. Update requires the same whenever the slot is set.
- InventoryInvariant.AllocatedStackKeepsInv: assumes MaxNumTiers ≥ 1. The 20 ft empty-slot phase (Inventory.cs:137-148) does not compare with MaxNumTiers, so a block with no tiers would take a container anyway.
- InventoryInvariant.UnstackKeepsInv: requires the unstacked slot to be anchored. Unstack pops the top of the addressed column whatever container it is. At the right-hand column of a 40 ft container it would pop the column beyond.
- The default branch of GetBayIndexToStack, which throws on an undefined enum value, cannot occur with the two-valued size type.
- Group.Timestamp_Unstack, Container.Height and the float layout constants of Block are timing and rendering data and are not modelled.
- Group.Containers is carried as a field, but nothing in this core fills it.
- The source has no relocation-target selection or reshuffle check; none is modelled.
- Assets/CmdPlayer.cs, the Unity driver, is not part of this model. Nor are rendering, spawning, input and the event-file player.
- The Block/Bay occupancy and the inventory's ground-slot map are separate states, and no relation between them is claimed.
- Row-selection completeness is not claimed: a non-full bay can have no selectable row, for example with row heights 1, 0, 0, 1.
