# Hashiwokakero solver, modelled in Dafny

This project models the solving engine of a Hashiwokakero ("Bridges") puzzle
solver. The engine has two parts:

- `grid.py` holds the puzzle state. Islands have positions, capacities, neighbour lists and lists of
  bridges. Bridges are canonical horizontal or vertical edges with a crossing test. The grid adds and
  deletes bridges, resolves neighbours, lists the valid bridges and evaluates the grid's status
  (-1 incorrect, 0 incomplete, 1 complete).
- `solver.py` holds the deduction rules (`logic`) and the backtracking search with its undo log
  (`search`).

Modules, in dependency order:

- `Geometry` (geometry.dfy): coordinates, bridges, `Bridge.__init__` as `MakeBridge`,
  `Bridge.intersects` as `Intersects`, and bridge equality.
- `Puzzle` (board.dfy): the grid as a value (`Board`): positions, neighbour lists as island numbers,
  capacities, each island's bag of bridges and the grid's bag of bridges. It also holds the effect of
  `add_bridge` and `delete_bridge` on that value (`AddBoard`, `DeleteBoard`), the bookkeeping invariant
  (`Consistent`, `CapacityTracks`) and the add/delete round trips.
- `Neighbors` (neighbors.dfy): what `update_neighbors` computes. `Visible` means the nearest island in
  one of the four directions.
- `Candidates` (candidates.dfy): `valid_bridges` as a function, with its exact characterisation.
- `Status` (status.dfy): `status_helper` and `status` as functions, and the depth-first search's
  reachability facts.
- `Deduction` (deduction.dfy): what the three rules of `logic` decide at one island.
- `Rounds` (rounds.dfy): a whole pass of `logic` as a function. It holds the slack measure that makes
  the deduction loop and the search terminate.
- `Grids` (grid.dfy): the `Grid` class. Its sequence fields are updated in place by methods that
  follow the source loop for loop. Each method is proved against the functions above through `Abs()`.
- `Solvers` (solver.dfy): the `Solver` class, with `logic`, the deduction loop, the undo loop and the
  recursive search as methods.

Islands are numbered by their position in the island list. Island equality in the source compares
positions, and positions are distinct, so a number names an island. The fields of each `Island`
object are kept in the grid as one sequence per field.

Some points of the code are easy to misread. The model follows the code in each of them:

- A pair of islands can carry three bridges. `valid_bridges` only asks for fewer than two existing
  bridges (grid.py:301). Rule 1 of `logic` then adds two bridges towards a neighbour of capacity two
  or more (solver.py:67-74), so a pair that already had one bridge gets three. The next `status` call
  rejects the grid (grid.py:334-336). `Rounds.DeduceKeepsBounded` shows that one island's step never
  goes above three. The slack measure counts room up to three bridges per pair.
- A capacity below zero is not always reported. `status_helper` walks the islands in list order. It
  passes over an island only when that island passes the check of grid.py:342 and has capacity 0. It
  returns at the first island that does not: -1 when that island's capacity is negative or more than
  its neighbours can still take (grid.py:342-343), and 0 otherwise (grid.py:344-345). A negative
  capacity on a later island is not looked at. Capacities start as given in the input, and
  `add_island` accepts any number (grid.py:215-220), so a negative capacity in the input is one way
  to get there.
- On failure, `search` restores the bags of bridges and the capacities, not the order of the lists.
  `list.remove` deletes the first equal entry.
- After the deduction loop, `search` checks only for status 1 (solver.py:28-29). It goes on to try
  valid bridges even when the status is -1. The model does the same.
- The depth-first search starts at the first island of the list.

## Model

| member | source | states |
|---|---|---|
| Geometry.MakeBridge | grid.py:78-95 | the bridge is vertical iff both islands share x; its ends are the two islands; for distinct islands the first end has the smaller y (vertical) or smaller x (horizontal) |
| Geometry.MakeBridgeUnordered | grid.py:84-95 | building a bridge from a to b or from b to a gives the same bridge |
| Geometry.MakeBridgeCanonical | grid.py:84-95 | rebuilding a constructed bridge from its own ends gives it back |
| Geometry.MakeBridgeEqual | grid.py:108-112 | two constructed bridges are equal iff they join the same two islands, in either order |
| Geometry.EndpointEqualityIsEquality | grid.py:108-112 | on constructed bridges, `__eq__` (same first and second island) is exactly equality of the bridge values, orientation included |
| Geometry.Intersects | grid.py:97-106 | `intersects` never holds for two bridges of the same orientation; `IntersectsIffCommonInteriorPoint` gives the exact condition |
| Geometry.IntersectsSymmetric | grid.py:97-106 | `intersects` is symmetric |
| Geometry.IntersectsIffCommonInteriorPoint | grid.py:97-106 | a vertical and a horizontal bridge cross iff some point lies strictly inside both |
| Geometry.SharedEndIsNoCrossing | grid.py:101-106 | two bridges that share an island never cross (touching at an end is not crossing) |
| Puzzle.IslandAt | grid.py:133-139 | `get_island` finds the island at a position iff one is there, and returns none otherwise |
| Puzzle.Index | grid.py:126-139 | the island found at a position is the unique island there when positions are distinct |
| Puzzle.RemoveFirst | grid.py:184-188 | `list.remove` shortens the list by one and takes exactly one copy out of its bag |
| Puzzle.RemoveFirstDropsFirst | grid.py:184-188 | the entry `list.remove` drops is the first one equal to the bridge, and the other entries keep their order |
| Puzzle.Complete | grid.py:28-33 | `complete` holds iff the island's capacity is 0 |
| Puzzle.BridgesTo | grid.py:41-47 | `bridges_to` counts the copies of the pair's bridge in the island's own list; `BridgesToCountsPair` ties it to the grid's list |
| Puzzle.AddBoard | grid.py:274-280 | the grid after `add_bridge`; `AddBoardAt`, `AddKeeps` and `AddThenDelete` state what it changes and what it keeps |
| Puzzle.DeleteBoard | grid.py:282-288 | the grid after `delete_bridge` of a listed bridge; `DeleteBoardAt`, `DeleteKeeps` and `DeleteThenAdd` state what it changes and what it keeps |
| Puzzle.ListedBridgeIsIncident | grid.py:274-288 | in a consistent grid a bridge on the grid's list joins two different islands and is in both islands' own lists |
| Puzzle.AddBoardAt | grid.py:274-280 | `add_bridge` changes only the two end islands: each gains the bridge and loses one unit of capacity |
| Puzzle.DeleteBoardAt | grid.py:282-288 | `delete_bridge` changes only the two end islands: each loses one copy and regains one unit of capacity |
| Puzzle.AddKeepsConsistent | grid.py:274-280 | adding a bridge keeps every island's bag equal to the grid's bridges touching it |
| Puzzle.DeleteKeepsConsistent | grid.py:282-288 | deleting a listed bridge keeps that agreement |
| Puzzle.AddKeepsCapacity | grid.py:49-54 | adding keeps "capacity = initial capacity - number of own bridges" on every island |
| Puzzle.DeleteKeepsCapacity | grid.py:56-61 | deleting keeps the same capacity invariant |
| Puzzle.AddKeeps | grid.py:274-280 | adding a proper bridge keeps both halves of the grid invariant |
| Puzzle.DeleteKeeps | grid.py:282-288 | a listed bridge is proper and in both end islands' lists, so deletion is defined and keeps the invariant |
| Puzzle.AddThenDelete | grid.py:274-288 | delete after add gives back the grid as it was |
| Puzzle.DeleteThenAdd | grid.py:274-288 | add after delete of a listed bridge gives back the grid as it was |
| Puzzle.BagDeterminesBoard | grid.py:49-61 | under the invariant, two grids with the same islands, neighbours and bag of bridges are equal (the basis of rollback) |
| Puzzle.BridgesToCountsPair | grid.py:41-47 | `bridges_to` is symmetric and equals how often the pair's bridge is on the grid |
| Puzzle.AddIslandKeeps | grid.py:215-220 | adding an island at a fresh position keeps the grid invariant, with the new island's capacity as its initial one |
| Puzzle.NeighborsIrrelevant | grid.py:222-272 | changing neighbour lists does not disturb the bridge bookkeeping |
| Neighbors.VisibleSymmetric | grid.py:229-272 | if island j is the nearest island in some direction from i, then i is the nearest in the opposite direction from j |
| Neighbors.NeighborsSymmetric | grid.py:233-237 | after neighbours are resolved, i lists j iff j lists i |
| Neighbors.VisibleIffNearest | grid.py:229-272 | j is visible from i iff j lies in some direction from i and no island in that direction is nearer |
| Neighbors.OnePerDirection | grid.py:229-272 | an island sees at most one island per direction |
| Neighbors.Befriend | grid.py:234-235 | `add_neighbor` under the "not in" guard: adds b to a's list, adds nothing else, and changes nothing when b is already listed |
| Neighbors.BefriendKeepsSound | grid.py:233-237 | adding a visible island keeps every list duplicate-free and made of visible islands |
| Candidates.LinkOpen | grid.py:301-303 | the test on neighbour j of island i: j is incomplete, the pair has fewer than two bridges, and their bridge crosses no bridge on the grid |
| Candidates.ValidLink | grid.py:297-303 | an open link from an incomplete island to one of its listed neighbours; `ValidBridgesExactly` shows `valid_bridges` lists exactly these |
| Candidates.ScanNeighbors | grid.py:300-305 | with sound neighbour lists, everything the inner loop adds is a proper bridge of the grid; `ScanNeighborsSpec` says which links it adds |
| Candidates.CollectFrom | grid.py:297-305 | with sound neighbour lists, everything the outer loop adds is a proper bridge of the grid; `CollectFromSpec` says which links it adds |
| Candidates.ValidBridges | grid.py:290-306 | every valid bridge joins two different islands of the grid |
| Candidates.ScanNeighborsSpec | grid.py:300-305 | the inner loop adds only open links from island i, and adds every open link to a later neighbour |
| Candidates.CollectFromSpec | grid.py:297-305 | the outer loop keeps earlier entries and no duplicates, and lists exactly the valid links from its islands |
| Candidates.ValidBridgesExactly | grid.py:290-306 | `valid_bridges` has no duplicates and holds exactly the links from an incomplete island to a listed neighbour that is incomplete, shares fewer than two bridges with it and crosses no bridge |
| Candidates.CandidateFacts | grid.py:290-306 | each valid bridge is such a link and is a proper bridge of the grid |
| Deduction.Options | solver.py:54-56 | `potential_bridges`: the valid bridges that touch the island, in list order; `OptionsAreValidLinks` characterises them |
| Deduction.LinkTo | solver.py:60-61 | the bridge built from the m-th neighbour towards the island; `LinkToInjective` shows different neighbours give different bridges |
| Deduction.TallyUpTo | solver.py:57-70 | the neighbour loop's tally: `available_connections` equals the length of `temp_bridges`, which holds only options, and the singly restricted list holds only entries of `temp_bridges` |
| Deduction.Touching | solver.py:55 | the filter keeps exactly the valid bridges that touch the island, without duplicates |
| Deduction.Without | solver.py:80-81 | rule 3 keeps exactly the options not in the singly restricted list |
| Deduction.Deduce | solver.py:53-83 | every bridge the rules build at island i is a valid bridge touching island i |
| Deduction.LinkToInjective | solver.py:60-61 | different neighbours of an island give different bridges |
| Deduction.TallyCounts | solver.py:60-70 | the tally holds each neighbour's bridge 1 or 2 times by that neighbour's capacity, when it is an option, else not at all |
| Deduction.TallySingle | solver.py:63-66 | the singly restricted list holds exactly the options to neighbours of capacity 1 |
| Deduction.RuleOneBuilds | solver.py:71-74 | rule 1 builds each option 1 or 2 times by the neighbour's capacity, and as many bridges as the island's capacity |
| Deduction.RuleTwoBuilds | solver.py:75-78 | rule 2 builds each option exactly once and nothing else |
| Deduction.RuleThreeBuilds | solver.py:79-83 | rule 3 builds each option not singly restricted exactly once and nothing else |
| Deduction.NoRuleBuildsNothing | solver.py:71-83 | when no rule applies nothing is built |
| Deduction.OptionsAreValidLinks | solver.py:54-56 | an island's options are duplicate-free and are exactly its valid links |
| Deduction.ValidLinkSymmetric | grid.py:300-303 | a valid link is valid from either end and is the same bridge |
| Rounds.Logic | solver.py:44-84 | a whole pass of `logic` from the first island: the grid it leaves and the bridges it returns; `LogicFrom`, `LogicKeeps` and `LogicLowersSlack` state its properties |
| Rounds.AddAll | solver.py:72-83 | building a list of bridges adds exactly that list to the grid's bag and changes no position or neighbour |
| Rounds.LogicFrom | solver.py:52-84 | a pass of `logic` adds exactly the bridges it returns |
| Rounds.AddAllConsistent | solver.py:72-83 | building proper bridges keeps the grid consistent |
| Rounds.AddAllCapacity | solver.py:72-83 | building proper bridges keeps the capacity invariant |
| Rounds.AddAllCapacityAt | solver.py:72-83 | building bridges that all touch island i lowers its capacity by their number |
| Rounds.RuleOneCompletes | solver.py:71-74 | after rule 1 the island's capacity is 0 |
| Rounds.LogicKeeps | solver.py:52-84 | a pass of `logic` keeps the grid invariant |
| Rounds.SlackShrinks | solver.py:23-27 | adding bridges never raises the slack |
| Rounds.SlackDropsOnValid | solver.py:31-33 | adding a valid bridge lowers the slack, so the search's recursion ends |
| Rounds.DeduceStep | solver.py:53-83 | one island's step keeps the invariant, never raises the slack and lowers it when it builds something |
| Rounds.LogicLowersSlack | solver.py:23-27 | a pass never raises the slack, and lowers it when it builds any bridge, so the deduction loop ends |
| Rounds.DeduceAtMostTwice | solver.py:60-83 | the rules build at most two copies of a bridge at one island |
| Rounds.ValidIsBelowTwo | grid.py:301 | a valid bridge has fewer than two copies on the grid and joins an island to one of its neighbours |
| Rounds.DeduceKeepsBounded | solver.py:67-74 | one island's step keeps every pair at three bridges or fewer, each joining neighbours |
| Status.KeyCounts | grid.py:330-333 | the dictionary holds only keys that occur, each with a positive count; `KeyCountsAreMultiplicities` gives the counts |
| Status.Potential | grid.py:338-341 | `potential_bridge_num`: the summed capacities of the neighbours whose bridge crosses nothing; `PotentialOfCompleteNeighbours` |
| Status.HelperFrom | grid.py:337-346 | the island loop returns -1, 0 or 1, and 1 only when every island from the i-th on has capacity 0 |
| Status.StatusHelperOf | grid.py:323-346 | `status_helper`: -1 on an overloaded pair, else the island loop; `HelperOneIff` and `HelperDecidesAtFirstUnsettled` characterise it |
| Status.StatusOf | grid.py:348-362 | `status`: the result of `status_helper`, except that 1 becomes -1 when some island cannot be reached from the first; `StatusOneIff` characterises it |
| Status.KeyIsInjective | grid.py:332 | on constructed bridges the dictionary key names exactly one bridge |
| Status.KeyCountsAreMultiplicities | grid.py:330-333 | the dictionary counts each bridge's copies on the list |
| Status.OverCountIffOverloaded | grid.py:330-336 | some count exceeds 2 iff some pair carries more than two bridges |
| Status.HelperSkipsSettled | grid.py:337-345 | the island scan passes over islands that pass the checks and are complete |
| Status.HelperOneIff | grid.py:323-346 | `status_helper` returns 1 iff no pair is overloaded and every capacity is 0 |
| Status.PotentialOfCompleteNeighbours | grid.py:338-341 | when every capacity is 0 the potential is 0 |
| Status.FirstUnsettledExists | grid.py:337-345 | if some capacity is non-zero, the scan stops at a first island |
| Status.HelperDecidesAtFirstUnsettled | grid.py:337-345 | without overload, the result is -1 or 0 as decided by that first island alone |
| Status.StatusHelperRange | grid.py:323-346 | `status_helper` returns -1, 0 or 1 |
| Status.ConsistentIsCrossable | grid.py:315-319 | in a consistent grid the island across every own bridge exists |
| Status.ReachableStep | grid.py:315-321 | crossing a bridge extends reachability |
| Status.ClosedContainsReachable | grid.py:308-321 | a set closed under crossing bridges holds every island reachable from its members |
| Status.MarkStart | grid.py:314 | marking the start island is the first step of the search's marking |
| Status.MarkCall | grid.py:320-321 | a recursive call keeps the marking invariant of the caller |
| Status.StatusOneIff | grid.py:348-362 | `status` returns 1 iff no pair is overloaded, every capacity is 0 and every island is reachable from the first |
| Status.StatusRange | grid.py:348-362 | `status` returns -1, 0 or 1, and 0 exactly when `status_helper` does |
| Grids.Grid.constructor | grid.py:205-213 | a grid of the given size with no islands and no bridges |
| Grids.Grid.AddIsland | grid.py:215-220 | appends one island at the position with that capacity, no neighbours and no bridges, keeping the invariant |
| Grids.Grid.AttachBridge | grid.py:49-54 | `Island.add_bridge`: appends to the island's list and lowers its capacity by one |
| Grids.Grid.DetachBridge | grid.py:56-61 | `Island.delete_bridge`: removes one copy and raises the capacity by one |
| Grids.Grid.PushBridge | grid.py:274-280 | the three list updates give exactly `AddBoard` on the grid value |
| Grids.Grid.PopBridge | grid.py:282-288 | the three list removals give exactly `DeleteBoard` on the grid value |
| Grids.Grid.AddBridge | grid.py:274-280 | `add_bridge` keeps the invariant and its effect is `AddBoard` |
| Grids.Grid.DeleteBridge | grid.py:282-288 | `delete_bridge` of a listed bridge keeps the invariant and its effect is `DeleteBoard` |
| Grids.Grid.Conflict | grid.py:190-198 | `conflict` is true iff some bridge on the grid crosses the given one |
| Grids.Grid.BridgesTo | grid.py:41-47 | counts the copies of the pair's bridge in the island's own list |
| Grids.Grid.ValidBridges | grid.py:290-306 | the loops compute exactly `Candidates.ValidBridges` |
| Grids.Grid.ScanRow | grid.py:300-305 | the inner loop computes exactly the scan of one island's neighbours |
| Grids.Grid.StatusHelper | grid.py:323-346 | the method computes exactly `StatusHelperOf` |
| Grids.Grid.Overcrowded | grid.py:330-336 | the dictionary count finds a count above 2 iff some pair is overloaded |
| Grids.Grid.ScanIslands | grid.py:337-346 | the island loop computes exactly `HelperFrom` |
| Grids.Grid.PotentialOf | grid.py:338-341 | the sum of capacities of neighbours whose bridge crosses nothing |
| Grids.Grid.AllComplete | grid.py:158-165 | true iff every capacity is 0 |
| Grids.Grid.SetAllUnvisited | grid.py:141-146 | every flag becomes false |
| Grids.Grid.ExistsUnvisited | grid.py:148-156 | true iff some island is unvisited |
| Grids.Grid.Dfs | grid.py:308-321 | marks the start island, lowers no flag, marks only islands reachable from it, and leaves no newly marked island with an unmarked island across a bridge |
| Grids.Grid.Cross | grid.py:315-321 | one pass of the bridge loop keeps the marking invariant and marks the island across that bridge |
| Grids.Grid.Status | grid.py:348-362 | `status` leaves the grid value unchanged and returns `StatusOf` |
| Grids.Grid.Spans | grid.py:358-361 | the depth-first search leaves no island unvisited iff every island is reachable from the first |
| Grids.Grid.Nearest | grid.py:230-239 | the scan in one direction finds the nearest island there, or none when there is none on the board |
| Grids.Grid.NearestIsVisible | grid.py:230-239 | the island the scan finds is visible |
| Grids.Grid.Connect | grid.py:229-239 | one direction of `update_neighbors` keeps lists sound, only grows them, links the visible island in that direction, and changes nothing once resolved |
| Grids.Grid.ConnectIsland | grid.py:226-272 | the four directions link an island to every island it sees and drop nothing |
| Grids.Grid.UpdateNeighbors | grid.py:222-272 | afterwards every list is duplicate-free and lists only islands its owner sees; when all islands lie on the board it lists every island its owner sees; a second run changes nothing |
| Solvers.Positions | solver.py:10-11 | the k-th island is created at the k-th triple's position |
| Solvers.Capacities | solver.py:10-11 | the k-th island is created with the k-th triple's capacity |
| Solvers.NewGrid | solver.py:9-11 | a grid holding the triples' islands in order, with their capacities, no neighbours and no bridges |
| Solvers.EmptyPassIsFixed | solver.py:25-27 | a pass of `logic` that builds nothing leaves the grid as it was, so another pass would build nothing either |
| Solvers.RoundFacts | solver.py:44-84 | a pass of `logic` adds exactly what it returns and never raises the slack, lowering it when it returns bridges |
| Solvers.Solver.constructor | solver.py:5-14 | islands from the triples in order, no bridges, the untouched copy kept; when all islands lie on the board, neighbours are resolved |
| Solvers.Solver.DeduceAt | solver.py:54-83 | the tally loop and the rule choice compute exactly `Deduce` |
| Solvers.Solver.Build | solver.py:72-74 | adding the bridges one by one gives `AddAll` and keeps the invariant |
| Solvers.Solver.LogicAt | solver.py:53-83 | one island's step adds exactly the bridges `Deduce` decides on, and the loop's progress through the pass `Rounds.Logic` moves on by one island |
| Solvers.Solver.Logic | solver.py:44-84 | `logic` computes exactly the pass `Rounds.Logic`, bridges and final grid |
| Solvers.Solver.Round | solver.py:25-27 | one call of `logic` adds exactly the returned bridges, never raises the slack, and lowers it when it returns any; when it returns none, another call would build nothing |
| Solvers.Solver.LogicRounds | solver.py:23-27 | the deduction loop records every bridge it adds in the undo log, never raises the slack, and ends at a grid on which another pass of `logic` would build nothing |
| Solvers.Solver.Undo | solver.py:40-41 | deleting the undo log gives back the bag of bridges from before the deduction loop |
| Solvers.Solver.UndoOne | solver.py:40-41 | each deletion takes one logged bridge off the grid |
| Solvers.Solver.Search | solver.py:16-42 | returns 1 or -1; on 1 the grid's status is 1 and it kept every bridge it had; on -1 the grid is as it was on entry; a solved grid is returned as is, and a grid with status -1 fails at once |
| Solvers.Solver.SearchOn | solver.py:28-42 | the rest of `search` after deduction: returns 1 or -1; on 1 the status is 1 and every bridge from before deduction is kept; on -1 the logged bridges are deleted and the grid is as it was before deduction |
| Solvers.Solver.TryAll | solver.py:30-37 | tries candidates in order; on 1 the status is 1 and no bridge was lost; on -1 the grid is unchanged |
| Solvers.Solver.Try | solver.py:31-35 | adds the bridge and searches on; deletes it again on failure, which restores the grid |

## Left out

- `__str__` and `__repr__` of `Island`, `Bridge`, `IslandList`, `BridgeList`, `Grid` and `Solver`: text output only.
- `Island.neighbor_num` (grid.py:14-20): never called, and it would fail on a list.
- make_testcase.py and run_testcases.py: a GUI and a batch runner that read, parse and print; all of it is input and output.
- `IslandList.island_dict` as a hash table: `get_island` is a search over the positions with the same result.
- Island objects shared between lists: each island is a number, and its fields are sequences in the grid, so aliasing is not modelled.
- `Solver.bridge_list` is never used and is not modelled. The copy `island_list[:]` is the constant `islands`.
- Python's recursion limit: `search` is proved to end by the slack measure, and its recursion depth is not bounded.
- Grids.Grid.AddIsland: requires a position not yet on the grid. With a repeated position the source would list two islands there, and its dictionary would keep only the later one.
- Solvers.Solver.constructor: requires distinct positions in the triples, for the same reason.
- Solvers.Solver.Search: failure restores the grid value, which is the bags of bridges and the capacities. It does not restore the order of entries in the lists, because `list.remove` deletes the first equal entry.
- Grids.Grid.UpdateNeighbors: the promise that every visible island is listed holds only when every island lies on the board. The scans stop at the board's edges.
- Rounds.DeduceKeepsBounded: the bound of three bridges per pair is proved for one island's step of `logic`. It is not carried as an invariant through whole passes and the search, which need only the slack measure.
- The `initial` field of the grid is ghost. It records each island's starting capacity, which the source does not store.
