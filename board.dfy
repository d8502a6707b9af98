// The abstract state of a puzzle grid (the fields of Grid, IslandList,
// BridgeList and Island in grid.py) and the effect of adding and deleting a
// bridge on it. Islands are numbered by their position in the island list.
module Puzzle {
  import opened Geometry

  datatype Option<T> = None | Some(value: T)

  /** What a grid holds, per island i: its position coords[i], the islands
      listed as its neighbours, its remaining capacity and the bag of
      bridges in its own list; and the bag of all bridges of the grid. */
  datatype Board = Board(
    coords: seq<Coord>,
    neighbors: seq<seq<nat>>,
    capacity: seq<int>,
    incident: seq<multiset<Bridge>>,
    bridges: multiset<Bridge>)

  /** No two islands share a position. */
  predicate Distinct(coords: seq<Coord>) {
    forall i, j :: 0 <= i < j < |coords| ==> coords[i] != coords[j]
  }

  predicate WellFormed(g: Board) {
    && |g.neighbors| == |g.coords|
    && |g.capacity| == |g.coords|
    && |g.incident| == |g.coords|
    && Distinct(g.coords)
    && (forall i, k :: 0 <= i < |g.neighbors| && 0 <= k < |g.neighbors[i]| ==> g.neighbors[i][k] < |g.coords|)
  }

  /** The position of the first element of s equal to x. */
  function FirstIndex<T(==)>(s: seq<T>, x: T): (k: nat)
    requires x in s
    ensures k < |s| && s[k] == x && x !in s[..k]
  {
    if s[0] == x then 0
    else
      var k := FirstIndex(s[1..], x);
      assert s[..k + 1] == [s[0]] + s[1..][..k];
      k + 1
  }

  /** IslandList.get_island: the island at position c, if there is one. */
  function IslandAt(coords: seq<Coord>, c: Coord): (r: Option<nat>)
    ensures r.Some? ==> r.value < |coords| && coords[r.value] == c
    ensures r.None? <==> c !in coords
  {
    if c in coords then Some(FirstIndex(coords, c)) else None
  }

  /** The number of the island at a position known to hold one. */
  function Index(coords: seq<Coord>, c: Coord): (r: nat)
    requires c in coords
    ensures r < |coords| && coords[r] == c
    ensures Distinct(coords) ==> forall k :: 0 <= k < |coords| && coords[k] == c ==> k == r
  {
    IslandAt(coords, c).value
  }

  /** A bridge as Bridge.__init__ builds it between two different islands. */
  predicate Proper(coords: seq<Coord>, b: Bridge) {
    Canonical(b) && b.end1 != b.end2 && b.end1 in coords && b.end2 in coords
  }

  /** The grid's bookkeeping agrees with itself: every bridge joins two
      islands, and each island's list holds exactly the grid's bridges that
      touch it, as often as the grid's list does. */
  ghost predicate Consistent(g: Board) {
    && WellFormed(g)
    && (forall b {:trigger Proper(g.coords, b)} :: b in g.bridges ==> Proper(g.coords, b))
    && (forall i, b {:trigger g.incident[i][b]} :: 0 <= i < |g.coords| ==>
          g.incident[i][b] == if Touches(b, g.coords[i]) then g.bridges[b] else 0)
  }

  /** Each island's remaining capacity is its initial capacity less the
      number of bridges in its own list. */
  predicate CapacityTracks(g: Board, initial: seq<int>)
    requires WellFormed(g)
  {
    && |initial| == |g.coords|
    && forall i :: 0 <= i < |g.coords| ==> g.capacity[i] == initial[i] - |g.incident[i]|
  }

  /** Island.complete */
  predicate Complete(g: Board, i: nat)
    requires WellFormed(g) && i < |g.coords|
  {
    g.capacity[i] == 0
  }

  /** The bridge from island i to island j, as the source builds it. */
  function Link(g: Board, i: nat, j: nat): Bridge
    requires i < |g.coords| && j < |g.coords|
  {
    MakeBridge(g.coords[i], g.coords[j])
  }

  /** Island.bridges_to: copies of the i-j bridge in island i's own list. */
  function BridgesTo(g: Board, i: nat, j: nat): nat
    requires WellFormed(g) && i < |g.coords| && j < |g.coords|
  {
    g.incident[i][Link(g, i, j)]
  }

  /** BridgeList.conflict, as a property of the bag of bridges. */
  predicate Conflicts(bag: multiset<Bridge>, p: Bridge) {
    exists b :: b in bag && Intersects(b, p)
  }

  /** Grid.add_bridge: the bridge joins the grid's list and the lists of both
      of its islands, each of which loses one unit of capacity. */
  function AddBoard(g: Board, b: Bridge): Board
    requires WellFormed(g) && b.end1 in g.coords && b.end2 in g.coords
  {
    var i := Index(g.coords, b.end1);
    var j := Index(g.coords, b.end2);
    var inc := g.incident[i := g.incident[i] + multiset{b}];
    var cap := g.capacity[i := g.capacity[i] - 1];
    g.(bridges := g.bridges + multiset{b},
       incident := inc[j := inc[j] + multiset{b}],
       capacity := cap[j := cap[j] - 1])
  }

  /** Grid.delete_bridge: one copy of the bridge leaves each of the three
      lists (list.remove fails on a missing bridge, hence the requires; in a
      consistent grid a listed bridge is in its islands' lists too, see
      ListedBridgeIsIncident), and both islands get one unit of capacity back. */
  function DeleteBoard(g: Board, b: Bridge): Board
    requires WellFormed(g) && b.end1 in g.coords && b.end2 in g.coords
    requires b in g.bridges
  {
    var i := Index(g.coords, b.end1);
    var j := Index(g.coords, b.end2);
    var inc := g.incident[i := g.incident[i] - multiset{b}];
    var cap := g.capacity[i := g.capacity[i] + 1];
    g.(bridges := g.bridges - multiset{b},
       incident := inc[j := inc[j] - multiset{b}],
       capacity := cap[j := cap[j] + 1])
  }

  /** In a consistent grid a listed bridge is in both of its islands' lists. */
  lemma ListedBridgeIsIncident(g: Board, b: Bridge)
    requires Consistent(g) && b in g.bridges
    ensures Proper(g.coords, b)
    ensures b in g.incident[Index(g.coords, b.end1)] && b in g.incident[Index(g.coords, b.end2)]
  {
    assert Proper(g.coords, b);
    var i := Index(g.coords, b.end1);
    var j := Index(g.coords, b.end2);
    assert g.incident[i][b] == g.bridges[b];
    assert g.incident[j][b] == g.bridges[b];
  }

  /** add_bridge appends the bridge to the lists of exactly its two islands. */
  lemma AddBoardAt(g: Board, b: Bridge, k: nat)
    requires WellFormed(g) && b.end1 in g.coords && b.end2 in g.coords && b.end1 != b.end2
    requires k < |g.coords|
    ensures AddBoard(g, b).incident[k] == if Touches(b, g.coords[k]) then g.incident[k] + multiset{b} else g.incident[k]
    ensures AddBoard(g, b).capacity[k] == if Touches(b, g.coords[k]) then g.capacity[k] - 1 else g.capacity[k]
  {
  }

  /** delete_bridge removes one copy from the lists of exactly its two
      islands. */
  lemma DeleteBoardAt(g: Board, b: Bridge, k: nat)
    requires WellFormed(g) && b.end1 in g.coords && b.end2 in g.coords && b.end1 != b.end2
    requires b in g.bridges && k < |g.coords|
    ensures DeleteBoard(g, b).incident[k] == if Touches(b, g.coords[k]) then g.incident[k] - multiset{b} else g.incident[k]
    ensures DeleteBoard(g, b).capacity[k] == if Touches(b, g.coords[k]) then g.capacity[k] + 1 else g.capacity[k]
  {
  }

  /** After an add, each island's list still holds exactly the grid's
      bridges that touch it. */
  lemma AddKeepsIncident(g: Board, b: Bridge)
    requires Consistent(g) && Proper(g.coords, b)
    ensures forall k, x :: 0 <= k < |g.coords| ==>
      AddBoard(g, b).incident[k][x] == if Touches(x, g.coords[k]) then AddBoard(g, b).bridges[x] else 0
  {
    var h := AddBoard(g, b);
    forall k, x | 0 <= k < |h.coords|
      ensures h.incident[k][x] == if Touches(x, h.coords[k]) then h.bridges[x] else 0
    {
      AddBoardAt(g, b, k);
      assert g.incident[k][x] == if Touches(x, g.coords[k]) then g.bridges[x] else 0;
    }
  }

  /** Adding a bridge between two islands keeps the bookkeeping consistent. */
  lemma AddKeepsConsistent(g: Board, b: Bridge)
    requires Consistent(g) && Proper(g.coords, b)
    ensures Consistent(AddBoard(g, b))
  {
    AddKeepsIncident(g, b);
  }

  /** After a delete, each island's list still holds exactly the grid's
      bridges that touch it. */
  lemma DeleteKeepsIncident(g: Board, b: Bridge)
    requires Consistent(g) && b in g.bridges && Proper(g.coords, b)
    ensures forall k, x :: 0 <= k < |g.coords| ==>
      DeleteBoard(g, b).incident[k][x] == if Touches(x, g.coords[k]) then DeleteBoard(g, b).bridges[x] else 0
  {
    assert Proper(g.coords, b);
    var h := DeleteBoard(g, b);
    forall k, x | 0 <= k < |h.coords|
      ensures h.incident[k][x] == if Touches(x, h.coords[k]) then h.bridges[x] else 0
    {
      DeleteBoardAt(g, b, k);
      assert g.incident[k][x] == if Touches(x, g.coords[k]) then g.bridges[x] else 0;
      assert g.incident[k][b] == if Touches(b, g.coords[k]) then g.bridges[b] else 0;
    }
  }

  /** Deleting a listed bridge keeps the bookkeeping consistent. */
  lemma DeleteKeepsConsistent(g: Board, b: Bridge)
    requires Consistent(g) && b in g.bridges && Proper(g.coords, b)
    ensures Consistent(DeleteBoard(g, b))
  {
    assert Proper(g.coords, b);
    DeleteKeepsIncident(g, b);
  }

  /** Adding a bridge keeps "capacity = initial capacity - bridges in the
      island's list" true for every island. */
  lemma AddKeepsCapacity(g: Board, b: Bridge, initial: seq<int>)
    requires WellFormed(g) && b.end1 in g.coords && b.end2 in g.coords
    requires CapacityTracks(g, initial)
    ensures CapacityTracks(AddBoard(g, b), initial)
  {
  }

  /** Deleting a bridge keeps the capacity bookkeeping true. */
  lemma DeleteKeepsCapacity(g: Board, b: Bridge, initial: seq<int>)
    requires Consistent(g) && b in g.bridges && Proper(g.coords, b)
    requires CapacityTracks(g, initial)
    ensures CapacityTracks(DeleteBoard(g, b), initial)
  {
    ListedBridgeIsIncident(g, b);
  }

  /** Deleting a bridge right after adding it gives back the grid it started
      from: the bags of bridges and both capacities. */
  lemma AddThenDelete(g: Board, b: Bridge)
    requires WellFormed(g) && b.end1 in g.coords && b.end2 in g.coords && b.end1 != b.end2
    ensures DeleteBoard(AddBoard(g, b), b) == g
  {
    var a := AddBoard(g, b);
    var h := DeleteBoard(a, b);
    forall k | 0 <= k < |g.coords|
      ensures h.incident[k] == g.incident[k] && h.capacity[k] == g.capacity[k]
    {
      AddBoardAt(g, b, k);
      DeleteBoardAt(a, b, k);
    }
    assert h.incident == g.incident;
    assert h.capacity == g.capacity;
  }

  /** Adding back a bridge just deleted also gives back the grid. */
  lemma DeleteThenAdd(g: Board, b: Bridge)
    requires WellFormed(g) && b.end1 in g.coords && b.end2 in g.coords && b.end1 != b.end2
    requires b in g.bridges
    requires b in g.incident[Index(g.coords, b.end1)] && b in g.incident[Index(g.coords, b.end2)]
    ensures AddBoard(DeleteBoard(g, b), b) == g
  {
    var d := DeleteBoard(g, b);
    var h := AddBoard(d, b);
    forall k | 0 <= k < |g.coords|
      ensures h.incident[k] == g.incident[k] && h.capacity[k] == g.capacity[k]
    {
      DeleteThenAddAt(g, b, k);
    }
    assert h.incident == g.incident;
    assert h.capacity == g.capacity;
    assert h.bridges == g.bridges;
  }

  lemma DeleteThenAddAt(g: Board, b: Bridge, k: nat)
    requires WellFormed(g) && b.end1 in g.coords && b.end2 in g.coords && b.end1 != b.end2
    requires b in g.bridges && k < |g.coords|
    requires b in g.incident[Index(g.coords, b.end1)] && b in g.incident[Index(g.coords, b.end2)]
    ensures AddBoard(DeleteBoard(g, b), b).incident[k] == g.incident[k]
    ensures AddBoard(DeleteBoard(g, b), b).capacity[k] == g.capacity[k]
  {
    DeleteBoardAt(g, b, k);
    AddBoardAt(DeleteBoard(g, b), b, k);
    if Touches(b, g.coords[k]) {
      assert b in g.incident[k];
    }
  }

  /** Two consistent grids over the same islands, neighbours and initial
      capacities that hold the same bag of bridges are the same grid: the
      islands' lists and capacities follow from the bag. */
  lemma BagDeterminesBoard(g: Board, h: Board, initial: seq<int>)
    requires Consistent(g) && Consistent(h)
    requires CapacityTracks(g, initial) && CapacityTracks(h, initial)
    requires g.coords == h.coords && g.neighbors == h.neighbors && g.bridges == h.bridges
    ensures g == h
  {
    forall k | 0 <= k < |g.coords|
      ensures g.incident[k] == h.incident[k]
    {
      forall x
        ensures g.incident[k][x] == h.incident[k][x]
      {
        assert g.incident[k][x] == if Touches(x, g.coords[k]) then g.bridges[x] else 0;
        assert h.incident[k][x] == if Touches(x, h.coords[k]) then h.bridges[x] else 0;
      }
    }
    assert g.incident == h.incident;
    assert g.capacity == h.capacity;
  }

  /** bridges_to counts the pair's bridges in the grid's list, whichever of
      the two islands is asked. */
  lemma BridgesToCountsPair(g: Board, i: nat, j: nat)
    requires Consistent(g) && i < |g.coords| && j < |g.coords| && i != j
    ensures BridgesTo(g, i, j) == BridgesTo(g, j, i) == g.bridges[Link(g, i, j)]
  {
    MakeBridgeUnordered(g.coords[i], g.coords[j]);
    assert g.incident[i][Link(g, i, j)] == g.bridges[Link(g, i, j)];
    assert g.incident[j][Link(g, j, i)] == g.bridges[Link(g, j, i)];
  }

  /** list.remove: drop the first element equal to x, keeping the others
      in order. */
  function RemoveFirst<T(==)>(s: seq<T>, x: T): (r: seq<T>)
    requires x in s
    ensures |r| == |s| - 1
    ensures multiset(r) == multiset(s) - multiset{x}
  {
    var k := FirstIndex(s, x);
    assert s == s[..k] + [x] + s[k + 1..];
    s[..k] + s[k + 1..]
  }

  /** The element RemoveFirst drops is the first occurrence of x, and the
      others keep their order. */
  lemma RemoveFirstDropsFirst<T>(s: seq<T>, x: T)
    requires x in s
    ensures exists k :: 0 <= k < |s| && s[k] == x && x !in s[..k] && RemoveFirst(s, x) == s[..k] + s[k + 1..]
  {
    var k := FirstIndex(s, x);
    assert s[k] == x && x !in s[..k];
  }

  /** The bag view of a sequence of lists. */
  function Bags(s: seq<seq<Bridge>>): (r: seq<multiset<Bridge>>)
    ensures |r| == |s| && forall i :: 0 <= i < |s| ==> r[i] == multiset(s[i])
  {
    seq(|s|, i requires 0 <= i < |s| => multiset(s[i]))
  }

  /** Appending a bridge to one island's list adds it to that island's bag. */
  lemma BagsAppend(s: seq<seq<Bridge>>, i: nat, b: Bridge)
    requires i < |s|
    ensures Bags(s[i := s[i] + [b]]) == Bags(s)[i := Bags(s)[i] + multiset{b}]
  {
  }

  /** Removing a bridge from one island's list removes one copy from its bag. */
  lemma BagsRemove(s: seq<seq<Bridge>>, i: nat, b: Bridge)
    requires i < |s| && b in s[i]
    ensures Bags(s[i := RemoveFirst(s[i], b)]) == Bags(s)[i := Bags(s)[i] - multiset{b}]
  {
  }

  /** The bookkeeping does not look at the neighbour lists beyond their
      range. */
  lemma NeighborsIrrelevant(g: Board, initial: seq<int>, nbs: seq<seq<nat>>)
    requires Consistent(g) && CapacityTracks(g, initial)
    requires WellFormed(g.(neighbors := nbs))
    ensures Consistent(g.(neighbors := nbs)) && CapacityTracks(g.(neighbors := nbs), initial)
  {
  }

  /** Grid.add_island: the grid with one more island at c, with no
      neighbours and no bridges yet. */
  function WithIsland(g: Board, c: Coord, capacity: int): (h: Board)
    ensures h.coords == g.coords + [c] && h.bridges == g.bridges
  {
    Board(g.coords + [c], g.neighbors + [[]], g.capacity + [capacity], g.incident + [multiset{}], g.bridges)
  }

  /** A new island at a free position keeps the bookkeeping true. */
  lemma AddIslandKeeps(g: Board, initial: seq<int>, c: Coord, capacity: int)
    requires Consistent(g) && CapacityTracks(g, initial) && c !in g.coords
    ensures Consistent(WithIsland(g, c, capacity))
    ensures CapacityTracks(WithIsland(g, c, capacity), initial + [capacity])
  {
    var h := WithIsland(g, c, capacity);
    AddIslandWellFormed(g, c, capacity);
    forall b | b in h.bridges
      ensures Proper(h.coords, b)
    {
      assert Proper(g.coords, b);
    }
    forall k, b | 0 <= k < |h.coords|
      ensures h.incident[k][b] == if Touches(b, h.coords[k]) then h.bridges[b] else 0
    {
      AddIslandIncident(g, c, capacity, k, b);
    }
    AddIslandCapacity(g, initial, c, capacity);
  }

  lemma AddIslandCapacity(g: Board, initial: seq<int>, c: Coord, capacity: int)
    requires WellFormed(g) && CapacityTracks(g, initial) && c !in g.coords
    ensures WellFormed(WithIsland(g, c, capacity))
    ensures CapacityTracks(WithIsland(g, c, capacity), initial + [capacity])
  {
    var h := WithIsland(g, c, capacity);
    var n := |g.coords|;
    AddIslandWellFormed(g, c, capacity);
    forall i | 0 <= i < |h.coords|
      ensures h.capacity[i] == (initial + [capacity])[i] - |h.incident[i]|
    {
      if i < n {
        assert h.capacity[i] == g.capacity[i] && h.incident[i] == g.incident[i];
      }
    }
  }

  lemma AddIslandWellFormed(g: Board, c: Coord, capacity: int)
    requires WellFormed(g) && c !in g.coords
    ensures WellFormed(WithIsland(g, c, capacity))
  {
    var h := WithIsland(g, c, capacity);
    forall i, k | 0 <= i < |h.neighbors| && 0 <= k < |h.neighbors[i]|
      ensures h.neighbors[i][k] < |h.coords|
    {
      if i < |g.coords| {
        assert h.neighbors[i] == g.neighbors[i];
      }
    }
  }

  lemma AddIslandIncident(g: Board, c: Coord, capacity: int, k: nat, b: Bridge)
    requires Consistent(g) && c !in g.coords && k <= |g.coords|
    ensures var h := WithIsland(g, c, capacity);
      h.incident[k][b] == if Touches(b, h.coords[k]) then h.bridges[b] else 0
  {
    var h := WithIsland(g, c, capacity);
    if k < |g.coords| {
      assert h.incident[k] == g.incident[k] && h.coords[k] == g.coords[k];
      assert g.incident[k][b] == if Touches(b, g.coords[k]) then g.bridges[b] else 0;
    } else if b in g.bridges {
      assert Proper(g.coords, b);
    }
  }

  /** The island across a bridge in an island's own list is an island of
      the grid. */
  lemma IncidentOther(g: Board, u: nat, b: Bridge)
    requires Consistent(g) && u < |g.coords| && b in g.incident[u]
    ensures Touches(b, g.coords[u]) && Other(b, g.coords[u]) in g.coords
    ensures Other(b, g.coords[u]) != g.coords[u]
  {
    assert g.incident[u][b] == if Touches(b, g.coords[u]) then g.bridges[b] else 0;
    assert Proper(g.coords, b);
  }

  /** The grid's lists after add_bridge appended b to the list of island i
      and then to that of island j, seen as bags. */
  lemma AppendTwice(inc: seq<seq<Bridge>>, i: nat, j: nat, b: Bridge)
    requires i < |inc| && j < |inc|
    ensures var inc1 := inc[i := inc[i] + [b]];
      var bags := Bags(inc)[i := Bags(inc)[i] + multiset{b}];
      Bags(inc1[j := inc1[j] + [b]]) == bags[j := bags[j] + multiset{b}]
  {
    var inc1 := inc[i := inc[i] + [b]];
    BagsAppend(inc, i, b);
    BagsAppend(inc1, j, b);
  }

  /** The same for delete_bridge. */
  lemma RemoveTwice(inc: seq<seq<Bridge>>, i: nat, j: nat, b: Bridge)
    requires i < |inc| && j < |inc| && i != j && b in inc[i] && b in inc[j]
    ensures var inc1 := inc[i := RemoveFirst(inc[i], b)];
      var bags := Bags(inc)[i := Bags(inc)[i] - multiset{b}];
      Bags(inc1[j := RemoveFirst(inc1[j], b)]) == bags[j := bags[j] - multiset{b}]
  {
    var inc1 := inc[i := RemoveFirst(inc[i], b)];
    BagsRemove(inc, i, b);
    BagsRemove(inc1, j, b);
  }

  /** add_bridge on a grid kept as lists: the bridge is appended to the
      grid's list and to the lists of its two islands, each of which loses a
      unit of capacity. */
  lemma AddBridgeLists(coords: seq<Coord>, nbs: seq<seq<nat>>, cap: seq<int>, inc: seq<seq<Bridge>>, bs: seq<Bridge>, b: Bridge)
    requires WellFormed(Board(coords, nbs, cap, Bags(inc), multiset(bs))) && b.end1 in coords && b.end2 in coords
    ensures var i, j := Index(coords, b.end1), Index(coords, b.end2);
      var inc1, cap1 := inc[i := inc[i] + [b]], cap[i := cap[i] - 1];
      AddBoard(Board(coords, nbs, cap, Bags(inc), multiset(bs)), b)
        == Board(coords, nbs, cap1[j := cap1[j] - 1], Bags(inc1[j := inc1[j] + [b]]), multiset(bs + [b]))
  {
    AppendTwice(inc, Index(coords, b.end1), Index(coords, b.end2), b);
  }

  /** delete_bridge on a grid kept as lists. */
  lemma DeleteBridgeLists(coords: seq<Coord>, nbs: seq<seq<nat>>, cap: seq<int>, inc: seq<seq<Bridge>>, bs: seq<Bridge>, b: Bridge)
    requires WellFormed(Board(coords, nbs, cap, Bags(inc), multiset(bs))) && b.end1 in coords && b.end2 in coords
    requires b.end1 != b.end2 && b in bs
    requires b in inc[Index(coords, b.end1)] && b in inc[Index(coords, b.end2)]
    ensures var i, j := Index(coords, b.end1), Index(coords, b.end2);
      var inc1, cap1 := inc[i := RemoveFirst(inc[i], b)], cap[i := cap[i] + 1];
      DeleteBoard(Board(coords, nbs, cap, Bags(inc), multiset(bs)), b)
        == Board(coords, nbs, cap1[j := cap1[j] + 1], Bags(inc1[j := RemoveFirst(inc1[j], b)]), multiset(RemoveFirst(bs, b)))
  {
    RemoveTwice(inc, Index(coords, b.end1), Index(coords, b.end2), b);
  }

  /** add_bridge keeps both parts of the bookkeeping. */
  lemma AddKeeps(g: Board, b: Bridge, initial: seq<int>)
    requires Consistent(g) && CapacityTracks(g, initial) && Proper(g.coords, b)
    ensures Consistent(AddBoard(g, b)) && CapacityTracks(AddBoard(g, b), initial)
  {
    AddKeepsConsistent(g, b);
    AddKeepsCapacity(g, b, initial);
  }

  /** delete_bridge on a listed bridge keeps both parts of the bookkeeping;
      the bridge is proper and sits in the lists of both its islands. */
  lemma DeleteKeeps(g: Board, b: Bridge, initial: seq<int>)
    requires Consistent(g) && CapacityTracks(g, initial) && b in g.bridges
    ensures Proper(g.coords, b)
    ensures b in g.incident[Index(g.coords, b.end1)] && b in g.incident[Index(g.coords, b.end2)]
    ensures Consistent(DeleteBoard(g, b)) && CapacityTracks(DeleteBoard(g, b), initial)
  {
    ListedBridgeIsIncident(g, b);
    DeleteKeepsConsistent(g, b);
    DeleteKeepsCapacity(g, b, initial);
  }
}
