// The Grid class of grid.py together with the lists it owns: the islands
// (Island, IslandList) and the bridges (BridgeList). Their fields are updated
// in place while the solver runs, so the grid is a class; each island's own
// fields are kept here as one sequence per field, indexed by island number.
module Grids {
  import opened Geometry
  import opened Puzzle
  import opened Neighbors
  import opened Candidates
  import opened Status

  class Grid {
    const width: int
    const height: int
    /** Island positions, in the order add_island received them. */
    var coords: seq<Coord>
    /** Island.capacity: what each island still needs. */
    var capacity: seq<int>
    /** Island.neighbors, as island numbers. */
    var neighbors: seq<seq<nat>>
    /** Island.bridges: each island's own list of bridges. */
    var incident: seq<seq<Bridge>>
    /** BridgeList.bridge_list */
    var bridges: seq<Bridge>
    /** Island.visited */
    var visited: seq<bool>
    /** The capacity each island was created with. */
    ghost var initial: seq<int>

    /** The grid as a value. */
    ghost function Abs(): Board
      reads this`coords, this`neighbors, this`capacity, this`incident, this`bridges
    {
      Board(coords, neighbors, capacity, Bags(incident), multiset(bridges))
    }

    /** Every island has one entry in each per-island sequence. */
    ghost predicate Shaped()
      reads this`coords, this`neighbors, this`capacity, this`incident, this`bridges
    {
      |incident| == |coords| && WellFormed(Abs())
    }

    /** The bookkeeping agrees with itself and with the initial capacities. */
    ghost predicate Valid()
      reads this`coords, this`neighbors, this`capacity, this`incident, this`bridges, this`initial
    {
      && Shaped()
      && Consistent(Abs())
      && CapacityTracks(Abs(), initial)
    }

    /** Grid.__init__ */
    constructor(width: int, height: int)
      ensures Valid() && |visited| == |coords| && this.width == width && this.height == height
      ensures coords == [] && bridges == []
    {
      this.width, this.height := width, height;
      coords, capacity, neighbors, incident, bridges, visited := [], [], [], [], [], [];
      initial := [];
    }

    /** Grid.add_island */
    method AddIsland(x: int, y: int, c: int)
      requires Valid() && |visited| == |coords| && Coord(x, y) !in coords
      modifies this
      ensures Valid() && |visited| == |coords|
      ensures Abs() == WithIsland(old(Abs()), Coord(x, y), c)
      ensures coords == old(coords) + [Coord(x, y)] && capacity == old(capacity) + [c]
      ensures neighbors == old(neighbors) + [[]] && bridges == old(bridges)
      ensures initial == old(initial) + [c]
    {
      ghost var A := Abs();
      AddIslandKeeps(A, initial, Coord(x, y), c);
      coords := coords + [Coord(x, y)];
      capacity := capacity + [c];
      neighbors := neighbors + [[]];
      incident := incident + [[]];
      visited := visited + [false];
      initial := initial + [c];
      assert Bags(incident) == A.incident + [multiset{}];
      assert Abs() == WithIsland(A, Coord(x, y), c);
    }

    /** Island.add_bridge */
    method AttachBridge(i: nat, b: Bridge)
      requires i < |incident| && i < |capacity|
      modifies this`incident, this`capacity
      ensures incident == old(incident)[i := old(incident)[i] + [b]]
      ensures capacity == old(capacity)[i := old(capacity)[i] - 1]
    {
      incident := incident[i := incident[i] + [b]];
      capacity := capacity[i := capacity[i] - 1];
    }

    /** Island.delete_bridge; list.remove fails on a bridge the island does
        not hold. */
    method DetachBridge(i: nat, b: Bridge)
      requires i < |incident| && i < |capacity| && b in incident[i]
      modifies this`incident, this`capacity
      ensures incident == old(incident)[i := RemoveFirst(old(incident)[i], b)]
      ensures capacity == old(capacity)[i := old(capacity)[i] + 1]
    {
      incident := incident[i := RemoveFirst(incident[i], b)];
      capacity := capacity[i := capacity[i] + 1];
    }

    /** The three list updates of Grid.add_bridge: BridgeList.add_bridge,
        then Island.add_bridge on each end. */
    method PushBridge(b: Bridge)
      requires Shaped() && Proper(coords, b)
      modifies this`bridges, this`incident, this`capacity
      ensures Shaped() && Abs() == AddBoard(old(Abs()), b)
      ensures bridges == old(bridges) + [b]
    {
      AddBridgeLists(coords, neighbors, capacity, incident, bridges, b);
      bridges := bridges + [b];
      AttachBridge(Index(coords, b.end1), b);
      AttachBridge(Index(coords, b.end2), b);
    }

    /** The three list updates of Grid.delete_bridge: BridgeList.delete_bridge,
        then Island.delete_bridge on each end. */
    method PopBridge(b: Bridge)
      requires Shaped() && Proper(coords, b) && b in Abs().bridges
      requires b in Abs().incident[Index(coords, b.end1)] && b in Abs().incident[Index(coords, b.end2)]
      modifies this`bridges, this`incident, this`capacity
      ensures Shaped() && Abs() == DeleteBoard(old(Abs()), b)
      ensures bridges == RemoveFirst(old(bridges), b)
    {
      var i, j := Index(coords, b.end1), Index(coords, b.end2);
      ghost var inc, cap, bs := incident, capacity, bridges;
      DeleteBridgeLists(coords, neighbors, cap, inc, bs, b);
      ghost var inc1, cap1 := inc[i := RemoveFirst(inc[i], b)], cap[i := cap[i] + 1];
      ghost var B := Board(coords, neighbors, cap1[j := cap1[j] + 1], Bags(inc1[j := RemoveFirst(inc1[j], b)]), multiset(RemoveFirst(bs, b)));
      assert old(Abs()) == Board(coords, neighbors, cap, Bags(inc), multiset(bs));
      assert DeleteBoard(old(Abs()), b) == B;
      bridges := RemoveFirst(bridges, b);
      DetachBridge(i, b);
      assert incident == inc1 && capacity == cap1;
      DetachBridge(j, b);
    }

    /** Grid.add_bridge: the bridge joins the grid's list and both islands'
        lists, and the bookkeeping stays true. */
    method AddBridge(b: Bridge)
      requires Valid() && Proper(coords, b)
      modifies this`bridges, this`incident, this`capacity
      ensures Valid()
      ensures Abs() == AddBoard(old(Abs()), b)
      ensures bridges == old(bridges) + [b]
    {
      AddKeeps(Abs(), b, initial);
      PushBridge(b);
    }

    /** Grid.delete_bridge: the bridge must be on the grid (list.remove);
        one copy leaves each of the three lists. */
    method DeleteBridge(b: Bridge)
      requires Valid() && b in bridges
      modifies this`bridges, this`incident, this`capacity
      ensures Valid()
      ensures Proper(old(coords), b) && Abs() == DeleteBoard(old(Abs()), b)
      ensures bridges == RemoveFirst(old(bridges), b)
    {
      DeleteKeeps(Abs(), b, initial);
      PopBridge(b);
    }

    /** BridgeList.conflict: some bridge on the grid crosses p. */
    method Conflict(p: Bridge) returns (r: bool)
      ensures r == Conflicts(multiset(bridges), p)
    {
      var k := 0;
      while k < |bridges|
        invariant k <= |bridges|
        invariant forall m :: 0 <= m < k ==> !Intersects(bridges[m], p)
      {
        if Intersects(bridges[k], p) {
          assert bridges[k] in multiset(bridges);
          return true;
        }
        k := k + 1;
      }
      return false;
    }

    /** Island.bridges_to: copies of the bridge to island j in island i's
        own list. */
    method BridgesTo(i: nat, j: nat) returns (r: nat)
      requires Shaped() && i < |coords| && j < |coords|
      ensures r == Puzzle.BridgesTo(Abs(), i, j)
    {
      var p := MakeBridge(coords[i], coords[j]);
      var own := incident[i];
      r := 0;
      var k := 0;
      while k < |own|
        invariant k <= |own| && r == multiset(own[..k])[p]
      {
        assert own[..k + 1] == own[..k] + [own[k]];
        if own[k] == p {
          r := r + 1;
        }
        k := k + 1;
      }
      assert own[..k] == own;
    }

    /** Grid.valid_bridges, loop for loop. */
    method ValidBridges() returns (v: seq<Bridge>)
      requires Shaped()
      ensures v == Candidates.ValidBridges(Abs())
    {
      ghost var A := Abs();
      v := [];
      var i := 0;
      while i < |coords|
        invariant i <= |coords|
        invariant CollectFrom(A, i, v) == Candidates.ValidBridges(A)
      {
        if capacity[i] != 0 {
          v := ScanRow(A, i, v);
        }
        i := i + 1;
      }
    }

    /** The inner loop of Grid.valid_bridges over the neighbours of island
        i, appending each open link not yet listed. */
    method ScanRow(ghost A: Board, i: nat, v0: seq<Bridge>) returns (v: seq<Bridge>)
      requires Shaped() && A == Abs() && i < |coords|
      ensures v == ScanNeighbors(A, i, 0, v0)
    {
      v := v0;
      var k := 0;
      while k < |neighbors[i]|
        invariant k <= |neighbors[i]|
        invariant ScanNeighbors(A, i, k, v) == ScanNeighbors(A, i, 0, v0)
      {
        var j := neighbors[i][k];
        if capacity[j] != 0 {
          var n := BridgesTo(i, j);
          if n < 2 {
            var p := MakeBridge(coords[i], coords[j]);
            var c := Conflict(p);
            if !c && p !in v {
              v := v + [p];
            }
          }
        }
        k := k + 1;
      }
    }

    /** Grid.status_helper: -1 when some pair carries more than two bridges
        or the first island not passed over fails the feasibility test, 0
        when it is merely incomplete, 1 when every island is complete. */
    method StatusHelper() returns (r: int)
      requires Valid()
      ensures r == StatusHelperOf(Abs())
    {
      forall m | 0 <= m < |bridges|
        ensures Canonical(bridges[m])
      {
        assert bridges[m] in Abs().bridges && Proper(coords, bridges[m]);
      }
      var over := Overcrowded();
      if over {
        return -1;
      }
      r := ScanIslands();
    }

    /** The first half of Grid.status_helper: count the bridges under their
        end coordinates in a dictionary and look for a count above two. */
    method Overcrowded() returns (r: bool)
      requires forall m :: 0 <= m < |bridges| ==> Canonical(bridges[m])
      ensures r == Overloaded(multiset(bridges))
    {
      var counts: map<(int, int, int, int), nat> := map[];
      var k := 0;
      while k < |bridges|
        invariant k <= |bridges| && counts == KeyCounts(bridges[..k])
      {
        assert bridges[..k + 1][..k] == bridges[..k];
        var key := Key(bridges[k]);
        counts := counts[key := (if key in counts then counts[key] else 0) + 1];
        k := k + 1;
      }
      assert bridges[..k] == bridges;
      OverCountIffOverloaded(bridges);
      var values := counts.Values;
      while values != {}
        invariant values <= counts.Values
        invariant forall key :: key in counts && counts[key] !in values ==> counts[key] <= 2
        decreases values
      {
        var c :| c in values;
        if c > 2 {
          return true;
        }
        values := values - {c};
      }
      return false;
    }

    /** The island loop of Grid.status_helper. */
    method ScanIslands() returns (r: int)
      requires Shaped()
      ensures r == HelperFrom(Abs(), 0)
    {
      ghost var A := Abs();
      var i := 0;
      while i < |coords|
        invariant i <= |coords| && HelperFrom(A, i) == HelperFrom(A, 0)
      {
        var potential := PotentialOf(i);
        if potential < capacity[i] || capacity[i] < 0 {
          return -1;
        }
        if capacity[i] != 0 {
          return 0;
        }
        i := i + 1;
      }
      return 1;
    }

    /** potential_bridge_num in Grid.status_helper: the summed capacities of
        island i's neighbours whose bridge to i would cross nothing. */
    method PotentialOf(i: nat) returns (potential: int)
      requires Shaped() && i < |coords|
      ensures potential == Potential(Abs(), i, |neighbors[i]|)
    {
      potential := 0;
      var m := 0;
      while m < |neighbors[i]|
        invariant m <= |neighbors[i]| && potential == Potential(Abs(), i, m)
      {
        var j := neighbors[i][m];
        var c := Conflict(MakeBridge(coords[i], coords[j]));
        if !c {
          potential := potential + capacity[j];
        }
        m := m + 1;
      }
    }

    /** IslandList.all_complete */
    method AllComplete() returns (r: bool)
      ensures r <==> forall i :: 0 <= i < |capacity| ==> capacity[i] == 0
    {
      var i := 0;
      while i < |capacity|
        invariant i <= |capacity| && forall e :: 0 <= e < i ==> capacity[e] == 0
      {
        if capacity[i] != 0 {
          return false;
        }
        i := i + 1;
      }
      return true;
    }

    /** IslandList.set_all_unvisited */
    method SetAllUnvisited()
      requires |visited| == |coords|
      modifies this`visited
      ensures |visited| == |coords| && forall i :: 0 <= i < |visited| ==> !visited[i]
    {
      var i := 0;
      while i < |visited|
        invariant i <= |visited| == |coords|
        invariant forall e :: 0 <= e < i ==> !visited[e]
      {
        visited := visited[i := false];
        i := i + 1;
      }
    }

    /** IslandList.exists_unvisited */
    method ExistsUnvisited() returns (r: bool)
      ensures r <==> exists i :: 0 <= i < |visited| && !visited[i]
    {
      var i := 0;
      while i < |visited|
        invariant i <= |visited| && forall e :: 0 <= e < i ==> visited[e]
      {
        if !visited[i] {
          return true;
        }
        i := i + 1;
      }
      return false;
    }

    /** Grid.dfs from island u across the bridges in each island's own list.
        Every island it marks is reachable from u, and every island it marks
        has all the islands across its bridges marked when it returns. */
    method Dfs(u: nat)
      requires Shaped() && |visited| == |coords| && Crossable(Abs())
      requires u < |coords| && !visited[u]
      modifies this`visited
      ensures |visited| == |coords| && visited[u]
      ensures MarkedFrom(Abs(), old(visited), visited, u)
      ensures ClosedBut(Abs(), old(visited), visited, -1)
      decreases Unmarked(visited), 1
    {
      ghost var A := Abs();
      ghost var o := visited;
      MarkStart(A, o, u);
      visited := visited[u := true];
      var k := 0;
      while k < |incident[u]|
        invariant k <= |incident[u]| && |visited| == |coords| && visited[u]
        invariant Unmarked(visited) < Unmarked(o)
        invariant MarkedFrom(A, o, visited, u) && ClosedBut(A, o, visited, u)
        invariant forall m, t :: 0 <= m < k && 0 <= t < |coords| && coords[t] == Other(incident[u][m], coords[u]) ==> visited[t]
      {
        Cross(A, u, k, o, Unmarked(o));
        k := k + 1;
      }
      forall v, w | 0 <= v < |visited| && 0 <= w < |visited| && visited[v] && !o[v] && Linked(A, v, w)
        ensures visited[w]
      {
        if v == u {
          var b :| b in A.incident[u] && Other(b, A.coords[u]) == A.coords[w];
          var m :| 0 <= m < |incident[u]| && incident[u][m] == b;
        }
      }
    }

    /** One pass of the loop in Grid.dfs(u): the island w across the k-th
        bridge in u's list is searched from unless it is marked already.
        o holds the flags as dfs(u) found them and U the islands then
        unmarked. */
    method Cross(ghost A: Board, u: nat, k: nat, ghost o: seq<bool>, ghost U: set<nat>)
      requires Shaped() && A == Abs() && |visited| == |coords| && Crossable(A)
      requires u < |coords| && k < |incident[u]| && visited[u]
      requires MarkedFrom(A, o, visited, u) && ClosedBut(A, o, visited, u)
      requires Unmarked(visited) < U
      requires forall m, t :: 0 <= m < k && 0 <= t < |coords| && coords[t] == Other(incident[u][m], coords[u]) ==> visited[t]
      modifies this`visited
      ensures |visited| == |coords| && visited[u] && Unmarked(visited) < U
      ensures MarkedFrom(A, o, visited, u) && ClosedBut(A, o, visited, u)
      ensures forall m, t :: 0 <= m < k + 1 && 0 <= t < |coords| && coords[t] == Other(incident[u][m], coords[u]) ==> visited[t]
      decreases U, 0
    {
      var b := incident[u][k];
      assert b in A.incident[u];
      var w := Index(coords, Other(b, coords[u]));
      if !visited[w] {
        ghost var pre := visited;
        assert Linked(A, u, w);
        Dfs(w);
        MarkingShrinks(A, pre, visited, w);
        MarkCall(A, o, pre, visited, u, w);
        forall m, t | 0 <= m < k + 1 && 0 <= t < |coords| && coords[t] == Other(incident[u][m], coords[u])
          ensures visited[t]
        {
          if m < k {
            assert pre[t];
          }
        }
      }
    }

    /** Grid.status: status_helper's verdict, except that a grid it finds
        complete is incorrect (-1) when the bridges do not connect every
        island to the first. The source reads the first island, so the grid
        must have one. */
    method Status() returns (r: int)
      requires Valid() && |visited| == |coords| && |coords| > 0
      modifies this`visited
      ensures |visited| == |coords| && Abs() == old(Abs())
      ensures r == StatusOf(Abs())
    {
      r := StatusHelper();
      if r == 1 {
        ConsistentIsCrossable(Abs());
        var connected := Spans();
        if !connected {
          r := -1;
        }
      }
    }

    /** The connectivity test of Grid.status: clear every flag, run dfs from
        the first island and look for an island it did not reach. */
    method Spans() returns (r: bool)
      requires Shaped() && |visited| == |coords| && |coords| > 0 && Crossable(Abs())
      modifies this`visited
      ensures |visited| == |coords|
      ensures r == Connected(Abs())
    {
      ghost var A := Abs();
      SetAllUnvisited();
      Dfs(0);
      var e := ExistsUnvisited();
      ghost var S := set v | 0 <= v < |visited| && visited[v];
      assert forall v: nat, w: nat :: v in S && v < |A.coords| && w < |A.coords| && Linked(A, v, w) ==> w in S;
      if e {
        var t :| 0 <= t < |visited| && !visited[t];
        if Reachable(A, 0, t) {
          ClosedContainsReachable(A, S, 0, t);
        }
        r := false;
      } else {
        r := true;
      }
    }

    /** One of the four scans of Grid.update_neighbors: the first island
        met walking from island i in direction d becomes i's neighbour and i
        becomes its neighbour, each unless it is one already. */
    method Connect(i: nat, d: Direction)
      requires Distinct(coords) && NeighborsSound(coords, neighbors) && i < |coords|
      modifies this`neighbors
      ensures NeighborsSound(coords, neighbors) && Grew(old(neighbors), neighbors)
      ensures InBounds(coords, width, height) ==>
        forall j :: 0 <= j < |coords| && Visible(coords, i, j) && Toward(coords[i], coords[j], d) ==> j in neighbors[i]
      ensures old(NeighborsResolved(coords, neighbors)) ==> neighbors == old(neighbors)
    {
      var found := Nearest(i, d);
      if found.Some? {
        var n := found.value;
        NearestIsVisible(i, n, d);
        VisibleSymmetric(coords, i, n);
        ghost var nbs := neighbors;
        if n !in neighbors[i] {
          neighbors := neighbors[i := neighbors[i] + [n]];
        }
        assert neighbors == Befriend(nbs, i, n);
        BefriendKeepsSound(coords, nbs, i, n);
        ghost var nbs' := neighbors;
        if i !in neighbors[n] {
          neighbors := neighbors[n := neighbors[n] + [i]];
        }
        assert neighbors == Befriend(nbs', n, i);
        BefriendKeepsSound(coords, nbs', n, i);
        GrewTransitive(nbs, nbs', neighbors);
        forall j | 0 <= j < |coords| && Visible(coords, i, j) && Toward(coords[i], coords[j], d)
          ensures j in neighbors[i]
        {
          OnePerDirection(coords, i, j, n, d);
        }
      }
    }

    /** The walk of one scan of Grid.update_neighbors: from island i, step
        in direction d while the board goes on, and stop at the first
        island. What it finds is the nearest island in that direction; when
        it finds none and every island lies on the board, there is none. */
    method Nearest(i: nat, d: Direction) returns (found: Option<nat>)
      requires i < |coords|
      ensures found.Some? ==> found.value < |coords| && Toward(coords[i], coords[found.value], d)
      ensures found.Some? ==> forall k :: 0 <= k < |coords| && Toward(coords[i], coords[k], d) ==>
        Dist(coords[i], coords[found.value]) <= Dist(coords[i], coords[k])
      ensures found.None? && InBounds(coords, width, height) ==>
        forall k :: 0 <= k < |coords| ==> !Toward(coords[i], coords[k], d)
    {
      var a := coords[i];
      var c := Step(a, d);
      StepAway(a, a, d, width, height);
      while Room(c, d, width, height) > 0
        invariant Toward(a, c, d)
        invariant forall k :: 0 <= k < |coords| && Toward(a, coords[k], d) ==> Dist(a, c) <= Dist(a, coords[k])
        decreases Room(c, d, width, height)
      {
        found := IslandAt(coords, c);
        if found.Some? {
          return;
        }
        forall k | 0 <= k < |coords| && Toward(a, coords[k], d)
          ensures Dist(a, Step(c, d)) <= Dist(a, coords[k])
        {
          if Dist(a, c) == Dist(a, coords[k]) {
            SameDistance(a, c, coords[k], d);
          }
          StepAway(a, c, d, width, height);
        }
        StepAway(a, c, d, width, height);
        c := Step(c, d);
      }
      forall k | 0 <= k < |coords| && InBounds(coords, width, height) && Toward(a, coords[k], d)
        ensures false
      {
        OffBoard(a, coords[k], c, d, width, height);
      }
      return None;
    }

    /** The island n met first in direction d from island i is one that i
        sees. */
    lemma NearestIsVisible(i: nat, n: nat, d: Direction)
      requires Distinct(coords) && i < |coords| && n < |coords|
      requires Toward(coords[i], coords[n], d)
      requires forall k :: 0 <= k < |coords| && Toward(coords[i], coords[k], d) ==> Dist(coords[i], coords[n]) <= Dist(coords[i], coords[k])
      ensures Visible(coords, i, n)
    {
      VisibleIffNearest(coords, i, n);
    }

    /** Grid.update_neighbors: each island in turn scans west, east, north
        and south. Lists only grow; when every island lies on the board each
        island ends up listing exactly the islands it sees; a second call
        changes nothing. */
    method UpdateNeighbors()
      requires Valid() && NeighborsSound(coords, neighbors)
      modifies this`neighbors
      ensures Valid() && NeighborsSound(coords, neighbors) && Grew(old(neighbors), neighbors)
      ensures InBounds(coords, width, height) ==> NeighborsResolved(coords, neighbors)
      ensures old(NeighborsResolved(coords, neighbors)) ==> neighbors == old(neighbors)
    {
      ghost var A := Abs();
      var i := 0;
      while i < |coords|
        invariant i <= |coords| && Distinct(coords)
        invariant NeighborsSound(coords, neighbors) && Grew(old(neighbors), neighbors)
        invariant InBounds(coords, width, height) ==>
          forall a, j :: 0 <= a < i && 0 <= j < |coords| && Visible(coords, a, j) ==> j in neighbors[a]
        invariant old(NeighborsResolved(coords, neighbors)) ==> neighbors == old(neighbors)
      {
        ghost var before := neighbors;
        ConnectIsland(i);
        GrewTransitive(old(neighbors), before, neighbors);
        i := i + 1;
      }
      forall a, k | 0 <= a < |neighbors| && 0 <= k < |neighbors[a]|
        ensures neighbors[a][k] < |coords|
      {
        assert Visible(coords, a, neighbors[a][k]);
      }
      NeighborsIrrelevant(A, initial, neighbors);
    }

    /** The four scans update_neighbors makes from island i. */
    method ConnectIsland(i: nat)
      requires Distinct(coords) && NeighborsSound(coords, neighbors) && i < |coords|
      modifies this`neighbors
      ensures NeighborsSound(coords, neighbors) && Grew(old(neighbors), neighbors)
      ensures forall a, j :: 0 <= a < |coords| && j in old(neighbors)[a] ==> j in neighbors[a]
      ensures InBounds(coords, width, height) ==>
        forall j :: 0 <= j < |coords| && Visible(coords, i, j) ==> j in neighbors[i]
      ensures old(NeighborsResolved(coords, neighbors)) ==> neighbors == old(neighbors)
    {
      ghost var before := neighbors;
      Connect(i, West);
      ghost var n1 := neighbors;
      Connect(i, East);
      ghost var n2 := neighbors;
      Connect(i, North);
      ghost var n3 := neighbors;
      Connect(i, South);
      GrewTransitive(before, n1, n2);
      GrewTransitive(before, n2, n3);
      GrewTransitive(before, n3, neighbors);
      GrewTransitive(n1, n2, n3);
      GrewTransitive(n1, n3, neighbors);
      GrewTransitive(n2, n3, neighbors);
      GrewTransitive(n3, neighbors, neighbors);
      if InBounds(coords, width, height) {
        forall j | 0 <= j < |coords| && Visible(coords, i, j)
          ensures j in neighbors[i]
        {
          var d := VisibleHasDirection(coords, i, j);
        }
      }
    }
  }
}
