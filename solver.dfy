// The Solver class of solver.py: it builds a grid from a list of islands,
// applies the counting rules of logic until they build nothing more, and
// searches over the remaining valid bridges with backtracking.
module Solvers {
  import opened Geometry
  import opened Puzzle
  import opened Neighbors
  import opened Candidates
  import opened Status
  import opened Deduction
  import opened Rounds
  import opened Grids

  /** The positions of a list of (x, y, capacity) islands. */
  function Positions(list: seq<(int, int, int)>): (r: seq<Coord>)
    ensures |r| == |list|
    ensures forall k :: 0 <= k < |list| ==> r[k] == Coord(list[k].0, list[k].1)
  {
    seq(|list|, k requires 0 <= k < |list| => Coord(list[k].0, list[k].1))
  }

  /** The capacities of a list of (x, y, capacity) islands. */
  function Capacities(list: seq<(int, int, int)>): (r: seq<int>)
    ensures |r| == |list|
    ensures forall k :: 0 <= k < |list| ==> r[k] == list[k].2
  {
    seq(|list|, k requires 0 <= k < |list| => list[k].2)
  }

  lemma PositionsSnoc(list: seq<(int, int, int)>, k: nat)
    requires k < |list|
    ensures Positions(list[..k + 1]) == Positions(list[..k]) + [Coord(list[k].0, list[k].1)]
    ensures Capacities(list[..k + 1]) == Capacities(list[..k]) + [list[k].2]
  {
  }

  /** A position of a list without repeats is not among the positions
      before it. */
  lemma PositionFresh(list: seq<(int, int, int)>, k: nat)
    requires Distinct(Positions(list)) && k < |list|
    ensures Coord(list[k].0, list[k].1) !in Positions(list[..k])
  {
  }

  /** The first half of Solver.__init__: a new grid with the listed
      islands added in order, none of them with neighbours or bridges. */
  method NewGrid(width: int, height: int, list: seq<(int, int, int)>) returns (g: Grid)
    requires Distinct(Positions(list))
    ensures fresh(g) && g.Valid() && |g.visited| == |g.coords|
    ensures g.width == width && g.height == height
    ensures g.coords == Positions(list) && g.capacity == Capacities(list)
    ensures g.bridges == [] && g.initial == Capacities(list)
    ensures forall i :: 0 <= i < |g.neighbors| ==> g.neighbors[i] == []
  {
    g := new Grid(width, height);
    var k := 0;
    while k < |list|
      invariant k <= |list| && fresh(g) && g.Valid() && |g.visited| == |g.coords|
      invariant g.width == width && g.height == height
      invariant g.coords == Positions(list[..k]) && g.capacity == Capacities(list[..k])
      invariant g.bridges == [] && g.initial == Capacities(list[..k])
      invariant forall i :: 0 <= i < |g.neighbors| ==> g.neighbors[i] == []
      modifies g
    {
      PositionFresh(list, k);
      PositionsSnoc(list, k);
      g.AddIsland(list[k].0, list[k].1, list[k].2);
      k := k + 1;
    }
    assert list[..k] == list;
  }

  /** Adding bs from its k-th bridge on is adding the k-th, then the rest. */
  lemma AddAllStep(g: Board, bs: seq<Bridge>, k: nat)
    requires WellFormed(g) && k < |bs| && forall b :: b in bs ==> Proper(g.coords, b)
    ensures AddAll(g, bs[k..]) == AddAll(AddBoard(g, bs[k]), bs[k + 1..])
  {
    assert bs[k..][0] == bs[k] && bs[k..][1..] == bs[k + 1..];
  }

  /** The bag of a suffix is its first element plus the bag of the rest. */
  lemma TailBag(bs: seq<Bridge>, k: nat)
    requires k < |bs|
    ensures multiset(bs[k..]) == multiset{bs[k]} + multiset(bs[k + 1..])
  {
    assert bs[k..] == [bs[k]] + bs[k + 1..];
  }

  /** Taking the first bridge of a suffix out of the bag that holds it. */
  lemma TakeFromBag(base: multiset<Bridge>, bs: seq<Bridge>, k: nat, before: multiset<Bridge>, after: multiset<Bridge>)
    requires k < |bs| && before == base + multiset(bs[k..]) && after == before - multiset{bs[k]}
    ensures after == base + multiset(bs[k + 1..])
  {
    TailBag(bs, k);
  }

  /** The undo log of the deduction loop grows by the bridges of one more
      round, and so does the bag. */
  lemma LogGrows(base: multiset<Bridge>, mid: multiset<Bridge>, now: multiset<Bridge>, log: seq<Bridge>, last: seq<Bridge>)
    requires mid == base + multiset(log) && now == mid + multiset(last)
    ensures now == base + multiset(log + last)
  {
  }

  /** Solver.logic has looked at the islands before i of a grid that was
      a when it started and is g now, and has built the bridges in built. */
  ghost predicate LogicSoFar(t: (Board, seq<Bridge>), g: Board, i: nat, built: seq<Bridge>)
  {
    && WellFormed(g) && NeighborsSound(g.coords, g.neighbors) && i <= |g.coords|
    && LogicFrom(g, i).0 == t.0
    && built + LogicFrom(g, i).1 == t.1
  }

  lemma LogicSoFarStep(a: (Board, seq<Bridge>), g: Board, i: nat, built: seq<Bridge>, d: seq<Bridge>, h: Board)
    requires LogicSoFar(a, g, i, built) && i < |g.coords|
    requires d == Deduce(g, i) && h == AddAll(g, d)
    ensures LogicSoFar(a, h, i + 1, built + d)
  {
    var r := LogicFrom(h, i + 1);
    assert LogicFrom(g, i) == (r.0, d + r.1);
    Associative(built, d, r.1);
  }

  /** Stated on its own because, asserted inside LogicSoFarStep, the
      solver looks for it among the unfoldings of LogicFrom. */
  lemma Associative<T>(a: seq<T>, b: seq<T>, c: seq<T>)
    ensures (a + b) + c == a + (b + c)
  {
  }

  lemma LogicSoFarStart(g: Board)
    requires WellFormed(g) && NeighborsSound(g.coords, g.neighbors)
    ensures LogicSoFar(Rounds.Logic(g), g, 0, [])
  { }

  lemma LogicSoFarEnd(a: (Board, seq<Bridge>), g: Board, built: seq<Bridge>)
    requires LogicSoFar(a, g, |g.coords|, built)
    ensures (g, built) == a
  {
    assert built + [] == built;
  }

  /** What one call of logic does to a consistent grid: it only adds the
      bridges it returns, and lowers the slack whenever it adds any. */
  lemma RoundFacts(g: Board, h: Board, built: seq<Bridge>)
    requires Consistent(g) && NeighborsSound(g.coords, g.neighbors)
    requires (h, built) == Rounds.Logic(g)
    ensures h.coords == g.coords && h.neighbors == g.neighbors
    ensures h.bridges == g.bridges + multiset(built)
    ensures Slack(h) <= Slack(g) && (built != [] ==> Slack(h) < Slack(g))
  {
    LogicLowersSlack(g, 0);
  }

  /** A pass of logic that builds nothing leaves the grid as it was, so a
      further pass builds nothing either. */
  lemma EmptyPassIsFixed(g: Board, h: Board, initial: seq<int>)
    requires Consistent(g) && CapacityTracks(g, initial) && NeighborsSound(g.coords, g.neighbors)
    requires Consistent(h) && CapacityTracks(h, initial)
    requires (h, []) == Rounds.Logic(g)
    ensures h == g && BuiltFrom(h, 0) == 0
  {
    RoundFacts(g, h, []);
    BagDeterminesBoard(h, g, initial);
  }

  class Solver {
    const width: int
    const height: int
    const grid: Grid
    /** The untouched copy of the island list. */
    const islands: seq<(int, int, int)>

    /** The grid's bookkeeping holds and every neighbour list lists only
        islands in sight, without repeats. */
    ghost predicate Inv()
      reads grid
    {
      && grid.Valid()
      && |grid.visited| == |grid.coords|
      && NeighborsSound(grid.coords, grid.neighbors)
    }

    /** Solver.__init__: one island per entry of the list, in order, each
        with its capacity and no bridges; then update_neighbors. When every
        island lies on the board, each island lists exactly the islands it
        sees. */
    constructor(width: int, height: int, list: seq<(int, int, int)>)
      requires Distinct(Positions(list))
      ensures Inv() && this.width == width && this.height == height && islands == list
      ensures grid.width == width && grid.height == height
      ensures grid.coords == Positions(list) && grid.capacity == Capacities(list)
      ensures grid.bridges == [] && grid.initial == Capacities(list)
      ensures InBounds(grid.coords, width, height) ==> NeighborsResolved(grid.coords, grid.neighbors)
    {
      this.width, this.height := width, height;
      var g := NewGrid(width, height, list);
      g.UpdateNeighbors();
      grid := g;
      islands := list;
    }

    /** The rules of Solver.logic at island i: the bridges it builds there,
        in the order it builds them. Nothing changes yet. */
    method DeduceAt(i: nat) returns (added: seq<Bridge>)
      requires grid.Shaped() && i < |grid.coords|
      ensures added == Deduce(grid.Abs(), i)
    {
      ghost var A := grid.Abs();
      var candidates := grid.ValidBridges();
      var pot := Touching(candidates, grid.coords[i]);
      var directions := |pot|;
      var connections := 0;
      var single: seq<Bridge> := [];
      var temp: seq<Bridge> := [];
      var k := 0;
      while k < |grid.neighbors[i]|
        invariant k <= |grid.neighbors[i]|
        invariant Tally(connections, temp, single) == TallyUpTo(A, i, pot, k)
      {
        var j := grid.neighbors[i][k];
        var b := MakeBridge(grid.coords[j], grid.coords[i]);
        if b in pot {
          if grid.capacity[j] == 1 {
            connections := connections + 1;
            temp := temp + [b];
            single := single + [b];
          } else if grid.capacity[j] >= 2 {
            connections := connections + 2;
            temp := temp + [b, b];
          }
        }
        k := k + 1;
      }
      var capacity := grid.capacity[i];
      if connections == capacity {
        added := temp;
      } else if capacity > 2 * (directions - 1) {
        added := pot;
      } else if capacity - |single| > 2 * (directions - |single| - 1) {
        added := Without(pot, single);
      } else {
        added := [];
      }
    }

    /** Grid.add_bridge on each bridge of bs in turn. */
    method Build(bs: seq<Bridge>)
      requires Inv() && forall b :: b in bs ==> Proper(grid.coords, b)
      modifies grid`bridges, grid`incident, grid`capacity
      ensures Inv() && grid.Abs() == AddAll(old(grid.Abs()), bs)
      ensures grid.initial == old(grid.initial)
    {
      ghost var A := grid.Abs();
      var k := 0;
      while k < |bs|
        invariant k <= |bs| && Inv() && grid.coords == A.coords
        invariant AddAll(grid.Abs(), bs[k..]) == AddAll(A, bs)
      {
        assert bs[k] in bs;
        AddAllStep(grid.Abs(), bs, k);
        grid.AddBridge(bs[k]);
        k := k + 1;
      }
    }

    /** Solver.logic: island by island, in list order, the bridges the rules
        decide on at that island are built before the next island is
        looked at; the result lists them all in the order they were built. */
    method Logic() returns (built: seq<Bridge>)
      requires Inv()
      modifies grid`bridges, grid`incident, grid`capacity
      ensures Inv() && grid.initial == old(grid.initial)
      ensures (grid.Abs(), built) == Rounds.Logic(old(grid.Abs()))
    {
      ghost var A := grid.Abs();
      ghost var T := Rounds.Logic(A);
      built := [];
      LogicSoFarStart(A);
      var i := 0;
      while i < |grid.coords|
        invariant i <= |grid.coords| && Inv() && grid.initial == old(grid.initial)
        invariant grid.coords == A.coords && grid.neighbors == A.neighbors
        invariant LogicSoFar(T, grid.Abs(), i, built)
      {
        var added := LogicAt(i, T, built);
        built := built + added;
        i := i + 1;
      }
      LogicSoFarEnd(T, grid.Abs(), built);
    }

    /** The body of logic's island loop for island i: decide, then build. */
    method LogicAt(i: nat, ghost t: (Board, seq<Bridge>), ghost built: seq<Bridge>) returns (added: seq<Bridge>)
      requires Inv() && i < |grid.coords| && LogicSoFar(t, grid.Abs(), i, built)
      modifies grid`bridges, grid`incident, grid`capacity
      ensures Inv() && grid.initial == old(grid.initial)
      ensures grid.coords == old(grid.coords) && grid.neighbors == old(grid.neighbors)
      ensures added == Deduce(old(grid.Abs()), i)
      ensures grid.Abs() == AddAll(old(grid.Abs()), added)
      ensures LogicSoFar(t, grid.Abs(), i + 1, built + added)
    {
      ghost var G := grid.Abs();
      added := DeduceAt(i);
      Build(added);
      LogicSoFarStep(t, G, i, built, added, grid.Abs());
    }

    /** One call of logic as the deduction loop of search sees it: it only
        adds the bridges it returns, and lowers the slack whenever it adds
        any; when it adds none, another call would add none either. */
    method Round() returns (built: seq<Bridge>)
      requires Inv()
      modifies grid`bridges, grid`incident, grid`capacity
      ensures Inv() && grid.initial == old(grid.initial)
      ensures grid.coords == old(grid.coords) && grid.neighbors == old(grid.neighbors)
      ensures grid.Abs().bridges == old(grid.Abs()).bridges + multiset(built)
      ensures Slack(grid.Abs()) <= Slack(old(grid.Abs()))
      ensures built != [] ==> Slack(grid.Abs()) < Slack(old(grid.Abs()))
      ensures built == [] ==> BuiltFrom(grid.Abs(), 0) == 0
    {
      ghost var G := grid.Abs();
      built := Logic();
      RoundFacts(G, grid.Abs(), built);
      if built == [] {
        EmptyPassIsFixed(G, grid.Abs(), grid.initial);
      }
    }

    /** The deduction phase of Solver.search: logic, then logic again for as
        long as the last round built something. Every bridge built is
        recorded, the slack never rises, so the loop ends, and it ends at a
        fixed point of logic. */
    method LogicRounds() returns (logicBridges: seq<Bridge>)
      requires Inv()
      modifies grid`bridges, grid`incident, grid`capacity
      ensures Inv()
      ensures grid.coords == old(grid.coords) && grid.neighbors == old(grid.neighbors)
      ensures grid.Abs().bridges == old(grid.Abs()).bridges + multiset(logicBridges)
      ensures Slack(grid.Abs()) <= Slack(old(grid.Abs()))
      ensures BuiltFrom(grid.Abs(), 0) == 0
    {
      ghost var A := grid.Abs();
      logicBridges := Round();
      var last := logicBridges;
      while last != []
        invariant Inv() && grid.coords == A.coords && grid.neighbors == A.neighbors
        invariant grid.Abs().bridges == A.bridges + multiset(logicBridges)
        invariant Slack(grid.Abs()) <= Slack(A)
        invariant last == [] ==> BuiltFrom(grid.Abs(), 0) == 0
        decreases Slack(grid.Abs()) + if last == [] then 0 else 1
      {
        ghost var mid := grid.Abs().bridges;
        last := Round();
        LogGrows(A.bridges, mid, grid.Abs().bridges, logicBridges, last);
        logicBridges := logicBridges + last;
      }
    }

    /** The last loop of Solver.search: Grid.delete_bridge on each bridge
        the deduction phase built, which takes the bag of bridges back to
        what it was before. */
    method Undo(bs: seq<Bridge>, ghost base: multiset<Bridge>)
      requires Inv() && grid.Abs().bridges == base + multiset(bs)
      modifies grid`bridges, grid`incident, grid`capacity
      ensures Inv() && grid.Abs().bridges == base
    {
      var k := 0;
      while k < |bs|
        invariant k <= |bs| && Inv() && grid.Abs().bridges == base + multiset(bs[k..])
      {
        UndoOne(bs, k, base);
        k := k + 1;
      }
    }

    /** One step of the last loop of Solver.search. */
    method UndoOne(bs: seq<Bridge>, k: nat, ghost base: multiset<Bridge>)
      requires Inv() && k < |bs| && grid.Abs().bridges == base + multiset(bs[k..])
      modifies grid`bridges, grid`incident, grid`capacity
      ensures Inv() && grid.Abs().bridges == base + multiset(bs[k + 1..])
    {
      ghost var before := multiset(grid.bridges);
      TailBag(bs, k);
      assert bs[k] in before;
      grid.DeleteBridge(bs[k]);
      TakeFromBag(base, bs, k, before, multiset(grid.bridges));
    }

    /** Solver.search: 1 when the grid is solved, -1 when no choice of
        further bridges solves it. A grid it solves keeps every bridge it
        held; a grid it gives up on is left as it was found. */
    method Search() returns (r: int)
      requires Inv() && |grid.coords| > 0
      modifies grid`bridges, grid`incident, grid`capacity, grid`visited
      ensures Inv()
      ensures r == 1 || r == -1
      ensures r == 1 ==> StatusOf(grid.Abs()) == 1 && old(grid.Abs()).bridges <= grid.Abs().bridges
      ensures r == -1 ==> grid.Abs() == old(grid.Abs())
      ensures old(StatusOf(grid.Abs())) == 1 ==> r == 1 && grid.Abs() == old(grid.Abs())
      ensures old(StatusOf(grid.Abs())) == -1 ==> r == -1
      decreases Slack(grid.Abs()), 3
    {
      var status := grid.Status();
      if status == 1 {
        return 1;
      }
      if status == -1 {
        return -1;
      }
      ghost var A := grid.Abs();
      var logicBridges := LogicRounds();
      r := SearchOn(logicBridges, A);
    }

    /** The rest of Solver.search once its deduction phase has built
        logicBridges on top of A: check the status again, then try the
        valid bridges; when none leads to a solution, delete the deduced
        bridges again, which leaves the grid as A. */
    method SearchOn(logicBridges: seq<Bridge>, ghost A: Board) returns (r: int)
      requires Inv() && |grid.coords| > 0
      requires Consistent(A) && CapacityTracks(A, grid.initial)
      requires grid.coords == A.coords && grid.neighbors == A.neighbors
      requires grid.Abs().bridges == A.bridges + multiset(logicBridges)
      modifies grid`bridges, grid`incident, grid`capacity, grid`visited
      ensures Inv()
      ensures r == 1 || r == -1
      ensures r == 1 ==> StatusOf(grid.Abs()) == 1 && A.bridges <= grid.Abs().bridges
      ensures r == -1 ==> grid.Abs() == A
      decreases Slack(grid.Abs()), 2
    {
      var status := grid.Status();
      if status == 1 {
        return 1;
      }
      var candidates := grid.ValidBridges();
      r := TryAll(candidates);
      if r == 1 {
        return 1;
      }
      Undo(logicBridges, A.bridges);
      BagDeterminesBoard(grid.Abs(), A, grid.initial);
    }

    /** The loop of Solver.search over the valid bridges: try each in turn
        until one leads to a solution. */
    method TryAll(candidates: seq<Bridge>) returns (r: int)
      requires Inv() && |grid.coords| > 0
      requires forall b :: b in candidates ==> b in Candidates.ValidBridges(grid.Abs())
      modifies grid`bridges, grid`incident, grid`capacity, grid`visited
      ensures Inv()
      ensures r == 1 || r == -1
      ensures r == 1 ==> StatusOf(grid.Abs()) == 1 && old(grid.Abs()).bridges <= grid.Abs().bridges
      ensures r == -1 ==> grid.Abs() == old(grid.Abs())
      decreases Slack(grid.Abs()), 1
    {
      ghost var P := grid.Abs();
      var k := 0;
      while k < |candidates|
        invariant k <= |candidates| && Inv() && grid.Abs() == P
      {
        r := Try(candidates[k]);
        if r == 1 {
          return 1;
        }
        k := k + 1;
      }
      return -1;
    }

    /** One pass of that loop: build b and search on; when that fails,
        delete b again, which restores the grid. */
    method Try(b: Bridge) returns (r: int)
      requires Inv() && |grid.coords| > 0
      requires b in Candidates.ValidBridges(grid.Abs())
      modifies grid`bridges, grid`incident, grid`capacity, grid`visited
      ensures Inv()
      ensures r == 1 || r == -1
      ensures r == 1 ==> StatusOf(grid.Abs()) == 1 && old(grid.Abs()).bridges <= grid.Abs().bridges
      ensures r == -1 ==> grid.Abs() == old(grid.Abs())
      decreases Slack(grid.Abs()), 0
    {
      ghost var P := grid.Abs();
      CandidateFacts(P, b);
      grid.AddBridge(b);
      SlackDropsOnValid(P, grid.Abs(), b);
      r := Search();
      if r == -1 {
        grid.DeleteBridge(b);
        AddThenDelete(P, b);
      }
    }
  }
}
