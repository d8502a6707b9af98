// One call of Solver.logic (solver.py) as a function of the grid: the rules
// applied island by island, each island seeing the bridges built before it;
// and the measure that shows the deduction loop and the search terminate.
module Rounds {
  import opened Geometry
  import opened Puzzle
  import opened Neighbors
  import opened Candidates
  import opened Deduction

  /** Grid.add_bridge on each bridge of bs in turn. */
  function AddAll(g: Board, bs: seq<Bridge>): (r: Board)
    requires WellFormed(g)
    requires forall b :: b in bs ==> Proper(g.coords, b)
    ensures WellFormed(r) && r.coords == g.coords && r.neighbors == g.neighbors
    ensures r.bridges == g.bridges + multiset(bs)
    decreases |bs|
  {
    if bs == [] then g
    else
      assert bs == [bs[0]] + bs[1..] && bs[0] in bs;
      assert Proper(g.coords, bs[0]);
      var h := AddBoard(g, bs[0]);
      assert forall b :: b in bs[1..] ==> b in bs;
      AddAll(h, bs[1..])
  }

  /** Solver.logic from island i on: the grid it leaves and the bridges it
      returns, in the order it built them. */
  function LogicFrom(g: Board, i: nat): (r: (Board, seq<Bridge>))
    requires WellFormed(g) && NeighborsSound(g.coords, g.neighbors) && i <= |g.coords|
    ensures WellFormed(r.0) && r.0.coords == g.coords && r.0.neighbors == g.neighbors
    ensures r.0.bridges == g.bridges + multiset(r.1)
    decreases |g.coords| - i
  {
    if i == |g.coords| then (g, [])
    else
      var added := Deduce(g, i);
      var rest := LogicFrom(AddAll(g, added), i + 1);
      (rest.0, added + rest.1)
  }

  /** Solver.logic */
  function Logic(g: Board): (Board, seq<Bridge>)
    requires WellFormed(g) && NeighborsSound(g.coords, g.neighbors)
  {
    LogicFrom(g, 0)
  }

  /** Adding proper bridges keeps the bookkeeping consistent. */
  lemma {:induction false} AddAllConsistent(g: Board, bs: seq<Bridge>)
    requires Consistent(g)
    requires forall b :: b in bs ==> Proper(g.coords, b)
    ensures Consistent(AddAll(g, bs))
    decreases |bs|
  {
    if bs != [] {
      assert bs[0] in bs;
      AddKeepsConsistent(g, bs[0]);
      assert forall b :: b in bs[1..] ==> b in bs;
      AddAllConsistent(AddBoard(g, bs[0]), bs[1..]);
    }
  }

  /** Adding bridges keeps every capacity equal to its initial value less
      the island's bridges. */
  lemma {:induction false} AddAllCapacity(g: Board, bs: seq<Bridge>, initial: seq<int>)
    requires WellFormed(g) && CapacityTracks(g, initial)
    requires forall b :: b in bs ==> Proper(g.coords, b)
    ensures CapacityTracks(AddAll(g, bs), initial)
    decreases |bs|
  {
    if bs != [] {
      assert bs[0] in bs;
      AddKeepsCapacity(g, bs[0], initial);
      assert forall b :: b in bs[1..] ==> b in bs;
      AddAllCapacity(AddBoard(g, bs[0]), bs[1..], initial);
    }
  }

  /** Each proper bridge built at the island at c costs that island one unit
      of capacity. */
  lemma {:induction false} AddAllCapacityAt(g: Board, bs: seq<Bridge>, i: nat)
    requires WellFormed(g) && i < |g.coords|
    requires forall b :: b in bs ==> Proper(g.coords, b)
    requires forall b :: b in bs ==> Touches(b, g.coords[i])
    ensures AddAll(g, bs).capacity[i] == g.capacity[i] - |bs|
    decreases |bs|
  {
    if bs != [] {
      var b := bs[0];
      assert b in bs;
      var a, c := Index(g.coords, b.end1), Index(g.coords, b.end2);
      assert a != c && (a == i || c == i);
      AddAllCapacityAt(AddBoard(g, b), bs[1..], i);
    }
  }

  /** Rule 1 finishes its island: when it fires, the island's capacity
      drops to 0. */
  lemma RuleOneCompletes(g: Board, i: nat)
    requires WellFormed(g) && NeighborsSound(g.coords, g.neighbors) && i < |g.coords|
    requires TallyOf(g, i).connections == g.capacity[i]
    ensures AddAll(g, Deduce(g, i)).capacity[i] == 0
  {
    RuleOneBuilds(g, i);
    AddAllCapacityAt(g, Deduce(g, i), i);
  }

  /** logic keeps the bookkeeping invariants. */
  lemma {:induction false} LogicKeeps(g: Board, i: nat, initial: seq<int>)
    requires Consistent(g) && CapacityTracks(g, initial) && NeighborsSound(g.coords, g.neighbors)
    requires i <= |g.coords|
    ensures Consistent(LogicFrom(g, i).0) && CapacityTracks(LogicFrom(g, i).0, initial)
    decreases |g.coords| - i
  {
    if i < |g.coords| {
      AddAllConsistent(g, Deduce(g, i));
      AddAllCapacity(g, Deduce(g, i), initial);
      LogicKeeps(AddAll(g, Deduce(g, i)), i + 1, initial);
    }
  }

  /** How many more bridges the pair p could still take before reaching
      three, the most logic can ever give a pair. */
  function PairSlack(bag: multiset<Bridge>, p: Bridge): nat {
    if bag[p] >= 3 then 0 else 3 - bag[p]
  }

  function RowSlack(g: Board, i: nat, k: nat): nat
    requires WellFormed(g) && i < |g.coords| && k <= |g.neighbors[i]|
  {
    if k == 0 then 0 else RowSlack(g, i, k - 1) + PairSlack(g.bridges, Link(g, i, g.neighbors[i][k - 1]))
  }

  function SlackUpTo(g: Board, i: nat): nat
    requires WellFormed(g) && i <= |g.coords|
  {
    if i == 0 then 0 else SlackUpTo(g, i - 1) + RowSlack(g, i - 1, |g.neighbors[i - 1]|)
  }

  /** The room left on every island's every neighbour link: the measure
      that decreases with each bridge the solver builds. */
  function Slack(g: Board): nat
    requires WellFormed(g)
  {
    SlackUpTo(g, |g.coords|)
  }

  /** Two grids over the same islands and neighbour lists, the second
      holding at least the bridges of the first. */
  predicate Grown(g: Board, h: Board) {
    && WellFormed(g) && WellFormed(h)
    && g.coords == h.coords && g.neighbors == h.neighbors
    && g.bridges <= h.bridges
  }

  /** Pair p had room for another bridge in g and got one in h. */
  predicate Grows(g: Board, h: Board, p: Bridge) {
    g.bridges[p] < 3 && h.bridges[p] > g.bridges[p]
  }

  lemma {:induction false} RowSlackShrinks(g: Board, h: Board, i: nat, k: nat)
    requires Grown(g, h) && i < |g.coords| && k <= |g.neighbors[i]|
    ensures RowSlack(h, i, k) <= RowSlack(g, i, k)
    ensures forall m :: 0 <= m < k && Grows(g, h, Link(g, i, g.neighbors[i][m])) ==>
      RowSlack(h, i, k) < RowSlack(g, i, k)
  {
    if k > 0 {
      RowSlackShrinks(g, h, i, k - 1);
    }
  }

  lemma {:induction false} SlackUpToShrinks(g: Board, h: Board, i: nat)
    requires Grown(g, h) && i <= |g.coords|
    ensures SlackUpTo(h, i) <= SlackUpTo(g, i)
    ensures forall a, m :: 0 <= a < i && 0 <= m < |g.neighbors[a]| && Grows(g, h, Link(g, a, g.neighbors[a][m])) ==>
      SlackUpTo(h, i) < SlackUpTo(g, i)
  {
    if i > 0 {
      SlackUpToShrinks(g, h, i - 1);
      RowSlackShrinks(g, h, i - 1, |g.neighbors[i - 1]|);
    }
  }

  /** Building bridges never raises the slack. */
  lemma SlackShrinks(g: Board, h: Board)
    requires Grown(g, h)
    ensures Slack(h) <= Slack(g)
  {
    SlackUpToShrinks(g, h, |g.coords|);
  }

  /** Building another copy of a valid bridge lowers the slack. */
  lemma SlackDropsOnValid(g: Board, h: Board, p: Bridge)
    requires Grown(g, h) && Consistent(g) && NeighborsSound(g.coords, g.neighbors)
    requires p in ValidBridges(g) && h.bridges[p] > g.bridges[p]
    ensures Slack(h) < Slack(g)
  {
    ValidBridgesExactly(g);
    var a: nat, b: nat :| ValidLink(g, a, b) && p == Link(g, a, b);
    var m :| 0 <= m < |g.neighbors[a]| && g.neighbors[a][m] == b;
    assert Visible(g.coords, a, b);
    BridgesToCountsPair(g, a, b);
    SlackUpToShrinks(g, h, |g.coords|);
  }

  /** The slack left after the pass of logic from island i on. */
  ghost function SlackAfter(g: Board, i: nat): nat
    requires WellFormed(g) && NeighborsSound(g.coords, g.neighbors) && i <= |g.coords|
  {
    Slack(LogicFrom(g, i).0)
  }

  /** How many bridges the pass of logic from island i on builds. */
  ghost function BuiltFrom(g: Board, i: nat): nat
    requires WellFormed(g) && NeighborsSound(g.coords, g.neighbors) && i <= |g.coords|
  {
    |LogicFrom(g, i).1|
  }

  /** One island's deduction: the board it leaves keeps the invariants
      and the slack falls, strictly when it builds something; the rest of
      the pass goes on from that board. */
  lemma DeduceStep(g: Board, i: nat) returns (added: seq<Bridge>, g': Board)
    requires Consistent(g) && NeighborsSound(g.coords, g.neighbors) && i < |g.coords|
    ensures Consistent(g') && NeighborsSound(g'.coords, g'.neighbors) && |g'.coords| == |g.coords|
    ensures Slack(g') <= Slack(g) && (|added| > 0 ==> Slack(g') < Slack(g))
    ensures SlackAfter(g, i) == SlackAfter(g', i + 1)
    ensures BuiltFrom(g, i) == |added| + BuiltFrom(g', i + 1)
  {
    added := Deduce(g, i);
    g' := AddAll(g, added);
    AddAllConsistent(g, added);
    SlackShrinks(g, g');
    if |added| > 0 {
      assert g'.bridges[added[0]] > g.bridges[added[0]];
      SlackDropsOnValid(g, g', added[0]);
    }
  }

  /** A pass of logic never raises the slack, and lowers it whenever it
      builds anything: the deduction loop of search ends. */
  lemma {:induction false} LogicLowersSlack(g: Board, i: nat)
    requires Consistent(g) && NeighborsSound(g.coords, g.neighbors) && i <= |g.coords|
    ensures SlackAfter(g, i) <= Slack(g)
    ensures BuiltFrom(g, i) > 0 ==> SlackAfter(g, i) < Slack(g)
    decreases |g.coords| - i
  {
    if i < |g.coords| {
      var added, g' := DeduceStep(g, i);
      LogicLowersSlack(g', i + 1);
    }
  }

  /** Every bridge on the grid joins an island to one of its neighbours, and
      no pair carries more than three bridges. */
  ghost predicate Bounded(g: Board)
    requires WellFormed(g)
  {
    forall b :: b in g.bridges ==>
      && g.bridges[b] <= 3
      && exists a, m :: 0 <= a < |g.coords| && 0 <= m < |g.neighbors[a]| && b == Link(g, a, g.neighbors[a][m])
  }

  /** logic builds at most two copies of a bridge at one island. */
  lemma DeduceAtMostTwice(g: Board, i: nat, p: Bridge)
    requires WellFormed(g) && NeighborsSound(g.coords, g.neighbors) && i < |g.coords|
    ensures multiset(Deduce(g, i))[p] <= 2
  {
    var t := TallyOf(g, i);
    if t.connections == g.capacity[i] {
      if p in Deduce(g, i) {
        TallyFromScanned(g, i, Options(g, i), |g.neighbors[i]|);
        RuleOneBuilds(g, i);
      }
    } else if g.capacity[i] > 2 * (|Options(g, i)| - 1) {
      RuleTwoBuilds(g, i);
    } else {
      ValidBridgesExactly(g);
      NoDupCounts(Deduce(g, i));
    }
  }

  /** A valid bridge joins neighbours and has fewer than two copies. */
  lemma ValidIsBelowTwo(g: Board, p: Bridge)
    requires Consistent(g) && NeighborsSound(g.coords, g.neighbors) && p in ValidBridges(g)
    ensures g.bridges[p] < 2
    ensures exists a, m :: 0 <= a < |g.coords| && 0 <= m < |g.neighbors[a]| && p == Link(g, a, g.neighbors[a][m])
  {
    ValidBridgesExactly(g);
    var a: nat, b: nat :| ValidLink(g, a, b) && p == Link(g, a, b);
    var m :| 0 <= m < |g.neighbors[a]| && g.neighbors[a][m] == b;
    assert Visible(g.coords, a, b);
    BridgesToCountsPair(g, a, b);
  }

  /** Rule 1 can take a pair with one bridge to three, never further, and
      every bridge logic builds joins neighbours. */
  lemma DeduceKeepsBounded(g: Board, i: nat)
    requires Consistent(g) && NeighborsSound(g.coords, g.neighbors) && Bounded(g) && i < |g.coords|
    ensures Bounded(AddAll(g, Deduce(g, i)))
  {
    var added := Deduce(g, i);
    var g' := AddAll(g, added);
    forall b | b in g'.bridges
      ensures g'.bridges[b] <= 3
      ensures exists a, m :: 0 <= a < |g'.coords| && 0 <= m < |g'.neighbors[a]| && b == Link(g', a, g'.neighbors[a][m])
    {
      if b in added {
        ValidIsBelowTwo(g, b);
        DeduceAtMostTwice(g, i, b);
      } else {
        assert b in g.bridges;
        var a, m :| 0 <= a < |g.coords| && 0 <= m < |g.neighbors[a]| && b == Link(g, a, g.neighbors[a][m]);
        assert b == Link(g', a, g'.neighbors[a][m]);
      }
    }
  }
}
