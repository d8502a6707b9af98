// The three counting rules Solver.logic (solver.py) applies to one island:
// which bridges it decides to build there, as a function of the grid.
module Deduction {
  import opened Geometry
  import opened Puzzle
  import opened Neighbors
  import opened Candidates

  /** The bridges of vs that touch the island at c, in order (the filter
      that gives potential_bridges). */
  function Touching(vs: seq<Bridge>, c: Coord): (r: seq<Bridge>)
    ensures forall p :: p in r <==> p in vs && Touches(p, c)
    ensures NoDup(vs) ==> NoDup(r)
  {
    if vs == [] then []
    else
      var rest := Touching(vs[1..], c);
      assert NoDup(vs) ==> vs[0] !in vs[1..];
      if Touches(vs[0], c) then [vs[0]] + rest else rest
  }

  /** The bridges of s that are not in x, in order. */
  function Without(s: seq<Bridge>, x: seq<Bridge>): (r: seq<Bridge>)
    ensures forall p :: p in r <==> p in s && p !in x
    ensures NoDup(s) ==> NoDup(r)
  {
    if s == [] then []
    else
      var rest := Without(s[1..], x);
      assert NoDup(s) ==> s[0] !in s[1..];
      if s[0] in x then rest else [s[0]] + rest
  }

  /** potential_bridges: the valid bridges at island i. */
  function Options(g: Board, i: nat): seq<Bridge>
    requires WellFormed(g) && i < |g.coords|
  {
    Touching(ValidBridges(g), g.coords[i])
  }

  /** What logic accumulates while it walks island i's neighbours:
      available_connections, temp_bridges and
      singly_restricted_temp_bridges. */
  datatype Tally = Tally(connections: int, temp: seq<Bridge>, single: seq<Bridge>)

  /** The bridge logic builds from the m-th neighbour of island i. */
  function LinkTo(g: Board, i: nat, m: nat): Bridge
    requires WellFormed(g) && i < |g.coords| && m < |g.neighbors[i]|
  {
    Link(g, g.neighbors[i][m], i)
  }

  /** How many bridges rule 1 builds to a neighbour of this capacity. */
  function Weight(capacity: int): nat {
    if capacity == 1 then 1 else if capacity >= 2 then 2 else 0
  }

  /** The tally after the first k neighbours of island i. Each counted
      connection is one entry of temp. */
  function TallyUpTo(g: Board, i: nat, pot: seq<Bridge>, k: nat): (t: Tally)
    requires WellFormed(g) && i < |g.coords| && k <= |g.neighbors[i]|
    ensures t.connections == |t.temp|
    ensures forall p :: p in t.temp ==> p in pot
    ensures forall p :: p in t.single ==> p in t.temp
  {
    if k == 0 then Tally(0, [], [])
    else
      var t := TallyUpTo(g, i, pot, k - 1);
      var j := g.neighbors[i][k - 1];
      var b := LinkTo(g, i, k - 1);
      if b !in pot then t
      else if g.capacity[j] == 1 then Tally(t.connections + 1, t.temp + [b], t.single + [b])
      else if g.capacity[j] >= 2 then Tally(t.connections + 2, t.temp + [b, b], t.single)
      else t
  }

  function TallyOf(g: Board, i: nat): Tally
    requires WellFormed(g) && i < |g.coords|
  {
    TallyUpTo(g, i, Options(g, i), |g.neighbors[i]|)
  }

  /** The bridges logic builds at island i, in the order it builds them. */
  function Deduce(g: Board, i: nat): (r: seq<Bridge>)
    requires WellFormed(g) && i < |g.coords|
    ensures forall p :: p in r ==> p in ValidBridges(g) && Touches(p, g.coords[i])
    ensures NeighborsSound(g.coords, g.neighbors) ==> forall p :: p in r ==> Proper(g.coords, p)
  {
    var pot := Options(g, i);
    var directions := |pot|;
    var t := TallyOf(g, i);
    var capacity := g.capacity[i];
    if t.connections == capacity then t.temp
    else if capacity > 2 * (directions - 1) then pot
    else if capacity - |t.single| > 2 * (directions - |t.single| - 1) then Without(pot, t.single)
    else []
  }

  /** Bridges from different neighbours of an island are different. */
  lemma LinkToInjective(g: Board, i: nat, m: nat, n: nat)
    requires WellFormed(g) && NeighborsSound(g.coords, g.neighbors) && i < |g.coords|
    requires m < |g.neighbors[i]| && n < |g.neighbors[i]|
    ensures LinkTo(g, i, m) == LinkTo(g, i, n) <==> m == n
  {
    var a, b := g.neighbors[i][m], g.neighbors[i][n];
    assert Visible(g.coords, i, a) && Visible(g.coords, i, b);
    MakeBridgeEqual(g.coords[a], g.coords[i], g.coords[b], g.coords[i]);
  }

  /** The neighbours of island i give pairwise different bridges. */
  predicate LinkToDistinct(g: Board, i: nat)
    requires WellFormed(g) && i < |g.coords|
  {
    forall m, n :: 0 <= m < n < |g.neighbors[i]| ==> LinkTo(g, i, m) != LinkTo(g, i, n)
  }

  lemma LinkToDistinctHolds(g: Board, i: nat)
    requires WellFormed(g) && NeighborsSound(g.coords, g.neighbors) && i < |g.coords|
    ensures LinkToDistinct(g, i)
  {
    forall m, n | 0 <= m < n < |g.neighbors[i]|
      ensures LinkTo(g, i, m) != LinkTo(g, i, n)
    {
      LinkToInjective(g, i, m, n);
    }
  }

  /** The entries of temp come from the neighbours scanned so far. */
  lemma {:induction false} TallyFromScanned(g: Board, i: nat, pot: seq<Bridge>, k: nat)
    requires WellFormed(g) && i < |g.coords| && k <= |g.neighbors[i]|
    ensures forall p :: p in TallyUpTo(g, i, pot, k).temp ==> exists m :: 0 <= m < k && p == LinkTo(g, i, m)
  {
    if k > 0 {
      TallyFromScanned(g, i, pot, k - 1);
    }
  }

  /** The entries the m-th neighbour of island i adds to temp. */
  function Share(g: Board, i: nat, pot: seq<Bridge>, m: nat): (r: seq<Bridge>)
    requires WellFormed(g) && i < |g.coords| && m < |g.neighbors[i]|
    ensures multiset(r)[LinkTo(g, i, m)] ==
      if LinkTo(g, i, m) in pot then Weight(g.capacity[g.neighbors[i][m]]) else 0
    ensures forall p :: p != LinkTo(g, i, m) ==> multiset(r)[p] == 0
  {
    var b := LinkTo(g, i, m);
    var c := g.capacity[g.neighbors[i][m]];
    if b in pot && c == 1 then [b] else if b in pot && c >= 2 then [b, b] else []
  }

  lemma TallyStep(g: Board, i: nat, pot: seq<Bridge>, k: nat)
    requires WellFormed(g) && i < |g.coords| && 0 < k <= |g.neighbors[i]|
    ensures TallyUpTo(g, i, pot, k).temp == TallyUpTo(g, i, pot, k - 1).temp + Share(g, i, pot, k - 1)
  {
  }

  /** What temp records: each neighbour's bridge, if it is an option, once
      when the neighbour's capacity is 1 and twice when it is 2 or more. */
  lemma {:induction false} TallyCounts(g: Board, i: nat, pot: seq<Bridge>, k: nat)
    requires WellFormed(g) && i < |g.coords| && k <= |g.neighbors[i]| && LinkToDistinct(g, i)
    ensures forall m :: 0 <= m < k ==>
      multiset(TallyUpTo(g, i, pot, k).temp)[LinkTo(g, i, m)] ==
        if LinkTo(g, i, m) in pot then Weight(g.capacity[g.neighbors[i][m]]) else 0
  {
    if k > 0 {
      TallyCounts(g, i, pot, k - 1);
      TallyFromScanned(g, i, pot, k - 1);
      TallyStep(g, i, pot, k);
      var before := TallyUpTo(g, i, pot, k - 1).temp;
      var share := Share(g, i, pot, k - 1);
      var b := LinkTo(g, i, k - 1);
      assert b !in before;
      forall m | 0 <= m < k
        ensures multiset(before + share)[LinkTo(g, i, m)] ==
          if LinkTo(g, i, m) in pot then Weight(g.capacity[g.neighbors[i][m]]) else 0
      {
        if m < k - 1 {
          assert LinkTo(g, i, m) != b;
        }
      }
    }
  }

  /** single holds exactly the options to neighbours of capacity 1. */
  lemma {:induction false} TallySingle(g: Board, i: nat, pot: seq<Bridge>, k: nat)
    requires WellFormed(g) && i < |g.coords| && k <= |g.neighbors[i]|
    ensures forall p :: p in TallyUpTo(g, i, pot, k).single <==>
      exists m :: 0 <= m < k && p == LinkTo(g, i, m) && p in pot && g.capacity[g.neighbors[i][m]] == 1
  {
    if k > 0 {
      TallySingle(g, i, pot, k - 1);
    }
  }

  /** Rule 1 at island i, neighbour by neighbour: when the connections
      available equal the island's capacity, logic builds one bridge to each
      option whose neighbour has capacity 1 and two to each whose neighbour
      has capacity 2 or more. */
  lemma RuleOneBuilds(g: Board, i: nat)
    requires WellFormed(g) && NeighborsSound(g.coords, g.neighbors) && i < |g.coords|
    requires TallyOf(g, i).connections == g.capacity[i]
    ensures forall m :: 0 <= m < |g.neighbors[i]| ==>
      multiset(Deduce(g, i))[LinkTo(g, i, m)] ==
        if LinkTo(g, i, m) in Options(g, i) then Weight(g.capacity[g.neighbors[i][m]]) else 0
    ensures |Deduce(g, i)| == g.capacity[i]
  {
    LinkToDistinctHolds(g, i);
    TallyCounts(g, i, Options(g, i), |g.neighbors[i]|);
  }

  /** Rule 2: otherwise, when the capacity exceeds twice the number of
      directions less one, logic builds one bridge on every option. */
  lemma RuleTwoBuilds(g: Board, i: nat)
    requires WellFormed(g) && i < |g.coords|
    requires TallyOf(g, i).connections != g.capacity[i]
    requires g.capacity[i] > 2 * (|Options(g, i)| - 1)
    ensures forall p :: multiset(Deduce(g, i))[p] == if p in Options(g, i) then 1 else 0
  {
    ValidBridgesExactly(g);
    NoDupCounts(Options(g, i));
  }

  /** Rule 3: otherwise, when the same test passes with the single-bridge
      options taken out, logic builds one bridge on every other option. */
  lemma RuleThreeBuilds(g: Board, i: nat)
    requires WellFormed(g) && NeighborsSound(g.coords, g.neighbors) && i < |g.coords|
    requires TallyOf(g, i).connections != g.capacity[i]
    requires !(g.capacity[i] > 2 * (|Options(g, i)| - 1))
    requires var s := |TallyOf(g, i).single|;
      g.capacity[i] - s > 2 * (|Options(g, i)| - s - 1)
    ensures forall p ::
      multiset(Deduce(g, i))[p] == if p in Options(g, i) && !SingleOption(g, i, p) then 1 else 0
  {
    ValidBridgesExactly(g);
    TallySingle(g, i, Options(g, i), |g.neighbors[i]|);
    NoDupCounts(Without(Options(g, i), TallyOf(g, i).single));
  }

  /** p is the bridge to a neighbour of island i whose capacity is 1. */
  ghost predicate SingleOption(g: Board, i: nat, p: Bridge)
    requires WellFormed(g) && i < |g.coords|
  {
    exists m :: 0 <= m < |g.neighbors[i]| && p == LinkTo(g, i, m) && g.capacity[g.neighbors[i][m]] == 1
  }

  /** When no rule applies logic builds nothing at island i. */
  lemma NoRuleBuildsNothing(g: Board, i: nat)
    requires WellFormed(g) && i < |g.coords|
    requires TallyOf(g, i).connections != g.capacity[i]
    requires !(g.capacity[i] > 2 * (|Options(g, i)| - 1))
    requires var s := |TallyOf(g, i).single|;
      !(g.capacity[i] - s > 2 * (|Options(g, i)| - s - 1))
    ensures Deduce(g, i) == []
  {
  }

  /** A sequence without repeats holds each of its elements once. */
  lemma {:induction false} NoDupCounts<T>(s: seq<T>)
    requires NoDup(s)
    ensures forall p :: multiset(s)[p] == if p in s then 1 else 0
  {
    if s != [] {
      assert s == [s[0]] + s[1..];
      assert NoDup(s[1..]);
      NoDupCounts(s[1..]);
    }
  }

  /** A bridge logic may build at island i is a valid link of island i:
      to one of its neighbours, both incomplete, fewer than two bridges
      between them and no crossing. */
  lemma OptionsAreValidLinks(g: Board, i: nat)
    requires Consistent(g) && NeighborsResolved(g.coords, g.neighbors) && i < |g.coords|
    ensures NoDup(Options(g, i))
    ensures forall p :: p in Options(g, i) <==> exists j :: ValidLink(g, i, j) && p == Link(g, i, j)
  {
    ValidBridgesExactly(g);
    forall p | p in Options(g, i)
      ensures exists j :: ValidLink(g, i, j) && p == Link(g, i, j)
    {
      var a: nat, b: nat :| ValidLink(g, a, b) && p == Link(g, a, b);
      if a != i {
        assert b == i;
        ValidLinkSymmetric(g, a, b);
      }
    }
  }

  /** Valid links go both ways on a consistent grid with resolved
      neighbours. */
  lemma ValidLinkSymmetric(g: Board, a: nat, b: nat)
    requires Consistent(g) && NeighborsResolved(g.coords, g.neighbors)
    requires ValidLink(g, a, b)
    ensures ValidLink(g, b, a) && Link(g, a, b) == Link(g, b, a)
  {
    NeighborsSymmetric(g.coords, g.neighbors, a, b);
    BridgesToCountsPair(g, a, b);
    MakeBridgeUnordered(g.coords[a], g.coords[b]);
  }
}
