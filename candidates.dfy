// Grid.valid_bridges (grid.py) as a function of the grid's state: the
// candidate bridges a search may try next.
module Candidates {
  import opened Geometry
  import opened Puzzle
  import opened Neighbors

  /** The test valid_bridges puts to neighbour j of island i: j is not
      complete, fewer than two bridges join them, and the bridge would cross
      no existing bridge. */
  predicate LinkOpen(g: Board, i: nat, j: nat)
    requires WellFormed(g) && i < |g.coords| && j < |g.coords|
  {
    !Complete(g, j) && BridgesTo(g, i, j) < 2 && !Conflicts(g.bridges, Link(g, i, j))
  }

  /** A link valid_bridges accepts: j is a neighbour of an incomplete island i
      and the link is open. */
  predicate ValidLink(g: Board, i: nat, j: nat)
    requires WellFormed(g)
  {
    i < |g.coords| && j < |g.coords| && j in g.neighbors[i] && !Complete(g, i) && LinkOpen(g, i, j)
  }

  /** The inner loop of valid_bridges over island i's neighbours from the
      k-th on, adding each new candidate to acc. */
  function ScanNeighbors(g: Board, i: nat, k: nat, acc: seq<Bridge>): (r: seq<Bridge>)
    requires WellFormed(g) && i < |g.coords| && k <= |g.neighbors[i]|
    ensures NeighborsSound(g.coords, g.neighbors) ==> forall p :: p in r ==> p in acc || Proper(g.coords, p)
    decreases |g.neighbors[i]| - k
  {
    if k == |g.neighbors[i]| then acc
    else
      var j := g.neighbors[i][k];
      var p := Link(g, i, j);
      assert NeighborsSound(g.coords, g.neighbors) ==> Visible(g.coords, i, j) && Proper(g.coords, p);
      ScanNeighbors(g, i, k + 1, if LinkOpen(g, i, j) && p !in acc then acc + [p] else acc)
  }

  /** The outer loop of valid_bridges over the islands from the i-th on;
      complete islands are skipped. */
  function CollectFrom(g: Board, i: nat, acc: seq<Bridge>): (r: seq<Bridge>)
    requires WellFormed(g) && i <= |g.coords|
    ensures NeighborsSound(g.coords, g.neighbors) ==> forall p :: p in r ==> p in acc || Proper(g.coords, p)
    decreases |g.coords| - i
  {
    if i == |g.coords| then acc
    else CollectFrom(g, i + 1, if Complete(g, i) then acc else ScanNeighbors(g, i, 0, acc))
  }

  /** Grid.valid_bridges */
  function ValidBridges(g: Board): (r: seq<Bridge>)
    requires WellFormed(g)
    ensures NeighborsSound(g.coords, g.neighbors) ==> forall p :: p in r ==> Proper(g.coords, p)
  {
    CollectFrom(g, 0, [])
  }

  /** p is the bridge to an open link among island i's neighbours k.. */
  ghost predicate OpenFrom(g: Board, i: nat, k: nat, p: Bridge)
    requires WellFormed(g) && i < |g.coords|
  {
    exists m :: k <= m < |g.neighbors[i]| && LinkOpen(g, i, g.neighbors[i][m]) && p == Link(g, i, g.neighbors[i][m])
  }

  /** p is the bridge of a valid link from one of the islands i.. */
  ghost predicate ValidFrom(g: Board, i: nat, p: Bridge)
    requires WellFormed(g)
  {
    exists a, b :: i <= a && ValidLink(g, a, b) && p == Link(g, a, b)
  }

  /** The inner loop only appends, and never a bridge it already holds. */
  lemma {:induction false} ScanNeighborsExtends(g: Board, i: nat, k: nat, acc: seq<Bridge>)
    requires WellFormed(g) && i < |g.coords| && k <= |g.neighbors[i]|
    ensures forall p :: p in acc ==> p in ScanNeighbors(g, i, k, acc)
    ensures NoDup(acc) ==> NoDup(ScanNeighbors(g, i, k, acc))
    decreases |g.neighbors[i]| - k
  {
    if k < |g.neighbors[i]| {
      var j := g.neighbors[i][k];
      var p := Link(g, i, j);
      ScanNeighborsExtends(g, i, k + 1, if LinkOpen(g, i, j) && p !in acc then acc + [p] else acc);
    }
  }

  /** The inner loop adds exactly the bridges of the open links it scans. */
  lemma {:induction false} ScanNeighborsSpec(g: Board, i: nat, k: nat, acc: seq<Bridge>)
    requires WellFormed(g) && i < |g.coords| && k <= |g.neighbors[i]|
    ensures forall p :: p in ScanNeighbors(g, i, k, acc) ==> p in acc || OpenFrom(g, i, k, p)
    ensures forall m :: k <= m < |g.neighbors[i]| && LinkOpen(g, i, g.neighbors[i][m]) ==>
              Link(g, i, g.neighbors[i][m]) in ScanNeighbors(g, i, k, acc)
    decreases |g.neighbors[i]| - k
  {
    if k < |g.neighbors[i]| {
      var j := g.neighbors[i][k];
      var p := Link(g, i, j);
      var next := if LinkOpen(g, i, j) && p !in acc then acc + [p] else acc;
      ScanNeighborsSpec(g, i, k + 1, next);
      ScanNeighborsExtends(g, i, k + 1, next);
      forall q | q in ScanNeighbors(g, i, k, acc) && q !in acc
        ensures OpenFrom(g, i, k, q)
      {
        if q !in next {
          assert OpenFrom(g, i, k + 1, q);
          var m :| k + 1 <= m < |g.neighbors[i]| && LinkOpen(g, i, g.neighbors[i][m]) && q == Link(g, i, g.neighbors[i][m]);
          assert k <= m;
        } else {
          assert q == p;
        }
      }
    }
  }

  lemma {:induction false} CollectFromSpec(g: Board, i: nat, acc: seq<Bridge>)
    requires WellFormed(g) && i <= |g.coords|
    ensures forall p :: p in acc ==> p in CollectFrom(g, i, acc)
    ensures NoDup(acc) ==> NoDup(CollectFrom(g, i, acc))
    ensures forall p :: p in CollectFrom(g, i, acc) ==> p in acc || ValidFrom(g, i, p)
    ensures forall a, b :: i <= a && ValidLink(g, a, b) ==> Link(g, a, b) in CollectFrom(g, i, acc)
    decreases |g.coords| - i
  {
    if i < |g.coords| {
      var next := if Complete(g, i) then acc else ScanNeighbors(g, i, 0, acc);
      CollectFromSpec(g, i + 1, next);
      if !Complete(g, i) {
        ScanNeighborsSpec(g, i, 0, acc);
        ScanNeighborsExtends(g, i, 0, acc);
      }
      forall p | p in CollectFrom(g, i, acc) && p !in acc
        ensures ValidFrom(g, i, p)
      {
        if p in next {
          assert OpenFrom(g, i, 0, p);
          var m :| 0 <= m < |g.neighbors[i]| && LinkOpen(g, i, g.neighbors[i][m]) && p == Link(g, i, g.neighbors[i][m]);
          assert ValidLink(g, i, g.neighbors[i][m]);
        } else {
          assert ValidFrom(g, i + 1, p);
        }
      }
      forall a, b | i <= a && ValidLink(g, a, b)
        ensures Link(g, a, b) in CollectFrom(g, i, acc)
      {
        if a == i {
          var m :| 0 <= m < |g.neighbors[i]| && g.neighbors[i][m] == b;
        }
      }
    }
  }

  /** What valid_bridges returns: every bridge of a valid link, each once,
      and nothing else. */
  lemma ValidBridgesExactly(g: Board)
    requires WellFormed(g)
    ensures NoDup(ValidBridges(g))
    ensures forall p :: p in ValidBridges(g) <==> exists a, b :: ValidLink(g, a, b) && p == Link(g, a, b)
  {
    CollectFromSpec(g, 0, []);
  }

  /** Every candidate joins an island to one of its neighbours, both with
      nonzero capacity, fewer than two bridges between them and no crossing;
      it is a proper bridge whenever neighbour lists list only visible islands. */
  lemma CandidateFacts(g: Board, p: Bridge)
    requires WellFormed(g) && NeighborsSound(g.coords, g.neighbors)
    requires p in ValidBridges(g)
    ensures exists a, b :: ValidLink(g, a, b) && p == Link(g, a, b)
    ensures Proper(g.coords, p)
  {
    ValidBridgesExactly(g);
    var a: nat, b: nat :| ValidLink(g, a, b) && p == Link(g, a, b);
    assert Visible(g.coords, a, b);
    MakeBridgeCanonical(g.coords[a], g.coords[b]);
  }
}
