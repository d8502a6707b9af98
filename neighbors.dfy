// What Grid.update_neighbors computes (grid.py): for every island, the
// nearest island in each of the four directions along its row and column.
module Neighbors {
  import opened Geometry
  import opened Puzzle

  datatype Direction = West | East | North | South

  /** One cell further in direction d (north is towards smaller y). */
  function Step(c: Coord, d: Direction): Coord {
    match d
    case West => Coord(c.x - 1, c.y)
    case East => Coord(c.x + 1, c.y)
    case North => Coord(c.x, c.y - 1)
    case South => Coord(c.x, c.y + 1)
  }

  /** b lies on a's row or column, on the d side of a. */
  predicate Toward(a: Coord, b: Coord, d: Direction) {
    match d
    case West => b.y == a.y && b.x < a.x
    case East => b.y == a.y && b.x > a.x
    case North => b.x == a.x && b.y < a.y
    case South => b.x == a.x && b.y > a.y
  }

  /** Distance along a row or column. */
  function Dist(a: Coord, b: Coord): nat {
    (if a.x < b.x then b.x - a.x else a.x - b.x) + (if a.y < b.y then b.y - a.y else a.y - b.y)
  }

  /** c lies strictly between a and b on their common row or column. */
  predicate Between(c: Coord, a: Coord, b: Coord) {
    || (a.x == b.x && c.x == a.x && (a.y < c.y < b.y || b.y < c.y < a.y))
    || (a.y == b.y && c.y == a.y && (a.x < c.x < b.x || b.x < c.x < a.x))
  }

  /** Islands i and j see each other: they share a row or a column and no
      island lies strictly between them. */
  predicate Visible(coords: seq<Coord>, i: nat, j: nat) {
    && i < |coords| && j < |coords| && i != j
    && (coords[i].x == coords[j].x || coords[i].y == coords[j].y)
    && forall k :: 0 <= k < |coords| ==> !Between(coords[k], coords[i], coords[j])
  }

  predicate NoDup<T(==)>(s: seq<T>) {
    forall a, b :: 0 <= a < b < |s| ==> s[a] != s[b]
  }

  /** Every island lies inside the width x height board. */
  predicate InBounds(coords: seq<Coord>, width: int, height: int) {
    forall k :: 0 <= k < |coords| ==> 0 <= coords[k].x < width && 0 <= coords[k].y < height
  }

  /** Every neighbour list is free of repeats and lists only islands that
      its owner sees. */
  predicate NeighborsSound(coords: seq<Coord>, nbs: seq<seq<nat>>) {
    && |nbs| == |coords|
    && forall i :: 0 <= i < |nbs| ==> NoDup(nbs[i]) && forall j :: j in nbs[i] ==> Visible(coords, i, j)
  }

  /** ... and lists every island its owner sees. */
  predicate NeighborsResolved(coords: seq<Coord>, nbs: seq<seq<nat>>) {
    && NeighborsSound(coords, nbs)
    && forall i, j :: 0 <= i < |coords| && 0 <= j < |coords| && Visible(coords, i, j) ==> j in nbs[i]
  }

  lemma VisibleSymmetric(coords: seq<Coord>, i: nat, j: nat)
    requires Visible(coords, i, j)
    ensures Visible(coords, j, i)
  {
  }

  /** Resolved neighbour lists are symmetric: a lists b exactly when b lists a. */
  lemma NeighborsSymmetric(coords: seq<Coord>, nbs: seq<seq<nat>>, i: nat, j: nat)
    requires NeighborsResolved(coords, nbs) && i < |coords| && j < |coords|
    ensures j in nbs[i] <==> i in nbs[j]
  {
    if j in nbs[i] {
      VisibleSymmetric(coords, i, j);
    }
    if i in nbs[j] {
      VisibleSymmetric(coords, j, i);
    }
  }

  /** Seeing each other is being nearest: j is visible from i exactly when j
      lies in some direction d from i and no island in direction d is closer. */
  lemma VisibleIffNearest(coords: seq<Coord>, i: nat, j: nat)
    requires Distinct(coords) && i < |coords| && j < |coords|
    ensures Visible(coords, i, j) <==>
      exists d :: Toward(coords[i], coords[j], d)
        && forall k :: 0 <= k < |coords| && Toward(coords[i], coords[k], d) ==>
             Dist(coords[i], coords[j]) <= Dist(coords[i], coords[k])
  {
    var a, b := coords[i], coords[j];
    if Visible(coords, i, j) {
      var d := if a.y == b.y && b.x < a.x then West
               else if a.y == b.y then East
               else if b.y < a.y then North
               else South;
      assert a != b;
      assert Toward(a, b, d);
      forall k | 0 <= k < |coords| && Toward(a, coords[k], d)
        ensures Dist(a, b) <= Dist(a, coords[k])
      {
        assert !Between(coords[k], a, b);
      }
    }
    if exists d :: Toward(a, b, d)
        && forall k :: 0 <= k < |coords| && Toward(a, coords[k], d) ==> Dist(a, b) <= Dist(a, coords[k])
    {
      var d :| Toward(a, b, d)
        && forall k :: 0 <= k < |coords| && Toward(a, coords[k], d) ==> Dist(a, b) <= Dist(a, coords[k]);
      forall k | 0 <= k < |coords|
        ensures !Between(coords[k], a, b)
      {
        BetweenIsCloser(coords[k], a, b, d);
      }
      assert a != b;
    }
  }

  /** An island strictly between a and b, where b lies in direction d from
      a, lies in direction d too and is closer. */
  lemma BetweenIsCloser(c: Coord, a: Coord, b: Coord, d: Direction)
    requires Toward(a, b, d)
    ensures Between(c, a, b) ==> Toward(a, c, d) && Dist(a, c) < Dist(a, b)
  {
  }

  /** An island sees at most one island in each direction. */
  lemma OnePerDirection(coords: seq<Coord>, i: nat, j: nat, k: nat, d: Direction)
    requires Distinct(coords)
    requires Visible(coords, i, j) && Visible(coords, i, k)
    requires Toward(coords[i], coords[j], d) && Toward(coords[i], coords[k], d)
    ensures j == k
  {
    assert !Between(coords[k], coords[i], coords[j]);
    assert !Between(coords[j], coords[i], coords[k]);
    assert coords[j] == coords[k];
  }

  /** The loop guard of the scan in direction d, as a count: how many cells
      remain from c up to the edge of the width x height board (for west and
      north only the lower edge is tested, for east and south only the upper). */
  function Room(c: Coord, d: Direction, width: int, height: int): int {
    match d
    case West => c.x + 1
    case East => width - c.x
    case North => c.y + 1
    case South => height - c.y
  }

  /** Each step of the scan moves one cell further from the start and one
      cell nearer the edge. */
  lemma StepAway(a: Coord, c: Coord, d: Direction, width: int, height: int)
    requires c == a || Toward(a, c, d)
    ensures Toward(a, Step(c, d), d) && Dist(a, Step(c, d)) == Dist(a, c) + 1
    ensures Room(Step(c, d), d, width, height) == Room(c, d, width, height) - 1
  {
  }

  /** Two cells on the same side of a at the same distance are one cell. */
  lemma SameDistance(a: Coord, b: Coord, c: Coord, d: Direction)
    requires Toward(a, b, d) && Toward(a, c, d) && Dist(a, b) == Dist(a, c)
    ensures b == c
  {
  }

  /** A scan that has left the board has passed every island on the board
      in its direction. */
  lemma OffBoard(a: Coord, b: Coord, c: Coord, d: Direction, width: int, height: int)
    requires Toward(a, b, d) && Toward(a, c, d)
    requires 0 <= b.x < width && 0 <= b.y < height
    requires Room(c, d, width, height) <= 0
    ensures Dist(a, b) < Dist(a, c)
  {
  }

  /** Every island an island sees lies in one of the four directions. */
  lemma VisibleHasDirection(coords: seq<Coord>, i: nat, j: nat) returns (d: Direction)
    requires Distinct(coords) && Visible(coords, i, j)
    ensures Toward(coords[i], coords[j], d)
  {
    var a, b := coords[i], coords[j];
    d := if a.y == b.y && b.x < a.x then West
         else if a.y == b.y then East
         else if b.y < a.y then North
         else South;
  }

  /** Island.add_neighbor behind the membership test of update_neighbors:
      b joins a's list unless it is there already. */
  function Befriend(nbs: seq<seq<nat>>, a: nat, b: nat): (r: seq<seq<nat>>)
    requires a < |nbs|
    ensures Grew(nbs, r) && b in r[a]
    ensures forall k, j :: 0 <= k < |r| && j in r[k] ==> j in nbs[k] || (k == a && j == b)
    ensures b in nbs[a] ==> r == nbs
  {
    if b in nbs[a] then nbs else nbs[a := nbs[a] + [b]]
  }

  /** Every list of nbs is a prefix of the same list in r: lists only grow
      at their ends. */
  predicate Grew(nbs: seq<seq<nat>>, r: seq<seq<nat>>) {
    |nbs| == |r| && forall k :: 0 <= k < |nbs| ==> nbs[k] <= r[k]
  }

  lemma GrewTransitive(p: seq<seq<nat>>, q: seq<seq<nat>>, r: seq<seq<nat>>)
    requires Grew(p, q) && Grew(q, r)
    ensures Grew(p, r)
    ensures forall k, j :: 0 <= k < |p| && j in p[k] ==> j in r[k]
  {
    forall k, j | 0 <= k < |p| && j in p[k]
      ensures j in r[k]
    {
      var m :| 0 <= m < |p[k]| && p[k][m] == j;
      assert q[k][m] == j && r[k][m] == j;
    }
  }

  /** Befriending an island one sees keeps the lists sound. */
  lemma BefriendKeepsSound(coords: seq<Coord>, nbs: seq<seq<nat>>, a: nat, b: nat)
    requires NeighborsSound(coords, nbs) && Visible(coords, a, b)
    ensures NeighborsSound(coords, Befriend(nbs, a, b))
  {
    var r := Befriend(nbs, a, b);
    if b !in nbs[a] {
      forall k | 0 <= k < |r|
        ensures NoDup(r[k]) && forall j :: j in r[k] ==> Visible(coords, k, j)
      {
        if k == a {
          assert NoDup(nbs[a]);
        } else {
          assert r[k] == nbs[k];
        }
      }
    }
  }
}
