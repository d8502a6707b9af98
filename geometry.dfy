// Positions of islands and the bridges drawn between them: the value part of
// the Island and Bridge classes of grid.py.
module Geometry {

  /** An island's position on the board. Islands are told apart by their
      coordinates alone (Island.__eq__). */
  datatype Coord = Coord(x: int, y: int)

  /** Bridge.orientation, written 1 (vertical) and -1 (horizontal) in the source. */
  datatype Orientation = Vertical | Horizontal

  /** A bridge between two islands, endpoints kept in canonical order. */
  datatype Bridge = Bridge(orientation: Orientation, end1: Coord, end2: Coord)

  /** A vertical bridge runs down a column with its first end on top; a
      horizontal one has its first end on the left. */
  predicate Ordered(r: Bridge) {
    match r.orientation
    case Vertical => r.end1.x == r.end2.x && r.end1.y < r.end2.y
    case Horizontal => r.end1.x < r.end2.x
  }

  /** Bridge.__init__: the orientation is vertical exactly when the islands
      share a column, and the endpoints are sorted along the bridge. */
  function MakeBridge(a: Coord, b: Coord): (r: Bridge)
    ensures r.orientation == Vertical <==> a.x == b.x
    ensures (r.end1 == a && r.end2 == b) || (r.end1 == b && r.end2 == a)
    ensures a != b ==> Ordered(r)
  {
    if a.x == b.x then
      if a.y < b.y then Bridge(Vertical, a, b) else Bridge(Vertical, b, a)
    else
      if a.x < b.x then Bridge(Horizontal, a, b) else Bridge(Horizontal, b, a)
  }

  /** A bridge value that Bridge.__init__ could have produced. */
  predicate Canonical(r: Bridge) {
    r == MakeBridge(r.end1, r.end2)
  }

  /** The island at c is one of the bridge's ends. */
  predicate Touches(r: Bridge, c: Coord) {
    r.end1 == c || r.end2 == c
  }

  /** The end of the bridge that is not c (the DFS step of Grid.dfs). */
  function Other(r: Bridge, c: Coord): Coord {
    if r.end1 == c then r.end2 else r.end1
  }

  /** Bridge construction ignores the order of its two islands. */
  lemma MakeBridgeUnordered(a: Coord, b: Coord)
    ensures MakeBridge(a, b) == MakeBridge(b, a)
  {
  }

  /** Every constructed bridge is canonical. */
  lemma MakeBridgeCanonical(a: Coord, b: Coord)
    ensures Canonical(MakeBridge(a, b))
  {
  }

  /** Two constructed bridges are equal exactly when they join the same
      unordered pair of islands. */
  lemma MakeBridgeEqual(a: Coord, b: Coord, c: Coord, d: Coord)
    requires a != b
    ensures MakeBridge(a, b) == MakeBridge(c, d) <==> (a == c && b == d) || (a == d && b == c)
  {
    if (a == c && b == d) || (a == d && b == c) {
      MakeBridgeUnordered(a, b);
    }
  }

  /** Bridge.__eq__ compares only the two endpoints; on canonical bridges
      that is full equality, orientation included. */
  lemma EndpointEqualityIsEquality(p: Bridge, q: Bridge)
    requires Canonical(p) && Canonical(q)
    ensures (p.end1 == q.end1 && p.end2 == q.end2) <==> p == q
  {
  }

  /** The ends of a canonical bridge between two distinct islands lie on one
      row or one column (a "straight" bridge). */
  predicate Straight(r: Bridge) {
    Ordered(r) && (r.orientation == Horizontal ==> r.end1.y == r.end2.y)
  }

  /** Bridge.intersects: parallel bridges never cross; a vertical and a
      horizontal bridge cross when each one's fixed coordinate lies strictly
      between the other's ends. */
  function Intersects(s: Bridge, o: Bridge): (r: bool)
    ensures r ==> s.orientation != o.orientation
  {
    if o.orientation == s.orientation then false
    else if s.orientation == Vertical then
      o.end1.y > s.end1.y && o.end1.y < s.end2.y && s.end1.x > o.end1.x && s.end1.x < o.end2.x
    else
      s.end1.y > o.end1.y && s.end1.y < o.end2.y && o.end1.x > s.end1.x && o.end1.x < s.end2.x
  }

  lemma IntersectsSymmetric(s: Bridge, o: Bridge)
    ensures Intersects(s, o) == Intersects(o, s)
  {
  }

  /** p is a point of the bridge other than its two ends. */
  predicate Interior(p: Coord, r: Bridge) {
    if r.orientation == Vertical then p.x == r.end1.x && r.end1.y < p.y < r.end2.y
    else p.y == r.end1.y && r.end1.x < p.x < r.end2.x
  }

  /** For straight bridges the crossing test agrees with plane geometry: a
      vertical and a horizontal bridge cross exactly when some point lies
      strictly inside both of them. */
  lemma IntersectsIffCommonInteriorPoint(s: Bridge, o: Bridge)
    requires Straight(s) && Straight(o) && s.orientation != o.orientation
    ensures Intersects(s, o) <==> exists p :: Interior(p, s) && Interior(p, o)
  {
    var (v, h) := if s.orientation == Vertical then (s, o) else (o, s);
    var meet := Coord(v.end1.x, h.end1.y);
    if Intersects(s, o) {
      assert Interior(meet, s) && Interior(meet, o);
    }
    if exists p :: Interior(p, s) && Interior(p, o) {
      var p :| Interior(p, s) && Interior(p, o);
      assert p == meet;
    }
  }

  /** Bridges that meet only at a shared island do not cross. */
  lemma SharedEndIsNoCrossing(s: Bridge, o: Bridge, c: Coord)
    requires Straight(s) && Straight(o)
    requires Touches(s, c) && Touches(o, c)
    ensures !Intersects(s, o)
  {
  }
}
