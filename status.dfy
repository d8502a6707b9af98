// What Grid.status_helper, Grid.dfs and Grid.status (grid.py) decide about a
// grid, as functions of its state.
module Status {
  import opened Geometry
  import opened Puzzle

  /** The dictionary key status_helper files a bridge under: the
      coordinates of its two ends. */
  function Key(b: Bridge): (int, int, int, int) {
    (b.end1.x, b.end1.y, b.end2.x, b.end2.y)
  }

  /** The dictionary status_helper builds from the bridge list: how often
      each key occurs. */
  function KeyCounts(s: seq<Bridge>): (m: map<(int, int, int, int), nat>)
    ensures forall k :: k in m ==> m[k] > 0
  {
    if s == [] then map[]
    else
      var prev := KeyCounts(s[..|s| - 1]);
      var k := Key(s[|s| - 1]);
      prev[k := (if k in prev then prev[k] else 0) + 1]
  }

  /** Some pair of islands is joined by more than two bridges. */
  predicate Overloaded(bag: multiset<Bridge>) {
    exists b :: b in bag && bag[b] > 2
  }

  /** On canonical bridges a key names exactly one bridge. */
  lemma KeyIsInjective(p: Bridge, q: Bridge)
    requires Canonical(p) && Canonical(q)
    ensures Key(p) == Key(q) <==> p == q
  {
    EndpointEqualityIsEquality(p, q);
  }

  /** The dictionary holds, under each canonical bridge's key, the number of
      copies of that bridge in the list, and holds no other keys. */
  lemma {:induction false} KeyCountsAreMultiplicities(s: seq<Bridge>)
    requires forall k :: 0 <= k < |s| ==> Canonical(s[k])
    ensures forall k :: k in KeyCounts(s) ==> exists b :: b in s && Key(b) == k
    ensures forall b :: Canonical(b) ==>
      (Key(b) in KeyCounts(s) <==> b in s) && (Key(b) in KeyCounts(s) ==> KeyCounts(s)[Key(b)] == multiset(s)[b])
  {
    if s != [] {
      var t, last := s[..|s| - 1], s[|s| - 1];
      assert s == t + [last];
      KeyCountsAreMultiplicities(t);
      forall b | Canonical(b)
        ensures (Key(b) in KeyCounts(s) <==> b in s) && (Key(b) in KeyCounts(s) ==> KeyCounts(s)[Key(b)] == multiset(s)[b])
      {
        KeyIsInjective(b, last);
      }
      forall k | k in KeyCounts(s)
        ensures exists b :: b in s && Key(b) == k
      {
        if k != Key(last) {
          var b :| b in t && Key(b) == k;
          assert b in s;
        }
      }
    }
  }

  /** status_helper's first test: some dictionary count exceeds two exactly
      when some pair carries more than two bridges. */
  lemma OverCountIffOverloaded(s: seq<Bridge>)
    requires forall k :: 0 <= k < |s| ==> Canonical(s[k])
    ensures (exists k :: k in KeyCounts(s) && KeyCounts(s)[k] > 2) <==> Overloaded(multiset(s))
  {
    KeyCountsAreMultiplicities(s);
    if exists k :: k in KeyCounts(s) && KeyCounts(s)[k] > 2 {
      var k :| k in KeyCounts(s) && KeyCounts(s)[k] > 2;
      var b :| b in s && Key(b) == k;
      assert Canonical(b);
    }
    if Overloaded(multiset(s)) {
      var b :| b in multiset(s) && multiset(s)[b] > 2;
      assert b in s && Canonical(b);
      assert KeyCounts(s)[Key(b)] > 2;
    }
  }

  /** potential_bridge_num after the first k neighbours of island i: the
      summed capacities of neighbours whose bridge would cross nothing. */
  function Potential(g: Board, i: nat, k: nat): int
    requires WellFormed(g) && i < |g.coords| && k <= |g.neighbors[i]|
  {
    if k == 0 then 0
    else
      var j := g.neighbors[i][k - 1];
      Potential(g, i, k - 1) + if Conflicts(g.bridges, Link(g, i, j)) then 0 else g.capacity[j]
  }

  /** Island i needs more bridges than its neighbours can take, or has too
      many already. */
  predicate Fails(g: Board, i: nat)
    requires WellFormed(g) && i < |g.coords|
  {
    Potential(g, i, |g.neighbors[i]|) < g.capacity[i] || g.capacity[i] < 0
  }

  /** Island i passes status_helper's checks and is complete, so the scan
      moves on past it. */
  predicate Settled(g: Board, i: nat)
    requires WellFormed(g) && i < |g.coords|
  {
    !Fails(g, i) && g.capacity[i] == 0
  }

  /** The island loop of status_helper from island i on. */
  function HelperFrom(g: Board, i: nat): (r: int)
    requires WellFormed(g) && i <= |g.coords|
    ensures -1 <= r <= 1
    ensures r == 1 ==> forall e :: i <= e < |g.coords| ==> g.capacity[e] == 0
    decreases |g.coords| - i
  {
    if i == |g.coords| then 1
    else if Fails(g, i) then -1
    else if g.capacity[i] != 0 then 0
    else HelperFrom(g, i + 1)
  }

  /** Grid.status_helper */
  function StatusHelperOf(g: Board): int
    requires WellFormed(g)
  {
    if Overloaded(g.bridges) then -1 else HelperFrom(g, 0)
  }

  /** Island i is the first one, in list order, that status_helper does not
      pass over. */
  predicate FirstUnsettled(g: Board, i: nat)
    requires WellFormed(g)
  {
    i < |g.coords| && !Settled(g, i) && forall e :: 0 <= e < i ==> Settled(g, e)
  }

  lemma {:induction false} HelperSkipsSettled(g: Board, s: nat, i: nat)
    requires WellFormed(g) && s <= i <= |g.coords|
    requires forall e :: s <= e < i ==> Settled(g, e)
    ensures HelperFrom(g, s) == HelperFrom(g, i)
    decreases i - s
  {
    if s < i {
      assert Settled(g, s);
      HelperSkipsSettled(g, s + 1, i);
    }
  }

  /** status_helper returns 1 exactly when no pair is overloaded and every
      island is complete (its neighbours' summed capacity is then 0, so the
      feasibility test passes). */
  lemma HelperOneIff(g: Board)
    requires WellFormed(g)
    ensures StatusHelperOf(g) == 1 <==>
      !Overloaded(g.bridges) && forall i :: 0 <= i < |g.coords| ==> g.capacity[i] == 0
  {
    if forall i :: 0 <= i < |g.coords| ==> g.capacity[i] == 0 {
      forall i | 0 <= i < |g.coords|
        ensures Settled(g, i)
      {
        PotentialOfCompleteNeighbours(g, i, |g.neighbors[i]|);
      }
      HelperSkipsSettled(g, 0, |g.coords|);
    } else if !Overloaded(g.bridges) {
      var f := FirstUnsettledExists(g);
      HelperSkipsSettled(g, 0, f);
    }
  }

  /** With every capacity 0 no neighbour can take a bridge. */
  lemma {:induction false} PotentialOfCompleteNeighbours(g: Board, i: nat, k: nat)
    requires WellFormed(g) && i < |g.coords| && k <= |g.neighbors[i]|
    requires forall e :: 0 <= e < |g.coords| ==> g.capacity[e] == 0
    ensures Potential(g, i, k) == 0
  {
    if k > 0 {
      PotentialOfCompleteNeighbours(g, i, k - 1);
    }
  }

  /** When not every island is complete, there is a first island the scan
      stops at. */
  lemma FirstUnsettledExists(g: Board) returns (f: nat)
    requires WellFormed(g)
    requires exists i :: 0 <= i < |g.coords| && g.capacity[i] != 0
    ensures FirstUnsettled(g, f)
  {
    var i :| 0 <= i < |g.coords| && g.capacity[i] != 0;
    f := 0;
    while Settled(g, f)
      invariant f <= i
      invariant forall e :: 0 <= e < f ==> Settled(g, e)
      decreases i - f
    {
      f := f + 1;
    }
  }

  /** The early stop: status_helper decides at the first island it does not
      pass over, -1 if that island fails the feasibility test and 0 if it is
      merely incomplete; islands after it are not looked at. */
  lemma HelperDecidesAtFirstUnsettled(g: Board, f: nat)
    requires WellFormed(g) && !Overloaded(g.bridges) && FirstUnsettled(g, f)
    ensures StatusHelperOf(g) == if Fails(g, f) then -1 else 0
  {
    HelperSkipsSettled(g, 0, f);
  }

  lemma StatusHelperRange(g: Board)
    requires WellFormed(g)
    ensures StatusHelperOf(g) in {-1, 0, 1}
  {
    if !Overloaded(g.bridges) {
      if forall i :: 0 <= i < |g.coords| ==> g.capacity[i] == 0 {
        HelperOneIff(g);
      } else {
        var f := FirstUnsettledExists(g);
        HelperDecidesAtFirstUnsettled(g, f);
      }
    }
  }

  /** Grid.dfs crosses from island u to island v along a bridge in u's own
      list. */
  predicate Linked(g: Board, u: nat, v: nat)
    requires WellFormed(g) && u < |g.coords| && v < |g.coords|
  {
    exists b :: b in g.incident[u] && Other(b, g.coords[u]) == g.coords[v]
  }

  /** Every bridge in an island's own list leads to an island of the grid,
      so dfs can always look up the island across it. */
  ghost predicate Crossable(g: Board)
    requires WellFormed(g)
  {
    forall u, b :: 0 <= u < |g.coords| && b in g.incident[u] ==> Other(b, g.coords[u]) in g.coords
  }

  lemma ConsistentIsCrossable(g: Board)
    requires Consistent(g)
    ensures Crossable(g)
  {
    forall u, b | 0 <= u < |g.coords| && b in g.incident[u]
      ensures Other(b, g.coords[u]) in g.coords
    {
      IncidentOther(g, u, b);
    }
  }

  ghost predicate IsPath(g: Board, p: seq<nat>)
    requires WellFormed(g)
  {
    && |p| >= 1
    && (forall k :: 0 <= k < |p| ==> p[k] < |g.coords|)
    && forall k :: 0 <= k < |p| - 1 ==> Linked(g, p[k], p[k + 1])
  }

  /** Island t can be reached from island s by crossing bridges. */
  ghost predicate Reachable(g: Board, s: nat, t: nat)
    requires WellFormed(g)
  {
    exists p :: IsPath(g, p) && p[0] == s && p[|p| - 1] == t
  }

  /** Every island can be reached from the first one. */
  ghost predicate Connected(g: Board)
    requires WellFormed(g) && |g.coords| > 0
  {
    forall t :: 0 <= t < |g.coords| ==> Reachable(g, 0, t)
  }

  /** Grid.status; the source indexes the first island, so the grid must
      have one. */
  ghost function StatusOf(g: Board): int
    requires WellFormed(g) && |g.coords| > 0
  {
    var x := StatusHelperOf(g);
    if x == 1 then (if Connected(g) then 1 else -1) else x
  }

  lemma ReachableRefl(g: Board, s: nat)
    requires WellFormed(g) && s < |g.coords|
    ensures Reachable(g, s, s)
  {
    assert IsPath(g, [s]);
  }

  /** One bridge crossing followed by a path is a path. */
  lemma ReachableStep(g: Board, u: nat, w: nat, v: nat)
    requires WellFormed(g) && u < |g.coords| && w < |g.coords|
    requires Linked(g, u, w) && Reachable(g, w, v)
    ensures Reachable(g, u, v)
  {
    var p :| IsPath(g, p) && p[0] == w && p[|p| - 1] == v;
    var q := [u] + p;
    assert forall k :: 1 <= k < |q| ==> q[k] == p[k - 1];
    assert IsPath(g, q);
  }

  /** A set of islands that holds s and is closed under bridge crossings
      holds every island reachable from s. */
  lemma ClosedContainsReachable(g: Board, S: set<nat>, s: nat, t: nat)
    requires WellFormed(g) && s in S
    requires forall v: nat, w: nat :: v in S && v < |g.coords| && w < |g.coords| && Linked(g, v, w) ==> w in S
    requires Reachable(g, s, t)
    ensures t in S
  {
    var p :| IsPath(g, p) && p[0] == s && p[|p| - 1] == t;
    var k := 0;
    while k < |p| - 1
      invariant 0 <= k < |p| && p[k] in S
    {
      assert Linked(g, p[k], p[k + 1]);
      k := k + 1;
    }
  }

  /** The islands whose visited flag is down. */
  ghost function Unmarked(marks: seq<bool>): set<nat> {
    set v | 0 <= v < |marks| && !marks[v]
  }

  /** A dfs from u turned the flags before into the flags after: none was
      lowered, and every island it marked is reachable from u. */
  ghost predicate MarkedFrom(g: Board, before: seq<bool>, after: seq<bool>, u: nat)
    requires WellFormed(g)
  {
    && |before| == |g.coords| && |after| == |g.coords|
    && (forall v :: 0 <= v < |after| && before[v] ==> after[v])
    && (forall v :: 0 <= v < |after| && after[v] && !before[v] ==> Reachable(g, u, v))
  }

  /** Every island marked between before and after, except perhaps island
      x, has the islands across its bridges marked. */
  ghost predicate ClosedBut(g: Board, before: seq<bool>, after: seq<bool>, x: int)
    requires WellFormed(g) && |before| == |g.coords| && |after| == |g.coords|
  {
    forall v, w :: 0 <= v < |after| && 0 <= w < |after| && v != x && after[v] && !before[v] && Linked(g, v, w) ==> after[w]
  }

  /** Marking only raises flags, so the set of unmarked islands shrinks. */
  lemma MarkingShrinks(g: Board, before: seq<bool>, after: seq<bool>, u: nat)
    requires WellFormed(g) && MarkedFrom(g, before, after, u)
    ensures Unmarked(after) <= Unmarked(before)
  {
  }

  /** dfs(u) starts by marking u. */
  lemma MarkStart(g: Board, before: seq<bool>, u: nat)
    requires WellFormed(g) && |before| == |g.coords| && u < |g.coords| && !before[u]
    ensures MarkedFrom(g, before, before[u := true], u)
    ensures ClosedBut(g, before, before[u := true], u)
    ensures Unmarked(before[u := true]) < Unmarked(before)
  {
    ReachableRefl(g, u);
    assert u in Unmarked(before) - Unmarked(before[u := true]);
  }

  /** dfs(u) calls dfs(w) for an unmarked island w across one of u's
      bridges: the islands that call marks are reachable from u through w,
      and the closure it establishes adds to u's. */
  lemma MarkCall(g: Board, o: seq<bool>, pre: seq<bool>, post: seq<bool>, u: nat, w: nat)
    requires WellFormed(g) && u < |g.coords| && w < |g.coords|
    requires MarkedFrom(g, o, pre, u) && ClosedBut(g, o, pre, u)
    requires Linked(g, u, w) && !pre[w]
    requires MarkedFrom(g, pre, post, w) && ClosedBut(g, pre, post, -1) && post[w]
    ensures MarkedFrom(g, o, post, u) && ClosedBut(g, o, post, u)
  {
    forall v | 0 <= v < |post| && post[v] && !o[v]
      ensures Reachable(g, u, v)
    {
      if !pre[v] {
        ReachableStep(g, u, w, v);
      }
    }
  }

  /** status returns 1 exactly when no pair is overloaded, every island is
      complete and the bridges connect every island to the first. */
  lemma StatusOneIff(g: Board)
    requires WellFormed(g) && |g.coords| > 0
    ensures StatusOf(g) == 1 <==>
      && !Overloaded(g.bridges)
      && (forall i :: 0 <= i < |g.coords| ==> g.capacity[i] == 0)
      && Connected(g)
  {
    HelperOneIff(g);
    StatusHelperRange(g);
  }

  lemma StatusRange(g: Board)
    requires WellFormed(g) && |g.coords| > 0
    ensures StatusOf(g) in {-1, 0, 1}
    ensures StatusOf(g) == 0 <==> StatusHelperOf(g) == 0
  {
    StatusHelperRange(g);
  }
}
