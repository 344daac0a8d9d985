/**
 The input of the shortest-path program (os_lab/assignment7): a list of undirected weighted edges, the
 matrix it is read into, and what a shortest route is in terms of the list alone.
 */
module EdgeLists {
  import opened ShortestPaths

  datatype Edge = Edge(i: nat, j: nat, w: int)

  predicate Joins(e: Edge, i: nat, j: nat) { (e.i == i && e.j == j) || (e.i == j && e.j == i) }

  /** Edge m is the one that counts between i and j: no later one joins them. */
  ghost predicate Counts(edges: seq<Edge>, m: nat, i: nat, j: nat) {
    m < |edges| && Joins(edges[m], i, j) && forall l :: m < l < |edges| ==> !Joins(edges[l], i, j)
  }

  ghost predicate Unjoined(edges: seq<Edge>, i: nat, j: nat) { forall m :: 0 <= m < |edges| ==> !Joins(edges[m], i, j) }

  ghost predicate InRange(edges: seq<Edge>, n: nat) { forall e :: e in edges ==> e.i < n && e.j < n }

  ghost predicate NotNegative(edges: seq<Edge>) { forall e :: e in edges ==> e.w >= 0 }

  /** v is the weight of the edge that counts; without one, 0 on the diagonal and -1 elsewhere. */
  ghost predicate IsEntry(edges: seq<Edge>, i: nat, j: nat, v: int) {
    && (forall m: nat :: Counts(edges, m, i, j) ==> v == edges[m].w)
    && (Unjoined(edges, i, j) ==> v == if i == j then 0 else -1)
  }

  // ---------- The matrix ----------

  /** The matrix element, found from the end of the list. */
  function Entry(edges: seq<Edge>, i: nat, j: nat): int {
    if edges == [] then (if i != j then INF else 0)
    else
      var last := edges[|edges| - 1];
      if (last.i == i && last.j == j) || (last.i == j && last.j == i) then last.w
      else Entry(edges[..|edges| - 1], i, j)
  }

  ghost function InputGrid(n: nat, edges: seq<Edge>): (g: Grid)
    ensures Square(g, n) && forall i, j :: 0 <= i < n && 0 <= j < n ==> g[i][j] == Entry(edges, i, j)
  {
    seq(n, i requires 0 <= i < n => seq(n, j requires 0 <= j < n => Entry(edges, i, j)))
  }

  /** Between any two vertices one edge counts, or none joins them; the element says which. */
  lemma {:induction false} EntryIs(edges: seq<Edge>, i: nat, j: nat)
    ensures IsEntry(edges, i, j, Entry(edges, i, j))
    ensures Unjoined(edges, i, j) || exists m :: Counts(edges, m, i, j)
  {
    if edges != [] {
      var n := |edges| - 1;
      if Joins(edges[n], i, j) {
        assert Counts(edges, n, i, j);
      } else {
        EntryIs(edges[..n], i, j);
        forall m: nat ensures Counts(edges[..n], m, i, j) <==> Counts(edges, m, i, j) {}
        if m: nat :| Counts(edges[..n], m, i, j) { assert Counts(edges, m, i, j); }
        assert Unjoined(edges[..n], i, j) <==> Unjoined(edges, i, j) by {
          forall m | 0 <= m < n ensures edges[..n][m] == edges[m] {}
        }
      }
    }
  }

  lemma {:induction false} EntryNotBelow(edges: seq<Edge>, i: nat, j: nat)
    requires NotNegative(edges)
    ensures Entry(edges, i, j) >= INF && Entry(edges, i, j) == Entry(edges, j, i)
  {
    if edges != [] {
      assert edges[|edges| - 1] in edges;
      EntryNotBelow(edges[..|edges| - 1], i, j);
    }
  }

  lemma InputIsWeighted(n: nat, edges: seq<Edge>)
    requires NotNegative(edges)
    ensures Weighted(InputGrid(n, edges), n)
  {
    forall i, j | 0 <= i < n && 0 <= j < n ensures Entry(edges, i, j) >= INF { EntryNotBelow(edges, i, j); }
  }

  // ---------- Routes ----------

  /** A route from i to j along the vertices p, by the edges `steps`; each counts between its two vertices. */
  ghost predicate IsRoute(edges: seq<Edge>, n: nat, i: nat, j: nat, p: seq<nat>, steps: seq<nat>) {
    && |p| == |steps| + 1 && p[0] == i && p[|steps|] == j
    && (forall t :: 0 <= t < |p| ==> p[t] < n)
    && forall t :: 0 <= t < |steps| ==> Counts(edges, steps[t], p[t], p[t + 1])
  }

  function Cost(edges: seq<Edge>, steps: seq<nat>): int {
    if steps == [] then 0 else (if steps[0] < |edges| then edges[steps[0]].w else 0) + Cost(edges, steps[1..])
  }

  /** Staying put is a route, unless the input has an edge from the vertex to itself. */
  ghost predicate IsTravel(edges: seq<Edge>, n: nat, i: nat, j: nat, p: seq<nat>, steps: seq<nat>) {
    IsRoute(edges, n, i, j, p, steps) && (steps == [] ==> Unjoined(edges, i, i))
  }

  /** v is the least cost of a route from i to j, -1 when there is none. */
  ghost predicate Shortest(edges: seq<Edge>, n: nat, i: nat, j: nat, v: int) {
    && (forall p, steps :: IsTravel(edges, n, i, j, p, steps) ==> v != -1 && v <= Cost(edges, steps))
    && (v != -1 ==> SomeTravel(edges, n, i, j, v))
  }

  ghost predicate SomeTravel(edges: seq<Edge>, n: nat, i: nat, j: nat, v: int) {
    exists p, steps :: IsTravel(edges, n, i, j, p, steps) && Cost(edges, steps) == v
  }

  /** An edge that counts is an element of the matrix. */
  lemma CountsIsEntry(edges: seq<Edge>, n: nat, m: nat, i: nat, j: nat)
    requires Counts(edges, m, i, j) && i < n && j < n
    ensures InputGrid(n, edges)[i][j] == edges[m].w
  {
    EntryIs(edges, i, j);
  }

  lemma RouteTail(edges: seq<Edge>, n: nat, i: nat, j: nat, p: seq<nat>, steps: seq<nat>)
    requires IsRoute(edges, n, i, j, p, steps) && steps != []
    ensures IsRoute(edges, n, p[1], j, p[1..], steps[1..])
  {
    forall t | 0 <= t < |steps[1..]| ensures Counts(edges, steps[1..][t], p[1..][t], p[1..][t + 1]) {
      assert Counts(edges, steps[t + 1], p[t + 1], p[t + 1 + 1]);
    }
  }

  lemma {:induction false} RouteLength(edges: seq<Edge>, n: nat, i: nat, j: nat, p: seq<nat>, steps: seq<nat>)
    requires IsRoute(edges, n, i, j, p, steps)
    ensures Length(InputGrid(n, edges), n, p) == Cost(edges, steps)
    decreases |steps|
  {
    if steps != [] {
      assert Counts(edges, steps[0], p[0], p[0 + 1]);
      CountsIsEntry(edges, n, steps[0], p[0], p[1]);
      RouteTail(edges, n, i, j, p, steps);
      RouteLength(edges, n, p[1], j, p[1..], steps[1..]);
    }
  }

  lemma RouteIsPath(edges: seq<Edge>, n: nat, i: nat, j: nat, p: seq<nat>, steps: seq<nat>)
    requires NotNegative(edges) && IsRoute(edges, n, i, j, p, steps) && steps != []
    ensures IsPath(InputGrid(n, edges), n, n, i, j, p)
    ensures Length(InputGrid(n, edges), n, p) == Cost(edges, steps)
  {
    forall t | 0 <= t < |p| - 1 ensures InputGrid(n, edges)[p[t]][p[t + 1]] != INF {
      assert Counts(edges, steps[t], p[t], p[t + 1]);
      CountsIsEntry(edges, n, steps[t], p[t], p[t + 1]);
      assert edges[steps[t]] in edges;
    }
    RouteLength(edges, n, i, j, p, steps);
  }

  /** One hop of a path: an edge that counts, or a vertex without an edge to itself staying put. */
  lemma HopIs(edges: seq<Edge>, n: nat, u: nat, v: nat)
    requires u < n && v < n && InputGrid(n, edges)[u][v] != INF
    ensures (exists m :: Counts(edges, m, u, v)) || (u == v && Unjoined(edges, u, u) && InputGrid(n, edges)[u][v] == 0)
  {
    EntryIs(edges, u, v);
  }

  lemma RouteExtends(edges: seq<Edge>, n: nat, m: nat, i: nat, u: nat, j: nat, p: seq<nat>, steps: seq<nat>)
    requires IsRoute(edges, n, u, j, p, steps) && i < n && Counts(edges, m, i, u)
    ensures IsRoute(edges, n, i, j, [i] + p, [m] + steps)
    ensures Cost(edges, [m] + steps) == edges[m].w + Cost(edges, steps)
  {
    var q, more := [i] + p, [m] + steps;
    forall t | 0 <= t < |more| ensures Counts(edges, more[t], q[t], q[t + 1]) {
      if t > 0 { assert Counts(edges, steps[t - 1], p[t - 1], p[t - 1 + 1]); }
    }
    assert more[1..] == steps;
  }

  /** A path without its idle hops is a route of the same length. */
  lemma {:induction false} PathToRoute(edges: seq<Edge>, n: nat, i: nat, j: nat, p: seq<nat>)
    returns (q: seq<nat>, steps: seq<nat>)
    requires IsPath(InputGrid(n, edges), n, n, i, j, p)
    ensures IsTravel(edges, n, i, j, q, steps) && Cost(edges, steps) == Length(InputGrid(n, edges), n, p)
    decreases |p|
  {
    var g, u := InputGrid(n, edges), p[1];
    assert g[p[0]][p[0 + 1]] != INF;
    HopIs(edges, n, i, u);
    if |p| == 2 {
      q, steps := [j], [];
      if m: nat :| Counts(edges, m, i, j) {
        RouteExtends(edges, n, m, i, j, j, q, steps);
        q, steps := [i] + q, [m] + steps;
        CountsIsEntry(edges, n, m, i, j);
      }
    } else {
      assert IsPath(g, n, n, u, j, p[1..]);
      q, steps := PathToRoute(edges, n, u, j, p[1..]);
      if m: nat :| Counts(edges, m, i, u) {
        RouteExtends(edges, n, m, i, u, j, q, steps);
        q, steps := [i] + q, [m] + steps;
        CountsIsEntry(edges, n, m, i, u);
      }
    }
  }

  /** What is least over the paths of the matrix is shortest over the routes of the edge list. */
  lemma LeastIsShortest(edges: seq<Edge>, n: nat, i: nat, j: nat, v: int)
    requires NotNegative(edges) && i < n && j < n && Least(InputGrid(n, edges), n, n, i, j, v)
    ensures Shortest(edges, n, i, j, v)
  {
    var g := InputGrid(n, edges);
    forall p, steps | IsTravel(edges, n, i, j, p, steps) ensures v != -1 && v <= Cost(edges, steps) {
      if steps != [] {
        RouteIsPath(edges, n, i, j, p, steps);
      } else {
        EntryIs(edges, i, i);
        assert IsPath(g, n, n, i, i, [i, i]) && Length(g, n, [i, i][1..]) == 0;
      }
    }
    if v != -1 {
      var p :| IsPath(g, n, n, i, j, p) && Length(g, n, p) == v;
      var q, steps := PathToRoute(edges, n, i, j, p);
    }
  }
}
