/**
 Shortest paths in a weighted graph given as a matrix, and the one pass of Floyd and Warshall.

 An entry of -1 means that there is no edge.  A path has at least one edge, so a vertex
 reaches itself at no cost exactly when its diagonal entry says so.
 */
module ShortestPaths {

  type Grid = seq<seq<int>>

  const INF := -1

  ghost predicate Square(g: Grid, n: nat) {
    |g| == n && forall i :: 0 <= i < n ==> |g[i]| == n
  }

  /** Every entry is -1 or a weight that is not negative. */
  ghost predicate Weighted(g: Grid, n: nat) {
    Square(g, n) && forall i, j :: 0 <= i < n && 0 <= j < n ==> g[i][j] >= INF
  }

  /** A path from i to j whose inner vertices are all below k. */
  ghost predicate IsPath(g: Grid, n: nat, k: nat, i: nat, j: nat, p: seq<nat>)
    requires Square(g, n)
  {
    && |p| >= 2 && p[0] == i && p[|p| - 1] == j
    && (forall t :: 0 <= t < |p| ==> p[t] < n)
    && (forall t :: 0 <= t < |p| - 1 ==> g[p[t]][p[t + 1]] != INF)
    && forall t :: 0 < t < |p| - 1 ==> p[t] < k
  }

  ghost function Length(g: Grid, n: nat, p: seq<nat>): int
    requires Square(g, n) && forall t :: 0 <= t < |p| ==> p[t] < n
  {
    if |p| < 2 then 0 else g[p[0]][p[1]] + Length(g, n, p[1..])
  }

  /** v is the least length of a path from i to j through vertices below k, or -1 when there is none. */
  ghost predicate Least(g: Grid, n: nat, k: nat, i: nat, j: nat, v: int)
    requires Square(g, n)
  {
    && (v == INF ==> !exists p :: IsPath(g, n, k, i, j, p))
    && (v != INF ==> exists p :: IsPath(g, n, k, i, j, p) && Length(g, n, p) == v)
    && forall p :: IsPath(g, n, k, i, j, p) ==> v <= Length(g, n, p)
  }

  /** d holds the least lengths of all paths through vertices below k. */
  ghost predicate AllLeast(g: Grid, n: nat, k: nat, d: Grid)
    requires Square(g, n) && Square(d, n)
  {
    forall i, j :: 0 <= i < n && 0 <= j < n ==> Least(g, n, k, i, j, d[i][j])
  }

  // ---------- One pass ----------

  /** The entry (i, j) after a detour through k has been considered. */
  function Via(d: Grid, n: nat, k: nat, i: nat, j: nat): int
    requires |d| == n && k < n && i < n && j < n && |d[i]| == n && |d[k]| == n
  {
    if d[i][k] == INF || d[k][j] == INF then d[i][j]
    else if d[i][j] == INF || d[i][k] + d[k][j] < d[i][j] then d[i][k] + d[k][j]
    else d[i][j]
  }

  ghost function Pass(d: Grid, n: nat, k: nat): (r: Grid)
    requires Square(d, n) && k < n
  {
    seq(n, i requires 0 <= i < n => seq(n, j requires 0 <= j < n => Via(d, n, k, i, j)))
  }

  /** The matrix after the passes 0 .. k-1. */
  ghost function Passes(g: Grid, n: nat, k: nat): (r: Grid)
    requires Square(g, n) && k <= n
    ensures Square(r, n)
  {
    if k == 0 then g else Pass(Passes(g, n, k - 1), n, k - 1)
  }

  /** A pass never changes its own row and column. */
  lemma PivotFixed(d: Grid, n: nat, k: nat, i: nat)
    requires Weighted(d, n) && k < n && i < n
    ensures Via(d, n, k, i, k) == d[i][k] && Via(d, n, k, k, i) == d[k][i]
  {
  }

  // ---------- Cutting and joining paths ----------

  lemma {:induction false} LengthSplits(g: Grid, n: nat, p: seq<nat>, t: nat)
    requires Square(g, n) && t < |p| && forall u :: 0 <= u < |p| ==> p[u] < n
    ensures Length(g, n, p) == Length(g, n, p[..t + 1]) + Length(g, n, p[t..])
  {
    if t > 0 {
      assert p[1..][..t] == p[..t + 1][1..] && p[1..][t - 1..] == p[t..];
      LengthSplits(g, n, p[1..], t - 1);
    }
  }

  lemma {:induction false} LengthNotNegative(g: Grid, n: nat, k: nat, i: nat, j: nat, p: seq<nat>)
    requires Weighted(g, n) && IsPath(g, n, k, i, j, p)
    ensures Length(g, n, p) >= 0
    decreases |p|
  {
    if |p| > 2 {
      assert IsPath(g, n, k, p[1], j, p[1..]);
      LengthNotNegative(g, n, k, p[1], j, p[1..]);
    }
  }

  lemma PathSplits(g: Grid, n: nat, k: nat, i: nat, j: nat, p: seq<nat>, t: nat)
    requires Weighted(g, n) && IsPath(g, n, k, i, j, p) && 0 < t < |p| - 1
    ensures IsPath(g, n, k, i, p[t], p[..t + 1]) && IsPath(g, n, k, p[t], j, p[t..])
    ensures Length(g, n, p) == Length(g, n, p[..t + 1]) + Length(g, n, p[t..])
  {
    LengthSplits(g, n, p, t);
  }

  lemma PathsJoin(g: Grid, n: nat, k: nat, i: nat, m: nat, j: nat, p: seq<nat>, q: seq<nat>)
    requires Square(g, n) && m < k && IsPath(g, n, k, i, m, p) && IsPath(g, n, k, m, j, q)
    ensures IsPath(g, n, k, i, j, p + q[1..])
    ensures Length(g, n, p + q[1..]) == Length(g, n, p) + Length(g, n, q)
  {
    var r, t := p + q[1..], |p| - 1;
    assert r[..t + 1] == p && r[t..] == q;
    LengthSplits(g, n, r, t);
  }

  // ---------- A pass takes the least lengths one vertex further ----------

  /** The part of a path after its first visit to k is no shorter than the direct way. */
  lemma {:induction false} TailBound(g: Grid, n: nat, k: nat, j: nat, d: Grid, p: seq<nat>)
    requires Weighted(g, n) && Square(d, n) && k < n && j < n && AllLeast(g, n, k, d)
    requires IsPath(g, n, k + 1, k, j, p)
    ensures d[k][j] != INF && d[k][j] <= Length(g, n, p)
    decreases |p|
  {
    if t :| 0 < t < |p| - 1 && p[t] == k {
      PathSplits(g, n, k + 1, k, j, p, t);
      LengthNotNegative(g, n, k + 1, k, k, p[..t + 1]);
      TailBound(g, n, k, j, d, p[t..]);
    } else {
      HeadBound(g, n, k, k, j, d, p);
    }
  }

  /** The first inner visit to k. */
  lemma FirstVisit(p: seq<nat>, k: nat) returns (t: nat)
    requires exists u :: 0 < u < |p| - 1 && p[u] == k
    ensures 0 < t < |p| - 1 && p[t] == k && forall u :: 0 < u < t ==> p[u] != k
  {
    t := 1;
    while p[t] != k
      invariant 0 < t < |p| - 1 && forall u :: 0 < u < t ==> p[u] != k
      decreases |p| - t
    {
      t := t + 1;
    }
  }

  lemma ViaAtMost(d: Grid, n: nat, k: nat, i: nat, j: nat)
    requires Weighted(d, n) && k < n && i < n && j < n
    ensures d[i][j] != INF ==> Via(d, n, k, i, j) != INF && Via(d, n, k, i, j) <= d[i][j]
    ensures d[i][k] != INF && d[k][j] != INF ==> Via(d, n, k, i, j) != INF && Via(d, n, k, i, j) <= d[i][k] + d[k][j]
  {
  }

  lemma PassIsLowerBound(g: Grid, n: nat, k: nat, i: nat, j: nat, d: Grid, p: seq<nat>)
    requires Weighted(g, n) && Square(d, n) && k < n && i < n && j < n && AllLeast(g, n, k, d)
    requires IsPath(g, n, k + 1, i, j, p)
    ensures Via(d, n, k, i, j) != INF && Via(d, n, k, i, j) <= Length(g, n, p)
  {
    DistancesNotNegative(g, n, k, d);
    ViaAtMost(d, n, k, i, j);
    if exists u :: 0 < u < |p| - 1 && p[u] == k {
      var t := FirstVisit(p, k);
      PathSplits(g, n, k + 1, i, j, p, t);
      HeadBound(g, n, k, i, k, d, p[..t + 1]);
      TailBound(g, n, k, j, d, p[t..]);
    } else {
      HeadBound(g, n, k, i, j, d, p);
    }
  }

  lemma HeadBound(g: Grid, n: nat, k: nat, i: nat, j: nat, d: Grid, p: seq<nat>)
    requires Square(g, n) && Square(d, n) && k < n && i < n && j < n && AllLeast(g, n, k, d)
    requires IsPath(g, n, k + 1, i, j, p) && forall u :: 0 < u < |p| - 1 ==> p[u] != k
    ensures d[i][j] != INF && d[i][j] <= Length(g, n, p)
  {
    assert IsPath(g, n, k, i, j, p) && Least(g, n, k, i, j, d[i][j]);
  }

  lemma DistancesNotNegative(g: Grid, n: nat, k: nat, d: Grid)
    requires Weighted(g, n) && Square(d, n) && AllLeast(g, n, k, d)
    ensures Weighted(d, n)
  {
    forall i, j | 0 <= i < n && 0 <= j < n ensures d[i][j] >= INF {
      assert Least(g, n, k, i, j, d[i][j]);
      if d[i][j] != INF {
        var p :| IsPath(g, n, k, i, j, p) && Length(g, n, p) == d[i][j];
        LengthNotNegative(g, n, k, i, j, p);
      }
    }
  }

  lemma PassIsReached(g: Grid, n: nat, k: nat, i: nat, j: nat, d: Grid)
    requires Weighted(g, n) && Square(d, n) && k < n && i < n && j < n && AllLeast(g, n, k, d)
    requires Via(d, n, k, i, j) != INF
    ensures exists p :: IsPath(g, n, k + 1, i, j, p) && Length(g, n, p) == Via(d, n, k, i, j)
  {
    assert Least(g, n, k, i, j, d[i][j]) && Least(g, n, k, i, k, d[i][k]) && Least(g, n, k, k, j, d[k][j]);
    if Via(d, n, k, i, j) == d[i][j] {
      var p :| IsPath(g, n, k, i, j, p) && Length(g, n, p) == d[i][j];
      assert IsPath(g, n, k + 1, i, j, p);
    } else {
      var p :| IsPath(g, n, k, i, k, p) && Length(g, n, p) == d[i][k];
      var q :| IsPath(g, n, k, k, j, q) && Length(g, n, q) == d[k][j];
      assert IsPath(g, n, k + 1, i, k, p) && IsPath(g, n, k + 1, k, j, q);
      PathsJoin(g, n, k + 1, i, k, j, p, q);
    }
  }

  lemma PassIsLeast(g: Grid, n: nat, k: nat, i: nat, j: nat, d: Grid)
    requires Weighted(g, n) && Square(d, n) && k < n && i < n && j < n && AllLeast(g, n, k, d)
    ensures Least(g, n, k + 1, i, j, Via(d, n, k, i, j))
  {
    var v, next := Via(d, n, k, i, j), k + 1;
    forall p: seq<nat> | IsPath(g, n, next, i, j, p) ensures v != INF && v <= Length(g, n, p) {
      PassIsLowerBound(g, n, k, i, j, d, p);
    }
    if v != INF {
      PassIsReached(g, n, k, i, j, d);
    } else {
      assert !exists p :: IsPath(g, n, next, i, j, p);
    }
  }

  lemma PassExtends(g: Grid, n: nat, k: nat, d: Grid)
    requires Weighted(g, n) && Square(d, n) && k < n && AllLeast(g, n, k, d)
    ensures AllLeast(g, n, k + 1, Pass(d, n, k))
  {
    forall i, j | 0 <= i < n && 0 <= j < n ensures Least(g, n, k + 1, i, j, Pass(d, n, k)[i][j]) {
      PassIsLeast(g, n, k, i, j, d);
    }
  }

  lemma DirectPath(g: Grid, n: nat, i: nat, j: nat, p: seq<nat>)
    requires Square(g, n) && IsPath(g, n, 0, i, j, p)
    ensures p == [i, j] && Length(g, n, p) == g[i][j]
  {
    assert p[1] < n;
    assert Length(g, n, p[1..]) == 0;
  }

  lemma EdgesAreLeast(g: Grid, n: nat)
    requires Weighted(g, n)
    ensures AllLeast(g, n, 0, g)
  {
    forall i, j | 0 <= i < n && 0 <= j < n ensures Least(g, n, 0, i, j, g[i][j]) {
      forall p | IsPath(g, n, 0, i, j, p) ensures Length(g, n, p) == g[i][j] != INF { DirectPath(g, n, i, j, p); }
      if g[i][j] != INF {
        assert IsPath(g, n, 0, i, j, [i, j]);
        DirectPath(g, n, i, j, [i, j]);
      }
    }
  }

  /** After k passes the matrix holds the least lengths of the paths through vertices below k. */
  lemma {:induction false} PassesAreLeast(g: Grid, n: nat, k: nat)
    requires Weighted(g, n) && k <= n
    ensures AllLeast(g, n, k, Passes(g, n, k)) && Weighted(Passes(g, n, k), n)
  {
    if k == 0 {
      EdgesAreLeast(g, n);
    } else {
      PassesAreLeast(g, n, k - 1);
      PassExtends(g, n, k - 1, Passes(g, n, k - 1));
      DistancesNotNegative(g, n, k, Passes(g, n, k));
    }
  }

  // ---------- How large a least length can be ----------

  /** No inner vertex is visited twice. */
  ghost predicate Simple(p: seq<nat>) {
    forall a, b :: 0 < a < b < |p| - 1 ==> p[a] != p[b]
  }

  lemma LoopPart(g: Grid, n: nat, k: nat, i: nat, j: nat, p: seq<nat>, a: nat, b: nat)
    requires Weighted(g, n) && IsPath(g, n, k, i, j, p) && 0 < a < b < |p| - 1
    ensures IsPath(g, n, k, i, p[a], p[..a + 1]) && IsPath(g, n, k, p[b], j, p[b..])
    ensures Length(g, n, p[..a + 1]) + Length(g, n, p[b..]) <= Length(g, n, p)
  {
    var head := p[..b + 1];
    PathSplits(g, n, k, i, j, p, b);
    PathSplits(g, n, k, i, p[b], head, a);
    assert head[..a + 1] == p[..a + 1];
    LengthNotNegative(g, n, k, p[a], p[b], head[a..]);
  }

  /** Cutting the loop between two visits to one vertex leaves a path that is no longer. */
  lemma LoopCut(g: Grid, n: nat, k: nat, i: nat, j: nat, p: seq<nat>, a: nat, b: nat)
    requires Weighted(g, n) && IsPath(g, n, k, i, j, p) && 0 < a < b < |p| - 1 && p[a] == p[b]
    ensures IsPath(g, n, k, i, j, p[..a + 1] + p[b..][1..])
    ensures Length(g, n, p[..a + 1] + p[b..][1..]) <= Length(g, n, p)
  {
    LoopPart(g, n, k, i, j, p, a, b);
    PathsJoin(g, n, k, i, p[a], j, p[..a + 1], p[b..]);
  }

  lemma {:induction false} SimplePathExists(g: Grid, n: nat, k: nat, i: nat, j: nat, p: seq<nat>) returns (q: seq<nat>)
    requires Weighted(g, n) && IsPath(g, n, k, i, j, p)
    ensures IsPath(g, n, k, i, j, q) && Simple(q) && Length(g, n, q) <= Length(g, n, p)
    decreases |p|
  {
    if a, b :| 0 < a < b < |p| - 1 && p[a] == p[b] {
      LoopCut(g, n, k, i, j, p, a, b);
      q := SimplePathExists(g, n, k, i, j, p[..a + 1] + p[b..][1..]);
    } else {
      q := p;
    }
  }

  lemma {:induction false} DistinctBelow(s: seq<nat>, k: nat)
    requires forall t :: 0 <= t < |s| ==> s[t] < k
    requires forall a, b :: 0 <= a < b < |s| ==> s[a] != s[b]
    ensures |s| <= k
    decreases k
  {
    if |s| > 0 {
      assert s[0] < k;
      if t :| 0 <= t < |s| && s[t] == k - 1 {
        var rest := s[..t] + s[t + 1..];
        assert forall u :: 0 <= u < |rest| ==> rest[u] == if u < t then s[u] else s[u + 1];
        DistinctBelow(rest, k - 1);
      } else {
        DistinctBelow(s, k - 1);
      }
    }
  }

  lemma {:induction false} LengthAtMost(g: Grid, n: nat, k: nat, i: nat, j: nat, p: seq<nat>, w: nat)
    requires Square(g, n) && IsPath(g, n, k, i, j, p)
    requires forall u, v :: 0 <= u < n && 0 <= v < n ==> g[u][v] <= w
    ensures Length(g, n, p) <= (|p| - 1) * w
    decreases |p|
  {
    if |p| > 2 {
      assert IsPath(g, n, k, p[1], j, p[1..]);
      LengthAtMost(g, n, k, p[1], j, p[1..], w);
    }
  }

  lemma TimesMonotone(a: nat, b: nat, w: nat)
    requires a <= b
    ensures a * w <= b * w
  {
  }

  lemma SimpleIsBounded(g: Grid, n: nat, k: nat, i: nat, j: nat, q: seq<nat>, w: nat)
    requires Square(g, n) && IsPath(g, n, k, i, j, q) && Simple(q)
    requires forall u, v :: 0 <= u < n && 0 <= v < n ==> g[u][v] <= w
    ensures Length(g, n, q) <= (k + 1) * w
  {
    DistinctBelow(q[1..|q| - 1], k);
    LengthAtMost(g, n, k, i, j, q, w);
    TimesMonotone(|q| - 1, k + 1, w);
  }

  /** A least length over the first k vertices is at most k + 1 times the largest weight. */
  lemma LeastIsBounded(g: Grid, n: nat, k: nat, i: nat, j: nat, d: Grid, w: nat)
    requires Weighted(g, n) && Square(d, n) && AllLeast(g, n, k, d) && i < n && j < n
    requires forall u, v :: 0 <= u < n && 0 <= v < n ==> g[u][v] <= w
    ensures d[i][j] != INF ==> 0 <= d[i][j] <= (k + 1) * w
  {
    assert Least(g, n, k, i, j, d[i][j]);
    DistancesNotNegative(g, n, k, d);
    if d[i][j] != INF {
      var p :| IsPath(g, n, k, i, j, p) && Length(g, n, p) == d[i][j];
      var q := SimplePathExists(g, n, k, i, j, p);
      SimpleIsBounded(g, n, k, i, j, q, w);
    }
  }
}
