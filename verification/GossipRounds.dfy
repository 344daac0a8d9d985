/**
 Gossip in lockstep: all running nodes send, then all copy, then all read (os_lab/labtest1/13CS30011).

 Under this schedule the flood is a breadth-first search from every node at once, and a node
 exits after its eccentricity plus one iterations.
 */
module GossipRounds {
  import opened Gossip

  predicate RunningIn(nodes: seq<Process>, u: nat) { 1 <= u < |nodes| && !nodes[u].place.Exited? }

  /** All of `letters`, one after the other. */
  function Joined(letters: seq<Message>): Message {
    if letters == [] then [] else Joined(letters[..|letters| - 1]) + letters[|letters| - 1]
  }

  /** What node u, which already knows `total`, takes from its neighbours, in the order of its fds. */
  function Inbox(edges: seq<Edge>, nodes: seq<Process>, u: nat, total: seq<int>): seq<Message> {
    var fds := Fds(edges, u, |edges|);
    seq(|fds|, k requires 0 <= k < |fds| => Taken(edges, nodes, u, total, fds[k].rd))
  }

  function Taken(edges: seq<Edge>, nodes: seq<Process>, u: nat, total: seq<int>, rd: nat): Message {
    if rd < 2 * |edges| then Letter(nodes, u, Writer(edges, rd), total) else []
  }

  /** What is new in the message that v has just written to u; one that has exited writes nothing. */
  function Letter(nodes: seq<Process>, u: nat, v: nat, total: seq<int>): Message {
    if v != u && RunningIn(nodes, v) && Storable(total, nodes[v].current) then News(total, nodes[v].current) else []
  }

  /** One iteration of node u, while all others do theirs. */
  function Iterate(n: nat, edges: seq<Edge>, nodes: seq<Process>, u: nat): Process
    requires RunningIn(nodes, u) && Storable(nodes[u].total, nodes[u].current) && 0 < n < |nodes[u].total|
  {
    var (total, count) := CopyAll(nodes[u].total, nodes[u].totalNodes, nodes[u].current);
    var current := Joined(Inbox(edges, nodes, u, total));
    var place := if count < n then Sending(0) else Exited(Answer(nodes[u].start, total, n));
    Process(place, total, count, current, nodes[u].start)
  }

  ghost predicate Fit(n: nat, nodes: seq<Process>) {
    && 0 < n < MAX_NODES && |nodes| == n + 1
    && forall u :: 1 <= u <= n ==> |nodes[u].total| == MAX_NODES && Storable(nodes[u].total, nodes[u].current)
  }

  ghost function Round(n: nat, edges: seq<Edge>, nodes: seq<Process>): (r: seq<Process>)
    requires Fit(n, nodes)
    ensures |r| == |nodes|
  {
    seq(|nodes|, u requires 0 <= u < |nodes| => if RunningIn(nodes, u) then Iterate(n, edges, nodes, u) else nodes[u])
  }

  // ---------- Distances ----------

  /** x is at most r edges away from u. */
  ghost predicate Within(edges: seq<Edge>, u: nat, x: nat, r: nat)
    decreases r
  {
    if r == 0 then x == u
    else Within(edges, u, x, r - 1) || exists v :: Adjacent(edges, u, v) && Within(edges, v, x, r - 1)
  }

  /** x is r edges away from u, and no fewer. */
  ghost predicate AtDistance(edges: seq<Edge>, u: nat, x: nat, r: nat) {
    Within(edges, u, x, r) && !(r > 0 && Within(edges, u, x, r - 1))
  }

  /** u's farthest node is at most r edges away. */
  ghost predicate EccentricityAtMost(n: nat, edges: seq<Edge>, u: nat, r: nat) {
    forall x :: 1 <= x <= n ==> Within(edges, u, x, r)
  }

  /**
   After r rounds: a running node has stored exactly the nodes nearer than r and is about to
   send exactly those at distance r; a node has exited exactly when all are nearer than r.
   */
  ghost predicate BallAfter(n: nat, edges: seq<Edge>, node: Process, r: nat, u: nat) {
    && (node.place.Exited? <==> r > 0 && EccentricityAtMost(n, edges, u, r - 1))
    && (!node.place.Exited? ==>
          && node.place == Sending(0)
          && (forall x :: x in Known(node.total) <==> r > 0 && Within(edges, u, x, r - 1))
          && (forall x :: x in Ids(node.current) <==> AtDistance(edges, u, x, r))
          && node.totalNodes == |Known(node.total)|)
  }

  ghost predicate BallsAfter(n: nat, edges: seq<Edge>, nodes: seq<Process>, r: nat)
    requires Fit(n, nodes)
  {
    forall u :: 1 <= u <= n ==> BallAfter(n, edges, nodes[u], r, u)
  }

  lemma {:induction false} EveryPipeIsRead(edges: seq<Edge>, m: nat, p: nat)
    requires m <= |edges| && p < 2 * m && Writer(edges, p) != Reader(edges, p)
    ensures exists k :: 0 <= k < |Fds(edges, Reader(edges, p), m)| && Fds(edges, Reader(edges, p), m)[k].rd == p
  {
    var u := Reader(edges, p);
    var fds := Fds(edges, u, m - 1);
    if p < 2 * (m - 1) {
      EveryPipeIsRead(edges, m - 1, p);
      var k :| 0 <= k < |fds| && fds[k].rd == p;
      assert Fds(edges, u, m)[k] == fds[k];
    } else {
      assert Fds(edges, u, m)[|fds|].rd == p;
    }
  }

  lemma {:induction false} JoinedIds(letters: seq<Message>)
    ensures forall x :: x in Ids(Joined(letters)) <==> exists k :: 0 <= k < |letters| && x in Ids(letters[k])
    ensures forall y :: y in Joined(letters) ==> exists k :: 0 <= k < |letters| && y in letters[k]
  {
    if letters != [] {
      var before, last := Joined(letters[..|letters| - 1]), letters[|letters| - 1];
      JoinedIds(letters[..|letters| - 1]);
      assert Ids(before + last) == Ids(before) + Ids(last);
    }
  }

  lemma LetterIds(nodes: seq<Process>, u: nat, v: nat, total: seq<int>, x: nat)
    ensures x in Ids(Letter(nodes, u, v, total)) ==>
              v != u && RunningIn(nodes, v) && x in Ids(nodes[v].current) && x !in Known(total)
    ensures v != u && RunningIn(nodes, v) && Storable(total, nodes[v].current)
            && x in Ids(nodes[v].current) && x !in Known(total) ==>
              x in Ids(Letter(nodes, u, v, total))
  {
    if v != u && RunningIn(nodes, v) && Storable(total, nodes[v].current) {
      NewsIsUnknown(total, nodes[v].current);
    }
  }

  lemma FdsNeighbours(edges: seq<Edge>, u: nat, k: nat)
    requires k < |Fds(edges, u, |edges|)|
    ensures var rd := Fds(edges, u, |edges|)[k].rd; rd < 2 * |edges| && Adjacent(edges, u, Writer(edges, rd))
  {
    FdsAreOwn(edges, u, |edges|);
    var fds := Fds(edges, u, |edges|);
    assert fds[k] in fds;
    var j := fds[k].rd / 2;
    assert edges[j].start == u || edges[j].end == u;
  }

  /** What u has in `current` after the round is exactly what lies one edge farther. */
  lemma InboxIsNextSphere(n: nat, edges: seq<Edge>, nodes: seq<Process>, r: nat, u: nat, total: seq<int>, x: nat)
    requires Fit(n, nodes) && BallsAfter(n, edges, nodes, r) && 1 <= u <= n && |total| == MAX_NODES
    requires forall j :: 0 <= j < |edges| ==> 1 <= edges[j].start <= n && 1 <= edges[j].end <= n
    requires forall y :: y in Known(total) <==> Within(edges, u, y, r)
    requires 1 <= x <= n
    ensures x in Ids(Joined(Inbox(edges, nodes, u, total))) <==> AtDistance(edges, u, x, r + 1)
  {
    var fds := Fds(edges, u, |edges|);
    var letters := Inbox(edges, nodes, u, total);
    JoinedIds(letters);
    if k :| 0 <= k < |letters| && x in Ids(letters[k]) {
      var v := Writer(edges, fds[k].rd);
      FdsNeighbours(edges, u, k);
      LetterIds(nodes, u, v, total, x);
      assert Adjacent(edges, u, v) && Within(edges, v, x, r);
    }
    if AtDistance(edges, u, x, r + 1) {
      SphereIsSent(n, edges, nodes, r, u, total, x);
    }
  }

  lemma SphereIsSent(n: nat, edges: seq<Edge>, nodes: seq<Process>, r: nat, u: nat, total: seq<int>, x: nat)
    requires Fit(n, nodes) && BallsAfter(n, edges, nodes, r) && 1 <= u <= n && |total| == MAX_NODES
    requires forall j :: 0 <= j < |edges| ==> 1 <= edges[j].start <= n && 1 <= edges[j].end <= n
    requires forall y :: y in Known(total) <==> Within(edges, u, y, r)
    requires 1 <= x <= n && AtDistance(edges, u, x, r + 1)
    ensures exists k :: 0 <= k < |Inbox(edges, nodes, u, total)| && x in Ids(Inbox(edges, nodes, u, total)[k])
  {
    var v: nat :| Adjacent(edges, u, v) && Within(edges, v, x, r);
    assert v != u && AtDistance(edges, v, x, r);
    var p := PipeBetween(edges, v, u);
    EveryPipeIsRead(edges, |edges|, p);
    var k :| 0 <= k < |Fds(edges, u, |edges|)| && Fds(edges, u, |edges|)[k].rd == p;
    assert 1 <= v <= n && RunningIn(nodes, v) && x in Ids(nodes[v].current);
    LetterIds(nodes, u, v, total, x);
    assert x in Ids(Inbox(edges, nodes, u, total)[k]);
  }

  lemma TakenIsStorable(edges: seq<Edge>, nodes: seq<Process>, u: nat, total: seq<int>, rd: nat)
    ensures Storable(total, Taken(edges, nodes, u, total, rd))
  {
    if rd < 2 * |edges| && RunningIn(nodes, Writer(edges, rd)) && Storable(total, nodes[Writer(edges, rd)].current) {
      NewsIsUnknown(total, nodes[Writer(edges, rd)].current);
    }
  }

  lemma InboxIsStorable(edges: seq<Edge>, nodes: seq<Process>, u: nat, total: seq<int>)
    ensures Storable(total, Joined(Inbox(edges, nodes, u, total)))
  {
    var letters := Inbox(edges, nodes, u, total);
    JoinedIds(letters);
    forall k | 0 <= k < |letters| ensures Storable(total, letters[k]) {
      TakenIsStorable(edges, nodes, u, total, Fds(edges, u, |edges|)[k].rd);
    }
  }

  lemma RoundIsFit(n: nat, edges: seq<Edge>, nodes: seq<Process>)
    requires Fit(n, nodes)
    ensures Fit(n, Round(n, edges, nodes))
  {
    var next := Round(n, edges, nodes);
    forall u | 1 <= u <= n ensures |next[u].total| == MAX_NODES && Storable(next[u].total, next[u].current) {
      if RunningIn(nodes, u) {
        var total := CopyAll(nodes[u].total, nodes[u].totalNodes, nodes[u].current).0;
        InboxIsStorable(edges, nodes, u, total);
      }
    }
  }

  // ---------- The theorem ----------

  ghost predicate EdgesIn(n: nat, edges: seq<Edge>) {
    forall j :: 0 <= j < |edges| ==> 1 <= edges[j].start <= n && 1 <= edges[j].end <= n
  }

  /** Only nodes are within reach of a node. */
  lemma {:induction false} WithinIsNode(n: nat, edges: seq<Edge>, u: nat, x: nat, r: nat)
    requires EdgesIn(n, edges) && 1 <= u <= n && Within(edges, u, x, r)
    ensures 1 <= x <= n
    decreases r
  {
    if r > 0 {
      if Within(edges, u, x, r - 1) {
        WithinIsNode(n, edges, u, x, r - 1);
      } else {
        var v: nat :| Adjacent(edges, u, v) && Within(edges, v, x, r - 1);
        WithinIsNode(n, edges, v, x, r - 1);
      }
    }
  }

  /** Copying completes the ball of radius r. */
  lemma CopyCompletesBall(n: nat, edges: seq<Edge>, nodes: seq<Process>, r: nat, u: nat)
    requires Fit(n, nodes) && BallsAfter(n, edges, nodes, r) && 1 <= u <= n && RunningIn(nodes, u)
    ensures var (total, count) := CopyAll(nodes[u].total, nodes[u].totalNodes, nodes[u].current);
            (forall x :: x in Known(total) <==> Within(edges, u, x, r)) && count == |Known(total)|
  {
    CopyAllKnows(nodes[u].total, nodes[u].totalNodes, nodes[u].current);
  }

  /** A ball holds n nodes exactly when it holds all of them. */
  lemma FullBall(n: nat, edges: seq<Edge>, u: nat, r: nat, known: set<nat>)
    requires EdgesIn(n, edges) && 1 <= u <= n && forall x :: x in known <==> Within(edges, u, x, r)
    ensures |known| >= n <==> EccentricityAtMost(n, edges, u, r)
  {
    forall x | x in known ensures x in Upto(n) { WithinIsNode(n, edges, u, x, r); }
    SubsetSize(known, Upto(n));
    if EccentricityAtMost(n, edges, u, r) {
      assert Upto(n) <= known;
      SubsetSize(Upto(n), known);
    }
  }

  lemma IterateKeepsBall(n: nat, edges: seq<Edge>, nodes: seq<Process>, r: nat, u: nat)
    requires Fit(n, nodes) && EdgesIn(n, edges) && BallsAfter(n, edges, nodes, r) && 1 <= u <= n && RunningIn(nodes, u)
    ensures var next := Iterate(n, edges, nodes, u);
            && (next.place.Exited? <==> EccentricityAtMost(n, edges, u, r))
            && (!next.place.Exited? ==> next.place == Sending(0))
            && (forall x :: x in Known(next.total) <==> Within(edges, u, x, r))
            && (forall x :: x in Ids(next.current) <==> AtDistance(edges, u, x, r + 1))
            && next.totalNodes == |Known(next.total)|
  {
    var (total, count) := CopyAll(nodes[u].total, nodes[u].totalNodes, nodes[u].current);
    var fds := Fds(edges, u, |edges|);
    CopyCompletesBall(n, edges, nodes, r, u);
    FullBall(n, edges, u, r, Known(total));
    forall x: nat ensures x in Ids(Joined(Inbox(edges, nodes, u, total))) <==> AtDistance(edges, u, x, r + 1) {
      if 1 <= x <= n {
        InboxIsNextSphere(n, edges, nodes, r, u, total, x);
      } else {
        if AtDistance(edges, u, x, r + 1) { WithinIsNode(n, edges, u, x, r + 1); }
        if x in Ids(Joined(Inbox(edges, nodes, u, total))) { InboxFromNodes(n, edges, nodes, r, u, total, x); }
      }
    }
  }

  lemma InboxFromNodes(n: nat, edges: seq<Edge>, nodes: seq<Process>, r: nat, u: nat, total: seq<int>, x: nat)
    requires Fit(n, nodes) && EdgesIn(n, edges) && BallsAfter(n, edges, nodes, r) && 1 <= u <= n
    requires x in Ids(Joined(Inbox(edges, nodes, u, total)))
    ensures 1 <= x <= n
  {
    var fds := Fds(edges, u, |edges|);
    var letters := Inbox(edges, nodes, u, total);
    JoinedIds(letters);
    var k :| 0 <= k < |letters| && x in Ids(letters[k]);
    var v := Writer(edges, fds[k].rd);
    LetterIds(nodes, u, v, total, x);
    WithinIsNode(n, edges, v, x, r);
  }

  lemma RoundKeepsBall(n: nat, edges: seq<Edge>, nodes: seq<Process>, r: nat, u: nat)
    requires Fit(n, nodes) && EdgesIn(n, edges) && BallsAfter(n, edges, nodes, r) && 1 <= u <= n
    ensures BallAfter(n, edges, Round(n, edges, nodes)[u], r + 1, u)
  {
    assert BallAfter(n, edges, nodes[u], r, u);
    if RunningIn(nodes, u) {
      IterateKeepsBall(n, edges, nodes, r, u);
    } else {
      forall x | 1 <= x <= n ensures Within(edges, u, x, r) { assert Within(edges, u, x, r - 1); }
    }
  }

  lemma RoundKeepsBalls(n: nat, edges: seq<Edge>, nodes: seq<Process>, r: nat)
    requires Fit(n, nodes) && EdgesIn(n, edges) && BallsAfter(n, edges, nodes, r)
    ensures Fit(n, Round(n, edges, nodes)) && BallsAfter(n, edges, Round(n, edges, nodes), r + 1)
  {
    RoundIsFit(n, edges, nodes);
    forall u | 1 <= u <= n ensures BallAfter(n, edges, Round(n, edges, nodes)[u], r + 1, u) {
      RoundKeepsBall(n, edges, nodes, r, u);
    }
  }

  ghost function Rounds(n: nat, edges: seq<Edge>, nodes: seq<Process>, r: nat): (after: seq<Process>)
    requires Fit(n, nodes)
    ensures Fit(n, after)
    decreases r
  {
    if r == 0 then nodes
    else
      RoundIsFit(n, edges, Rounds(n, edges, nodes, r - 1));
      Round(n, edges, Rounds(n, edges, nodes, r - 1))
  }

  /**
   After r lockstep rounds a running node has stored exactly the nodes nearer than r and holds
   exactly those at distance r; it has exited exactly when every node is nearer than r, so it
   runs for its eccentricity plus one rounds.
   */
  lemma {:induction false} LockstepIsBreadthFirst(s: Network, init: seq<int>, r: nat)
    requires Init(s, init)
    ensures Fit(s.n, s.nodes) && BallsAfter(s.n, s.edges, Rounds(s.n, s.edges, s.nodes, r), r)
    decreases r
  {
    InitialBalls(s, init);
    if r > 0 {
      LockstepIsBreadthFirst(s, init, r - 1);
      RoundKeepsBalls(s.n, s.edges, Rounds(s.n, s.edges, s.nodes, r - 1), r - 1);
    }
  }

  lemma InitialBalls(s: Network, init: seq<int>)
    requires Init(s, init)
    ensures Fit(s.n, s.nodes) && BallsAfter(s.n, s.edges, s.nodes, 0)
  {
    forall u: nat | 1 <= u <= s.n ensures Known(s.nodes[u].total) == {} && Ids(s.nodes[u].current) == {u} {
      assert s.nodes[u].current == [Pair(u, init[u])];
    }
  }

  // ---------- Connected networks ----------

  lemma {:induction false} WithinMore(edges: seq<Edge>, u: nat, x: nat, q: nat, r: nat)
    requires q <= r && Within(edges, u, x, q)
    ensures Within(edges, u, x, r)
    decreases r
  {
    if q < r { WithinMore(edges, u, x, q, r - 1); }
  }

  /** A path of r edges leads no farther than r. */
  lemma {:induction false} PathIsWithin(edges: seq<Edge>, path: seq<nat>)
    requires Linked(edges, path)
    ensures Within(edges, path[0], path[|path| - 1], |path| - 1)
    decreases |path|
  {
    if |path| > 1 {
      var rest := path[1..];
      forall t | 0 <= t < |rest| - 1 ensures Adjacent(edges, rest[t], rest[t + 1]) {
        assert Adjacent(edges, path[t + 1], path[t + 1 + 1]);
      }
      PathIsWithin(edges, rest);
      assert Adjacent(edges, path[0], path[0 + 1]);
    }
  }

  lemma ReachesIsWithin(edges: seq<Edge>, u: nat, x: nat) returns (r: nat)
    requires Reaches(edges, u, x)
    ensures Within(edges, u, x, r)
  {
    var path: seq<nat> :| Linked(edges, path) && path[0] == u && path[|path| - 1] == x;
    PathIsWithin(edges, path);
    r := |path| - 1;
  }

  /** One radius for node u and the first m others. */
  lemma {:induction false} RadiusOf(n: nat, edges: seq<Edge>, u: nat, m: nat) returns (r: nat)
    requires Connected(n, edges) && 1 <= u <= n && m <= n
    ensures EccentricityAtMost(m, edges, u, r)
  {
    if m == 0 {
      r := 0;
    } else {
      var q := RadiusOf(n, edges, u, m - 1);
      assert Reaches(edges, u, m);
      var p := ReachesIsWithin(edges, u, m);
      r := if p < q then q else p;
      WithinMore(edges, u, m, p, r);
      WithinAll(m - 1, edges, u, q, r);
    }
  }

  lemma WithinAll(m: nat, edges: seq<Edge>, u: nat, q: nat, r: nat)
    requires q <= r && EccentricityAtMost(m, edges, u, q)
    ensures EccentricityAtMost(m, edges, u, r)
  {
    forall x | 1 <= x <= m ensures Within(edges, u, x, r) { WithinMore(edges, u, x, q, r); }
  }

  /** A connected network has a diameter. */
  lemma {:induction false} RadiusOfAll(n: nat, edges: seq<Edge>, m: nat) returns (r: nat)
    requires Connected(n, edges) && m <= n
    ensures forall u :: 1 <= u <= m ==> EccentricityAtMost(n, edges, u, r)
  {
    if m == 0 {
      r := 0;
    } else {
      var q := RadiusOfAll(n, edges, m - 1);
      var p := RadiusOf(n, edges, m, n);
      r := if p < q then q else p;
      WithinAll(n, edges, m, p, r);
      forall u | 1 <= u < m ensures EccentricityAtMost(n, edges, u, r) { WithinAll(n, edges, u, q, r); }
    }
  }
}
