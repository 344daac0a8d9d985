/**
 Which networks can finish (os_lab/labtest1/13CS30011): a node hears only of nodes it is connected
 with, so all nodes can exit exactly when the network is connected.
 */
module GossipReach {
  import opened Gossip
  import opened GossipRounds
  import opened GossipLockstep

  // ---------- Paths ----------

  lemma ReachesItself(edges: seq<Edge>, u: nat)
    ensures Reaches(edges, u, u)
  {
    assert Linked(edges, [u]) && [u][0] == u && [u][|[u]| - 1] == u;
  }

  lemma ReachesThrough(edges: seq<Edge>, u: nat, v: nat, x: nat)
    requires Adjacent(edges, u, v) && Reaches(edges, v, x)
    ensures Reaches(edges, u, x)
  {
    var path: seq<nat> :| Linked(edges, path) && path[0] == v && path[|path| - 1] == x;
    var longer := [u] + path;
    forall t | 0 <= t < |longer| - 1 ensures Adjacent(edges, longer[t], longer[t + 1]) {
      if t > 0 { assert Adjacent(edges, path[t - 1], path[t - 1 + 1]); }
    }
    assert Linked(edges, longer) && longer[0] == u && longer[|longer| - 1] == x;
  }

  // ---------- What a node has heard of ----------

  ghost predicate AllReached(edges: seq<Edge>, u: nat, ids: set<nat>) {
    forall x :: x in ids ==> Reaches(edges, u, x)
  }

  ghost predicate NodeHeard(s: Network, u: nat)
    requires IsNode(s, u)
  {
    AllReached(s.edges, u, Known(s.nodes[u].total)) && AllReached(s.edges, u, Ids(s.nodes[u].current))
  }

  ghost predicate PipeHeard(s: Network, p: nat)
    requires p < |s.pipes| == 2 * |s.edges|
  {
    forall m :: m in s.pipes[p] ==> AllReached(s.edges, Writer(s.edges, p), Ids(m))
  }

  ghost predicate Heard(s: Network) {
    && NetworkShaped(s)
    && (forall u: nat :: IsNode(s, u) ==> NodeHeard(s, u))
    && forall p: nat :: p < |s.pipes| ==> PipeHeard(s, p)
  }

  lemma IdsJoin(a: Message, b: Message)
    ensures Ids(a + b) == Ids(a) + Ids(b)
  {}

  /** What arrives over a pipe was heard of by a neighbour. */
  lemma ReadIsReached(s: Network, u: nat, p: nat, m: Message)
    requires NetworkShaped(s) && p < |s.pipes| && PipeHeard(s, p) && Reader(s.edges, p) == u && m in s.pipes[p]
    ensures AllReached(s.edges, u, Ids(m))
  {
    var w := Writer(s.edges, p);
    assert Adjacent(s.edges, u, w) by { var j := p / 2; assert s.edges[j].start == u || s.edges[j].end == u; }
    forall x | x in Ids(m) ensures Reaches(s.edges, u, x) { ReachesThrough(s.edges, u, w, x); }
  }

  lemma SendHeard(s: Network, init: seq<int>, u: nat, p: nat)
    requires AllTrue(s, init) && Heard(s) && Running(s, u) && p < |s.pipes|
    ensures |Step(s, u).pipes| == |s.pipes| && Step(s, u).edges == s.edges && PipeHeard(Step(s, u), p)
  {
    FdsAreOwn(s.edges, u, |s.edges|);
    assert PipeHeard(s, p) && NodeHeard(s, u);
    var node, fds := s.nodes[u], FdsOf(s, u);
    if node.place.Sending? && node.place.i < |fds| {
      assert fds[node.place.i] in fds;
    }
  }

  lemma CopyHeard(s: Network, init: seq<int>, u: nat)
    requires AllTrue(s, init) && Heard(s) && Running(s, u) && s.nodes[u].place == Copying
    ensures IsNode(Step(s, u), u) && Step(s, u).edges == s.edges && NodeHeard(Step(s, u), u)
  {
    var node := s.nodes[u];
    assert NodeHeard(s, u) && NodeTrue(s, init, u);
    TrueIsStorable(s, init, u, node.current);
    CopyAllKnows(node.total, node.totalNodes, node.current);
  }

  lemma ReadHeard(s: Network, init: seq<int>, u: nat)
    requires AllTrue(s, init) && Heard(s) && Running(s, u) && s.nodes[u].place.Receiving?
    ensures IsNode(Step(s, u), u) && Step(s, u).edges == s.edges && NodeHeard(Step(s, u), u)
  {
    var node, fds := s.nodes[u], FdsOf(s, u);
    assert NodeHeard(s, u);
    if node.place.i < |fds| {
      FdsAreOwn(s.edges, u, |s.edges|);
      assert fds[node.place.i] in fds;
      var pipe := s.pipes[fds[node.place.i].rd];
      if pipe != [] && Storable(node.total, pipe[0]) {
        assert PipeHeard(s, fds[node.place.i].rd);
        ReadIsReached(s, u, fds[node.place.i].rd, pipe[0]);
        NewsIsUnknown(node.total, pipe[0]);
        IdsJoin(node.current, News(node.total, pipe[0]));
      }
    }
  }

  lemma OwnStepHeard(s: Network, init: seq<int>, u: nat)
    requires AllTrue(s, init) && Heard(s) && Running(s, u)
    ensures IsNode(Step(s, u), u) && Step(s, u).edges == s.edges && NodeHeard(Step(s, u), u)
  {
    assert NodeHeard(s, u);
    match s.nodes[u].place
    case Sending(_) =>
    case Copying => CopyHeard(s, init, u);
    case Receiving(_) => ReadHeard(s, init, u);
    case Exited(_) =>
  }

  lemma StepHeard(s: Network, init: seq<int>, u: nat)
    requires AllTrue(s, init) && Heard(s) && Running(s, u) && AllTrue(Step(s, u), init)
    ensures Heard(Step(s, u))
  {
    var t := Step(s, u);
    OwnStepHeard(s, init, u);
    forall v: nat | IsNode(t, v) ensures NodeHeard(t, v) {
      if v != u { assert t.nodes[v] == s.nodes[v] && NodeHeard(s, v); }
    }
    forall p: nat | p < |t.pipes| ensures PipeHeard(t, p) { SendHeard(s, init, u, p); }
  }

  lemma InitHeard(s: Network, init: seq<int>)
    requires Init(s, init)
    ensures Heard(s)
  {
    forall u: nat | IsNode(s, u) ensures NodeHeard(s, u) {
      ReachesItself(s.edges, u);
      assert s.nodes[u].current == [Pair(u, init[u])];
    }
  }

  lemma {:induction false} RunHeard(states: seq<Network>, events: seq<nat>, init: seq<int>, i: nat)
    requires Run(states, events, init) && i < |states|
    ensures Heard(states[i])
  {
    if i == 0 {
      InitHeard(states[0], init);
    } else {
      RunHeard(states, events, init, i - 1);
      RunIsTrue(states, events, init, i - 1);
      RunIsTrue(states, events, init, i);
      StepHeard(states[i - 1], init, events[i - 1]);
    }
  }

  // ---------- Exactly the connected networks ----------

  /** In any run a node that exits can reach every other node. */
  lemma ExitMeansReached(states: seq<Network>, events: seq<nat>, init: seq<int>, i: nat, u: nat, x: nat)
    requires Run(states, events, init) && i < |states|
    requires IsNode(states[i], u) && states[i].nodes[u].place.Exited? && 1 <= x <= states[i].n
    ensures Reaches(states[i].edges, u, x)
  {
    RunIsTrue(states, events, init, i);
    RunHeard(states, events, init, i);
    assert NodeTrue(states[i], init, u) && NodeHeard(states[i], u);
    assert x in Upto(states[i].n);
  }

  ghost predicate AllExited(s: Network) {
    forall u: nat :: 1 <= u <= s.n ==> IsNode(s, u) && s.nodes[u].place.Exited?
  }

  /** Some run from s ends with all nodes exited. */
  ghost predicate CanFinish(s: Network, init: seq<int>) {
    exists states, events :: Run(states, events, init) && states[0] == s && AllExited(states[|events|])
  }

  lemma FinishMeansConnected(s: Network, init: seq<int>, states: seq<Network>, events: seq<nat>)
    requires Run(states, events, init) && states[0] == s && AllExited(states[|events|])
    ensures Connected(s.n, s.edges)
  {
    RunIsTrue(states, events, init, |events|);
    forall a, b: nat | 1 <= a <= s.n && 1 <= b <= s.n ensures Reaches(s.edges, a, b) {
      ExitMeansReached(states, events, init, |events|, a, b);
    }
  }

  lemma ConnectedFinishes(s: Network, init: seq<int>)
    requires Init(s, init) && Connected(s.n, s.edges)
    ensures CanFinish(s, init)
  {
    var r := RadiusOfAll(s.n, s.edges, s.n);
    var events, t := LockstepIsARun(s, init, r + 1);
    forall u: nat | 1 <= u <= t.n ensures IsNode(t, u) && t.nodes[u].place.Exited? {
      assert EccentricityAtMost(t.n, t.edges, u, r) && BallAfter(t.n, t.edges, t.nodes[u], r + 1, u);
    }
    assert AllExited(t);
    assert Run(States(s, events), events, init) && States(s, events)[0] == s && AllExited(States(s, events)[|events|]);
  }

  /** All nodes can exit exactly when the network is connected. */
  lemma FinishesIfConnected(s: Network, init: seq<int>)
    requires Init(s, init)
    ensures CanFinish(s, init) <==> Connected(s.n, s.edges)
  {
    if CanFinish(s, init) {
      var states: seq<Network>, events: seq<nat> :|
        Run(states, events, init) && states[0] == s && AllExited(states[|events|]);
      FinishMeansConnected(s, init, states, events);
    }
    if Connected(s.n, s.edges) { ConnectedFinishes(s, init); }
  }
}
