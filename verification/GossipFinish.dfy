/**
 No state of a connected network is a dead end (os_lab/labtest1/13CS30011): whatever backlog its pipes
 hold, every run can be continued until all nodes have exited.
 */
module GossipFinish {
  import opened Gossip
  import opened GossipLockstep
  import opened GossipReach
  import Chains

  // ---------- One node running alone ----------

  /** t is reached from s by steps of node c alone. */
  ghost predicate Alone(s: Network, c: nat, t: Network) {
    && Reachable(s, t)
    && t.n == s.n && t.edges == s.edges && |t.nodes| == |s.nodes|
    && (forall u :: 0 <= u < |s.nodes| && u != c ==> t.nodes[u] == s.nodes[u])
    && (c < |s.nodes| ==> Known(s.nodes[c].total) <= Known(t.nodes[c].total))
  }

  lemma AloneNow(s: Network, c: nat)
    ensures Alone(s, c, s)
  {
    assert Leads(s, [], s);
  }

  lemma AloneOn(s: Network, c: nat, t: Network, w: Network)
    requires Alone(s, c, t) && Alone(t, c, w)
    ensures Alone(s, c, w)
  {
    ReachableOn(s, t, w);
  }

  lemma StepIsReachable(s: Network, c: nat)
    requires Running(s, c)
    ensures Reachable(s, Step(s, c))
  {
    assert Leads(Step(s, c), [c][1..], Step(s, c));
    assert Leads(s, [c], Step(s, c));
  }

  /** What is stored stays stored. */
  lemma KnownGrows(s: Network, init: seq<int>, c: nat)
    requires AllTrue(s, init) && Running(s, c)
    ensures |Step(s, c).nodes| == |s.nodes| && Known(s.nodes[c].total) <= Known(Step(s, c).nodes[c].total)
  {
    var node := s.nodes[c];
    assert NodeTrue(s, init, c);
    TrueIsStorable(s, init, c, node.current);
    if node.place == Copying { CopyAllKnows(node.total, node.totalNodes, node.current); }
  }

  lemma StepFrame(s: Network, c: nat)
    requires Running(s, c)
    ensures var t := Step(s, c);
            && t.n == s.n && t.edges == s.edges && |t.nodes| == |s.nodes|
            && forall u :: 0 <= u < |s.nodes| && u != c ==> t.nodes[u] == s.nodes[u]
  {}

  lemma AloneByOne(s: Network, c: nat, t: Network)
    requires Reachable(s, t) && t.n == s.n && t.edges == s.edges && |t.nodes| == |s.nodes|
    requires forall u :: 0 <= u < |s.nodes| && u != c ==> t.nodes[u] == s.nodes[u]
    requires c < |s.nodes| && Known(s.nodes[c].total) <= Known(t.nodes[c].total)
    ensures Alone(s, c, t)
  {}

  lemma AloneStep(s: Network, init: seq<int>, c: nat)
    requires FloodInv(s, init) && Running(s, c)
    ensures Alone(s, c, Step(s, c)) && FloodInv(Step(s, c), init)
  {
    StepIsReachable(s, c);
    StepFrame(s, c);
    KnownGrows(s, init, c);
    AloneByOne(s, c, Step(s, c));
    StepKeepsFlood(s, init, c);
  }

  function Left(i: nat, d: nat): nat { if i < d then d - i else 0 }

  // ---------- What is about to be stored gets stored ----------

  /** Steps to the copying, for a node with d neighbours. */
  function ToCopy(place: Place, d: nat): nat {
    match place
    case Sending(i) => Left(i, d) + 1
    case Copying => 0
    case Receiving(i) => Left(i, d) + d + 2
    case Exited(_) => 0
  }

  /** A node that misses x steps towards its copying and keeps what it is about to store. */
  lemma StepTowardsCopy(s: Network, init: seq<int>, c: nat, x: nat)
    requires AllTrue(s, init) && Running(s, c) && s.nodes[c].place != Copying
    requires 1 <= x <= s.n && x !in Known(s.nodes[c].total)
    ensures Running(Step(s, c), c) && Step(s, c).edges == s.edges && Step(s, c).n == s.n
    ensures Step(s, c).nodes[c].total == s.nodes[c].total
    ensures Ids(s.nodes[c].current) <= Ids(Step(s, c).nodes[c].current)
    ensures ToCopy(Step(s, c).nodes[c].place, Degree(s.edges, c)) < ToCopy(s.nodes[c].place, Degree(s.edges, c))
  {
    CountMeansComplete(s, init, c);
    assert !Complete(s, c) by { assert x in Upto(s.n); }
    FdsInRange(s.edges, c, |s.edges|);
    var place, fds := s.nodes[c].place, FdsOf(s, c);
    if place.Sending? && place.i < |fds| { assert fds[place.i] in fds; }
    if place.Receiving? && place.i < |fds| { assert fds[place.i] in fds; }
  }

  lemma {:induction false} CurrentGetsStored(s: Network, init: seq<int>, c: nat, x: nat) returns (t: Network)
    requires FloodInv(s, init) && Running(s, c) && 1 <= x <= s.n
    requires x !in Known(s.nodes[c].total) && x in Ids(s.nodes[c].current)
    ensures Alone(s, c, t) && FloodInv(t, init) && IsNode(t, c) && x in Known(t.nodes[c].total)
    decreases ToCopy(s.nodes[c].place, Degree(s.edges, c))
  {
    AloneStep(s, init, c);
    if s.nodes[c].place == Copying {
      t := Step(s, c);
      CopyStores(s, init, c);
    } else {
      StepTowardsCopy(s, init, c, x);
      t := CurrentGetsStored(Step(s, c), init, c, x);
      AloneOn(s, c, Step(s, c), t);
    }
  }

  lemma CopyStores(s: Network, init: seq<int>, c: nat)
    requires AllTrue(s, init) && Running(s, c) && s.nodes[c].place == Copying
    ensures IsNode(Step(s, c), c) && Ids(s.nodes[c].current) <= Known(Step(s, c).nodes[c].total)
  {
    var node := s.nodes[c];
    assert NodeTrue(s, init, c);
    TrueIsStorable(s, init, c, node.current);
    CopyAllKnows(node.total, node.totalNodes, node.current);
  }

  // ---------- What is on its way gets read, behind any backlog ----------

  /** Steps to the reading of the k-th pipe. */
  function ToRead(place: Place, k: nat, d: nat): nat {
    match place
    case Sending(i) => Left(i, d) + 2 + k
    case Copying => 1 + k
    case Receiving(i) => if i <= k then k - i else Left(i, d) + d + k + 3
    case Exited(_) => 0
  }

  /** A pipe that c reads as its k-th, with something in it. */
  ghost predicate ReadsAt(s: Network, c: nat, p: nat, k: nat) {
    && NetworkShaped(s) && p < |s.pipes| && Reader(s.edges, p) == c && Writer(s.edges, p) != c
    && k < Degree(s.edges, c) && FdsOf(s, c)[k].rd == p
  }

  lemma OtherPipesStay(s: Network, c: nat, p: nat, k: nat)
    requires ReadsAt(s, c, p, k) && Running(s, c) && s.nodes[c].place != Receiving(k)
    ensures p < |Step(s, c).pipes| && Step(s, c).pipes[p] == s.pipes[p]
  {
    FdsAreOwn(s.edges, c, |s.edges|);
    FdsAscend(s.edges, c, |s.edges|);
    var place, fds := s.nodes[c].place, FdsOf(s, c);
    if place.Sending? && place.i < |fds| { assert fds[place.i] in fds; }
    if place.Receiving? && place.i < |fds| {
      assert fds[place.i] in fds;
      assert fds[place.i].rd != p by {
        assert fds[place.i].rd / 2 == fds[place.i].wr / 2 && fds[k].rd / 2 == fds[k].wr / 2;
        if place.i < k {
          assert fds[place.i].wr / 2 < fds[k].wr / 2;
        } else {
          assert fds[k].wr / 2 < fds[place.i].wr / 2;
        }
      }
    }
  }

  lemma OwnPipeShrinks(s: Network, init: seq<int>, c: nat, p: nat, k: nat)
    requires AllTrue(s, init) && ReadsAt(s, c, p, k) && Running(s, c) && s.nodes[c].place == Receiving(k)
    requires s.pipes[p] != []
    ensures p < |Step(s, c).pipes| && Step(s, c).pipes[p] == s.pipes[p][1..]
  {
    assert PipeTrue(s, init, p) && s.pipes[p][0] in s.pipes[p];
    TrueIsStorable(s, init, c, s.pipes[p][0]);
  }

  lemma StepTowardsRead(s: Network, init: seq<int>, c: nat, k: nat, x: nat)
    requires AllTrue(s, init) && Running(s, c) && s.nodes[c].place != Receiving(k) && k < Degree(s.edges, c)
    requires 1 <= x <= s.n && x !in Known(s.nodes[c].total)
    ensures Running(Step(s, c), c) && Step(s, c).edges == s.edges && Step(s, c).n == s.n
    ensures ToRead(Step(s, c).nodes[c].place, k, Degree(s.edges, c)) < ToRead(s.nodes[c].place, k, Degree(s.edges, c))
  {
    CountMeansComplete(s, init, c);
    assert !Complete(s, c) by { assert x in Upto(s.n); }
    FdsInRange(s.edges, c, |s.edges|);
    assert NodeTrue(s, init, c);
    TrueIsStorable(s, init, c, s.nodes[c].current);
    var place, fds := s.nodes[c].place, FdsOf(s, c);
    if place.Sending? && place.i < |fds| { assert fds[place.i] in fds; }
    if place.Receiving? && place.i < |fds| { assert fds[place.i] in fds; }
  }

  lemma InPipeMeansSome(pipe: seq<Message>, x: nat)
    requires InPipe(pipe, x)
    ensures pipe != []
  {}

  lemma StillRunning(s: Network, init: seq<int>, c: nat, x: nat)
    requires AllTrue(s, init) && IsNode(s, c) && 1 <= x <= s.n && x !in Known(s.nodes[c].total)
    ensures Running(s, c)
  {
    assert NodeTrue(s, init, c);
    assert x in Upto(s.n);
  }

  /** One step of c: the backlog before x shrinks, or the next read comes nearer. */
  lemma BacklogStep(s: Network, init: seq<int>, c: nat, p: nat, k: nat, x: nat)
    requires FloodInv(s, init) && ReadsAt(s, c, p, k) && Running(s, c) && 1 <= x <= s.n
    requires x !in Known(s.nodes[c].total) && InPipe(s.pipes[p], x)
    requires x !in Known(Step(s, c).nodes[c].total)
    ensures FloodInv(Step(s, c), init) && ReadsAt(Step(s, c), c, p, k) && Running(Step(s, c), c) && Step(s, c).n == s.n
    ensures x in Ids(Step(s, c).nodes[c].current) || InPipe(Step(s, c).pipes[p], x)
    ensures || |Step(s, c).pipes[p]| < |s.pipes[p]|
            || (|Step(s, c).pipes[p]| == |s.pipes[p]|
                && ToRead(Step(s, c).nodes[c].place, k, Degree(s.edges, c))
                   < ToRead(s.nodes[c].place, k, Degree(s.edges, c)))
  {
    AloneStep(s, init, c);
    assert Covered(s, p, x);
    CoveredStays(s, init, c, p, x);
    StillRunning(Step(s, c), init, c, x);
    InPipeMeansSome(s.pipes[p], x);
    if s.nodes[c].place == Receiving(k) {
      OwnPipeShrinks(s, init, c, p, k);
    } else {
      OtherPipesStay(s, c, p, k);
      StepTowardsRead(s, init, c, k, x);
    }
  }

  lemma {:induction false} PipeGetsStored(s: Network, init: seq<int>, c: nat, p: nat, k: nat, x: nat)
    returns (t: Network)
    requires FloodInv(s, init) && ReadsAt(s, c, p, k) && Running(s, c) && 1 <= x <= s.n
    requires x !in Known(s.nodes[c].total) && InPipe(s.pipes[p], x)
    ensures Alone(s, c, t) && FloodInv(t, init) && IsNode(t, c) && x in Known(t.nodes[c].total)
    decreases |s.pipes[p]|, ToRead(s.nodes[c].place, k, Degree(s.edges, c))
  {
    AloneStep(s, init, c);
    var next := Step(s, c);
    if x in Known(next.nodes[c].total) {
      t := next;
    } else {
      BacklogStep(s, init, c, p, k, x);
      if x in Ids(next.nodes[c].current) {
        t := CurrentGetsStored(next, init, c, x);
      } else {
        t := PipeGetsStored(next, init, c, p, k, x);
      }
      AloneOn(s, c, next, t);
    }
  }

  /** What a neighbour knows, a node can get to know by running alone. */
  lemma HopGetsStored(s: Network, init: seq<int>, a: nat, c: nat, x: nat) returns (t: Network)
    requires FloodInv(s, init) && Adjacent(s.edges, a, c) && IsNode(s, a) && IsNode(s, c) && 1 <= x <= s.n
    requires x in Known(s.nodes[a].total) && x !in Known(s.nodes[c].total)
    ensures Alone(s, c, t) && FloodInv(t, init) && IsNode(t, c) && x in Known(t.nodes[c].total)
  {
    var p := PipeBetween(s.edges, a, c);
    assert Covered(s, p, x);
    StillRunning(s, init, c, x);
    if x in Ids(s.nodes[c].current) {
      t := CurrentGetsStored(s, init, c, x);
    } else {
      GossipRounds.EveryPipeIsRead(s.edges, |s.edges|, p);
      var k: nat :| k < |FdsOf(s, c)| && FdsOf(s, c)[k].rd == p;
      t := PipeGetsStored(s, init, c, p, k, x);
    }
  }

  // ---------- Progress ----------

  /** Entries still unset in the first m nodes. */
  function Missing(s: Network, m: nat): int {
    if m == 0 || m >= |s.nodes| then 0 else Missing(s, m - 1) + s.n - s.nodes[m].totalNodes
  }

  lemma {:induction false} MissingNotNegative(s: Network, init: seq<int>, m: nat)
    requires AllTrue(s, init) && m <= s.n
    ensures Missing(s, m) >= 0
  {
    if m > 0 {
      MissingNotNegative(s, init, m - 1);
      CountMeansComplete(s, init, m);
    }
  }

  lemma {:induction false} MissingDrops(s: Network, c: nat, t: Network, m: nat)
    requires |t.nodes| == |s.nodes| && t.n == s.n && m < |s.nodes| && 1 <= c < |s.nodes|
    requires forall u :: 0 <= u < |s.nodes| && u != c ==> t.nodes[u] == s.nodes[u]
    ensures Missing(t, m) == Missing(s, m) - if c <= m then t.nodes[c].totalNodes - s.nodes[c].totalNodes else 0
  {
    if m > 0 { MissingDrops(s, c, t, m - 1); }
  }

  /** A node that got to know something new: fewer entries are missing. */
  lemma MoreKnown(s: Network, init: seq<int>, c: nat, t: Network, x: nat)
    requires AllTrue(s, init) && AllTrue(t, init) && Alone(s, c, t) && IsNode(s, c)
    requires x !in Known(s.nodes[c].total) && x in Known(t.nodes[c].total)
    ensures Missing(t, t.n) < Missing(s, s.n)
  {
    assert NodeTrue(s, init, c) && NodeTrue(t, init, c);
    SubsetSize(Known(s.nodes[c].total), Known(t.nodes[c].total));
    MissingDrops(s, c, t, s.n);
  }

  /** Along a path from one that knows x to one that does not there is a hop where x is still to come. */
  lemma {:induction false} FindGap(s: Network, path: seq<nat>, x: nat) returns (a: nat, c: nat)
    requires NetworkShaped(s) && Linked(s.edges, path) && IsNode(s, path[0]) && IsNode(s, path[|path| - 1])
    requires x in Known(s.nodes[path[0]].total) && x !in Known(s.nodes[path[|path| - 1]].total)
    ensures Adjacent(s.edges, a, c) && IsNode(s, a) && IsNode(s, c)
    ensures x in Known(s.nodes[a].total) && x !in Known(s.nodes[c].total)
    decreases |path|
  {
    var next := path[1];
    assert Adjacent(s.edges, path[0], path[0 + 1]);
    var p := PipeBetween(s.edges, path[0], next);
    if x !in Known(s.nodes[next].total) {
      a, c := path[0], next;
    } else {
      var rest := path[1..];
      forall t | 0 <= t < |rest| - 1 ensures Adjacent(s.edges, rest[t], rest[t + 1]) {
        assert Adjacent(s.edges, path[t + 1], path[t + 1 + 1]);
      }
      a, c := FindGap(s, rest, x);
    }
  }

  lemma Progress(s: Network, init: seq<int>, b: nat) returns (t: Network)
    requires FloodInv(s, init) && Connected(s.n, s.edges) && IsNode(s, b) && !Complete(s, b)
    ensures Reachable(s, t) && FloodInv(t, init) && t.n == s.n && t.edges == s.edges
    ensures Missing(t, t.n) < Missing(s, s.n)
  {
    var x: nat :| x in Upto(s.n) && x !in Known(s.nodes[b].total);
    if x !in Known(s.nodes[x].total) {
      assert IsNode(s, x);
      StillRunning(s, init, x, x);
      t := CurrentGetsStored(s, init, x, x);
      MoreKnown(s, init, x, t, x);
    } else {
      assert Reaches(s.edges, x, b);
      var path: seq<nat> :| Linked(s.edges, path) && path[0] == x && path[|path| - 1] == b;
      var a, c := FindGap(s, path, x);
      t := HopGetsStored(s, init, a, c, x);
      MoreKnown(s, init, c, t, x);
    }
  }

  // ---------- Exiting ----------

  function ToExit(place: Place, d: nat): nat {
    match place
    case Sending(i) => 0
    case Copying => d + 2
    case Receiving(i) => Left(i, d) + 1
    case Exited(_) => 0
  }

  lemma StepTowardsExit(s: Network, init: seq<int>, u: nat)
    requires AllTrue(s, init) && Running(s, u) && Complete(s, u)
    ensures IsNode(Step(s, u), u) && Step(s, u).edges == s.edges && Complete(Step(s, u), u)
    ensures ToExit(Step(s, u).nodes[u].place, Degree(s.edges, u)) < ToExit(s.nodes[u].place, Degree(s.edges, u))
  {
    assert NodeTrue(s, init, u);
    CountMeansComplete(s, init, u);
    CompleteNeverSendsAgain(s, init, u);
    TrueIsStorable(s, init, u, s.nodes[u].current);
    FdsInRange(s.edges, u, |s.edges|);
    var place, fds := s.nodes[u].place, FdsOf(s, u);
    if place.Receiving? && place.i < |fds| { assert fds[place.i] in fds; }
  }

  lemma {:induction false} CompleteExits(s: Network, init: seq<int>, u: nat) returns (t: Network)
    requires FloodInv(s, init) && IsNode(s, u) && Complete(s, u)
    ensures Alone(s, u, t) && FloodInv(t, init) && IsNode(t, u) && t.nodes[u].place.Exited?
    decreases ToExit(s.nodes[u].place, Degree(s.edges, u))
  {
    if s.nodes[u].place.Exited? {
      t := s;
      AloneNow(s, u);
    } else {
      AloneStep(s, init, u);
      StepTowardsExit(s, init, u);
      t := CompleteExits(Step(s, u), init, u);
      AloneOn(s, u, Step(s, u), t);
    }
  }

  ghost predicate AllComplete(s: Network) { forall u: nat :: IsNode(s, u) ==> Complete(s, u) }

  lemma CompleteStays(s: Network, c: nat, t: Network)
    requires AllComplete(s) && Alone(s, c, t)
    ensures AllComplete(t)
  {
    forall u: nat | IsNode(t, u) ensures Complete(t, u) { assert IsNode(s, u) && Complete(s, u); }
  }

  lemma {:induction false} FirstExit(s: Network, init: seq<int>, m: nat) returns (t: Network)
    requires FloodInv(s, init) && AllComplete(s) && m <= s.n
    ensures Reachable(s, t) && FloodInv(t, init) && AllComplete(t) && t.n == s.n && t.edges == s.edges
    ensures forall u: nat :: 1 <= u <= m ==> IsNode(t, u) && t.nodes[u].place.Exited?
  {
    if m == 0 {
      t := s;
      assert Leads(s, [], s);
    } else {
      var before := FirstExit(s, init, m - 1);
      t := CompleteExits(before, init, m);
      CompleteStays(before, m, t);
      ReachableOn(s, before, t);
      forall u: nat | 1 <= u <= m ensures IsNode(t, u) && t.nodes[u].place.Exited? {
        if u < m { assert IsNode(before, u) && before.nodes[u].place.Exited?; }
      }
    }
  }

  // ---------- No dead end ----------

  lemma {:induction false} CanAlwaysFinish(s: Network, init: seq<int>) returns (t: Network)
    requires FloodInv(s, init) && Connected(s.n, s.edges)
    ensures Reachable(s, t) && AllExited(t)
    decreases Missing(s, s.n)
  {
    if AllComplete(s) {
      t := FirstExit(s, init, s.n);
    } else {
      var b: nat :| IsNode(s, b) && !Complete(s, b);
      var next := Progress(s, init, b);
      MissingNotNegative(s, init, s.n);
      MissingNotNegative(next, init, next.n);
      t := CanAlwaysFinish(next, init);
      ReachableOn(s, next, t);
    }
  }

  predicate Next(s: Network, u: nat, t: Network) { Running(s, u) && t == Step(s, u) }

  /** A run up to its i-th state and what follows there are a run. */
  lemma Continue(states: seq<Network>, events: seq<nat>, init: seq<int>, i: nat, rest: seq<Network>, more: seq<nat>)
    requires Run(states, events, init) && i < |states| && Chains.Chain(Next, rest, more) && rest[0] == states[i]
    ensures Run(states[..i] + rest, events[..i] + more, init)
    ensures (states[..i] + rest)[..i + 1] == states[..i + 1] && (events[..i] + more)[..i] == events[..i]
    ensures |events[..i] + more| == i + |more| && (states[..i] + rest)[i + |more|] == rest[|more|]
  {
    Chains.Continue(Next, states, events, i, rest, more);
    var run, steps := states[..i] + rest, events[..i] + more;
    assert run[..i + 1][0] == states[..i + 1][0];
    forall x | 0 <= x < |steps| ensures Running(run[x], steps[x]) && run[x + 1] == Step(run[x], steps[x]) {
      assert Next(run[x], steps[x], run[x + 1]);
    }
  }

  lemma WayOut(states: seq<Network>, events: seq<nat>, init: seq<int>, i: nat)
    returns (rest: seq<Network>, more: seq<nat>)
    requires Run(states, events, init) && i < |states| && Connected(states[i].n, states[i].edges)
    ensures Chains.Chain(Next, rest, more) && rest[0] == states[i] && AllExited(rest[|more|])
  {
    RunIsFlooded(states, events, init, i);
    var t := CanAlwaysFinish(states[i], init);
    more :| Leads(states[i], more, t);
    LeadsStates(states[i], more, t);
    rest := States(states[i], more);
  }

  lemma AllAnswer(run: seq<Network>, steps: seq<nat>, init: seq<int>)
    requires Run(run, steps, init) && AllExited(run[|steps|])
    ensures forall u: nat :: 1 <= u <= run[|steps|].n ==> Answered(run, steps, init, u)
  {
    forall u: nat | 1 <= u <= run[|steps|].n ensures Answered(run, steps, init, u) {
      EveryExitIsTheMean(run, steps, init, |steps|, u);
    }
  }

  /** At the end of the run node u has exited with the quotient that its start value of `sum` gives. */
  ghost predicate Answered(run: seq<Network>, steps: seq<nat>, init: seq<int>, u: nat)
    requires |run| == |steps| + 1
  {
    var last := run[|steps|];
    && IsNode(last, u) && IsNode(run[0], u) && 0 < last.n < |init|
    && last.nodes[u].place == Exited(Answer(run[0].nodes[u].start, init, last.n))
  }

  /** In a connected network every run, cut off anywhere, can be continued until all nodes have exited,
      each with its answer. */
  lemma EveryRunCanFinish(states: seq<Network>, events: seq<nat>, init: seq<int>, i: nat)
    returns (run: seq<Network>, steps: seq<nat>)
    requires Run(states, events, init) && i < |states| && Connected(states[i].n, states[i].edges)
    ensures Run(run, steps, init) && i < |run| && run[..i + 1] == states[..i + 1] && steps[..i] == events[..i]
    ensures AllExited(run[|steps|])
    ensures forall u: nat :: 1 <= u <= run[|steps|].n ==> Answered(run, steps, init, u)
  {
    var rest, more := WayOut(states, events, init, i);
    Continue(states, events, init, i, rest, more);
    run, steps := states[..i] + rest, events[..i] + more;
    AllAnswer(run, steps, init);
  }
}
