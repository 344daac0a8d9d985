/**
 Nodes that compute the mean of their values by gossip (os_lab/labtest1/13CS30011).

 Each node floods what is new to it over pipes to its neighbours, one pipe for each direction
 of each edge, and stops when it knows the value of every node.
 */
module Gossip {

  const MAX_NODES: nat := 100
  const UNSET := -1

  datatype Pair = Pair(id: nat, value: int)
  type Message = seq<Pair>

  function Ids(m: Message): set<nat> { set x | x in m :: x.id }

  /** The nodes whose value is stored. */
  function Known(total: seq<int>): set<nat> {
    set x: nat | x < |total| && total[x] != UNSET
  }

  /** Pairs that can be stored: the id is an index, the value is not the mark for an unset entry. */
  predicate Storable(total: seq<int>, m: Message) {
    forall x :: x in m ==> x.id < |total| && x.value != UNSET
  }

  // ---------- The three loops of a node ----------

  /** Emptying `current` from its end into `total`; a pair that is already known is dropped. */
  function CopyAll(total: seq<int>, count: nat, current: Message): (r: (seq<int>, nat))
    requires Storable(total, current)
    ensures |r.0| == |total|
    decreases |current|
  {
    if current == [] then (total, count)
    else
      var last, rest := current[|current| - 1], current[..|current| - 1];
      if total[last.id] != UNSET then CopyAll(total, count, rest)
      else CopyAll(total[last.id := last.value], count + 1, rest)
  }

  /** The pairs of a received message that are not known yet, from its end. */
  function News(total: seq<int>, recv: Message): Message
    requires Storable(total, recv)
    decreases |recv|
  {
    if recv == [] then []
    else
      var last, rest := recv[|recv| - 1], recv[..|recv| - 1];
      (if total[last.id] == UNSET then [last] else []) + News(total, rest)
  }

  function SumUpTo(total: seq<int>, n: nat): int
    requires n < |total|
  {
    if n == 0 then 0 else SumUpTo(total, n - 1) + if total[n] != UNSET then total[n] else 0
  }

  /** Division as in C, towards 0. */
  function Quotient(a: int, n: nat): int
    requires n > 0
  {
    if a >= 0 then a / n else -((-a) / n)
  }

  /** What a node answers when `sum`, which the program does not initialise, starts at `start`. */
  function Answer(start: int, total: seq<int>, n: nat): int
    requires 0 < n < |total|
  {
    Quotient(start + SumUpTo(total, n), n)
  }

  /** s is what adding up the set entries from 1 to n gives: c holds the sums on the way. */
  ghost predicate IsSum(total: seq<int>, n: nat, s: int) {
    n < |total| && exists c :: AddsUp(total, n, c) && c[n] == s
  }

  ghost predicate AddsUp(total: seq<int>, n: nat, c: seq<int>) {
    && |c| == n + 1 && n < |total| && c[0] == 0
    && (forall x :: 1 <= x <= n && total[x] != UNSET ==> c[x] == c[x - 1] + total[x])
    && forall x :: 1 <= x <= n && total[x] == UNSET ==> c[x] == c[x - 1]
  }

  /** q is a divided by n, the remainder having the sign of a. */
  predicate IsQuotient(a: int, n: nat, q: int) {
    if a >= 0 then q * n <= a < q * n + n else q * n - n < a <= q * n
  }

  lemma {:induction false} SumIs(total: seq<int>, n: nat)
    requires n < |total|
    ensures IsSum(total, n, SumUpTo(total, n))
  {
    if n == 0 {
      assert AddsUp(total, 0, [0]) && [0][0] == SumUpTo(total, 0);
    } else {
      SumIs(total, n - 1);
      var c :| AddsUp(total, n - 1, c) && c[n - 1] == SumUpTo(total, n - 1);
      assert AddsUp(total, n, c + [SumUpTo(total, n)]) && (c + [SumUpTo(total, n)])[n] == SumUpTo(total, n);
    }
  }

  /** There is only one such sum. */
  lemma {:induction false} SumIsOne(total: seq<int>, n: nat, c: seq<int>)
    requires AddsUp(total, n, c)
    ensures c[n] == SumUpTo(total, n)
  {
    if n > 0 {
      assert AddsUp(total, n - 1, c[..n]);
      SumIsOne(total, n - 1, c[..n]);
    }
  }

  /** q is the mean of n entries when `sum` starts at `start`. */
  ghost predicate IsMean(total: seq<int>, n: nat, start: int, q: int) {
    exists sum :: IsSum(total, n, sum) && IsQuotient(start + sum, n, q)
  }

  lemma QuotientIs(a: int, n: nat, q: int)
    requires n > 0
    ensures Quotient(a, n) == q <==> IsQuotient(a, n, q)
  {
    if a >= 0 { FloorIs(a, n, q); } else { FloorIs(-a, n, -q); }
  }

  lemma FloorIs(a: int, n: nat, q: int)
    requires n > 0
    ensures a / n == q <==> q * n <= a < q * n + n
  {
    var f := a / n;
    assert a == n * f + a % n;
    if f < q { Multiples(f + 1, q, n); } else if f > q { Multiples(q + 1, f, n); }
  }

  lemma Multiples(p: int, q: int, n: nat)
    requires p <= q
    ensures p * n <= q * n
  {}

  /** The sum is 0 when nothing from 1 to n is set, and depends on nothing else. */
  lemma {:induction false} SumOfNone(total: seq<int>, n: nat)
    requires n < |total| && forall x :: 1 <= x <= n ==> total[x] == UNSET
    ensures SumUpTo(total, n) == 0
  {
    if n > 0 { SumOfNone(total, n - 1); }
  }

  /** Storing v at x, within 1 to n, adds v if x was unset and the difference if it was set; outside it adds nothing. */
  lemma {:induction false} SumAfterStore(total: seq<int>, n: nat, x: nat, v: int)
    requires n < |total| && x < |total| && v != UNSET
    ensures SumUpTo(total[x := v], n) == SumUpTo(total, n) +
            if x == 0 || x > n then 0 else if total[x] == UNSET then v else v - total[x]
  {
    if n > 0 { SumAfterStore(total, n - 1, x, v); }
  }

  class Node {
    var total: array<int>
    var totalNodes: nat
    var current: Message

    constructor (nodeno: nat, value: int)
      ensures fresh(total) && total.Length == 100 && Known(total[..]) == {}
      ensures totalNodes == 0 && current == [Pair(nodeno, value)]
    {
      var t := new int[MAX_NODES];
      for i := 0 to MAX_NODES
        invariant forall x :: 0 <= x < i ==> t[x] == UNSET
      {
        t[i] := -1;
      }
      total, totalNodes, current := t, 0, [Pair(nodeno, value)];
    }

    method CopyCurrent()
      requires Storable(total[..], current)
      modifies this, total
      ensures total == old(total) && current == []
      ensures (total[..], totalNodes) == old(CopyAll(total[..], totalNodes, current))
    {
      while |current| > 0
        invariant total == old(total) && Storable(total[..], current)
        invariant CopyAll(total[..], totalNodes, current) == old(CopyAll(total[..], totalNodes, current))
        decreases |current|
      {
        var last := current[|current| - 1];
        current := current[..|current| - 1];
        if total[last.id] != -1 { continue; }
        total[last.id] := last.value;
        totalNodes := totalNodes + 1;
      }
    }

    method Receive(message: Message)
      requires Storable(total[..], message)
      modifies this`current
      ensures current == old(current) + News(total[..], message)
    {
      var recv := message;
      while |recv| > 0
        invariant Storable(total[..], recv)
        invariant current + News(total[..], recv) == old(current) + News(total[..], message)
        decreases |recv|
      {
        var last := recv[|recv| - 1];
        recv := recv[..|recv| - 1];
        if total[last.id] == -1 {
          current := current + [last];
        }
      }
    }

    method Mean(n: nat, start: int) returns (mean: int)
      requires 0 < n < total.Length
      ensures mean == Answer(start, total[..], n)
      ensures IsMean(total[..], n, start, mean)
    {
      var sum := start;
      for i := 1 to n + 1
        invariant sum == start + SumUpTo(total[..], i - 1)
      {
        if total[i] != -1 { sum := sum + total[i]; }
      }
      mean := if sum >= 0 then sum / n else -((-sum) / n);
      SumIs(total[..], n);
      QuotientIs(sum, n, mean);
    }
  }

  // ---------- The network ----------

  datatype Edge = Edge(start: nat, end: nat)
  datatype Fd = Fd(rd: nat, wr: nat)    // the pipe a node reads and the pipe it writes, for one neighbour

  /** Pipe 2j carries edge j forward, pipe 2j+1 backward. */
  function Fds(edges: seq<Edge>, i: nat, m: nat): seq<Fd>
    requires m <= |edges|
  {
    if m == 0 then []
    else
      var j, e := m - 1, edges[m - 1];
      Fds(edges, i, m - 1) +
      if e.start == i then [Fd(2 * j + 1, 2 * j)] else if e.end == i then [Fd(2 * j, 2 * j + 1)] else []
  }

  method NodeArgs(edges: seq<Edge>, i: nat) returns (fds: seq<Fd>)
    ensures fds == Fds(edges, i, |edges|)
  {
    fds := [];
    for j := 0 to |edges|
      invariant fds == Fds(edges, i, j)
    {
      if edges[j].start == i {
        fds := fds + [Fd(2 * j + 1, 2 * j)];
      } else if edges[j].end == i {
        fds := fds + [Fd(2 * j, 2 * j + 1)];
      }
    }
  }

  datatype Place = Sending(i: nat) | Copying | Receiving(i: nat) | Exited(status: int)

  /** `start` is what `sum` happens to hold. */
  datatype Process = Process(place: Place, total: seq<int>, totalNodes: nat, current: Message, start: int)

  /** Node ids run from 1 to n; nodes[0] is unused. */
  datatype Network = Network(n: nat, edges: seq<Edge>, nodes: seq<Process>, pipes: seq<seq<Message>>)

  predicate IsNode(s: Network, u: nat) { 1 <= u <= s.n && u < |s.nodes| }

  predicate Running(s: Network, u: nat) { IsNode(s, u) && !s.nodes[u].place.Exited? }

  function FdsOf(s: Network, u: nat): seq<Fd> { Fds(s.edges, u, |s.edges|) }

  ghost predicate NetworkShaped(s: Network) {
    && 1 <= s.n < MAX_NODES && |s.nodes| == s.n + 1 && |s.pipes| == 2 * |s.edges|
    && (forall j :: 0 <= j < |s.edges| ==> 1 <= s.edges[j].start <= s.n && 1 <= s.edges[j].end <= s.n)
    && (forall u :: 0 <= u <= s.n ==> |s.nodes[u].total| == MAX_NODES)
  }

  /** The value of every node, and nothing but true pairs anywhere. */
  ghost predicate True(n: nat, init: seq<int>, m: Message) {
    forall x :: x in m ==> 1 <= x.id <= n && x.id < |init| && x.value == init[x.id]
  }

  ghost predicate InitialValues(s: Network, init: seq<int>) {
    |init| == s.n + 1 && forall u :: 1 <= u <= s.n ==> 1 <= init[u] <= 100
  }

  ghost predicate Init(s: Network, init: seq<int>) {
    && NetworkShaped(s) && InitialValues(s, init)
    && (forall p :: 0 <= p < |s.pipes| ==> s.pipes[p] == [])
    && forall u :: 1 <= u <= s.n ==>
         s.nodes[u] == Process(Sending(0), seq(MAX_NODES, _ => UNSET), 0, [Pair(u, init[u])], s.nodes[u].start)
  }

  /** Up to 99 nodes, any edges between them, any values from 1 to 100, and whatever `sum` holds in each node: there is
      such a network to start from. */
  lemma EveryNetworkStarts(n: nat, edges: seq<Edge>, init: seq<int>, starts: seq<int>) returns (s: Network)
    requires 1 <= n < 100 && |init| == |starts| == n + 1
    requires forall j :: 0 <= j < |edges| ==> 1 <= edges[j].start <= n && 1 <= edges[j].end <= n
    requires forall u :: 1 <= u <= n ==> 1 <= init[u] <= 100
    ensures Init(s, init) && s.n == n && s.edges == edges
    ensures forall u :: 1 <= u <= n ==> u < |s.nodes| && s.nodes[u].start == starts[u]
  {
    s := Network(n, edges,
                 seq(n + 1, u requires 0 <= u < n + 1 =>
                   Process(Sending(0), seq(MAX_NODES, _ => UNSET), 0, [Pair(u, init[u])], starts[u])),
                 seq(2 * |edges|, _ => []));
  }

  lemma {:induction false} FdsInRange(edges: seq<Edge>, u: nat, m: nat)
    requires m <= |edges|
    ensures forall fd :: fd in Fds(edges, u, m) ==> fd.rd < 2 * m && fd.wr < 2 * m
  {
    if m > 0 { FdsInRange(edges, u, m - 1); }
  }

  /** One step of node u: one write, one read, or a loop over its own memory. */
  function Step(s: Network, u: nat): Network
    requires Running(s, u)
  {
    var node, fds := s.nodes[u], FdsOf(s, u);
    match node.place
    case Sending(i) =>
      if i < |fds| && fds[i].wr < |s.pipes| then
        s.(pipes := s.pipes[fds[i].wr := s.pipes[fds[i].wr] + [node.current]],
           nodes := s.nodes[u := node.(place := Sending(i + 1))])
      else
        s.(nodes := s.nodes[u := node.(place := Copying)])
    case Copying =>
      if Storable(node.total, node.current) then
        var (total, count) := CopyAll(node.total, node.totalNodes, node.current);
        s.(nodes := s.nodes[u := Process(Receiving(0), total, count, [], node.start)])
      else s
    case Receiving(i) =>
      if i < |fds| && fds[i].rd < |s.pipes| then
        var pipe := s.pipes[fds[i].rd];
        if pipe != [] && Storable(node.total, pipe[0]) then
          s.(pipes := s.pipes[fds[i].rd := pipe[1..]],
             nodes := s.nodes[u := node.(place := Receiving(i + 1),
                                       current := node.current + News(node.total, pipe[0]))])
        else
          s.(nodes := s.nodes[u := node.(place := Receiving(i + 1))])
      else if node.totalNodes < s.n || s.n == 0 || s.n >= |node.total| then
        s.(nodes := s.nodes[u := node.(place := Sending(0))])
      else
        s.(nodes := s.nodes[u := node.(place := Exited(Answer(node.start, node.total, s.n)))])
    case Exited(_) => s
  }

  ghost predicate Run(states: seq<Network>, events: seq<nat>, init: seq<int>) {
    && |states| == |events| + 1
    && Init(states[0], init)
    && forall x :: 0 <= x < |events| ==> Running(states[x], events[x]) && states[x + 1] == Step(states[x], events[x])
  }

  // ---------- What the loops do ----------

  lemma OneStored(total: seq<int>, x: Pair)
    requires x.id < |total| && x.value != UNSET && total[x.id] == UNSET
    ensures Known(total[x.id := x.value]) == Known(total) + {x.id}
    ensures |Known(total[x.id := x.value])| == |Known(total)| + 1
  {
    assert Known(total[x.id := x.value]) == Known(total) + {x.id};
  }

  lemma KnownAlready(total: seq<int>, id: nat, ids: set<nat>)
    requires id < |total| && total[id] != UNSET
    ensures Known(total) + ids == Known(total) + (ids + {id})
  {}

  lemma IdsOfLast(m: Message)
    requires m != []
    ensures Ids(m) == Ids(m[..|m| - 1]) + {m[|m| - 1].id}
  {
    assert m == m[..|m| - 1] + [m[|m| - 1]];
  }

  /** Copying stores every id of `current`, and counts each id once however often it occurs. */
  lemma {:induction false} CopyAllKnows(total: seq<int>, count: nat, current: Message)
    requires Storable(total, current)
    ensures Known(CopyAll(total, count, current).0) == Known(total) + Ids(current)
    ensures CopyAll(total, count, current).1 - count == |Known(CopyAll(total, count, current).0)| - |Known(total)|
    decreases |current|
  {
    if current != [] {
      var last, rest := current[|current| - 1], current[..|current| - 1];
      IdsOfLast(current);
      if total[last.id] != UNSET {
        CopyAllKnows(total, count, rest);
        KnownAlready(total, last.id, Ids(rest));
      } else {
        OneStored(total, last);
        CopyAllKnows(total[last.id := last.value], count + 1, rest);
      }
    }
  }

  /** Only what `current` says is stored. */
  lemma {:induction false} CopyAllStores(total: seq<int>, count: nat, current: Message, x: nat)
    requires Storable(total, current) && x < |total|
    ensures var t := CopyAll(total, count, current).0; t[x] == total[x] || Pair(x, t[x]) in current
    decreases |current|
  {
    if current != [] {
      var last, rest := current[|current| - 1], current[..|current| - 1];
      if total[last.id] != UNSET {
        CopyAllStores(total, count, rest, x);
      } else {
        CopyAllStores(total[last.id := last.value], count + 1, rest, x);
      }
    }
  }

  /** What was set stays as it was. */
  lemma {:induction false} CopyAllKeeps(total: seq<int>, count: nat, current: Message, x: nat)
    requires Storable(total, current) && x < |total| && total[x] != UNSET
    ensures CopyAll(total, count, current).0[x] == total[x]
    decreases |current|
  {
    if current != [] {
      var last, rest := current[|current| - 1], current[..|current| - 1];
      if total[last.id] != UNSET {
        CopyAllKeeps(total, count, rest, x);
      } else {
        CopyAllKeeps(total[last.id := last.value], count + 1, rest, x);
      }
    }
  }

  /** What was unset takes the value of its last pair in `current`. */
  lemma {:induction false} CopyAllTakesLast(total: seq<int>, count: nat, current: Message, k: nat)
    requires Storable(total, current) && k < |current| && total[current[k].id] == UNSET
    requires forall l :: k < l < |current| ==> current[l].id != current[k].id
    ensures CopyAll(total, count, current).0[current[k].id] == current[k].value
    decreases |current|
  {
    var n := |current| - 1;
    var last, rest := current[n], current[..n];
    if k == n {
      CopyAllKeeps(total[last.id := last.value], count + 1, rest, last.id);
    } else if total[last.id] != UNSET {
      CopyAllTakesLast(total, count, rest, k);
    } else {
      CopyAllTakesLast(total[last.id := last.value], count + 1, rest, k);
    }
  }

  /** A message is taken pair by pair, the last one first; a pair is kept exactly when its id is unset. */
  lemma {:induction false} NewsInOrder(total: seq<int>, front: Message, last: Pair)
    requires Storable(total, front + [last])
    ensures Storable(total, front) && last.id < |total|
    ensures News(total, front + [last]) == (if total[last.id] == UNSET then [last] else []) + News(total, front)
    ensures News(total, []) == []
  {
    var recv := front + [last];
    assert recv[..|recv| - 1] == front && recv[|recv| - 1] == last && last in recv;
    forall x | x in front ensures x.id < |total| && x.value != UNSET { assert x in recv; }
  }

  lemma {:induction false} NewsIsUnknown(total: seq<int>, recv: Message)
    requires Storable(total, recv)
    ensures Ids(News(total, recv)) == Ids(recv) - Known(total)
    ensures forall x :: x in News(total, recv) ==> x in recv
    decreases |recv|
  {
    if recv != [] {
      var last, rest := recv[|recv| - 1], recv[..|recv| - 1];
      IdsOfLast(recv);
      NewsIsUnknown(total, rest);
      var news := if total[last.id] == UNSET then [last] else [];
      assert Ids(news + News(total, rest)) == Ids(news) + Ids(News(total, rest));
    }
  }

  // ---------- Invariant ----------

  ghost predicate NodeTrue(s: Network, init: seq<int>, u: nat)
    requires IsNode(s, u) && s.n < |init|
  {
    var node := s.nodes[u];
    && True(s.n, init, node.current)
    && (forall x :: 0 <= x < |node.total| && node.total[x] != UNSET ==>
      1 <= x <= s.n && x < |init| && node.total[x] == init[x])
    && node.totalNodes == |Known(node.total)|
    && (node.place.Sending? ==> node.totalNodes < s.n)
    && (node.place.Exited? ==> Complete(s, u) && node.place.status == Answer(node.start, init, s.n))
  }

  /** Node u knows the value of every node. */
  ghost predicate Complete(s: Network, u: nat)
    requires IsNode(s, u)
  {
    Upto(s.n) <= Known(s.nodes[u].total)
  }

  /** Everything anywhere is true, and the counter is the number of entries that are set. */
  ghost predicate AllTrue(s: Network, init: seq<int>) {
    && NetworkShaped(s) && InitialValues(s, init)
    && (forall p :: 0 <= p < |s.pipes| ==> PipeTrue(s, init, p))
    && forall u :: IsNode(s, u) ==> NodeTrue(s, init, u)
  }

  ghost predicate PipeTrue(s: Network, init: seq<int>, p: nat)
    requires p < |s.pipes|
  {
    forall m :: m in s.pipes[p] ==> True(s.n, init, m)
  }

  lemma TrueIsStorable(s: Network, init: seq<int>, u: nat, m: Message)
    requires NetworkShaped(s) && InitialValues(s, init) && True(s.n, init, m) && IsNode(s, u)
    ensures Storable(s.nodes[u].total, m)
  {
  }

  lemma {:induction false} SameSum(a: seq<int>, b: seq<int>, n: nat)
    requires n < |a| && n < |b|
    requires forall x :: 1 <= x <= n ==> a[x] == b[x]
    ensures SumUpTo(a, n) == SumUpTo(b, n)
  {
    if n > 0 { SameSum(a, b, n - 1); }
  }

  function Upto(n: nat): (ids: set<nat>)
    ensures forall x :: x in ids <==> 1 <= x <= n
    ensures |ids| == n
  {
    if n == 0 then {} else Upto(n - 1) + {n}
  }

  lemma SubsetSize<T>(a: set<T>, b: set<T>)
    requires a <= b
    ensures |a| <= |b| && (|a| == |b| ==> a == b)
  {
    assert b == a + (b - a);
  }

  /** The counter reaches n exactly when every node is known. */
  lemma CountMeansComplete(s: Network, init: seq<int>, u: nat)
    requires AllTrue(s, init) && IsNode(s, u)
    ensures s.nodes[u].totalNodes <= s.n
    ensures s.nodes[u].totalNodes == s.n <==> Complete(s, u)
  {
    assert NodeTrue(s, init, u);
    var known := Known(s.nodes[u].total);
    assert known <= Upto(s.n);
    SubsetSize(known, Upto(s.n));
    if Complete(s, u) { SubsetSize(Upto(s.n), known); }
  }

  lemma CopyKeepsNodeTrue(s: Network, init: seq<int>, u: nat)
    requires AllTrue(s, init) && Running(s, u) && s.nodes[u].place == Copying
    ensures NodeTrue(Step(s, u), init, u)
  {
    var node := s.nodes[u];
    assert NodeTrue(s, init, u);
    TrueIsStorable(s, init, u, node.current);
    CopyAllKnows(node.total, node.totalNodes, node.current);
    var total := CopyAll(node.total, node.totalNodes, node.current).0;
    forall x | 0 <= x < |total| && total[x] != UNSET ensures 1 <= x <= s.n && x < |init| && total[x] == init[x] {
      CopyAllStores(node.total, node.totalNodes, node.current, x);
    }
  }

  lemma ReadKeepsNodeTrue(s: Network, init: seq<int>, u: nat)
    requires AllTrue(s, init) && Running(s, u) && s.nodes[u].place.Receiving?
    requires s.nodes[u].place.i < |FdsOf(s, u)|
    ensures NodeTrue(Step(s, u), init, u)
  {
    var node, fd := s.nodes[u], FdsOf(s, u)[s.nodes[u].place.i];
    assert NodeTrue(s, init, u);
    FdsInRange(s.edges, u, |s.edges|);
    assert fd in FdsOf(s, u);
    var pipe := s.pipes[fd.rd];
    if pipe != [] {
      assert PipeTrue(s, init, fd.rd) && pipe[0] in pipe;
      TrueIsStorable(s, init, u, pipe[0]);
      NewsIsUnknown(node.total, pipe[0]);
    }
  }

  /** A node that knows everything sums up the initial values. */
  lemma CompleteSum(s: Network, init: seq<int>, u: nat)
    requires AllTrue(s, init) && IsNode(s, u) && Complete(s, u)
    ensures SumUpTo(s.nodes[u].total, s.n) == SumUpTo(init, s.n)
  {
    assert NodeTrue(s, init, u);
    forall x | 1 <= x <= s.n ensures s.nodes[u].total[x] == init[x] {
      assert x in Upto(s.n) && x in Known(s.nodes[u].total);
    }
    SameSum(s.nodes[u].total, init, s.n);
  }

  lemma CheckKeepsNodeTrue(s: Network, init: seq<int>, u: nat)
    requires AllTrue(s, init) && Running(s, u) && s.nodes[u].place.Receiving?
    requires s.nodes[u].place.i >= |FdsOf(s, u)|
    ensures NodeTrue(Step(s, u), init, u)
  {
    assert NodeTrue(s, init, u);
    CountMeansComplete(s, init, u);
    var next := Step(s, u).nodes[u];
    if s.nodes[u].totalNodes < s.n {
      assert next == s.nodes[u].(place := Sending(0));
    } else {
      CompleteSum(s, init, u);
      assert next == s.nodes[u].(place := Exited(Answer(s.nodes[u].start, init, s.n)));
    }
  }

  lemma ReceiveKeepsNodeTrue(s: Network, init: seq<int>, u: nat)
    requires AllTrue(s, init) && Running(s, u) && s.nodes[u].place.Receiving?
    ensures NodeTrue(Step(s, u), init, u)
  {
    if s.nodes[u].place.i < |FdsOf(s, u)| {
      ReadKeepsNodeTrue(s, init, u);
    } else {
      CheckKeepsNodeTrue(s, init, u);
    }
  }

  lemma StepKeepsPipesTrue(s: Network, init: seq<int>, u: nat, p: nat)
    requires AllTrue(s, init) && Running(s, u) && p < |s.pipes|
    ensures |Step(s, u).pipes| == |s.pipes| && PipeTrue(Step(s, u), init, p)
  {
    assert NodeTrue(s, init, u) && PipeTrue(s, init, p);
    var before, after := s.pipes[p], Step(s, u).pipes[p];
    assert after == before || after == before + [s.nodes[u].current] || (before != [] && after == before[1..]);
  }

  lemma StepKeepsTrue(s: Network, init: seq<int>, u: nat)
    requires AllTrue(s, init) && Running(s, u)
    ensures AllTrue(Step(s, u), init)
  {
    var t := Step(s, u);
    OwnStepKeepsTrue(s, init, u);
    forall v: nat | IsNode(t, v) ensures NodeTrue(t, init, v) {
      if v != u { assert NodeTrue(s, init, v) && t.nodes[v] == s.nodes[v]; }
    }
    forall p: nat | p < |t.pipes| ensures PipeTrue(t, init, p) {
      StepKeepsPipesTrue(s, init, u, p);
    }
  }

  lemma OwnStepKeepsTrue(s: Network, init: seq<int>, u: nat)
    requires AllTrue(s, init) && Running(s, u)
    ensures NetworkShaped(Step(s, u)) && Step(s, u).n == s.n && NodeTrue(Step(s, u), init, u)
  {
    assert NodeTrue(s, init, u);
    if s.nodes[u].place == Copying {
      CopyKeepsNodeTrue(s, init, u);
    } else if s.nodes[u].place.Receiving? {
      ReceiveKeepsNodeTrue(s, init, u);
    }
  }

  lemma InitIsTrue(s: Network, init: seq<int>)
    requires Init(s, init)
    ensures AllTrue(s, init)
  {
    forall u: nat | IsNode(s, u) ensures NodeTrue(s, init, u) {
      assert Known(s.nodes[u].total) == {};
    }
  }

  lemma {:induction false} RunIsTrue(states: seq<Network>, events: seq<nat>, init: seq<int>, i: nat)
    requires Run(states, events, init) && i < |states|
    ensures AllTrue(states[i], init) && states[i].n == states[0].n && states[i].edges == states[0].edges
  {
    if i == 0 {
      InitIsTrue(states[0], init);
    } else {
      RunIsTrue(states, events, init, i - 1);
      StepKeepsTrue(states[i - 1], init, events[i - 1]);
    }
  }

  /** The mean that the master computes from the values it hands out. */
  function MasterMean(init: seq<int>): int
    requires |init| > 1
  {
    SumUpTo(init, |init| - 1) / (|init| - 1)
  }

  lemma {:induction false} SumBounds(init: seq<int>, n: nat)
    requires n < |init| && forall u :: 1 <= u <= n ==> 1 <= init[u] <= 100
    ensures n <= SumUpTo(init, n) <= 100 * n
  {
    if n > 0 { SumBounds(init, n - 1); }
  }

  lemma MeanBounds(sum: int, n: nat)
    requires 0 < n <= sum <= 100 * n
    ensures 1 <= sum / n <= 100
  {
  }

  /** Whatever values of 1 or more are summed up, the mean comes out right exactly when the value that
      `sum` started with does not carry the remainder out of its range. */
  lemma StartDecides(init: seq<int>, start: int)
    requires |init| > 1 && forall u :: 1 <= u < |init| ==> 1 <= init[u] <= 100
    ensures var n := |init| - 1;
            && (Answer(start, init, n) == MasterMean(init) <==> 0 <= start + SumUpTo(init, n) % n < n)
            && Answer(n, init, n) != MasterMean(init)
  {
    var n := |init| - 1;
    var sum := SumUpTo(init, n);
    SumBounds(init, n);
    MeanBounds(sum, n);
    QuotientIs(start + sum, n, sum / n);
    QuotientIs(n + sum, n, sum / n);
    RemainderDecides(sum, n, start);
    RemainderDecides(sum, n, n);
  }

  lemma RemainderDecides(sum: nat, n: nat, start: int)
    requires n > 0 && sum >= n
    ensures IsQuotient(start + sum, n, sum / n) <==> 0 <= start + sum % n < n
  {
    var q, rest := sum / n, sum % n;
    assert sum == n * q + rest && q >= 1;
    Multiples(1, q, n);
  }

  lemma {:induction false} StartStays(states: seq<Network>, events: seq<nat>, init: seq<int>, i: nat, u: nat)
    requires Run(states, events, init) && i < |states| && IsNode(states[i], u)
    ensures IsNode(states[0], u) && states[i].nodes[u].start == states[0].nodes[u].start
  {
    if i > 0 {
      RunIsTrue(states, events, init, i - 1);
      RunIsTrue(states, events, init, i);
      StartStays(states, events, init, i - 1, u);
    }
  }

  /** The master adds up the values it deals out, and divides. */
  method ReferenceMean(values: seq<int>) returns (mean: int)
    requires |values| > 1 && forall u :: 1 <= u < |values| ==> 1 <= values[u] <= 100
    ensures mean == MasterMean(values)
    ensures IsMean(values, |values| - 1, 0, mean)
  {
    var n, sum := |values| - 1, 0;
    for i := 1 to n + 1
      invariant sum == SumUpTo(values, i - 1)
    {
      sum := sum + values[i];
    }
    mean := sum / n;
    SumBounds(values, n);
    SumIs(values, n);
    QuotientIs(0 + sum, n, mean);
  }

  /** Nothing but the initial values and the start value goes into an exit status: it is the quotient by n of
      their sum, added up one by one. */
  lemma ExitStatusIs(states: seq<Network>, events: seq<nat>, init: seq<int>, i: nat, u: nat)
    requires Run(states, events, init) && i < |states|
    requires IsNode(states[i], u) && states[i].nodes[u].place.Exited?
    ensures IsNode(states[0], u) && |init| == states[i].n + 1
    ensures IsMeanOf(init, states[i].n, states[0].nodes[u].start, states[i].nodes[u].place.status)
  {
    EveryExitIsTheMean(states, events, init, i, u);
    RunIsTrue(states, events, init, i);
    AnswerIsMean(init, states[i].n, states[0].nodes[u].start);
  }

  /** `status` is `start` plus the values from 1 to n, added up one by one, divided by n. */
  ghost predicate IsMeanOf(init: seq<int>, n: nat, start: int, status: int) {
    exists c: seq<int> :: SumsOnTheWay(init, n, c) && IsQuotient(start + c[n], n, status)
  }

  ghost predicate SumsOnTheWay(init: seq<int>, n: nat, c: seq<int>) {
    |c| == n + 1 && n < |init| && c[0] == 0 && forall x :: 1 <= x <= n ==> c[x] == c[x - 1] + init[x]
  }

  lemma AnswerIsMean(init: seq<int>, n: nat, start: int)
    requires 0 < n < |init| && forall x :: 1 <= x <= n ==> init[x] != UNSET
    ensures IsMeanOf(init, n, start, Answer(start, init, n))
  {
    SumIs(init, n);
    var c: seq<int> :| AddsUp(init, n, c) && c[n] == SumUpTo(init, n);
    assert SumsOnTheWay(init, n, c);
    QuotientIs(start + c[n], n, Answer(start, init, n));
  }

  /** In every run the exit status of a node is the quotient that its value of `sum` at the start gives,
      and that is the master's mean exactly when this value carries no remainder out of its range. */
  lemma EveryExitIsTheMean(states: seq<Network>, events: seq<nat>, init: seq<int>, i: nat, u: nat)
    requires Run(states, events, init) && i < |states|
    requires IsNode(states[i], u) && states[i].nodes[u].place.Exited?
    ensures IsNode(states[0], u) && |init| == states[i].n + 1 && 1 <= MasterMean(init) <= 100
    ensures var start, n := states[0].nodes[u].start, states[i].n;
            && states[i].nodes[u].place.status == Answer(start, init, n)
            && (states[i].nodes[u].place.status == MasterMean(init) <==> 0 <= start + SumUpTo(init, n) % n < n)
  {
    RunIsTrue(states, events, init, i);
    StartStays(states, events, init, i, u);
    ExitIsTheAnswer(states[i], init, u);
  }

  lemma ExitIsTheAnswer(s: Network, init: seq<int>, u: nat)
    requires AllTrue(s, init) && IsNode(s, u) && s.nodes[u].place.Exited?
    ensures |init| == s.n + 1 && 1 <= MasterMean(init) <= 100
    ensures var start := s.nodes[u].start;
            && s.nodes[u].place.status == Answer(start, init, s.n)
            && (s.nodes[u].place.status == MasterMean(init) <==> 0 <= start + SumUpTo(init, s.n) % s.n < s.n)
  {
    assert NodeTrue(s, init, u);
    SumBounds(init, s.n);
    MeanBounds(SumUpTo(init, s.n), s.n);
    StartDecides(init, s.nodes[u].start);
  }

  // ---------- The wiring ----------

  function Writer(edges: seq<Edge>, p: nat): nat
    requires p < 2 * |edges|
  {
    if p % 2 == 0 then edges[p / 2].start else edges[p / 2].end
  }

  function Reader(edges: seq<Edge>, p: nat): nat
    requires p < 2 * |edges|
  {
    if p % 2 == 0 then edges[p / 2].end else edges[p / 2].start
  }

  /** A node reads only pipes that lead to it and writes only pipes that lead from it. */
  lemma {:induction false} FdsAreOwn(edges: seq<Edge>, u: nat, m: nat)
    requires m <= |edges|
    ensures forall fd :: fd in Fds(edges, u, m) ==>
              fd.rd < 2 * m && fd.wr < 2 * m && Reader(edges, fd.rd) == u && Writer(edges, fd.wr) == u
  {
    if m > 0 { FdsAreOwn(edges, u, m - 1); }
  }

  /** Every pipe between two different nodes is written by the node it leads from. */
  lemma {:induction false} EveryPipeIsWritten(edges: seq<Edge>, m: nat, p: nat)
    requires m <= |edges| && p < 2 * m && Writer(edges, p) != Reader(edges, p)
    ensures exists k :: 0 <= k < |Fds(edges, Writer(edges, p), m)| && Fds(edges, Writer(edges, p), m)[k].wr == p
  {
    var u := Writer(edges, p);
    var fds := Fds(edges, u, m - 1);
    if p < 2 * (m - 1) {
      EveryPipeIsWritten(edges, m - 1, p);
      var k :| 0 <= k < |fds| && fds[k].wr == p;
      assert Fds(edges, u, m)[k] == fds[k];
    } else {
      assert Fds(edges, u, m)[|fds|].wr == p;
    }
  }

  // ---------- Flooding ----------

  ghost predicate InPipe(pipe: seq<Message>, x: nat) {
    exists m :: m in pipe && x in Ids(m)
  }

  /** The reader of pipe p knows x, or is about to store it, or still has it to read. */
  ghost predicate Covered(s: Network, p: nat, x: nat)
    requires NetworkShaped(s) && p < |s.pipes|
  {
    var reader := s.nodes[Reader(s.edges, p)];
    x in Known(reader.total) || x in Ids(reader.current) || InPipe(s.pipes[p], x)
  }

  /** Whatever a node has stored it has written to all its neighbours. */
  ghost predicate Flooded(s: Network)
    requires NetworkShaped(s)
  {
    forall p: nat, x: nat :: p < |s.pipes| && x in Known(s.nodes[Writer(s.edges, p)].total) ==> Covered(s, p, x)
  }

  function SentCount(place: Place, fds: nat): nat {
    match place
    case Sending(i) => if i < fds then i else fds
    case Copying => fds
    case _ => 0
  }

  /** What node u has written of its `current` so far. */
  ghost predicate SentSoFar(s: Network, u: nat)
    requires NetworkShaped(s) && IsNode(s, u)
  {
    var fds := FdsOf(s, u);
    forall k, x :: 0 <= k < SentCount(s.nodes[u].place, |fds|) && fds[k].wr < |s.pipes| ==>
      x in Ids(s.nodes[u].current) ==>
      Covered(s, fds[k].wr, x)
  }

  ghost predicate FloodInv(s: Network, init: seq<int>) {
    && AllTrue(s, init) && Flooded(s)
    && forall u: nat :: IsNode(s, u) ==> SentSoFar(s, u) && u in Known(s.nodes[u].total) + Ids(s.nodes[u].current)
  }

  lemma ReadCovers(s: Network, init: seq<int>, v: nat, x: nat)
    requires AllTrue(s, init) && Running(s, v) && s.nodes[v].place.Receiving?
    requires s.nodes[v].place.i < |FdsOf(s, v)|
    ensures var rd := FdsOf(s, v)[s.nodes[v].place.i].rd;
            rd < |s.pipes| && (Covered(s, rd, x) ==> Covered(Step(s, v), rd, x))
  {
    var node, fd := s.nodes[v], FdsOf(s, v)[s.nodes[v].place.i];
    FdsAreOwn(s.edges, v, |s.edges|);
    assert fd in FdsOf(s, v);
    var pipe := s.pipes[fd.rd];
    if pipe != [] {
      assert PipeTrue(s, init, fd.rd) && pipe[0] in pipe;
      TrueIsStorable(s, init, v, pipe[0]);
      NewsIsUnknown(node.total, pipe[0]);
      var news := News(node.total, pipe[0]);
      assert Ids(node.current + news) == Ids(node.current) + Ids(news);
      if m :| m in pipe && x in Ids(m) {
        assert m == pipe[0] || m in pipe[1..];
      }
    }
  }

  /** Nothing that is covered ever gets lost, whoever takes a step. */
  lemma CoveredStays(s: Network, init: seq<int>, v: nat, p: nat, x: nat)
    requires AllTrue(s, init) && Running(s, v) && p < |s.pipes| && Covered(s, p, x)
    requires NetworkShaped(Step(s, v)) && Step(s, v).edges == s.edges
    ensures Covered(Step(s, v), p, x)
  {
    var node, fds := s.nodes[v], FdsOf(s, v);
    FdsAreOwn(s.edges, v, |s.edges|);
    match node.place {
      case Sending(i) =>
        if i < |fds| {
          assert fds[i] in fds;
          if m :| m in s.pipes[p] && x in Ids(m) { assert m in Step(s, v).pipes[p]; }
        }
      case Copying =>
        assert NodeTrue(s, init, v);
        TrueIsStorable(s, init, v, node.current);
        CopyAllKnows(node.total, node.totalNodes, node.current);
      case Receiving(i) =>
        if i < |fds| {
          assert fds[i] in fds;
          ReadCovers(s, init, v, x);
          if fds[i].rd != p {
            var pipe := s.pipes[fds[i].rd];
            assert Step(s, v).pipes[p] == s.pipes[p];
            assert node.current <= Step(s, v).nodes[v].current;
          }
        }
      case Exited(_) =>
    }
  }

  lemma StoredIsFlooded(s: Network, init: seq<int>, u: nat, p: nat, x: nat)
    requires FloodInv(s, init) && Running(s, u) && p < |s.pipes| && Writer(s.edges, p) == u
    requires x in Known(Step(s, u).nodes[u].total)
    ensures Covered(s, p, x) || Reader(s.edges, p) == u
  {
    var node, fds := s.nodes[u], FdsOf(s, u);
    assert NodeTrue(s, init, u) && SentSoFar(s, u);
    if x !in Known(node.total) && Reader(s.edges, p) != u {
      TrueIsStorable(s, init, u, node.current);
      CopyAllKnows(node.total, node.totalNodes, node.current);
      EveryPipeIsWritten(s.edges, |s.edges|, p);
      var k :| 0 <= k < |fds| && fds[k].wr == p;
    }
  }

  lemma StepKeepsFlooded(s: Network, init: seq<int>, u: nat)
    requires FloodInv(s, init) && Running(s, u) && AllTrue(Step(s, u), init)
    ensures Flooded(Step(s, u))
  {
    var t := Step(s, u);
    forall p: nat, x: nat | p < |t.pipes| && x in Known(t.nodes[Writer(t.edges, p)].total) ensures Covered(t, p, x) {
      var w := Writer(s.edges, p);
      if w == u {
        StoredIsFlooded(s, init, u, p, x);
        if Reader(s.edges, p) != u { CoveredStays(s, init, u, p, x); }
      } else {
        assert Covered(s, p, x);
        CoveredStays(s, init, u, p, x);
      }
    }
  }

  lemma WriteIsSent(s: Network, init: seq<int>, u: nat, x: nat)
    requires AllTrue(s, init) && Running(s, u) && s.nodes[u].place.Sending?
    requires s.nodes[u].place.i < |FdsOf(s, u)| && x in Ids(s.nodes[u].current)
    requires NetworkShaped(Step(s, u))
    ensures var wr := FdsOf(s, u)[s.nodes[u].place.i].wr; wr < |s.pipes| && Covered(Step(s, u), wr, x)
  {
    var fd := FdsOf(s, u)[s.nodes[u].place.i];
    FdsAreOwn(s.edges, u, |s.edges|);
    assert fd in FdsOf(s, u);
    assert s.nodes[u].current in Step(s, u).pipes[fd.wr];
  }

  lemma OwnStepKeepsSent(s: Network, init: seq<int>, u: nat, k: nat, x: nat)
    requires FloodInv(s, init) && Running(s, u) && AllTrue(Step(s, u), init) && s.nodes[u].place.Sending?
    requires k < SentCount(Step(s, u).nodes[u].place, |FdsOf(s, u)|) && FdsOf(s, u)[k].wr < |s.pipes|
    requires x in Ids(s.nodes[u].current)
    ensures Covered(Step(s, u), FdsOf(s, u)[k].wr, x)
  {
    assert SentSoFar(s, u);
    if k < SentCount(s.nodes[u].place, |FdsOf(s, u)|) {
      CoveredStays(s, init, u, FdsOf(s, u)[k].wr, x);
    } else {
      WriteIsSent(s, init, u, x);
    }
  }

  lemma SendStepKeepsSent(s: Network, init: seq<int>, u: nat)
    requires FloodInv(s, init) && Running(s, u) && AllTrue(Step(s, u), init) && s.nodes[u].place.Sending?
    ensures SentSoFar(Step(s, u), u)
  {
    var t, fds := Step(s, u), FdsOf(s, u);
    forall k, x | 0 <= k < SentCount(t.nodes[u].place, |fds|) && fds[k].wr < |t.pipes| && x in Ids(t.nodes[u].current)
      ensures Covered(t, fds[k].wr, x)
    {
      OwnStepKeepsSent(s, init, u, k, x);
    }
  }

  lemma OtherStepKeepsSent(s: Network, init: seq<int>, u: nat, v: nat)
    requires AllTrue(s, init) && Running(s, u) && AllTrue(Step(s, u), init) && IsNode(s, v) && u != v
    requires SentSoFar(s, v)
    ensures SentSoFar(Step(s, u), v)
  {
    var t, fds := Step(s, u), FdsOf(s, v);
    assert t.nodes[v] == s.nodes[v] && |t.pipes| == |s.pipes|;
    forall k, x | 0 <= k < SentCount(s.nodes[v].place, |fds|) && fds[k].wr < |s.pipes| && x in Ids(s.nodes[v].current)
      ensures Covered(t, fds[k].wr, x)
    {
      CoveredStays(s, init, u, fds[k].wr, x);
    }
  }

  lemma StepKeepsSent(s: Network, init: seq<int>, u: nat, v: nat)
    requires FloodInv(s, init) && Running(s, u) && AllTrue(Step(s, u), init) && IsNode(s, v)
    ensures SentSoFar(Step(s, u), v)
  {
    if v != u {
      OtherStepKeepsSent(s, init, u, v);
    } else if s.nodes[u].place.Sending? {
      SendStepKeepsSent(s, init, u);
    } else {
      assert SentCount(Step(s, u).nodes[u].place, |FdsOf(s, u)|) == 0;
    }
  }

  lemma StepKeepsOwn(s: Network, init: seq<int>, u: nat, v: nat)
    requires AllTrue(s, init) && Running(s, u) && IsNode(s, v)
    requires v in Known(s.nodes[v].total) + Ids(s.nodes[v].current)
    ensures IsNode(Step(s, u), v) && v in Known(Step(s, u).nodes[v].total) + Ids(Step(s, u).nodes[v].current)
  {
    var node := s.nodes[u];
    assert NodeTrue(s, init, u);
    if node.place == Copying {
      TrueIsStorable(s, init, u, node.current);
      CopyAllKnows(node.total, node.totalNodes, node.current);
    }
    if node.place.Receiving? { assert node.current <= Step(s, u).nodes[u].current; }
  }

  lemma StepKeepsFlood(s: Network, init: seq<int>, u: nat)
    requires FloodInv(s, init) && Running(s, u)
    ensures FloodInv(Step(s, u), init)
  {
    StepKeepsTrue(s, init, u);
    StepKeepsFlooded(s, init, u);
    forall v: nat | IsNode(Step(s, u), v)
      ensures SentSoFar(Step(s, u), v) && v in Known(Step(s, u).nodes[v].total) + Ids(Step(s, u).nodes[v].current)
    {
      StepKeepsSent(s, init, u, v);
      StepKeepsOwn(s, init, u, v);
    }
  }

  lemma {:induction false} RunIsFlooded(states: seq<Network>, events: seq<nat>, init: seq<int>, i: nat)
    requires Run(states, events, init) && i < |states|
    ensures FloodInv(states[i], init)
  {
    if i == 0 {
      InitIsTrue(states[0], init);
    } else {
      RunIsFlooded(states, events, init, i - 1);
      StepKeepsFlood(states[i - 1], init, events[i - 1]);
    }
  }

  // ---------- Nobody is left waiting ----------

  predicate Joins(e: Edge, a: nat, b: nat) { (e.start == a && e.end == b) || (e.start == b && e.end == a) }

  predicate Adjacent(edges: seq<Edge>, a: nat, b: nat) {
    exists j :: 0 <= j < |edges| && Joins(edges[j], a, b)
  }

  ghost predicate Linked(edges: seq<Edge>, path: seq<nat>) {
    |path| > 0 && forall t :: 0 <= t < |path| - 1 ==> Adjacent(edges, path[t], path[t + 1])
  }

  ghost predicate Reaches(edges: seq<Edge>, a: nat, b: nat) {
    exists path :: Linked(edges, path) && path[0] == a && path[|path| - 1] == b
  }

  ghost predicate Connected(n: nat, edges: seq<Edge>) {
    forall a, b :: 1 <= a <= n && 1 <= b <= n ==> Reaches(edges, a, b)
  }

  /** Whoever runs and reads pipe p finds no entries in it. */
  ghost predicate NothingToRead(s: Network, p: nat)
    requires NetworkShaped(s) && p < |s.pipes|
  {
    Running(s, Reader(s.edges, p)) ==> forall x: nat :: !InPipe(s.pipes[p], x)
  }

  /** Nothing is on its way: no running node has an entry left to read or to store. */
  ghost predicate Quiet(s: Network) {
    && NetworkShaped(s)
    && (forall p: nat :: p < |s.pipes| ==> NothingToRead(s, p))
    && forall u: nat :: Running(s, u) ==> s.nodes[u].current == []
  }

  lemma PipeBetween(edges: seq<Edge>, a: nat, b: nat) returns (p: nat)
    requires Adjacent(edges, a, b)
    ensures p < 2 * |edges| && Writer(edges, p) == a && Reader(edges, p) == b
  {
    var j :| 0 <= j < |edges| && Joins(edges[j], a, b);
    p := if edges[j].start == a && edges[j].end == b then 2 * j else 2 * j + 1;
  }

  lemma QuietHop(s: Network, init: seq<int>, a: nat, b: nat, x: nat)
    requires FloodInv(s, init) && Quiet(s) && Adjacent(s.edges, a, b)
    requires IsNode(s, a) && 1 <= x <= s.n && x in Known(s.nodes[a].total)
    ensures IsNode(s, b) && x in Known(s.nodes[b].total)
  {
    var p := PipeBetween(s.edges, a, b);
    assert Covered(s, p, x) && NodeTrue(s, init, b) && NothingToRead(s, p);
    if s.nodes[b].place.Exited? { assert x in Upto(s.n); }
  }

  lemma {:induction false} QuietPath(s: Network, init: seq<int>, path: seq<nat>, x: nat)
    requires FloodInv(s, init) && Quiet(s) && Linked(s.edges, path) && IsNode(s, path[0])
    requires 1 <= x <= s.n && x in Known(s.nodes[path[0]].total)
    ensures IsNode(s, path[|path| - 1]) && x in Known(s.nodes[path[|path| - 1]].total)
    decreases |path|
  {
    if |path| > 1 {
      QuietHop(s, init, path[0], path[1], x);
      QuietPath(s, init, path[1..], x);
    }
  }

  lemma QuietIsComplete(s: Network, init: seq<int>, u: nat)
    requires FloodInv(s, init) && Quiet(s) && Connected(s.n, s.edges) && IsNode(s, u)
    ensures Complete(s, u)
  {
    forall x | x in Upto(s.n) ensures x in Known(s.nodes[u].total) {
      OwnIsKnown(s, init, x);
      assert Reaches(s.edges, x, u);
      var path :| Linked(s.edges, path) && path[0] == x && path[|path| - 1] == u;
      QuietPath(s, init, path, x);
    }
  }

  /**
   On a connected graph the flood never gets stuck: when nothing is on its way any more, every
   node knows every value, so no node is still in the sending part of its loop -- whoever has
   not exited is on the way to the exit of its current iteration.
   */
  lemma NeverStuck(states: seq<Network>, events: seq<nat>, init: seq<int>, i: nat)
    requires Run(states, events, init) && i < |states|
    requires Connected(states[i].n, states[i].edges) && Quiet(states[i])
    ensures forall u: nat :: IsNode(states[i], u) ==> Complete(states[i], u) && !states[i].nodes[u].place.Sending?
  {
    var s := states[i];
    RunIsFlooded(states, events, init, i);
    forall u: nat | IsNode(s, u) ensures Complete(s, u) && !s.nodes[u].place.Sending? {
      QuietIsComplete(s, init, u);
      assert NodeTrue(s, init, u);
      CountMeansComplete(s, init, u);
    }
  }

  lemma CompleteCopies(s: Network, init: seq<int>, u: nat)
    requires AllTrue(s, init) && Running(s, u) && Complete(s, u) && s.nodes[u].place == Copying
    ensures IsNode(Step(s, u), u) && Step(s, u).nodes[u].place == Receiving(0) && Complete(Step(s, u), u)
  {
    assert NodeTrue(s, init, u);
    TrueIsStorable(s, init, u, s.nodes[u].current);
    CopyAllKnows(s.nodes[u].total, s.nodes[u].totalNodes, s.nodes[u].current);
  }

  lemma CompleteReceives(s: Network, init: seq<int>, u: nat)
    requires AllTrue(s, init) && Running(s, u) && Complete(s, u) && s.nodes[u].place.Receiving?
    ensures IsNode(Step(s, u), u) && !Step(s, u).nodes[u].place.Sending? && Complete(Step(s, u), u)
    ensures s.nodes[u].place.i >= |FdsOf(s, u)| ==> Step(s, u).nodes[u].place.Exited?
  {
    assert NodeTrue(s, init, u);
    CountMeansComplete(s, init, u);
  }

  /** A node that knows every value and is past its sending never sends again: its next check takes it out. */
  lemma CompleteNeverSendsAgain(s: Network, init: seq<int>, u: nat)
    requires AllTrue(s, init) && Running(s, u) && Complete(s, u) && !s.nodes[u].place.Sending?
    ensures IsNode(Step(s, u), u) && !Step(s, u).nodes[u].place.Sending? && Complete(Step(s, u), u)
    ensures s.nodes[u].place.Receiving? && s.nodes[u].place.i >= |FdsOf(s, u)| ==> Step(s, u).nodes[u].place.Exited?
  {
    if s.nodes[u].place == Copying { CompleteCopies(s, init, u); } else { CompleteReceives(s, init, u); }
  }

  lemma OwnIsKnown(s: Network, init: seq<int>, u: nat)
    requires FloodInv(s, init) && Quiet(s) && IsNode(s, u)
    ensures u in Known(s.nodes[u].total)
  {
    assert NodeTrue(s, init, u);
    if s.nodes[u].place.Exited? { assert u in Upto(s.n); }
  }
}
