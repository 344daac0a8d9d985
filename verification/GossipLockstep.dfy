/**
 A lockstep round of the gossip is one particular schedule of the nodes' own steps: node after node
 writes, then node after node copies, then node after node reads.
 */
module GossipLockstep {
  import opened Gossip
  import opened GossipRounds

  // ---------- Schedules ----------

  /** From s the steps of `events`, each taken by a running node, end in t. */
  ghost predicate Leads(s: Network, events: seq<nat>, t: Network)
    decreases |events|
  {
    if events == [] then t == s else Running(s, events[0]) && Leads(Step(s, events[0]), events[1..], t)
  }

  lemma {:induction false} LeadsOn(s: Network, first: seq<nat>, t: Network, second: seq<nat>, w: Network)
    requires Leads(s, first, t) && Leads(t, second, w)
    ensures Leads(s, first + second, w)
    decreases |first|
  {
    if first == [] {
      assert first + second == second;
    } else {
      LeadsOn(Step(s, first[0]), first[1..], t, second, w);
      assert (first + second)[1..] == first[1..] + second;
    }
  }

  lemma LeadsOne(s: Network, events: seq<nat>, t: Network, u: nat)
    requires Leads(s, events, t) && Running(t, u)
    ensures Leads(s, events + [u], Step(t, u))
  {
    assert Leads(Step(t, u), [u][1..], Step(t, u));
    LeadsOn(s, events, t, [u], Step(t, u));
  }

  function States(s: Network, events: seq<nat>): (states: seq<Network>)
    ensures |states| == |events| + 1 && states[0] == s
    decreases |events|
  {
    if events == [] || !Running(s, events[0]) then [s] + seq(|events|, _ => s)
    else [s] + States(Step(s, events[0]), events[1..])
  }

  /** Such a schedule, from an initial state, is a run. */
  lemma {:induction false} LeadsStates(s: Network, events: seq<nat>, t: Network)
    requires Leads(s, events, t)
    ensures States(s, events)[|events|] == t
    ensures forall x :: 0 <= x < |events| ==>
              Running(States(s, events)[x], events[x])
                  && States(s, events)[x + 1] == Step(States(s, events)[x], events[x])
    decreases |events|
  {
    if events != [] {
      var rest := States(Step(s, events[0]), events[1..]);
      LeadsStates(Step(s, events[0]), events[1..], t);
      forall x | 0 <= x < |events|
        ensures Running(States(s, events)[x], events[x])
            && States(s, events)[x + 1] == Step(States(s, events)[x], events[x])
      {
        if x > 0 {
          assert States(s, events)[x] == rest[x - 1] && States(s, events)[x + 1] == rest[x]
              && events[x] == events[1..][x - 1];
        }
      }
    }
  }

  // ---------- Who writes and reads which pipe ----------

  /** Pipe p is among the first m that u writes. */
  ghost predicate Writes(edges: seq<Edge>, u: nat, p: nat, m: nat) {
    exists k :: 0 <= k < m && k < |Fds(edges, u, |edges|)| && Fds(edges, u, |edges|)[k].wr == p
  }

  /** Pipe p is among the first m that u reads. */
  ghost predicate Reads(edges: seq<Edge>, u: nat, p: nat, m: nat) {
    exists k :: 0 <= k < m && k < |Fds(edges, u, |edges|)| && Fds(edges, u, |edges|)[k].rd == p
  }

  ghost function Degree(edges: seq<Edge>, u: nat): nat { |Fds(edges, u, |edges|)| }

  /** Later entries belong to later edges. */
  lemma {:induction false} FdsAscend(edges: seq<Edge>, u: nat, m: nat)
    requires m <= |edges|
    ensures forall k :: 0 <= k < |Fds(edges, u, m)| ==>
              Fds(edges, u, m)[k].rd / 2 == Fds(edges, u, m)[k].wr / 2 < m
    ensures forall j, k :: 0 <= j < k < |Fds(edges, u, m)| ==> Fds(edges, u, m)[j].wr / 2 < Fds(edges, u, m)[k].wr / 2
  {
    if m > 0 { FdsAscend(edges, u, m - 1); }
  }

  /** A node at both ends of an edge writes its even pipe and reads its odd one. */
  predicate LoopWired(edges: seq<Edge>, u: nat, fd: Fd) {
    && fd.rd < 2 * |edges| && fd.wr < 2 * |edges|
    && (Reader(edges, fd.wr) == u ==> fd.wr % 2 == 0)
    && (Writer(edges, fd.rd) == u ==> fd.rd % 2 == 1)
  }

  lemma {:induction false} LoopFds(edges: seq<Edge>, u: nat, m: nat)
    requires m <= |edges|
    ensures forall fd :: fd in Fds(edges, u, m) ==> LoopWired(edges, u, fd)
  {
    if m > 0 {
      LoopFds(edges, u, m - 1);
      var e := edges[m - 1];
      if e.start == u {
        LoopEntry(edges, u, m - 1, Fd(2 * (m - 1) + 1, 2 * (m - 1)));
      } else if e.end == u {
        LoopEntry(edges, u, m - 1, Fd(2 * (m - 1), 2 * (m - 1) + 1));
      }
    }
  }

  lemma LoopEntry(edges: seq<Edge>, u: nat, j: nat, fd: Fd)
    requires j < |edges|
    requires if edges[j].start == u then fd == Fd(2 * j + 1, 2 * j) else edges[j].end == u && fd == Fd(2 * j, 2 * j + 1)
    ensures LoopWired(edges, u, fd)
  {}

  /** What u reads was written by exactly the node at the other end; its own end of a loop by nobody. */
  lemma ReadFromOthers(edges: seq<Edge>, u: nat, k: nat)
    requires k < Degree(edges, u)
    ensures var p := Fds(edges, u, |edges|)[k].rd;
            p < 2 * |edges| && Reader(edges, p) == u
            && (Writes(edges, Writer(edges, p), p, Degree(edges, Writer(edges, p))) <==> Writer(edges, p) != u)
  {
    FdsAreOwn(edges, u, |edges|);
    var fd := Fds(edges, u, |edges|)[k];
    assert fd in Fds(edges, u, |edges|);
    var w := Writer(edges, fd.rd);
    if w != u {
      EveryPipeIsWritten(edges, |edges|, fd.rd);
    } else {
      LoopFds(edges, u, |edges|);
      assert LoopWired(edges, u, fd);
      forall j | 0 <= j < Degree(edges, u) ensures Fds(edges, u, |edges|)[j].wr != fd.rd {
        assert LoopWired(edges, u, Fds(edges, u, |edges|)[j]);
      }
    }
  }

  // ---------- The first loop: writing ----------

  ghost function PipesAfterWrites(s: Network, u: nat, m: nat): seq<seq<Message>>
    requires IsNode(s, u)
  {
    seq(|s.pipes|, p requires 0 <= p < |s.pipes| =>
      if Writes(s.edges, u, p, m) then s.pipes[p] + [s.nodes[u].current] else s.pipes[p])
  }

  /** u has written to its first m pipes. */
  ghost function Wrote(s: Network, u: nat, m: nat): Network
    requires IsNode(s, u)
  {
    s.(nodes := s.nodes[u := s.nodes[u].(place := Sending(m))], pipes := PipesAfterWrites(s, u, m))
  }

  lemma WroteOneMore(s: Network, u: nat, m: nat)
    requires NetworkShaped(s) && Running(s, u) && m < Degree(s.edges, u)
    ensures Running(Wrote(s, u, m), u) && Step(Wrote(s, u, m), u) == Wrote(s, u, m + 1)
  {
    var t, fds := Wrote(s, u, m), FdsOf(s, u);
    FdsInRange(s.edges, u, |s.edges|);
    FdsAscend(s.edges, u, |s.edges|);
    assert fds[m] in fds;
    var wr := fds[m].wr;
    assert !Writes(s.edges, u, wr, m);
    assert Step(t, u).pipes == t.pipes[wr := t.pipes[wr] + [s.nodes[u].current]];
    forall p: nat | p < |s.pipes| ensures Writes(s.edges, u, p, m + 1) <==> Writes(s.edges, u, p, m) || p == wr {
      if p == wr { assert fds[m].wr == p; }
    }
    assert Step(t, u).pipes == PipesAfterWrites(s, u, m + 1);
    assert Step(t, u).nodes == Wrote(s, u, m + 1).nodes;
  }

  lemma WroteNone(s: Network, u: nat)
    requires NetworkShaped(s) && Running(s, u) && s.nodes[u].place == Sending(0)
    ensures Wrote(s, u, 0) == s
  {
    assert PipesAfterWrites(s, u, 0) == s.pipes;
    assert s.nodes[u := s.nodes[u].(place := Sending(0))] == s.nodes;
  }

  lemma {:induction false} WriteSome(s: Network, u: nat, m: nat) returns (events: seq<nat>)
    requires NetworkShaped(s) && Running(s, u) && s.nodes[u].place == Sending(0) && m <= Degree(s.edges, u)
    ensures Leads(s, events, Wrote(s, u, m))
  {
    if m == 0 {
      events := [];
      WroteNone(s, u);
    } else {
      events := WriteSome(s, u, m - 1);
      LeadsToWrote(s, u, m - 1, events);
      events := events + [u];
    }
  }

  lemma LeadsToWrote(s: Network, u: nat, m: nat, events: seq<nat>)
    requires NetworkShaped(s) && Running(s, u) && m < Degree(s.edges, u)
    requires Leads(s, events, Wrote(s, u, m))
    ensures Leads(s, events + [u], Wrote(s, u, m + 1))
  {
    WroteOneMore(s, u, m);
    LeadsOne(s, events, Wrote(s, u, m), u);
  }

  /** The first loop of node u. */
  ghost function WroteAll(s: Network, u: nat): Network
    requires IsNode(s, u)
  {
    s.(nodes := s.nodes[u := s.nodes[u].(place := Copying)], pipes := PipesAfterWrites(s, u, Degree(s.edges, u)))
  }

  lemma WriteAll(s: Network, u: nat) returns (events: seq<nat>)
    requires NetworkShaped(s) && Running(s, u) && s.nodes[u].place == Sending(0)
    ensures Leads(s, events, WroteAll(s, u))
  {
    var m := Degree(s.edges, u);
    events := WriteSome(s, u, m);
    var t := Wrote(s, u, m);
    LeadsOne(s, events, t, u);
    events := events + [u];
    assert Step(t, u).nodes == WroteAll(s, u).nodes;
    assert Step(t, u) == WroteAll(s, u);
  }

  // ---------- The third loop: reading ----------

  /** Every pipe node u reads holds at most one message, and u could store it. */
  ghost predicate AtMostOne(s: Network, u: nat)
    requires IsNode(s, u)
  {
    forall k :: 0 <= k < Degree(s.edges, u) ==> OneAt(s, u, FdsOf(s, u)[k].rd)
  }

  ghost predicate OneAt(s: Network, u: nat, p: nat)
    requires IsNode(s, u)
  {
    p < |s.pipes| && (s.pipes[p] == [] || (|s.pipes[p]| == 1 && Storable(s.nodes[u].total, s.pipes[p][0])))
  }

  ghost function NewsAt(s: Network, u: nat, p: nat): Message
    requires IsNode(s, u)
  {
    if p < |s.pipes| && s.pipes[p] != [] && Storable(s.nodes[u].total, s.pipes[p][0])
    then News(s.nodes[u].total, s.pipes[p][0]) else []
  }

  ghost function Letters(s: Network, u: nat, m: nat): seq<Message>
    requires IsNode(s, u) && m <= Degree(s.edges, u)
  {
    seq(m, k requires 0 <= k < m => NewsAt(s, u, FdsOf(s, u)[k].rd))
  }

  ghost function PipesAfterReads(s: Network, u: nat, m: nat): seq<seq<Message>> {
    seq(|s.pipes|, p requires 0 <= p < |s.pipes| => if Reads(s.edges, u, p, m) then [] else s.pipes[p])
  }

  ghost function ReadBy(s: Network, u: nat, m: nat): Process
    requires IsNode(s, u) && m <= Degree(s.edges, u)
  {
    s.nodes[u].(place := Receiving(m), current := Joined(Letters(s, u, m)))
  }

  /** u has read its first m pipes. */
  ghost function Read(s: Network, u: nat, m: nat): Network
    requires IsNode(s, u) && m <= Degree(s.edges, u)
  {
    s.(nodes := s.nodes[u := ReadBy(s, u, m)], pipes := PipesAfterReads(s, u, m))
  }

  lemma LettersOneMore(s: Network, u: nat, m: nat)
    requires IsNode(s, u) && m < Degree(s.edges, u)
    ensures Joined(Letters(s, u, m + 1)) == Joined(Letters(s, u, m)) + NewsAt(s, u, FdsOf(s, u)[m].rd)
  {
    assert Letters(s, u, m + 1)[..m] == Letters(s, u, m);
  }

  lemma ReadPipe(s: Network, u: nat, m: nat)
    requires NetworkShaped(s) && Running(s, u) && m < Degree(s.edges, u)
    requires OneAt(s, u, FdsOf(s, u)[m].rd)
    ensures var rd := FdsOf(s, u)[m].rd;
            && PipesAfterReads(s, u, m)[rd] == s.pipes[rd]
            && PipesAfterReads(s, u, m + 1) == PipesAfterReads(s, u, m)[rd := []]
  {
    var fds := FdsOf(s, u);
    var rd := fds[m].rd;
    FdsAscend(s.edges, u, |s.edges|);
    assert !Reads(s.edges, u, rd, m);
    forall p: nat | p < |s.pipes| ensures Reads(s.edges, u, p, m + 1) <==> Reads(s.edges, u, p, m) || p == rd {
      if p == rd { assert fds[m].rd == p; }
    }
    assert PipesAfterReads(s, u, m + 1) == PipesAfterReads(s, u, m)[rd := []];
  }

  lemma ReadOneMore(s: Network, u: nat, m: nat)
    requires NetworkShaped(s) && Running(s, u) && m < Degree(s.edges, u) && AtMostOne(s, u)
    ensures Running(Read(s, u, m), u) && Step(Read(s, u, m), u) == Read(s, u, m + 1)
  {
    var t, rd := Read(s, u, m), FdsOf(s, u)[m].rd;
    assert OneAt(s, u, rd);
    ReadPipe(s, u, m);
    LettersOneMore(s, u, m);
    if s.pipes[rd] != [] {
      assert t.pipes[rd][1..] == [];
    } else {
      assert t.pipes[rd := []] == t.pipes;
      assert Joined(Letters(s, u, m)) + [] == Joined(Letters(s, u, m));
    }
    assert Step(t, u).pipes == PipesAfterReads(s, u, m + 1);
    assert Step(t, u).nodes == s.nodes[u := ReadBy(s, u, m + 1)];
  }

  lemma {:induction false} ReadSome(s: Network, u: nat, m: nat) returns (events: seq<nat>)
    requires NetworkShaped(s) && Running(s, u) && AtMostOne(s, u) && m <= Degree(s.edges, u)
    requires s.nodes[u].place == Receiving(0) && s.nodes[u].current == []
    ensures Leads(s, events, Read(s, u, m))
  {
    if m == 0 {
      events := [];
      assert PipesAfterReads(s, u, 0) == s.pipes;
      assert Read(s, u, 0) == s;
    } else {
      events := ReadSome(s, u, m - 1);
      ReadOneMore(s, u, m - 1);
      LeadsOne(s, events, Read(s, u, m - 1), u);
      events := events + [u];
    }
  }

  /** Node u at the end of its iteration. */
  ghost function Finished(s: Network, u: nat): Process
    requires NetworkShaped(s) && IsNode(s, u)
  {
    var node := s.nodes[u];
    node.(current := Joined(Letters(s, u, Degree(s.edges, u))),
          place := if node.totalNodes < s.n then Sending(0) else Exited(Answer(node.start, node.total, s.n)))
  }

  ghost function ReadAll(s: Network, u: nat): Network
    requires NetworkShaped(s) && IsNode(s, u)
  {
    s.(nodes := s.nodes[u := Finished(s, u)], pipes := PipesAfterReads(s, u, Degree(s.edges, u)))
  }

  lemma ReadEverything(s: Network, u: nat) returns (events: seq<nat>)
    requires NetworkShaped(s) && Running(s, u) && AtMostOne(s, u)
    requires s.nodes[u].place == Receiving(0) && s.nodes[u].current == []
    ensures Leads(s, events, ReadAll(s, u))
  {
    var m := Degree(s.edges, u);
    events := ReadSome(s, u, m);
    var t := Read(s, u, m);
    LeadsOne(s, events, t, u);
    events := events + [u];
    assert Step(t, u).nodes == s.nodes[u := Finished(s, u)];
    assert Step(t, u) == ReadAll(s, u);
  }

  // ---------- All nodes write ----------

  /** u has had its turn. */
  predicate Served(nodes: seq<Process>, u: nat, m: nat) { u <= m && RunningIn(nodes, u) }

  ghost function PipesSent(s: Network, m: nat): seq<seq<Message>>
    requires NetworkShaped(s)
  {
    seq(|s.pipes|, p requires 0 <= p < |s.pipes| => PipeSent(s, m, p))
  }

  ghost function PipeSent(s: Network, m: nat, p: nat): seq<Message>
    requires NetworkShaped(s) && p < |s.pipes|
  {
    var w := Writer(s.edges, p);
    if Served(s.nodes, w, m) && Writes(s.edges, w, p, Degree(s.edges, w))
    then s.pipes[p] + [s.nodes[w].current] else s.pipes[p]
  }

  ghost function AllSent(s: Network, m: nat): Network
    requires NetworkShaped(s)
  {
    s.(nodes := seq(|s.nodes|, u requires 0 <= u < |s.nodes| =>
         if Served(s.nodes, u, m) then s.nodes[u].(place := Copying) else s.nodes[u]),
       pipes := PipesSent(s, m))
  }

  ghost predicate AllSending(s: Network) {
    forall u :: 0 <= u < |s.nodes| && RunningIn(s.nodes, u) ==> s.nodes[u].place == Sending(0)
  }

  lemma WriterWrites(edges: seq<Edge>, u: nat, p: nat, m: nat)
    requires p < 2 * |edges| && Writes(edges, u, p, m)
    ensures Writer(edges, p) == u
  {
    FdsAreOwn(edges, u, |edges|);
    var k :| 0 <= k < m && k < |Fds(edges, u, |edges|)| && Fds(edges, u, |edges|)[k].wr == p;
    assert Fds(edges, u, |edges|)[k] in Fds(edges, u, |edges|);
  }

  lemma OneMoreSends(s: Network, m: nat)
    requires NetworkShaped(s) && AllSending(s) && m < s.n
    ensures var t := AllSent(s, m);
            if RunningIn(s.nodes, m + 1) then
              NetworkShaped(t) && Running(t, m + 1) && t.nodes[m + 1] == s.nodes[m + 1]
                  && WroteAll(t, m + 1) == AllSent(s, m + 1)
            else AllSent(s, m + 1) == t
  {
    var t, u, next := AllSent(s, m), m + 1, AllSent(s, m + 1);
    if RunningIn(s.nodes, u) {
      assert t.nodes[u] == s.nodes[u];
      forall p: nat | p < |s.pipes| ensures WroteAll(t, u).pipes[p] == next.pipes[p] {
        if Writes(s.edges, u, p, Degree(s.edges, u)) { WriterWrites(s.edges, u, p, Degree(s.edges, u)); }
      }
      assert WroteAll(t, u).pipes == next.pipes;
      assert WroteAll(t, u).nodes == next.nodes;
    } else {
      assert next.pipes == t.pipes && next.nodes == t.nodes;
    }
  }

  lemma {:induction false} SendPhase(s: Network, m: nat) returns (events: seq<nat>)
    requires NetworkShaped(s) && AllSending(s) && m <= s.n
    ensures Leads(s, events, AllSent(s, m))
  {
    if m == 0 {
      events := [];
      assert AllSent(s, 0).nodes == s.nodes;
      assert AllSent(s, 0).pipes == s.pipes;
      assert AllSent(s, 0) == s;
    } else {
      events := SendPhase(s, m - 1);
      OneMoreSends(s, m - 1);
      if RunningIn(s.nodes, m) {
        var more := WriteAll(AllSent(s, m - 1), m);
        LeadsOn(s, events, AllSent(s, m - 1), more, AllSent(s, m));
        events := events + more;
      }
    }
  }

  // ---------- All nodes copy ----------

  ghost function Copied(node: Process): Process {
    if Storable(node.total, node.current) then
      var (total, count) := CopyAll(node.total, node.totalNodes, node.current);
      Process(Receiving(0), total, count, [], node.start)
    else node
  }

  ghost function AllCopied(s: Network, m: nat): Network {
    s.(nodes := seq(|s.nodes|, u requires 0 <= u < |s.nodes| =>
         if Served(s.nodes, u, m) then Copied(s.nodes[u]) else s.nodes[u]))
  }

  ghost predicate AllCopying(s: Network) {
    forall u :: 0 <= u < |s.nodes| && RunningIn(s.nodes, u) ==>
      s.nodes[u].place == Copying && Storable(s.nodes[u].total, s.nodes[u].current)
  }

  lemma {:induction false} CopyPhase(s: Network, m: nat) returns (events: seq<nat>)
    requires NetworkShaped(s) && AllCopying(s) && m <= s.n
    ensures Leads(s, events, AllCopied(s, m))
  {
    if m == 0 {
      events := [];
      assert AllCopied(s, 0).nodes == s.nodes;
      assert AllCopied(s, 0) == s;
    } else {
      events := CopyPhase(s, m - 1);
      var t, next := AllCopied(s, m - 1), AllCopied(s, m);
      if RunningIn(s.nodes, m) {
        assert t.nodes[m] == s.nodes[m];
        assert Step(t, m).nodes == next.nodes;
        assert Step(t, m) == next;
        LeadsOne(s, events, t, m);
        events := events + [m];
      } else {
        assert next.nodes == t.nodes;
      }
    }
  }

  // ---------- All nodes read ----------

  ghost function PipeRead(s: Network, m: nat, p: nat): seq<Message>
    requires NetworkShaped(s) && p < |s.pipes|
  {
    var r := Reader(s.edges, p);
    if Served(s.nodes, r, m) && Reads(s.edges, r, p, Degree(s.edges, r)) then [] else s.pipes[p]
  }

  ghost function AllRead(s: Network, m: nat): Network
    requires NetworkShaped(s)
  {
    s.(nodes := seq(|s.nodes|, u requires 0 <= u < |s.nodes| =>
         if Served(s.nodes, u, m) then Finished(s, u) else s.nodes[u]),
       pipes := seq(|s.pipes|, p requires 0 <= p < |s.pipes| => PipeRead(s, m, p)))
  }

  ghost predicate AllReceiving(s: Network)
    requires NetworkShaped(s)
  {
    forall u :: 0 <= u < |s.nodes| && RunningIn(s.nodes, u) ==>
      s.nodes[u].place == Receiving(0) && s.nodes[u].current == [] && AtMostOne(s, u)
  }

  lemma ReaderReads(edges: seq<Edge>, u: nat, p: nat, m: nat)
    requires p < 2 * |edges| && Reads(edges, u, p, m)
    ensures Reader(edges, p) == u
  {
    FdsAreOwn(edges, u, |edges|);
    var k :| 0 <= k < m && k < |Fds(edges, u, |edges|)| && Fds(edges, u, |edges|)[k].rd == p;
    assert Fds(edges, u, |edges|)[k] in Fds(edges, u, |edges|);
  }

  /** The pipes u reads are still as they were, whoever has read before. */
  lemma PipesStillThere(s: Network, m: nat, u: nat)
    requires NetworkShaped(s) && m < u && IsNode(s, u) && RunningIn(s.nodes, u)
    ensures var t := AllRead(s, m);
            && IsNode(t, u) && t.nodes[u] == s.nodes[u]
            && forall k :: 0 <= k < Degree(s.edges, u) ==>
                 FdsOf(s, u)[k].rd < |s.pipes| && t.pipes[FdsOf(s, u)[k].rd] == s.pipes[FdsOf(s, u)[k].rd]
  {
    forall k | 0 <= k < Degree(s.edges, u)
      ensures FdsOf(s, u)[k].rd < |s.pipes| && AllRead(s, m).pipes[FdsOf(s, u)[k].rd] == s.pipes[FdsOf(s, u)[k].rd]
    {
      ReadFromOthers(s.edges, u, k);
    }
  }

  lemma SameFinished(s: Network, t: Network, u: nat)
    requires NetworkShaped(s) && NetworkShaped(t) && IsNode(s, u) && IsNode(t, u)
    requires t.n == s.n && t.edges == s.edges && t.nodes[u] == s.nodes[u] && |t.pipes| == |s.pipes|
    requires forall k :: 0 <= k < Degree(s.edges, u) ==>
               FdsOf(s, u)[k].rd < |s.pipes| && t.pipes[FdsOf(s, u)[k].rd] == s.pipes[FdsOf(s, u)[k].rd]
    ensures Finished(t, u) == Finished(s, u)
    ensures AtMostOne(s, u) ==> AtMostOne(t, u)
  {
    var d := Degree(s.edges, u);
    forall k | 0 <= k < d ensures Letters(t, u, d)[k] == Letters(s, u, d)[k] {
      assert t.pipes[FdsOf(s, u)[k].rd] == s.pipes[FdsOf(s, u)[k].rd];
    }
    assert Letters(t, u, d) == Letters(s, u, d);
    if AtMostOne(s, u) {
      forall k | 0 <= k < d ensures OneAt(t, u, FdsOf(t, u)[k].rd) {
        assert OneAt(s, u, FdsOf(s, u)[k].rd);
      }
    }
  }

  lemma PipesReadNext(s: Network, m: nat)
    requires NetworkShaped(s) && m < s.n && RunningIn(s.nodes, m + 1)
    ensures PipesAfterReads(AllRead(s, m), m + 1, Degree(s.edges, m + 1)) == AllRead(s, m + 1).pipes
  {
    var one, next := PipesAfterReads(AllRead(s, m), m + 1, Degree(s.edges, m + 1)), AllRead(s, m + 1).pipes;
    forall p: nat | p < |s.pipes| ensures one[p] == next[p] {
      if Reads(s.edges, m + 1, p, Degree(s.edges, m + 1)) { ReaderReads(s.edges, m + 1, p, Degree(s.edges, m + 1)); }
    }
  }

  lemma OneMoreReads(s: Network, m: nat)
    requires NetworkShaped(s) && AllReceiving(s) && m < s.n
    ensures var t := AllRead(s, m);
            && NetworkShaped(t)
            && if RunningIn(s.nodes, m + 1) then
              Running(t, m + 1) && t.nodes[m + 1] == s.nodes[m + 1] && AtMostOne(t, m + 1)
                  && ReadAll(t, m + 1) == AllRead(s, m + 1)
            else AllRead(s, m + 1) == t
  {
    var t, u, next := AllRead(s, m), m + 1, AllRead(s, m + 1);
    forall v | 0 <= v <= s.n ensures |t.nodes[v].total| == MAX_NODES { assert |s.nodes[v].total| == MAX_NODES; }
    if RunningIn(s.nodes, u) {
      PipesStillThere(s, m, u);
      SameFinished(s, t, u);
      PipesReadNext(s, m);
      assert ReadAll(t, u).nodes == next.nodes;
    } else {
      assert next.pipes == t.pipes && next.nodes == t.nodes;
    }
  }

  lemma {:induction false} ReadPhase(s: Network, m: nat) returns (events: seq<nat>)
    requires NetworkShaped(s) && AllReceiving(s) && m <= s.n
    ensures Leads(s, events, AllRead(s, m))
  {
    if m == 0 {
      events := [];
      assert AllRead(s, 0).nodes == s.nodes;
      assert AllRead(s, 0).pipes == s.pipes;
      assert AllRead(s, 0) == s;
    } else {
      events := ReadPhase(s, m - 1);
      OneMoreReads(s, m - 1);
      if RunningIn(s.nodes, m) {
        var more := ReadEverything(AllRead(s, m - 1), m);
        LeadsOn(s, events, AllRead(s, m - 1), more, AllRead(s, m));
        events := events + more;
      }
    }
  }

  // ---------- A round ----------

  /** No running node has anything to read. */
  ghost predicate Drained(s: Network) {
    forall u, k :: 0 <= u < |s.nodes| && RunningIn(s.nodes, u) && 0 <= k < Degree(s.edges, u) ==>
      EmptyAt(s, FdsOf(s, u)[k].rd)
  }

  ghost predicate EmptyAt(s: Network, p: nat) { p < |s.pipes| && s.pipes[p] == [] }

  ghost predicate RoundStart(s: Network) {
    NetworkShaped(s) && Fit(s.n, s.nodes) && AllSending(s) && Drained(s)
  }

  ghost function Afterwards(s: Network): Network
    requires NetworkShaped(s)
  {
    AllCopied(AllSent(s, s.n), s.n)
  }

  /** After writing and copying, what u finds in a pipe it reads. */
  lemma MessageWaiting(s: Network, u: nat, k: nat)
    requires RoundStart(s) && IsNode(s, u) && RunningIn(s.nodes, u) && k < Degree(s.edges, u)
    ensures var p := FdsOf(s, u)[k].rd; var w := Writer(s.edges, p);
            p < 2 * |s.edges|
            && Afterwards(s).pipes[p] == if w != u && RunningIn(s.nodes, w) then [s.nodes[w].current] else []
  {
    ReadFromOthers(s.edges, u, k);
    assert EmptyAt(s, FdsOf(s, u)[k].rd);
    var w := Writer(s.edges, FdsOf(s, u)[k].rd);
    assert RunningIn(s.nodes, w) ==> Served(s.nodes, w, s.n);
  }

  lemma AfterwardsNode(s: Network, u: nat)
    requires RoundStart(s) && IsNode(s, u)
    ensures NetworkShaped(AllSent(s, s.n)) && IsNode(Afterwards(s), u)
    ensures Afterwards(s).nodes[u] ==
            if RunningIn(s.nodes, u) then
              var (total, count) := CopyAll(s.nodes[u].total, s.nodes[u].totalNodes, s.nodes[u].current);
              Process(Receiving(0), total, count, [], s.nodes[u].start)
            else s.nodes[u]
  {
    assert Storable(s.nodes[u].total, s.nodes[u].current);
  }

  lemma AfterwardsReceives(s: Network)
    requires RoundStart(s)
    ensures NetworkShaped(Afterwards(s)) && AllReceiving(Afterwards(s))
  {
    var t := Afterwards(s);
    forall v | 0 <= v <= s.n ensures |t.nodes[v].total| == MAX_NODES {
      assert |s.nodes[v].total| == MAX_NODES;
    }
    forall u: nat | u < |t.nodes| && RunningIn(t.nodes, u)
      ensures t.nodes[u].place == Receiving(0) && t.nodes[u].current == [] && AtMostOne(t, u)
    {
      AfterwardsNode(s, u);
      forall k | 0 <= k < Degree(s.edges, u) ensures OneAt(t, u, FdsOf(t, u)[k].rd) {
        MessageWaiting(s, u, k);
      }
    }
  }

  /** Reading gives u the letters of the round. */
  lemma LettersAreInbox(s: Network, u: nat)
    requires RoundStart(s) && IsNode(s, u) && RunningIn(s.nodes, u)
    ensures IsNode(Afterwards(s), u)
    ensures Letters(Afterwards(s), u, Degree(s.edges, u))
            == Inbox(s.edges, s.nodes, u, CopyAll(s.nodes[u].total, s.nodes[u].totalNodes, s.nodes[u].current).0)
  {
    AfterwardsNode(s, u);
    var total := CopyAll(s.nodes[u].total, s.nodes[u].totalNodes, s.nodes[u].current).0;
    var d := Degree(s.edges, u);
    forall k | 0 <= k < d ensures Letters(Afterwards(s), u, d)[k] == Inbox(s.edges, s.nodes, u, total)[k] {
      MessageWaiting(s, u, k);
    }
  }

  lemma FinishedIsIterate(s: Network, u: nat)
    requires RoundStart(s) && IsNode(s, u) && RunningIn(s.nodes, u)
    ensures NetworkShaped(Afterwards(s)) && IsNode(Afterwards(s), u)
    ensures Finished(Afterwards(s), u) == Iterate(s.n, s.edges, s.nodes, u)
  {
    AfterwardsReceives(s);
    AfterwardsNode(s, u);
    LettersAreInbox(s, u);
  }

  lemma DrainedAgain(s: Network)
    requires NetworkShaped(s)
    ensures forall u, k :: 0 <= u < |s.nodes| && RunningIn(s.nodes, u) && 0 <= k < Degree(s.edges, u) ==>
              EmptyAt(AllRead(s, s.n), FdsOf(s, u)[k].rd)
  {
    forall u: nat, k | u < |s.nodes| && RunningIn(s.nodes, u) && 0 <= k < Degree(s.edges, u)
      ensures EmptyAt(AllRead(s, s.n), FdsOf(s, u)[k].rd)
    {
      ReadFromOthers(s.edges, u, k);
      assert Reads(s.edges, u, FdsOf(s, u)[k].rd, Degree(s.edges, u));
    }
  }

  /** One lockstep round is a schedule of steps of the running nodes. */
  lemma RoundIsScheduled(s: Network) returns (events: seq<nat>, t: Network)
    requires RoundStart(s)
    ensures Leads(s, events, t)
    ensures t.n == s.n && t.edges == s.edges && t.nodes == Round(s.n, s.edges, s.nodes) && RoundStart(t)
  {
    var sent, after := AllSent(s, s.n), Afterwards(s);
    events := SendPhase(s, s.n);
    AfterSendsCopies(s);
    var copies := CopyPhase(sent, s.n);
    LeadsOn(s, events, sent, copies, after);
    AfterwardsReceives(s);
    var readings := ReadPhase(after, s.n);
    t := AllRead(after, s.n);
    LeadsOn(s, events + copies, after, readings, t);
    events := events + copies + readings;
    RoundIsReached(s);
  }

  lemma AfterSendsCopies(s: Network)
    requires RoundStart(s)
    ensures NetworkShaped(AllSent(s, s.n)) && AllCopying(AllSent(s, s.n))
  {
    var t := AllSent(s, s.n);
    forall v | 0 <= v <= s.n ensures |t.nodes[v].total| == MAX_NODES { assert |s.nodes[v].total| == MAX_NODES; }
    forall u: nat | u < |t.nodes| && RunningIn(t.nodes, u)
      ensures t.nodes[u].place == Copying && Storable(t.nodes[u].total, t.nodes[u].current)
    {
      assert RunningIn(s.nodes, u) && Storable(s.nodes[u].total, s.nodes[u].current);
    }
  }

  lemma RoundIsReached(s: Network)
    requires RoundStart(s) && NetworkShaped(Afterwards(s))
    ensures var t := AllRead(Afterwards(s), s.n); t.nodes == Round(s.n, s.edges, s.nodes) && RoundStart(t)
  {
    var after := Afterwards(s);
    var t, round := AllRead(after, s.n), Round(s.n, s.edges, s.nodes);
    forall u: nat | u < |s.nodes| ensures t.nodes[u] == round[u] {
      if RunningIn(s.nodes, u) {
        AfterwardsNode(s, u);
        FinishedIsIterate(s, u);
      } else if IsNode(s, u) {
        AfterwardsNode(s, u);
      }
    }
    assert t.nodes == round;
    RoundIsFit(s.n, s.edges, s.nodes);
    DrainedAgain(after);
    forall u: nat, k | u < |t.nodes| && RunningIn(t.nodes, u) && 0 <= k < Degree(t.edges, u)
      ensures EmptyAt(t, FdsOf(t, u)[k].rd) {
      assert RunningIn(after.nodes, u) by { AfterwardsNode(s, u); }
    }
  }

  /** t is s after r lockstep rounds. */
  ghost predicate AfterRounds(s: Network, r: nat, t: Network)
    requires Fit(s.n, s.nodes)
  {
    t.n == s.n && t.edges == s.edges && t.nodes == Rounds(s.n, s.edges, s.nodes, r)
  }

  lemma OneMoreRound(s: Network, r: nat, mid: Network, t: Network)
    requires Fit(s.n, s.nodes) && Fit(mid.n, mid.nodes) && AfterRounds(s, r, mid)
    requires t.n == mid.n && t.edges == mid.edges && t.nodes == Round(mid.n, mid.edges, mid.nodes)
    ensures AfterRounds(s, r + 1, t)
  {}

  ghost predicate Reachable(s: Network, t: Network) { exists events :: Leads(s, events, t) }

  lemma ReachableOn(s: Network, t: Network, w: Network)
    requires Reachable(s, t) && Reachable(t, w)
    ensures Reachable(s, w)
  {
    var first :| Leads(s, first, t);
    var second :| Leads(t, second, w);
    LeadsOn(s, first, t, second, w);
  }

  lemma NextRound(s: Network, r: nat, mid: Network) returns (t: Network)
    requires Fit(s.n, s.nodes) && RoundStart(mid) && AfterRounds(s, r, mid)
    ensures Reachable(mid, t) && RoundStart(t) && AfterRounds(s, r + 1, t)
  {
    var events;
    events, t := RoundIsScheduled(mid);
    OneMoreRound(s, r, mid, t);
  }

  lemma {:induction false} RoundsAreScheduled(s: Network, r: nat) returns (t: Network)
    requires RoundStart(s)
    ensures Reachable(s, t) && RoundStart(t) && AfterRounds(s, r, t)
    decreases r
  {
    if r == 0 {
      assert Leads(s, [], s);
      t := s;
    } else {
      var mid := RoundsAreScheduled(s, r - 1);
      t := NextRound(s, r - 1, mid);
      ReachableOn(s, mid, t);
    }
  }

  lemma LeadsIsRun(s: Network, events: seq<nat>, t: Network, init: seq<int>)
    requires Init(s, init) && Leads(s, events, t)
    ensures Run(States(s, events), events, init) && States(s, events)[|events|] == t
  {
    LeadsStates(s, events, t);
  }

  /** So any number of lockstep rounds is a run of the network, and the breadth-first theorem speaks
      about reachable states. */
  lemma LockstepIsARun(s: Network, init: seq<int>, r: nat) returns (events: seq<nat>, t: Network)
    requires Init(s, init)
    ensures Run(States(s, events), events, init) && States(s, events)[|events|] == t
    ensures t.n == s.n && t.edges == s.edges && Fit(t.n, t.nodes) && BallsAfter(t.n, t.edges, t.nodes, r)
  {
    InitIsRoundStart(s, init);
    t := RoundsAreScheduled(s, r);
    events :| Leads(s, events, t);
    LeadsIsRun(s, events, t, init);
    LockstepIsBreadthFirst(s, init, r);
  }

  lemma InitIsRoundStart(s: Network, init: seq<int>)
    requires Init(s, init)
    ensures RoundStart(s)
  {
    InitialBalls(s, init);
    forall u: nat, k | u < |s.nodes| && RunningIn(s.nodes, u) && 0 <= k < Degree(s.edges, u)
      ensures EmptyAt(s, FdsOf(s, u)[k].rd) {
      ReadFromOthers(s.edges, u, k);
    }
  }
}
