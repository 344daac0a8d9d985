/** The junction really can deadlock, and for which trains (os_lab/assignment5/question2). */
module JunctionReachability {
  import opened Chains
  import opened SemaphoreScripts
  import opened TrainJunction

  ghost predicate Reachable(s: Junction) {
    exists states, events :: Run(states, events) && states[|events|] == s
  }

  lemma ReachableNext(s: Junction, e: Event)
    requires Reachable(s) && Possible(s, e)
    ensures Reachable(After(s, e))
  {
    var states: seq<Junction>, events: seq<Event> :| Run(states, events) && states[|events|] == s;
    var more, also := states + [After(s, e)], events + [e];
    forall i | 0 <= i < |also| ensures Possible(more[i], also[i]) && more[i + 1] == After(more[i], also[i]) {
      if i < |events| { assert Possible(states[i], events[i]); }
    }
    assert Run(more, also) && more[|also|] == After(s, e);
  }

  lemma ReachableIsSound(s: Junction)
    requires Reachable(s)
    ensures JunctionInv(s)
  {
    var states: seq<Junction>, events: seq<Event> :| Run(states, events) && states[|events|] == s;
    RunKeepsInv(states, events, |events|);
  }

  lemma {:induction false} ReachableSolo(s: Junction, p: nat, k: nat, t: System)
    requires Reachable(s) && Solo(s.sys, p, k, t)
    ensures Reachable(s.(sys := t))
    decreases k
  {
    if k > 0 {
      ReachableNext(s, TrainStep(p));
      ReachableSolo(After(s, TrainStep(p)), p, k - 1, t);
    } else {
      assert s.(sys := t) == s;
    }
  }

  /** All trains are started, none has moved. */
  ghost predicate AllStarted(s: Junction, sequence: seq<nat>, k: nat) {
    && s.sequence == sequence && s.started == k <= |sequence| == |s.sys.procs|
    && s.sys.manager == Idle && s.sys.matrixLock == 1 && s.sys.sems == [1, 1, 1, 1, 1]
    && forall p :: 0 <= p < |sequence| ==>
         s.sys.procs[p] == Process(if p < k then TrainScript(sequence[p]) else [], 0, Outside)
  }

  lemma {:induction false} StartTrains(sequence: seq<nat>, k: nat) returns (s: Junction)
    requires (forall i :: 0 <= i < |sequence| ==> sequence[i] < 4) && k <= |sequence|
    ensures Reachable(s) && AllStarted(s, sequence, k)
  {
    if k == 0 {
      s := Junction(System(seq(|sequence|, _ => Process([], 0, Outside)), [1, 1, 1, 1, 1], 1,
                           seq(|sequence|, _ => [NONE, NONE, NONE, NONE]), Idle), sequence, 0);
      assert Run([s], []);
    } else {
      var before := StartTrains(sequence, k - 1);
      ReachableNext(before, StartTrain);
      s := After(before, StartTrain);
    }
  }

  lemma TrainLines(d: nat)
    requires d < 4
    ensures |TrainScript(d)| == 13
    ensures TrainScript(d)[0].Publish? && TrainScript(d)[1] == Acquire(d) && TrainScript(d)[2].Publish?
    ensures TrainScript(d)[3].Publish? && TrainScript(d)[4] == Acquire(Right(d))
  {}

  /** A train alone, its own direction free, runs up to its second sem_wait. */
  lemma TrainToSecondWait(s: System, p: nat, d: nat, script: seq<Op>) returns (t: System)
    requires WellFormed(s, SEMAPHORES, DIRECTIONS) && d < 4 && StandsAt(s, p, script, 0)
    requires |script| == 13 && script[0].Publish? && script[1] == Acquire(d) && script[2].Publish? && script[3].Publish?
    requires s.matrixLock == 1 && s.sems[d] == 1
    ensures SoloReaches(s, p, t)
    ensures t.procs == s.procs[p := Process(script, 4, Outside)]
    ensures t.sems == s.sems[d := 0] && t.matrixLock == 1 && t.manager == s.manager
  {
    var t1 := SoloOperation(s, p, script, 0, SEMAPHORES, DIRECTIONS);
    var t2 := SoloOperation(t1, p, script, 1, SEMAPHORES, DIRECTIONS);
    SoloReachesOn(s, p, t1, t2);
    var t3 := SoloOperation(t2, p, script, 2, SEMAPHORES, DIRECTIONS);
    SoloReachesOn(s, p, t2, t3);
    t := SoloOperation(t3, p, script, 3, SEMAPHORES, DIRECTIONS);
    SoloReachesOn(s, p, t3, t);
  }

  /** ts[x] is a train from direction x. */
  ghost predicate OneOfEach(sequence: seq<nat>, ts: seq<nat>) {
    |ts| == 4 && forall x :: 0 <= x < 4 ==> ts[x] < |sequence| && sequence[ts[x]] == x
  }

  /** The first k of the four stand at their second sem_wait, the others have not moved. */
  ghost predicate OwnTaken(s: Junction, sequence: seq<nat>, ts: seq<nat>, k: nat)
    requires OneOfEach(sequence, ts)
  {
    && s.sequence == sequence && s.started == |sequence| == |s.sys.procs|
    && s.sys.manager == Idle && s.sys.matrixLock == 1 && |s.sys.sems| == 5
    && (forall x :: k <= x < 4 ==> s.sys.sems[x] == 1)
    && forall x :: 0 <= x < 4 ==> s.sys.procs[ts[x]] == Process(TrainScript(x), if x < k then 4 else 0, Outside)
  }

  lemma {:induction false} TakeOwn(sequence: seq<nat>, ts: seq<nat>, k: nat) returns (s: Junction)
    requires (forall i :: 0 <= i < |sequence| ==> sequence[i] < 4) && OneOfEach(sequence, ts) && k <= 4
    ensures Reachable(s) && OwnTaken(s, sequence, ts, k)
  {
    if k == 0 {
      s := StartTrains(sequence, |sequence|);
    } else {
      var before := TakeOwn(sequence, ts, k - 1);
      s := TakeOneMore(before, sequence, ts, k - 1);
    }
  }

  lemma TakeOneMore(before: Junction, sequence: seq<nat>, ts: seq<nat>, x: nat) returns (s: Junction)
    requires OneOfEach(sequence, ts) && x < 4 && Reachable(before) && OwnTaken(before, sequence, ts, x)
    ensures Reachable(s) && OwnTaken(s, sequence, ts, x + 1)
  {
    ReachableIsSound(before);
    TrainLines(x);
    var t := TrainToSecondWait(before.sys, ts[x], x, TrainScript(x));
    var k: nat :| Solo(before.sys, ts[x], k, t);
    ReachableSolo(before, ts[x], k, t);
    s := before.(sys := t);
    assert forall y :: 0 <= y < 4 && y != x ==> ts[y] != ts[x];
  }

  lemma OwnTakenIsDeadlock(s: Junction, sequence: seq<nat>, ts: seq<nat>)
    requires OneOfEach(sequence, ts) && OwnTaken(s, sequence, ts, 4)
    ensures Deadlocked(s)
  {
    forall x: nat | x < 4 ensures SomeBlocked(s, x) {
      TrainHolds(x, 4, x);
      TrainLines(x);
      assert Blocked(s, ts[x], x);
    }
  }

  ghost predicate Occurs(sequence: seq<nat>, x: nat) { exists t :: 0 <= t < |sequence| && sequence[t] == x }

  ghost predicate CanDeadlock(sequence: seq<nat>) {
    exists s :: Reachable(s) && s.sequence == sequence && Deadlocked(s)
  }

  /** The trains of a sequence can deadlock exactly when they come from all four directions. */
  lemma DeadlockReachable(sequence: seq<nat>)
    requires forall i :: 0 <= i < |sequence| ==> sequence[i] < 4
    ensures CanDeadlock(sequence) <==> forall x: nat :: x < 4 ==> Occurs(sequence, x)
  {
    if CanDeadlock(sequence) {
      var s :| Reachable(s) && s.sequence == sequence && Deadlocked(s);
      forall x: nat | x < 4 ensures Occurs(sequence, x) {
        assert SomeBlocked(s, x);
        var t: nat :| Blocked(s, t, x);
      }
    }
    if forall x: nat :: x < 4 ==> Occurs(sequence, x) {
      assert Occurs(sequence, 0) && Occurs(sequence, 1) && Occurs(sequence, 2) && Occurs(sequence, 3);
      var a: nat :| a < |sequence| && sequence[a] == 0;
      var b: nat :| b < |sequence| && sequence[b] == 1;
      var c: nat :| c < |sequence| && sequence[c] == 2;
      var d: nat :| d < |sequence| && sequence[d] == 3;
      var s := TakeOwn(sequence, [a, b, c, d], 4);
      OwnTakenIsDeadlock(s, sequence, [a, b, c, d]);
    }
  }

  // ---------- A circular wait gets reported ----------

  predicate Next(s: Junction, e: Event, t: Junction) { Possible(s, e) && t == After(s, e) }

  ghost predicate Waiting(s: Junction) { JunctionInv(s) && CircularWait(s) }

  lemma WaitingNext(s: Junction, t: Junction, e: Event) returns (u: Junction)
    requires Leads(Next, s, t) && Waiting(t) && Possible(t, e)
    ensures u == After(t, e) && Leads(Next, s, u) && Waiting(u)
  {
    u := After(t, e);
    LeadsNext(Next, s, t, e, u);
    EventKeepsInv(t, e);
    CircularWaitStays(t, e);
  }

  /** Whoever is inside the matrix lock can leave it. */
  lemma {:induction false} LockGetsFree(s: Junction, t: Junction) returns (u: Junction)
    requires Leads(Next, s, t) && Waiting(t) && t.sys.manager == Idle
    ensures Leads(Next, s, u) && Waiting(u) && u.sys.manager == Idle && u.sys.matrixLock > 0
    decreases TotalRemaining(t.sys.procs)
  {
    if t.sys.matrixLock > 0 {
      u := t;
    } else {
      var p: nat :| Inside(t.sys, p);
      assert ProcessOk(t.sys.procs[p], SEMAPHORES, DIRECTIONS);
      assert Enabled(t.sys, p);
      StepCostsOne(t.sys, p, SEMAPHORES, DIRECTIONS);
      var next := WaitingNext(s, t, TrainStep(p));
      NothingLeft(next.sys.procs, SEMAPHORES, DIRECTIONS);
      NothingLeft(t.sys.procs, SEMAPHORES, DIRECTIONS);
      u := LockGetsFree(s, next);
    }
  }

  lemma FourTurns(s: Junction, t: Junction) returns (u: Junction)
    requires Leads(Next, s, t) && Waiting(t) && t.sys.manager == Idle && t.sys.matrixLock > 0
    ensures Leads(Next, s, u) && u.sys.manager == Reported
  {
    var t1 := WaitingNext(s, t, ManagerTurn);
    var t2 := WaitingNext(s, t1, ManagerTurn);
    var t3 := WaitingNext(s, t2, ManagerTurn);
    u := WaitingNext(s, t3, ManagerTurn);
  }

  /** From every state of every run with a circular wait and an idle manager, the run can go on to a report. */
  lemma WaitGetsReported(states: seq<Junction>, events: seq<Event>, i: nat)
    returns (run: seq<Junction>, steps: seq<Event>)
    requires Run(states, events) && i < |states|
    requires CircularWait(states[i]) && states[i].sys.manager == Idle
    ensures Run(run, steps) && i < |run| && run[..i + 1] == states[..i + 1] && steps[..i] == events[..i]
    ensures run[|steps|].sys.manager == Reported
  {
    RunKeepsInv(states, events, i);
    LeadsNow(Next, states[i]);
    var t := LockGetsFree(states[i], states[i]);
    var u := FourTurns(states[i], t);
    run, steps := GoOn(states, events, i, u);
  }

  lemma GoOn(states: seq<Junction>, events: seq<Event>, i: nat, u: Junction)
    returns (run: seq<Junction>, steps: seq<Event>)
    requires Run(states, events) && i < |states| && Leads(Next, states[i], u)
    ensures Run(run, steps) && i < |run| && run[..i + 1] == states[..i + 1] && steps[..i] == events[..i]
    ensures run[|steps|] == u
  {
    var rest: seq<Junction>, more: seq<Event> :| ChainFromTo(Next, rest, more, states[i], u);
    Continue(Next, states, events, i, rest, more);
    run, steps := states[..i] + rest, events[..i] + more;
    assert run[..i + 1][0] == states[..i + 1][0];
    forall x | 0 <= x < |steps| ensures Possible(run[x], steps[x]) && run[x + 1] == After(run[x], steps[x]) {
      assert Next(run[x], steps[x], run[x + 1]);
    }
  }
}
