/** The consumers really can deadlock without the avoidance flag (os_lab/assignment5/question1). */
module QueueReachability {
  import opened Chains
  import opened SemaphoreScripts
  import opened QueueDeadlock

  ghost predicate Reachable(s: Plant) {
    exists states, events :: Run(states, events) && states[|events|] == s
  }

  lemma ReachableIsSound(s: Plant)
    requires Reachable(s)
    ensures PlantInv(s)
  {
    var states: seq<Plant>, events: seq<Event> :| Run(states, events) && states[|events|] == s;
    InitHasInv(states[0]);
    TraceKeepsInv(states, events, |events|);
  }

  lemma ReachableNext(s: Plant, e: Event)
    requires Reachable(s) && DataShaped(s) && |s.sys.procs| == PROCESSES && Possible(s, e)
    requires DataShaped(After(s, e)) && |After(s, e).sys.procs| == PROCESSES
    ensures Reachable(After(s, e))
  {
    var states: seq<Plant>, events: seq<Event> :| Run(states, events) && states[|events|] == s;
    var more, also := states + [After(s, e)], events + [e];
    forall i | 0 <= i < |more| ensures DataShaped(more[i]) && |more[i].sys.procs| == PROCESSES {}
    forall i | 0 <= i < |also| ensures Possible(more[i], also[i]) && more[i + 1] == After(more[i], also[i]) {
      if i < |events| { assert Possible(states[i], events[i]); }
    }
    assert Run(more, also) && more[|also|] == After(s, e);
  }

  lemma Go(s: Plant, e: Event)
    requires Reachable(s) && DataShaped(s) && |s.sys.procs| == PROCESSES && Possible(s, e)
    ensures Reachable(After(s, e)) && After(s, e).avoid == s.avoid && PlantInv(After(s, e))
  {
    ReachableIsSound(s);
    EventKeepsInv(s, e);
    ReachableNext(s, e);
  }

  lemma SoloStep(s: Plant, p: nat) returns (next: Plant)
    requires Reachable(s) && Enabled(s.sys, p)
    ensures Reachable(next) && next.sys == Step(s.sys, p) && next.avoid == s.avoid
  {
    ReachableIsSound(s);
    Go(s, ProcessStep(p, 1));
    next := After(s, ProcessStep(p, 1));
  }

  lemma {:induction false} ReachableSolo(s: Plant, p: nat, k: nat, t: System) returns (u: Plant)
    requires Reachable(s) && Solo(s.sys, p, k, t)
    ensures Reachable(u) && u.sys == t && u.avoid == s.avoid
    decreases k
  {
    if k == 0 {
      u := s;
    } else {
      var next := SoloStep(s, p);
      u := ReachableSolo(next, p, k - 1, t);
    }
  }

  function TwoScript(q: nat): (script: seq<Op>)
    ensures IsTwo(script, q)
  {
    seq(14, i requires 0 <= i < 14 => TwoOp(q, i))
  }

  /** A consumer alone, its first queue free, runs up to its second sem_wait. */
  lemma ConsumerToSecondWait(s: System, p: nat, q: nat, script: seq<Op>) returns (t: System)
    requires WellFormed(s, NUM_Q, NUM_Q) && q < 2 && IsTwo(script, q) && StandsAt(s, p, script, 0)
    requires s.matrixLock == 1 && s.sems[q] == 1
    ensures SoloReaches(s, p, t)
    ensures t.procs == s.procs[p := Process(script, 6, Outside)]
    ensures t.sems == s.sems[q := 0] && t.matrixLock == 1 && t.manager == s.manager
  {
    var t1 := SoloOperation(s, p, script, 0, NUM_Q, NUM_Q);
    var t2 := SoloOperation(t1, p, script, 1, NUM_Q, NUM_Q);
    SoloReachesOn(s, p, t1, t2);
    var t3 := SoloOperation(t2, p, script, 2, NUM_Q, NUM_Q);
    SoloReachesOn(s, p, t2, t3);
    var t4 := SoloOperation(t3, p, script, 3, NUM_Q, NUM_Q);
    SoloReachesOn(s, p, t3, t4);
    var t5 := SoloOperation(t4, p, script, 4, NUM_Q, NUM_Q);
    SoloReachesOn(s, p, t4, t5);
    t := SoloOperation(t5, p, script, 5, NUM_Q, NUM_Q);
    SoloReachesOn(s, p, t5, t);
  }

  /** An idle consumer starts on both queues, q first, and runs up to its second sem_wait. */
  lemma ConsumerTakesFirst(s: Plant, c: nat, q: nat) returns (u: Plant)
    requires Reachable(s) && PlantInv(s) && !s.avoid && NUM_PC <= c < PROCESSES && q < 2
    requires s.sys.procs[c] == Process([], 0, Outside) && s.sys.matrixLock == 1 && s.sys.sems[q] == 1
    ensures Reachable(u) && PlantInv(u) && !u.avoid
    ensures u.sys.procs == s.sys.procs[c := Process(TwoScript(q), 6, Outside)]
    ensures u.sys.sems == s.sys.sems[q := 0] && u.sys.matrixLock == 1
  {
    var e := NextIteration(c, TwoScript(q));
    Go(s, e);
    var b := After(s, e);
    assert b.sys == Begin(s.sys, c, TwoScript(q));
    var t := ConsumerToSecondWait(b.sys, c, q, TwoScript(q));
    assert t.procs == s.sys.procs[c := Process(TwoScript(q), 6, Outside)];
    var k: nat :| Solo(b.sys, c, k, t);
    u := ReachableSolo(b, c, k, t);
    ReachableIsSound(u);
  }

  lemma InitIsReachable(s: Plant)
    requires Init(s)
    ensures Reachable(s) && PlantInv(s)
  {
    assert Run([s], []);
    InitHasInv(s);
  }

  function Beginning(avoid: bool): Plant {
    Plant(System(seq(PROCESSES, _ => Process([], 0, Outside)), [1, 1], 1, seq(PROCESSES, _ => [NONE, NONE]), Idle),
          avoid, [[], []], [0, 0, 0, 0, 0, 0, 0, 0, 0, 0], [[], []], [[], []],
          [0, 0, 0, 0, 0, 0, 0, 0, 0, 0], [0, 0, 0, 0, 0, 0, 0, 0, 0, 0])
  }

  lemma BeginningIsInit(avoid: bool)
    ensures Init(Beginning(avoid))
  {}

  ghost predicate CanDeadlock(avoid: bool) { exists s :: Reachable(s) && s.avoid == avoid && Deadlocked(s.sys) }

  lemma TwoTakersDeadlock(s: System)
    requires |s.procs| == PROCESSES
    requires s.procs[5] == Process(TwoScript(0), 6, Outside) && s.procs[6] == Process(TwoScript(1), 6, Outside)
    ensures Deadlocked(s)
  {
    TwoHolds(TwoScript(0), 0, 6, 0);
    TwoHolds(TwoScript(1), 1, 6, 1);
    assert Blocked(s, 5, 1) && Blocked(s, 6, 0);
  }

  lemma OneTakesFirst() returns (s: Plant)
    ensures Reachable(s) && PlantInv(s) && !s.avoid
    ensures s.sys.procs[5] == Process(TwoScript(0), 6, Outside) && s.sys.procs[6] == Process([], 0, Outside)
    ensures s.sys.matrixLock == 1 && s.sys.sems[1] == 1
  {
    BeginningIsInit(false);
    InitIsReachable(Beginning(false));
    s := ConsumerTakesFirst(Beginning(false), 5, 0);
  }

  lemma BothTakeFirst() returns (s: Plant)
    ensures Reachable(s) && PlantInv(s) && !s.avoid
    ensures s.sys.procs[5] == Process(TwoScript(0), 6, Outside) && s.sys.procs[6] == Process(TwoScript(1), 6, Outside)
  {
    var t := OneTakesFirst();
    s := ConsumerTakesFirst(t, 6, 1);
  }

  /** Consumers can deadlock exactly when the avoidance flag is off. */
  lemma DeadlockReachable(avoid: bool)
    ensures CanDeadlock(avoid) <==> !avoid
  {
    if CanDeadlock(avoid) {
      var s :| Reachable(s) && s.avoid == avoid && Deadlocked(s.sys);
      ReachableIsSound(s);
      DeadlockIsCircularWait(s.sys);
      if avoid { AvoidanceExcludesWait(s.sys); }
    }
    if !avoid {
      var s := BothTakeFirst();
      TwoTakersDeadlock(s.sys);
    }
  }

  // ---------- A circular wait gets reported ----------

  ghost predicate Next(s: Plant, e: Event, t: Plant) {
    DataShaped(s) && |s.sys.procs| == PROCESSES && Possible(s, e) && t == After(s, e)
  }

  ghost predicate Waiting(s: Plant) { PlantInv(s) && CircularWait(s.sys) }

  lemma WaitingNext(s: Plant, t: Plant, e: Event) returns (u: Plant)
    requires Leads(Next, s, t) && Waiting(t) && Possible(t, e)
    ensures u == After(t, e) && Leads(Next, s, u) && Waiting(u)
  {
    u := After(t, e);
    EventKeepsInv(t, e);
    CircularWaitStays(t, e);
    LeadsNext(Next, s, t, e, u);
  }

  lemma HolderOfLockSteps(s: System, avoid: bool) returns (p: nat)
    requires Sound(s, avoid) && s.matrixLock == 0 && s.manager == Idle
    ensures Enabled(s, p)
  {
    p :| Inside(s, p);
    assert ProcessOk(s.procs[p], NUM_Q, NUM_Q);
  }

  /** Whoever is inside the matrix lock can leave it. */
  lemma {:induction false} LockGetsFree(s: Plant, t: Plant) returns (u: Plant)
    requires Leads(Next, s, t) && Waiting(t) && t.sys.manager == Idle
    ensures Leads(Next, s, u) && Waiting(u) && u.sys.manager == Idle && u.sys.matrixLock > 0
    decreases TotalRemaining(t.sys.procs)
  {
    if t.sys.matrixLock > 0 {
      u := t;
    } else {
      var p := HolderOfLockSteps(t.sys, t.avoid);
      StepCostsOne(t.sys, p, NUM_Q, NUM_Q);
      var next := WaitingNext(s, t, ProcessStep(p, 1));
      NothingLeft(next.sys.procs, NUM_Q, NUM_Q);
      NothingLeft(t.sys.procs, NUM_Q, NUM_Q);
      u := LockGetsFree(s, next);
    }
  }

  lemma TurnOf(s: Plant, t: Plant) returns (u: Plant)
    requires Leads(Next, s, t) && Waiting(t) && ManagerEnabled(t.sys)
    ensures Leads(Next, s, u) && Waiting(u) && u.sys == ManagerStep(t.sys, Verdict)
  {
    u := WaitingNext(s, t, ManagerTurn);
  }

  lemma FourTurns(s: Plant, t: Plant) returns (u: Plant)
    requires Leads(Next, s, t) && Waiting(t) && t.sys.manager == Idle && t.sys.matrixLock > 0
    ensures Leads(Next, s, u) && Waiting(u) && u.sys.manager == Reported
  {
    var t1 := TurnOf(s, t);
    var t2 := TurnOf(s, t1);
    var t3 := TurnOf(s, t2);
    u := TurnOf(s, t3);
  }

  /** From every state of every run with a circular wait and an idle manager, the run can go on to a report. */
  lemma WaitGetsReported(states: seq<Plant>, events: seq<Event>, i: nat)
    returns (run: seq<Plant>, steps: seq<Event>)
    requires Run(states, events) && i < |states|
    requires CircularWait(states[i].sys) && states[i].sys.manager == Idle
    ensures Run(run, steps) && i < |run| && run[..i + 1] == states[..i + 1] && steps[..i] == events[..i]
    ensures run[|steps|].sys.manager == Reported
  {
    InitHasInv(states[0]);
    TraceKeepsInv(states, events, i);
    LeadsNow(Next, states[i]);
    var t := LockGetsFree(states[i], states[i]);
    var u := FourTurns(states[i], t);
    run, steps := GoOn(states, events, i, u);
  }

  lemma GoOn(states: seq<Plant>, events: seq<Event>, i: nat, u: Plant)
    returns (run: seq<Plant>, steps: seq<Event>)
    requires Run(states, events) && i < |states| && Leads(Next, states[i], u) && PlantInv(u)
    ensures Run(run, steps) && i < |run| && run[..i + 1] == states[..i + 1] && steps[..i] == events[..i]
    ensures run[|steps|] == u
  {
    var rest: seq<Plant>, more: seq<Event> :| ChainFromTo(Next, rest, more, states[i], u);
    RunIsChain(states, events);
    Continue(Next, states, events, i, rest, more);
    run, steps := states[..i] + rest, events[..i] + more;
    assert run[..i + 1][0] == states[..i + 1][0];
    ChainIsTrace(run, steps);
  }

  lemma RunIsChain(states: seq<Plant>, events: seq<Event>)
    requires Run(states, events)
    ensures Chain(Next, states, events)
  {}

  lemma ChainIsTrace(run: seq<Plant>, steps: seq<Event>)
    requires Chain(Next, run, steps) && PlantInv(run[|steps|])
    ensures Trace(run, steps)
  {
    forall x | 0 <= x < |run| ensures DataShaped(run[x]) && |run[x].sys.procs| == PROCESSES {
      if x < |steps| { assert Next(run[x], steps[x], run[x + 1]); }
    }
    forall x | 0 <= x < |steps| ensures Possible(run[x], steps[x]) && run[x + 1] == After(run[x], steps[x]) {
      assert Next(run[x], steps[x], run[x + 1]);
    }
  }
}
