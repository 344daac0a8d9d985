/**
 Trains at a four-way junction (os_lab/assignment5/question2).

 Each train takes the semaphore of its own direction and then the one to its right, crosses
 under a mutex, and gives both back.  The manager starts the trains in order and looks for
 a circular wait in the matrix that the trains publish.
 */
module TrainJunction {
  import opened Chains
  import opened SemaphoreScripts
  import opened StateMatrix

  const DIRECTIONS: nat := 4
  const MUTEX: nat := 4        // the junction semaphore comes after the four directions
  const SEMAPHORES: nat := 5
  const STEPS_PER_TRAIN: nat := 31

  function Right(d: nat): nat { (d + 1) % 4 }

  function TrainScript(d: nat): seq<Op> {
    [ Publish(d, REQUESTED), Acquire(d), Publish(d, ACQUIRED),
      Publish(Right(d), REQUESTED), Acquire(Right(d)), Publish(Right(d), ACQUIRED),
      Acquire(MUTEX), Work(0, MUTEX), Release(MUTEX),
      Publish(d, NONE), Release(d),
      Publish(Right(d), NONE), Release(Right(d)) ]
  }

  datatype Junction = Junction(sys: System, sequence: seq<nat>, started: nat)

  // ---------- checkCycle ----------

  /** A train with this row holds direction x and has asked for the one to its right. */
  predicate Arrow(row: seq<int>, x: nat)
    requires x < 4
  {
    |row| == DIRECTIONS && row[x] == ACQUIRED && row[Right(x)] == REQUESTED
  }

  function RowTrace(i: nat, row: seq<int>): seq<int> {
    (if Arrow(row, 0) then [i, 1] else []) + (if Arrow(row, 1) then [i, 2] else []) +
    (if Arrow(row, 2) then [i, 3] else []) + (if Arrow(row, 3) then [i, 0] else [])
  }

  /** The (train, wanted direction) pairs found in the first k rows. */
  function Trace(m: Matrix, k: nat): seq<int>
    requires k <= |m|
  {
    if k == 0 then [] else Trace(m, k - 1) + RowTrace(k - 1, m[k - 1])
  }

  function RowFlags(row: seq<int>): nat {
    (if Arrow(row, 0) then 1 else 0) + (if Arrow(row, 1) then 1 else 0) +
    (if Arrow(row, 2) then 1 else 0) + (if Arrow(row, 3) then 1 else 0)
  }

  function Flags(m: Matrix, k: nat): nat
    requires k <= |m|
  {
    if k == 0 then 0 else Flags(m, k - 1) + RowFlags(m[k - 1])
  }

  /** After some row exactly four arrows have been counted. */
  predicate Detects(m: Matrix) {
    exists k :: 0 <= k <= |m| && Flags(m, k) == 4
  }

  lemma {:induction false} TraceIsPrefix(m: Matrix, j: nat, k: nat)
    requires j <= k <= |m|
    ensures Trace(m, j) <= Trace(m, k)
    ensures |Trace(m, k)| == 2 * Flags(m, k)
    decreases k
  {
    if k > 0 {
      TraceIsPrefix(m, if j < k then j else k - 1, k - 1);
    }
  }

  /** Scanning the whole matrix writes no more than `length` cells of `cycle`. */
  ghost predicate Fits(m: Matrix, length: nat) {
    (forall i :: 0 <= i < |m| ==> |m[i]| == DIRECTIONS) && |Trace(m, |m|)| <= length
  }

  /** The four tests of one row, each appending its pair to `cycle`. */
  method ScanRow(row: seq<int>, i: nat, cycle: array<int>, tot0: nat, flag0: nat) returns (tot: nat, flag: nat)
    requires |row| == DIRECTIONS && tot0 + |RowTrace(i, row)| <= cycle.Length
    modifies cycle
    ensures tot == tot0 + |RowTrace(i, row)| && flag == flag0 + RowFlags(row)
    ensures cycle[..tot] == old(cycle[..tot0]) + RowTrace(i, row)
  {
    tot, flag := tot0, flag0;
    if row[0] == 2 && row[1] == 1 {
      cycle[tot], cycle[tot + 1] := i, 1;
      tot, flag := tot + 2, flag + 1;
    }
    if row[1] == 2 && row[2] == 1 {
      cycle[tot], cycle[tot + 1] := i, 2;
      tot, flag := tot + 2, flag + 1;
    }
    if row[2] == 2 && row[3] == 1 {
      cycle[tot], cycle[tot + 1] := i, 3;
      tot, flag := tot + 2, flag + 1;
    }
    if row[3] == 2 && row[0] == 1 {
      cycle[tot], cycle[tot + 1] := i, 0;
      tot, flag := tot + 2, flag + 1;
    }
  }

  method CheckCycle(matrix: Matrix, cycle: array<int>) returns (result: int)
    requires Fits(matrix, cycle.Length)
    modifies cycle
    ensures result == 1 <==> Detects(matrix)
    ensures result == 1 || result == 0
    ensures result == 1 ==> exists k :: 0 <= k <= |matrix| && Flags(matrix, k) == 4
                                        && 8 <= cycle.Length && cycle[..8] == Trace(matrix, k)
    ensures result == 0 ==> cycle[..|Trace(matrix, |matrix|)|] == Trace(matrix, |matrix|)
  {
    var flag, tot := 0, 0;
    var i := 0;
    while i < |matrix|
      invariant 0 <= i <= |matrix|
      invariant flag == Flags(matrix, i) && tot == |Trace(matrix, i)| <= cycle.Length
      invariant cycle[..tot] == Trace(matrix, i)
      invariant forall k :: 0 <= k <= i ==> Flags(matrix, k) != 4
    {
      TraceIsPrefix(matrix, i + 1, |matrix|);
      assert Trace(matrix, i + 1) == Trace(matrix, i) + RowTrace(i, matrix[i]);
      tot, flag := ScanRow(matrix[i], i, cycle, tot, flag);
      i := i + 1;
      if flag == 4 {
        TraceIsPrefix(matrix, i, i);
        return 1;
      }
    }
    return 0;
  }

  // ---------- What the flag count means ----------

  /** No two rows have an arrow at the same direction. */
  ghost predicate OneArrowEach(m: Matrix) {
    forall x, i, j :: 0 <= x < 4 && 0 <= i < |m| && 0 <= j < |m| && Arrow(m[i], x) && Arrow(m[j], x) ==> i == j
  }

  ghost predicate ArrowWithin(m: Matrix, k: nat, x: nat)
    requires k <= |m| && x < 4
  {
    exists i :: 0 <= i < k && Arrow(m[i], x)
  }

  ghost function Present(m: Matrix, k: nat, x: nat): nat
    requires k <= |m| && x < 4
  {
    if ArrowWithin(m, k, x) then 1 else 0
  }

  lemma PresentGrows(m: Matrix, k: nat, x: nat)
    requires OneArrowEach(m) && 0 < k <= |m| && x < 4
    ensures Present(m, k, x) == Present(m, k - 1, x) + if Arrow(m[k - 1], x) then 1 else 0
  {
    if ArrowWithin(m, k - 1, x) {
      var i :| 0 <= i < k - 1 && Arrow(m[i], x);
      assert ArrowWithin(m, k, x) && !Arrow(m[k - 1], x);
    }
  }

  lemma {:induction false} FlagsCountDirections(m: Matrix, k: nat)
    requires OneArrowEach(m) && k <= |m|
    ensures Flags(m, k) == Present(m, k, 0) + Present(m, k, 1) + Present(m, k, 2) + Present(m, k, 3)
  {
    if k > 0 {
      FlagsCountDirections(m, k - 1);
      PresentGrows(m, k, 0); PresentGrows(m, k, 1); PresentGrows(m, k, 2); PresentGrows(m, k, 3);
    }
  }

  /** With one arrow per direction, the count reaches four exactly when all four directions have one. */
  lemma DetectsMeansAllFour(m: Matrix)
    requires OneArrowEach(m)
    ensures Detects(m) <==> forall x :: 0 <= x < 4 ==> ArrowWithin(m, |m|, x)
    ensures Flags(m, |m|) <= 4
  {
    FlagsCountDirections(m, |m|);
    if Detects(m) {
      var k :| 0 <= k <= |m| && Flags(m, k) == 4;
      FlagsCountDirections(m, k);
      forall x | 0 <= x < 4 ensures ArrowWithin(m, |m|, x) {
        assert Present(m, k, x) == 1;
        var i :| 0 <= i < k && Arrow(m[i], x);
      }
    }
  }

  // ---------- The script in tables ----------

  lemma {:induction false} TrainHolds(d: nat, pc: nat, m: nat)
    requires d < 4 && pc <= 13
    ensures Held(TrainScript(d), pc, m) <==>
              (m == d && 2 <= pc <= 10) || (m == Right(d) && 5 <= pc <= 12) || (m == MUTEX && 7 <= pc <= 8)
  {
    if pc > 0 { TrainHolds(d, pc - 1, m); }
  }

  lemma {:induction false} TrainShows(d: nat, pc: nat, c: nat)
    requires d < 4 && pc <= 13
    ensures Shown(TrainScript(d), pc, c) ==
              if c == d then
                (if pc == 0 then NONE else if pc <= 2 then REQUESTED else if pc <= 9 then ACQUIRED else NONE)
              else if c == Right(d) then
                (if pc <= 3 then NONE else if pc <= 5 then REQUESTED else if pc <= 11 then ACQUIRED else NONE)
              else NONE
  {
    if pc > 0 { TrainShows(d, pc - 1, c); }
  }

  lemma TrainScriptDisciplined(d: nat)
    requires d < 4
    ensures Disciplined(TrainScript(d), SEMAPHORES, DIRECTIONS)
  {
    var script := TrainScript(d);
    forall i | 0 <= i < |script| ensures LegalAt(script, i, SEMAPHORES, DIRECTIONS) {
      TrainHolds(d, i, d); TrainHolds(d, i, Right(d)); TrainHolds(d, i, MUTEX);
    }
    forall m: nat | m < SEMAPHORES ensures !Held(script, |script|, m) { TrainHolds(d, |script|, m); }
    forall c: nat | c < DIRECTIONS ensures Shown(script, |script|, c) == NONE { TrainShows(d, |script|, c); }
  }

  // ---------- Runs ----------

  datatype Event = TrainStep(train: nat) | ManagerTurn | StartTrain

  ghost predicate Init(s: Junction) {
    && (forall i :: 0 <= i < |s.sequence| ==> s.sequence[i] < 4)
    && s.started == 0
    && s.sys == System(seq(|s.sequence|, _ => Process([], 0, Outside)), [1, 1, 1, 1, 1], 1,
                       seq(|s.sequence|, _ => [NONE, NONE, NONE, NONE]), Idle)
  }

  predicate Possible(s: Junction, e: Event) {
    match e
    case TrainStep(p) => Enabled(s.sys, p)
    case ManagerTurn => ManagerEnabled(s.sys)
    case StartTrain => s.sys.manager.Idle? && s.started < |s.sequence| <= |s.sys.procs| && !Unfinished(s.sys, s.started)
  }

  function After(s: Junction, e: Event): Junction
    requires Possible(s, e)
  {
    match e
    case TrainStep(p) => s.(sys := Step(s.sys, p))
    case ManagerTurn => s.(sys := ManagerStep(s.sys, Detects))
    case StartTrain =>
      s.(sys := Begin(s.sys, s.started, TrainScript(s.sequence[s.started])), started := s.started + 1)
  }

  ghost predicate Run(states: seq<Junction>, events: seq<Event>) {
    && |states| == |events| + 1
    && Init(states[0])
    && forall i :: 0 <= i < |events| ==> Possible(states[i], events[i]) && states[i + 1] == After(states[i], events[i])
  }

  // ---------- Circular wait ----------

  /** Train t holds direction x and has asked for the one to its right: nothing but sem_wait lies ahead. */
  predicate Committed(s: Junction, t: nat, x: nat) {
    t < s.started && t < |s.sys.procs| && t < |s.sequence| && s.sequence[t] == x &&
    (s.sys.procs[t].pc == 4 || (s.sys.procs[t].pc == 3 && s.sys.procs[t].micro.Written?))
  }

  /** A committed train that already stands at its sem_wait. */
  predicate Blocked(s: Junction, t: nat, x: nat) {
    Committed(s, t, x) && WaitsAt(s.sys, t, Right(x)) && Holds(s.sys, t, x)
  }

  ghost predicate SomeCommitted(s: Junction, x: nat) { exists t :: Committed(s, t, x) }

  ghost predicate SomeBlocked(s: Junction, x: nat) { exists t :: Blocked(s, t, x) }

  /** Four trains, one for each direction, each holding its own and waiting for the next one's. */
  ghost predicate CircularWait(s: Junction) {
    forall x: nat :: x < 4 ==> SomeCommitted(s, x)
  }

  /** The same with every one of the four already standing at its sem_wait. */
  ghost predicate Deadlocked(s: Junction) {
    forall x: nat :: x < 4 ==> SomeBlocked(s, x)
  }

  ghost predicate Assigned(s: Junction) {
    && |s.sys.procs| == |s.sequence|
    && s.started <= |s.sequence|
    && (forall i :: 0 <= i < |s.sequence| ==> s.sequence[i] < 4)
    && forall p :: 0 <= p < |s.sequence| ==>
         s.sys.procs[p].script == if p < s.started then TrainScript(s.sequence[p]) else []
  }

  /** A snapshot under the lock tells the truth; one taken earlier can only have missed a later wait. */
  ghost predicate Honest(s: Junction) {
    match s.sys.manager
    case Read(m) => (Detects(m) <==> CircularWait(s)) && Fits(m, 8)
    case Checking(m) => (Detects(m) ==> CircularWait(s)) && Fits(m, 8)
    case Reported => CircularWait(s)
    case _ => true
  }

  ghost predicate JunctionInv(s: Junction) {
    Inv(s.sys, SEMAPHORES, DIRECTIONS) && Assigned(s) && Honest(s)
  }

  /** Which row shows an arrow, in terms of where the train stands. */
  lemma ArrowTable(s: Junction, t: nat, x: nat)
    requires Inv(s.sys, SEMAPHORES, DIRECTIONS) && Assigned(s) && t < |s.sequence| && x < 4
    ensures Arrow(s.sys.matrix[t], x) <==>
              Committed(s, t, x)
              || (t < s.started && s.sequence[t] == x && s.sys.procs[t].pc == 5 && !s.sys.procs[t].micro.Written?)
  {
    var proc := s.sys.procs[t];
    assert ProcessOk(proc, SEMAPHORES, DIRECTIONS);
    assert s.sys.matrix[t][x] == Published(proc, x) && s.sys.matrix[t][Right(x)] == Published(proc, Right(x));
    if t < s.started {
      var at := if proc.micro.Written? then proc.pc + 1 else proc.pc;
      TrainShows(s.sequence[t], at, x);
      TrainShows(s.sequence[t], at, Right(x));
    }
  }

  lemma ArrowHolds(s: Junction, t: nat, x: nat)
    requires Inv(s.sys, SEMAPHORES, DIRECTIONS) && Assigned(s) && t < |s.sequence| && x < 4
    requires Arrow(s.sys.matrix[t], x)
    ensures Holds(s.sys, t, x) && s.sequence[t] == x
    ensures !Committed(s, t, x) ==> Holds(s.sys, t, Right(x))
  {
    ArrowTable(s, t, x);
    TrainHolds(x, s.sys.procs[t].pc, x);
    TrainHolds(x, s.sys.procs[t].pc, Right(x));
  }

  /** The detector is exact although the matrix lags behind the semaphores. */
  lemma DetectorIsExact(s: Junction)
    requires Inv(s.sys, SEMAPHORES, DIRECTIONS) && Assigned(s)
    ensures Detects(s.sys.matrix) <==> CircularWait(s)
    ensures |Trace(s.sys.matrix, |s.sys.matrix|)| <= 8
  {
    var m := s.sys.matrix;
    forall x, i, j | 0 <= x < 4 && 0 <= i < |m| && 0 <= j < |m| && Arrow(m[i], x) && Arrow(m[j], x) ensures i == j {
      ArrowHolds(s, i, x);
      ArrowHolds(s, j, x);
      HolderUnique(s.sys, i, j, x, SEMAPHORES, DIRECTIONS);
    }
    DetectsMeansAllFour(m);
    TraceIsPrefix(m, |m|, |m|);
    if CircularWait(s) {
      forall x | 0 <= x < 4 ensures ArrowWithin(m, |m|, x) {
        assert SomeCommitted(s, x);
        var t :| Committed(s, t, x);
        ArrowTable(s, t, x);
      }
    }
    if forall x :: 0 <= x < 4 ==> ArrowWithin(m, |m|, x) {
      forall x: nat | x < 4 ensures SomeCommitted(s, x) {
        assert ArrowWithin(m, |m|, x) && ArrowWithin(m, |m|, Right(x));
        var t :| 0 <= t < |m| && Arrow(m[t], x);
        var u :| 0 <= u < |m| && Arrow(m[u], Right(x));
        ArrowHolds(s, t, x);
        ArrowHolds(s, u, Right(x));
        if !Committed(s, t, x) { HolderUnique(s.sys, t, u, Right(x), SEMAPHORES, DIRECTIONS); }
      }
    }
  }

  /** Each of the four holds its direction, so each one's next direction is taken by the next train. */
  lemma CommittedTaken(s: Junction, x: nat)
    requires Inv(s.sys, SEMAPHORES, DIRECTIONS) && Assigned(s) && SomeCommitted(s, x) && x < 4
    ensures s.sys.sems[x] == 0
  {
    var t: nat :| Committed(s, t, x);
    TrainHolds(x, s.sys.procs[t].pc, x);
    assert Holds(s.sys, t, x) && Exclusive(s.sys, x);
  }

  lemma CommittedStays(s: Junction, e: Event, x: nat)
    requires Assigned(s) && Possible(s, e) && x < 4 && SomeCommitted(s, x)
    requires |s.sys.sems| == SEMAPHORES && s.sys.sems[Right(x)] == 0
    ensures SomeCommitted(After(s, e), x)
  {
    var t: nat :| Committed(s, t, x);
    if e.TrainStep? { StepKeepsCommitted(s, e.train, t, x); }
    assert Committed(After(s, e), t, x);
  }

  lemma StepKeepsCommitted(s: Junction, p: nat, t: nat, x: nat)
    requires Assigned(s) && Possible(s, TrainStep(p)) && x < 4 && Committed(s, t, x)
    requires |s.sys.sems| == SEMAPHORES && s.sys.sems[Right(x)] == 0
    ensures Committed(After(s, TrainStep(p)), t, x)
  {
    SecondWait(x);
    AnnouncedStays(s.sys, p, t, 4, Right(x));
  }

  lemma SecondWait(d: nat)
    ensures |TrainScript(d)| == 13 && TrainScript(d)[3].Publish? && TrainScript(d)[4] == Acquire(Right(d))
  {}

  /** A circular wait is permanent: no event, not even a newly started train, ends it. */
  lemma CircularWaitStays(s: Junction, e: Event)
    requires Inv(s.sys, SEMAPHORES, DIRECTIONS) && Assigned(s) && CircularWait(s) && Possible(s, e)
    ensures CircularWait(After(s, e))
  {
    forall x: nat | x < 4 ensures SomeCommitted(After(s, e), x) {
      assert SomeCommitted(s, x) && SomeCommitted(s, Right(x));
      CommittedTaken(s, Right(x));
      CommittedStays(s, e, x);
    }
  }

  /** While the manager keeps the trains out of the matrix, a committed train can only stand at its sem_wait. */
  lemma QuietMatrixMeansBlocked(s: Junction)
    requires Inv(s.sys, SEMAPHORES, DIRECTIONS) && Assigned(s)
    requires forall p :: !Inside(s.sys, p)
    ensures CircularWait(s) <==> Deadlocked(s)
  {
    forall x: nat | x < 4 ensures SomeCommitted(s, x) <==> SomeBlocked(s, x) {
      if t :| Committed(s, t, x) {
        assert !Inside(s.sys, t);
        TrainHolds(x, 4, x);
        assert Blocked(s, t, x);
      }
    }
  }

  // ---------- The invariant of every run ----------

  lemma EventKeepsSystem(s: Junction, e: Event)
    requires Inv(s.sys, SEMAPHORES, DIRECTIONS) && Assigned(s) && Possible(s, e)
    ensures Inv(After(s, e).sys, SEMAPHORES, DIRECTIONS)
  {
    match e {
      case TrainStep(p) => StepKeepsInv(s.sys, p, SEMAPHORES, DIRECTIONS);
      case ManagerTurn => ManagerKeepsInv(s.sys, Detects, SEMAPHORES, DIRECTIONS);
      case StartTrain =>
        TrainScriptDisciplined(s.sequence[s.started]);
        BeginKeepsInv(s.sys, s.started, TrainScript(s.sequence[s.started]), SEMAPHORES, DIRECTIONS);
    }
  }

  lemma EventKeepsAssigned(s: Junction, e: Event)
    requires Assigned(s) && Possible(s, e)
    ensures Assigned(After(s, e))
  {
    if e.TrainStep? {
      forall p | 0 <= p < |s.sequence| ensures After(s, e).sys.procs[p].script == s.sys.procs[p].script {
        StepMoves(s.sys, e.train, p);
      }
    }
  }

  lemma ReadIsHonest(s: Junction)
    requires Inv(s.sys, SEMAPHORES, DIRECTIONS) && Assigned(s) && s.sys.manager.Read?
    ensures (Detects(s.sys.manager.copy) <==> CircularWait(s)) && Fits(s.sys.manager.copy, 8)
  {
    DetectorIsExact(s);
  }

  lemma EventKeepsHonest(s: Junction, e: Event)
    requires Honest(s) && Possible(s, e)
    requires CircularWait(s) ==> CircularWait(After(s, e))
    requires var t := After(s, e);
             t.sys.manager.Read? ==> (Detects(t.sys.manager.copy) <==> CircularWait(t)) && Fits(t.sys.manager.copy, 8)
    ensures Honest(After(s, e))
  {
  }

  lemma EventKeepsInv(s: Junction, e: Event)
    requires JunctionInv(s) && Possible(s, e)
    ensures JunctionInv(After(s, e))
  {
    EventKeepsSystem(s, e);
    EventKeepsAssigned(s, e);
    if CircularWait(s) { CircularWaitStays(s, e); }
    if After(s, e).sys.manager.Read? { ReadIsHonest(After(s, e)); }
    EventKeepsHonest(s, e);
  }

  lemma InitHasInv(s: Junction)
    requires Init(s)
    ensures JunctionInv(s)
  {
    assert forall m :: 0 <= m < SEMAPHORES ==> Exclusive(s.sys, m);
    assert MatrixExclusive(s.sys);
  }

  lemma {:induction false} RunKeepsInv(states: seq<Junction>, events: seq<Event>, i: nat)
    requires Run(states, events) && i < |states|
    ensures JunctionInv(states[i])
  {
    if i == 0 {
      InitHasInv(states[0]);
    } else {
      RunKeepsInv(states, events, i - 1);
      EventKeepsInv(states[i - 1], events[i - 1]);
    }
  }

  lemma CircularWaitGoesOn(states: seq<Junction>, events: seq<Event>, k: nat)
    requires Run(states, events) && k < |events| && CircularWait(states[k])
    ensures CircularWait(states[k + 1])
  {
    RunKeepsInv(states, events, k);
    CircularWaitStays(states[k], events[k]);
  }

  lemma {:induction false} CircularWaitForever(states: seq<Junction>, events: seq<Event>, i: nat, j: nat)
    requires Run(states, events) && i <= j < |states| && CircularWait(states[i])
    ensures CircularWait(states[j])
    decreases j
  {
    if i < j {
      CircularWaitForever(states, events, i, j - 1);
      CircularWaitGoesOn(states, events, j - 1);
    }
  }

  lemma SnapshotIsExact(s: Junction)
    requires JunctionInv(s) && s.sys.manager.Read?
    ensures Detects(s.sys.manager.copy) <==> Deadlocked(s)
  {
    QuietMatrixMeansBlocked(s);
  }

  /** Exact and permanent over every run; what the manager reports is true, its snapshot misses nothing, and
      checking it stays within 8 of the 10 cells of `cycle`. */
  lemma DetectionOverRuns(states: seq<Junction>, events: seq<Event>, i: nat, j: nat)
    requires Run(states, events) && i <= j < |states|
    ensures Detects(states[i].sys.matrix) <==> CircularWait(states[i])
    ensures CircularWait(states[i]) ==> CircularWait(states[j])
    ensures states[j].sys.manager.Reported? ==> CircularWait(states[j])
    ensures states[j].sys.manager.Checking? ==> Fits(states[j].sys.manager.snapshot, 8)
    ensures states[j].sys.manager.Read? ==> (Detects(states[j].sys.manager.copy) <==> Deadlocked(states[j]))
  {
    RunKeepsInv(states, events, i);
    DetectorIsExact(states[i]);
    if CircularWait(states[i]) { CircularWaitForever(states, events, i, j); }
    RunKeepsInv(states, events, j);
    if states[j].sys.manager.Read? { SnapshotIsExact(states[j]); }
  }

  lemma AcquiredMeansHolds(s: Junction, t: nat, x: nat)
    requires JunctionInv(s) && t < |s.sequence| && x < DIRECTIONS && s.sys.matrix[t][x] == ACQUIRED
    ensures Holds(s.sys, t, x)
  {
    var proc := s.sys.procs[t];
    assert ProcessOk(proc, SEMAPHORES, DIRECTIONS) && s.sys.matrix[t][x] == Published(proc, x);
    if t < s.started {
      TrainShows(s.sequence[t], if proc.micro.Written? then proc.pc + 1 else proc.pc, x);
      TrainHolds(s.sequence[t], proc.pc, x);
    }
  }

  /** In every state of every run the matrix shows exactly what each train has published, an ACQUIRED
      cell is backed by the semaphore, and no direction has two of them. */
  lemma MatrixFidelity(states: seq<Junction>, events: seq<Event>, i: nat, t: nat, x: nat)
    requires Run(states, events) && i < |states| && t < |states[i].sequence| && x < DIRECTIONS
    ensures var s := states[i].sys;
            && Inv(s, SEMAPHORES, DIRECTIONS) && t < |s.procs|
            && s.matrix[t][x] == Published(s.procs[t], x)
            && (s.matrix[t][x] == ACQUIRED ==>
                  Holds(s, t, x) && forall r :: 0 <= r < |s.procs| && r != t ==> s.matrix[r][x] != ACQUIRED)
  {
    var s := states[i].sys;
    RunKeepsInv(states, events, i);
    if s.matrix[t][x] == ACQUIRED {
      AcquiredMeansHolds(states[i], t, x);
      forall r: nat | r < |s.procs| && s.matrix[r][x] == ACQUIRED ensures r == t {
        AcquiredMeansHolds(states[i], r, x);
        HolderUnique(s, t, r, x, SEMAPHORES, DIRECTIONS);
      }
    }
  }

  /** Train t is on the junction. */
  predicate Crossing(s: System, t: nat) {
    Unfinished(s, t) && s.procs[t].script[s.procs[t].pc] == Work(0, MUTEX)
  }

  lemma CrossingHolds(s: Junction, t: nat)
    requires JunctionInv(s) && Crossing(s.sys, t)
    ensures Holds(s.sys, t, MUTEX) && t < |s.sequence|
    ensures Holds(s.sys, t, s.sequence[t]) && Holds(s.sys, t, Right(s.sequence[t]))
  {
    var d := s.sequence[t];
    TrainHolds(d, s.sys.procs[t].pc, MUTEX);
    TrainHolds(d, s.sys.procs[t].pc, d);
    TrainHolds(d, s.sys.procs[t].pc, Right(d));
  }

  /** In no state of any run two trains are on the junction; the one that is holds its own direction and the next. */
  lemma CrossingAlone(states: seq<Junction>, events: seq<Event>, i: nat, t: nat, u: nat)
    requires Run(states, events) && i < |states|
    requires Crossing(states[i].sys, t) && Crossing(states[i].sys, u)
    ensures t == u && t < |states[i].sequence|
    ensures Holds(states[i].sys, t, states[i].sequence[t]) && Holds(states[i].sys, t, Right(states[i].sequence[t]))
  {
    RunKeepsInv(states, events, i);
    CrossingHolds(states[i], t);
    CrossingHolds(states[i], u);
    HolderUnique(states[i].sys, t, u, MUTEX, SEMAPHORES, DIRECTIONS);
  }

  /** A train gets past a line only by its own step at that line. */
  lemma PastByOwnStep(s: Junction, e: Event, t: nat, line: nat)
    requires JunctionInv(s) && Possible(s, e)
    requires t < After(s, e).started && t < |After(s, e).sys.procs| && line < After(s, e).sys.procs[t].pc
    requires !(t < s.started && t < |s.sys.procs| && line < s.sys.procs[t].pc)
    ensures e == TrainStep(t) && t < s.started && t < |s.sys.procs| && s.sys.procs[t].pc == line && Unfinished(s.sys, t)
  {
    if e.TrainStep? { StepMoves(s.sys, e.train, t); }
  }

  /** Where train t stands; 0 until it is started. */
  ghost function LineOf(s: Junction, t: nat): nat {
    if t < s.started && t < |s.sys.procs| then s.sys.procs[t].pc else 0
  }

  lemma PastAt(states: seq<Junction>, events: seq<Event>, x: nat, t: nat, line: nat)
    requires Run(states, events) && x < |events| && LineOf(states[x], t) <= line < LineOf(states[x + 1], t)
    ensures events[x] == TrainStep(t) && t < states[x].started
    ensures Unfinished(states[x].sys, t) && states[x].sys.procs[t].pc == line
  {
    RunKeepsInv(states, events, x);
    PastByOwnStep(states[x], events[x], t, line);
  }

  /** A train that is past a line has gone through it, in a step of its own. */
  lemma WentThrough(states: seq<Junction>, events: seq<Event>, i: nat, t: nat, line: nat) returns (j: nat)
    requires Run(states, events) && i < |states| && line < LineOf(states[i], t)
    ensures j < i && events[j] == TrainStep(t) && t < states[j].started
    ensures Unfinished(states[j].sys, t) && states[j].sys.procs[t].pc == line
  {
    var counter := seq(|states|, x requires 0 <= x < |states| => LineOf(states[x], t));
    assert counter[0] == 0;
    j := Passes(counter, 0, i, line);
    PastAt(states, events, j, t, line);
  }

  /** A train that has come to its end has been on the junction. */
  lemma EveryTrainCrosses(states: seq<Junction>, events: seq<Event>, i: nat, t: nat) returns (j: nat)
    requires Run(states, events) && i < |states| && t < states[i].started && !Unfinished(states[i].sys, t)
    ensures j < i && Crossing(states[j].sys, t)
  {
    RunKeepsInv(states, events, i);
    assert ProcessOk(states[i].sys.procs[t], SEMAPHORES, DIRECTIONS);
    j := WentThrough(states, events, i, t, 7);
    RunKeepsInv(states, events, j);
  }

  // ---------- The cells of the cycle ----------

  /** The pair (train, wanted direction): the train holds the direction before it and has asked for it. */
  predicate TruePair(m: Matrix, k: nat, train: int, wanted: int) {
    && 0 <= train < k && train < |m| && 0 <= wanted < DIRECTIONS && |m[train]| == DIRECTIONS
    && m[train][wanted] == REQUESTED && m[train][(wanted + 3) % 4] == ACQUIRED
  }

  ghost predicate Listed(cells: seq<int>, train: int, wanted: int) {
    exists j :: 0 <= j && 2 * j + 1 < |cells| && cells[2 * j] == train && cells[2 * j + 1] == wanted
  }

  lemma RowTraceIs(i: nat, row: seq<int>)
    ensures |RowTrace(i, row)| % 2 == 0
    ensures forall j :: 0 <= j && 2 * j + 1 < |RowTrace(i, row)| ==>
      var w := RowTrace(i, row)[2 * j + 1];
      RowTrace(i, row)[2 * j] == i && 0 <= w < 4 && |row| == DIRECTIONS && row[w] == REQUESTED
          && row[(w + 3) % 4] == ACQUIRED
    ensures forall w :: 0 <= w < 4 && |row| == DIRECTIONS && row[w] == REQUESTED && row[(w + 3) % 4] == ACQUIRED ==>
      Listed(RowTrace(i, row), i, w)
  {
    var a := if Arrow(row, 0) then 1 else 0;
    var b := if Arrow(row, 1) then 1 else 0;
    var c := if Arrow(row, 2) then 1 else 0;
    var cells := RowTrace(i, row);
    if Arrow(row, 0) { assert cells[2 * 0] == i && cells[2 * 0 + 1] == 1; }
    if Arrow(row, 1) { assert cells[2 * a] == i && cells[2 * a + 1] == 2; }
    if Arrow(row, 2) { assert cells[2 * (a + b)] == i && cells[2 * (a + b) + 1] == 3; }
    if Arrow(row, 3) { assert cells[2 * (a + b + c)] == i && cells[2 * (a + b + c) + 1] == 0; }
  }

  lemma {:induction false} TraceEven(m: Matrix, k: nat)
    requires k <= |m|
    ensures |Trace(m, k)| % 2 == 0
  {
    if k > 0 {
      TraceEven(m, k - 1);
      RowTraceIs(k - 1, m[k - 1]);
    }
  }

  /** The cells come in pairs, all of which have the property. */
  ghost predicate AllPairs(cells: seq<int>, good: (int, int) -> bool) {
    |cells| % 2 == 0 && forall j: nat :: 2 * j + 1 < |cells| ==> good(cells[2 * j], cells[2 * j + 1])
  }

  lemma AllPairsJoin(a: seq<int>, b: seq<int>, good: (int, int) -> bool)
    requires AllPairs(a, good) && AllPairs(b, good)
    ensures AllPairs(a + b, good)
  {
    forall j: nat | 2 * j + 1 < |a + b| ensures good((a + b)[2 * j], (a + b)[2 * j + 1]) {
      if 2 * j + 1 >= |a| {
        var i := j - |a| / 2;
        assert (a + b)[2 * j] == b[2 * i] && (a + b)[2 * j + 1] == b[2 * i + 1];
      }
    }
  }

  lemma RowPairsTrue(m: Matrix, k: nat)
    requires 0 < k <= |m|
    ensures AllPairs(RowTrace(k - 1, m[k - 1]), (train, wanted) => TruePair(m, k, train, wanted))
  {
    RowTraceIs(k - 1, m[k - 1]);
  }

  lemma {:induction false} TraceIsTrue(m: Matrix, k: nat)
    requires k <= |m|
    ensures AllPairs(Trace(m, k), (train, wanted) => TruePair(m, k, train, wanted))
  {
    if k > 0 {
      TraceIsTrue(m, k - 1);
      RowPairsTrue(m, k);
      var good := (train, wanted) => TruePair(m, k, train, wanted);
      assert AllPairs(Trace(m, k - 1), good);
      assert AllPairs(RowTrace(k - 1, m[k - 1]), good);
      AllPairsJoin(Trace(m, k - 1), RowTrace(k - 1, m[k - 1]), good);
    }
  }

  lemma ListedInFront(a: seq<int>, b: seq<int>, train: int, wanted: int)
    requires |a| % 2 == 0 && (Listed(a, train, wanted) || Listed(b, train, wanted))
    ensures Listed(a + b, train, wanted)
  {
    if Listed(a, train, wanted) {
      var j :| 0 <= j && 2 * j + 1 < |a| && a[2 * j] == train && a[2 * j + 1] == wanted;
      assert (a + b)[2 * j] == train && (a + b)[2 * j + 1] == wanted;
    } else {
      var j :| 0 <= j && 2 * j + 1 < |b| && b[2 * j] == train && b[2 * j + 1] == wanted;
      var i := |a| / 2 + j;
      assert (a + b)[2 * i] == train && (a + b)[2 * i + 1] == wanted;
    }
  }

  lemma {:induction false} TraceListsAll(m: Matrix, k: nat, train: int, wanted: int)
    requires k <= |m| && TruePair(m, k, train, wanted)
    ensures Listed(Trace(m, k), train, wanted)
  {
    TraceEven(m, k - 1);
    if train < k - 1 { TraceListsAll(m, k - 1, train, wanted); } else { RowTraceIs(k - 1, m[k - 1]); }
    ListedInFront(Trace(m, k - 1), RowTrace(k - 1, m[k - 1]), train, wanted);
  }

  /** The cells are pairs; each names a train that waits for that direction with the one before it in hand,
      and every such train is named. */
  lemma TraceIsExact(m: Matrix, k: nat)
    requires k <= |m|
    ensures |Trace(m, k)| % 2 == 0
    ensures forall j: nat :: 2 * j + 1 < |Trace(m, k)| ==> TruePair(m, k, Trace(m, k)[2 * j], Trace(m, k)[2 * j + 1])
    ensures forall train, wanted :: TruePair(m, k, train, wanted) ==> Listed(Trace(m, k), train, wanted)
  {
    TraceIsTrue(m, k);
    forall train, wanted | TruePair(m, k, train, wanted) ensures Listed(Trace(m, k), train, wanted) {
      TraceListsAll(m, k, train, wanted);
    }
  }

  // ---------- The manager reports ----------

  /** How many of the events from i up to j are the manager's. */
  function ManagerTurns(events: seq<Event>, i: nat, j: nat): nat
    requires i <= j <= |events|
  {
    if i == j then 0 else ManagerTurns(events, i, j - 1) + if events[j - 1].ManagerTurn? then 1 else 0
  }

  /** Where a manager that has read m is after `turns` more turns of its own. */
  ghost predicate ManagerAt(manager: Manager, m: Matrix, turns: nat) {
    && (turns == 0 ==> manager == Read(m))
    && (turns == 1 ==> manager == Checking(m))
    && (turns == 2 ==> manager == if Detects(m) then Reported else Idle)
    && (turns > 2 ==> !Detects(m))
  }

  lemma {:induction false} ManagerGoesOn(states: seq<Junction>, events: seq<Event>, i: nat, j: nat, m: Matrix)
    requires Run(states, events) && i <= j < |states| && states[i].sys.manager == Read(m)
    ensures ManagerAt(states[j].sys.manager, m, ManagerTurns(events, i, j))
    decreases j
  {
    if i < j {
      ManagerGoesOn(states, events, i, j - 1, m);
      assert Possible(states[j - 1], events[j - 1]);
    }
  }

  /** The manager's next two turns after it has read the matrix, whatever happens in between: it has reported if the
      trains were deadlocked when it read, and is idle again if they were not. */
  lemma DeadlockIsReported(states: seq<Junction>, events: seq<Event>, i: nat, j: nat)
    requires Run(states, events) && i <= j < |states| && states[i].sys.manager.Read?
    requires ManagerTurns(events, i, j) >= 2
    ensures Deadlocked(states[i]) ==> states[j].sys.manager == Reported
    ensures !Deadlocked(states[i]) && ManagerTurns(events, i, j) == 2 ==> states[j].sys.manager == Idle
  {
    RunKeepsInv(states, events, i);
    SnapshotIsExact(states[i]);
    ManagerGoesOn(states, events, i, j, states[i].sys.manager.copy);
  }

  // ---------- Progress ----------

  lemma StuckAtWait(s: Junction, p: nat) returns (m: nat, h: nat)
    requires JunctionInv(s) && Stuck(s.sys) && Unfinished(s.sys, p)
    ensures m < SEMAPHORES && WaitsAt(s.sys, p, m) && Holds(s.sys, h, m) && Unfinished(s.sys, h)
    ensures p < s.started && h < s.started && s.sequence[p] < 4
    ensures || (s.sys.procs[p].pc == 1 && m == s.sequence[p])
            || (s.sys.procs[p].pc == 4 && m == Right(s.sequence[p]))
            || (s.sys.procs[p].pc == 6 && m == MUTEX)
  {
    m, h := StuckWaits(s.sys, p, SEMAPHORES, DIRECTIONS);
  }

  /** In a stuck junction the unfinished trains stand at their first or at their second sem_wait. */
  lemma StuckPlaces(s: Junction, p: nat) returns (h: nat)
    requires JunctionInv(s) && Stuck(s.sys) && Unfinished(s.sys, p)
    ensures p < s.started && Unfinished(s.sys, h) && h < s.started
    ensures s.sys.procs[p].pc == 1 || s.sys.procs[p].pc == 4
    ensures s.sys.procs[p].pc == 1 ==> Holds(s.sys, h, s.sequence[p])
    ensures s.sys.procs[p].pc == 4 ==> Blocked(s, p, s.sequence[p]) && Holds(s.sys, h, Right(s.sequence[p]))
    ensures s.sys.procs[h].pc == 1 || s.sys.procs[h].pc == 4 || s.sys.procs[h].pc == 6
  {
    var m;
    m, h := StuckAtWait(s, p);
    var m', h' := StuckAtWait(s, h);
    TrainHolds(s.sequence[h], s.sys.procs[h].pc, m);
    TrainHolds(s.sequence[p], s.sys.procs[p].pc, s.sequence[p]);
  }

  lemma NextBlocked(s: Junction, t: nat, x: nat) returns (u: nat)
    requires JunctionInv(s) && Stuck(s.sys) && x < 4 && Blocked(s, t, x)
    ensures Blocked(s, u, Right(x))
  {
    u := StuckPlaces(s, t);
    var h := StuckPlaces(s, u);
    TrainHolds(s.sequence[u], s.sys.procs[u].pc, Right(x));
  }

  lemma SomeoneBlocked(s: Junction, p: nat) returns (t: nat, x: nat)
    requires JunctionInv(s) && Stuck(s.sys) && Unfinished(s.sys, p)
    ensures x < 4 && Blocked(s, t, x)
  {
    t := p;
    var h := StuckPlaces(s, p);
    if s.sys.procs[p].pc == 1 {
      var g := StuckPlaces(s, h);
      TrainHolds(s.sequence[h], s.sys.procs[h].pc, s.sequence[p]);
      t := h;
    }
    x := s.sequence[t];
  }

  lemma FourInARing(s: Junction, x: nat)
    requires x < 4 && SomeBlocked(s, x) && SomeBlocked(s, Right(x))
    requires SomeBlocked(s, Right(Right(x))) && SomeBlocked(s, Right(Right(Right(x))))
    ensures Deadlocked(s)
  {
    forall y: nat | y < 4 ensures SomeBlocked(s, y) {
      assert y == x || y == Right(x) || y == Right(Right(x)) || y == Right(Right(Right(x)));
    }
  }

  /** A junction where no train can move, yet some started train has not finished, is deadlocked. */
  lemma StuckMeansDeadlock(s: Junction, p: nat)
    requires JunctionInv(s) && Stuck(s.sys) && Unfinished(s.sys, p)
    ensures Deadlocked(s)
  {
    var t, x := SomeoneBlocked(s, p);
    var t1 := NextBlocked(s, t, x);
    var t2 := NextBlocked(s, t1, Right(x));
    var t3 := NextBlocked(s, t2, Right(Right(x)));
    FourInARing(s, x);
  }

  lemma DeadlockIsCircularWait(s: Junction)
    requires Deadlocked(s)
    ensures CircularWait(s) && exists p :: Unfinished(s.sys, p)
  {
    forall x: nat | x < 4 ensures SomeCommitted(s, x) {
      assert SomeBlocked(s, x);
      var t :| Blocked(s, t, x);
      assert Committed(s, t, x) && Unfinished(s.sys, t);
    }
    assert SomeBlocked(s, 0);
  }

  /** An unfinished train without a circular wait: some train can step, or the manager can. */
  lemma Progress(s: Junction, p: nat)
    requires JunctionInv(s) && Unfinished(s.sys, p) && !CircularWait(s)
    ensures (exists q :: Enabled(s.sys, q)) || (ManagerInside(s.sys) && ManagerEnabled(s.sys))
  {
    if Stuck(s.sys) {
      StuckMeansDeadlock(s, p);
      DeadlockIsCircularWait(s);
    }
  }

  /** In a stuck junction: someone is left behind, four trains are deadlocked, the matrix shows it -- all the same. */
  lemma StuckVerdict(s: Junction)
    requires JunctionInv(s) && Stuck(s.sys)
    ensures (exists p :: Unfinished(s.sys, p)) <==> Deadlocked(s)
    ensures Detects(s.sys.matrix) <==> Deadlocked(s)
  {
    if p :| Unfinished(s.sys, p) { StuckMeansDeadlock(s, p); }
    if Deadlocked(s) { DeadlockIsCircularWait(s); }
    DetectorIsExact(s);
    if CircularWait(s) {
      assert SomeCommitted(s, 0);
      var t :| Committed(s, t, 0);
      assert Unfinished(s.sys, t);
      StuckMeansDeadlock(s, t);
    }
  }

  // ---------- Every run is finite, and how it ends ----------

  ghost function Budget(s: Junction): int {
    TotalRemaining(s.sys.procs) + STEPS_PER_TRAIN * (|s.sequence| - s.started)
  }

  function TrainSteps(events: seq<Event>): nat {
    if events == [] then 0
    else TrainSteps(events[..|events| - 1]) + if events[|events| - 1].TrainStep? then 1 else 0
  }

  lemma TrainCost(d: nat)
    ensures Cost(TrainScript(d), 0) == STEPS_PER_TRAIN
  {
    var script := TrainScript(d);
    assert Cost(script, 12) == 1;
    assert Cost(script, 11) == 5;
    assert Cost(script, 10) == 6;
    assert Cost(script, 9) == 10;
    assert Cost(script, 8) == 11;
    assert Cost(script, 7) == 12;
    assert Cost(script, 6) == 13;
    assert Cost(script, 5) == 17;
    assert Cost(script, 4) == 18;
    assert Cost(script, 3) == 22;
    assert Cost(script, 2) == 26;
    assert Cost(script, 1) == 27;
  }

  lemma EventBudget(s: Junction, e: Event)
    requires JunctionInv(s) && Possible(s, e)
    ensures Budget(After(s, e)) == Budget(s) - if e.TrainStep? then 1 else 0
  {
    match e {
      case TrainStep(p) => StepCostsOne(s.sys, p, SEMAPHORES, DIRECTIONS);
      case ManagerTurn =>
      case StartTrain =>
        TrainCost(s.sequence[s.started]);
        assert ProcessOk(s.sys.procs[s.started], SEMAPHORES, DIRECTIONS);
        TotalAfterUpdate(s.sys.procs, s.started, Process(TrainScript(s.sequence[s.started]), 0, Outside));
    }
  }

  lemma {:induction false} IdleCostNothing(n: nat)
    ensures TotalRemaining(seq(n, _ => Process([], 0, Outside))) == 0
  {
    var idle := seq(n, _ => Process([], 0, Outside));
    if n > 0 {
      assert idle[1..] == seq(n - 1, _ => Process([], 0, Outside));
      IdleCostNothing(n - 1);
    }
  }

  lemma {:induction false} BudgetAlongRun(states: seq<Junction>, events: seq<Event>)
    requires Run(states, events)
    ensures Budget(states[|events|]) + TrainSteps(events) == STEPS_PER_TRAIN * |states[0].sequence|
    ensures states[|events|].sequence == states[0].sequence
    decreases |events|
  {
    var k := |events|;
    if k == 0 {
      IdleCostNothing(|states[0].sequence|);
    } else {
      assert Run(states[..k], events[..k - 1]);
      BudgetAlongRun(states[..k], events[..k - 1]);
      RunKeepsInv(states, events, k - 1);
      EventBudget(states[k - 1], events[k - 1]);
    }
  }

  ghost predicate AllCrossed(s: Junction) {
    s.started == |s.sequence| && forall p :: !Unfinished(s.sys, p)
  }

  lemma NothingLeftMeansCrossed(s: Junction)
    requires JunctionInv(s)
    ensures Budget(s) >= 0 && (Budget(s) == 0 <==> AllCrossed(s))
  {
    NothingLeft(s.sys.procs, SEMAPHORES, DIRECTIONS);
    if forall p :: !Unfinished(s.sys, p) {
      forall p | 0 <= p < |s.sys.procs| ensures s.sys.procs[p].pc == |s.sys.procs[p].script| {
        assert !Unfinished(s.sys, p) && ProcessOk(s.sys.procs[p], SEMAPHORES, DIRECTIONS);
      }
    }
  }

  /**
   A run of n trains has at most 31 n train steps.  Once all are started and none can move,
   either every train has crossed after exactly 31 n steps, or four are deadlocked and the
   matrix says so.
   */
  lemma EveryRunEnds(states: seq<Junction>, events: seq<Event>)
    requires Run(states, events)
    ensures TrainSteps(events) <= STEPS_PER_TRAIN * |states[0].sequence|
    ensures TrainSteps(events) == STEPS_PER_TRAIN * |states[0].sequence| <==> AllCrossed(states[|events|])
    ensures var last := states[|events|];
            last.started == |last.sequence| && Stuck(last.sys) ==>
              (AllCrossed(last) <==> !Deadlocked(last)) && (Detects(last.sys.matrix) <==> !AllCrossed(last))
  {
    var last := states[|events|];
    BudgetAlongRun(states, events);
    RunKeepsInv(states, events, |events|);
    NothingLeftMeansCrossed(last);
    if last.started == |last.sequence| && Stuck(last.sys) { StuckVerdict(last); }
  }
}
