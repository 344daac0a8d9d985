/**
 Processes that run straight-line scripts over counting semaphores and report every
 request, acquisition and release in one shared matrix file.

 Both deadlock assignments have this shape.  Every semaphore operation is one step, and
 `updateMatrix` is four: take the matrix semaphore, read the whole file, write the whole
 file back with one cell changed, give the matrix semaphore back.  The manager takes its
 snapshot under the same semaphore, and checks it only after giving the semaphore back.
 */
module SemaphoreScripts {

  import opened StateMatrix

  const NONE := 0
  const REQUESTED := 1
  const ACQUIRED := 2

  datatype Op =
    | Publish(column: nat, state: int)   // sem_wait(matrix_lock); updateMatrix(...); sem_post(matrix_lock)
    | Acquire(sem: nat)                  // sem_wait
    | Release(sem: nat)                  // sem_post
    | Work(stage: nat, subject: nat)     // what the process does while it holds its semaphores

  /** How far a process is inside its current `Publish`. */
  datatype Micro = Outside | Locked | Copied(copy: Matrix) | Written

  datatype Process = Process(script: seq<Op>, pc: nat, micro: Micro)

  datatype Manager = Idle | Entered | Read(copy: Matrix) | Checking(snapshot: Matrix) | Reported

  datatype System = System(procs: seq<Process>, sems: seq<nat>, matrixLock: nat, matrix: Matrix, manager: Manager)

  // ---------- What a script has done after its first pc operations ----------

  /** The script has taken `sem` and not given it back. */
  predicate Held(script: seq<Op>, pc: nat, sem: nat)
    requires pc <= |script|
  {
    pc > 0 &&
    (script[pc-1] == Acquire(sem) || (script[pc-1] != Release(sem) && Held(script, pc - 1, sem)))
  }

  /** The state the script last published in `column`. */
  function Shown(script: seq<Op>, pc: nat, column: nat): int
    requires pc <= |script|
  {
    if pc == 0 then NONE
    else if script[pc-1].Publish? && script[pc-1].column == column then script[pc-1].state
    else Shown(script, pc - 1, column)
  }

  /** The operation at `pc` is legal: no semaphore is taken twice or given back unheld. */
  ghost predicate LegalAt(script: seq<Op>, pc: nat, sems: nat, columns: nat)
    requires pc < |script|
  {
    match script[pc]
    case Publish(c, _) => c < columns
    case Acquire(m) => m < sems && !Held(script, pc, m)
    case Release(m) => m < sems && Held(script, pc, m)
    case Work(_, _) => true
  }

  /** A script that ends with nothing held and nothing shown. */
  ghost predicate Disciplined(script: seq<Op>, sems: nat, columns: nat) {
    && (forall i :: 0 <= i < |script| ==> LegalAt(script, i, sems, columns))
    && (forall m: nat :: m < sems ==> !Held(script, |script|, m))
    && (forall c: nat :: c < columns ==> Shown(script, |script|, c) == NONE)
  }

  // ---------- Steps ----------

  predicate Unfinished(s: System, p: nat) {
    p < |s.procs| && s.procs[p].pc < |s.procs[p].script|
  }

  predicate Enabled(s: System, p: nat) {
    Unfinished(s, p) &&
    var proc := s.procs[p];
    match proc.script[proc.pc]
    case Publish(_, _) => proc.micro.Outside? ==> s.matrixLock > 0
    case Acquire(m) => m < |s.sems| && s.sems[m] > 0
    case Release(m) => m < |s.sems|
    case Work(_, _) => true
  }

  function Replace(m: Matrix, row: nat, column: nat, state: int): Matrix
    requires row < |m| && column < |m[row]|
  {
    m[row := m[row][column := state]]
  }

  function Advance(proc: Process): Process {
    proc.(pc := proc.pc + 1, micro := Outside)
  }

  /** One step of process p. */
  function Step(s: System, p: nat): System
    requires Enabled(s, p)
  {
    var proc := s.procs[p];
    match proc.script[proc.pc]
    case Publish(c, state) => (
      match proc.micro
      case Outside => s.(matrixLock := s.matrixLock - 1, procs := s.procs[p := proc.(micro := Locked)])
      case Locked => s.(procs := s.procs[p := proc.(micro := Copied(s.matrix))])
      case Copied(copy) =>
        if p < |copy| && c < |copy[p]|
        then s.(matrix := Replace(copy, p, c, state), procs := s.procs[p := proc.(micro := Written)])
        else s
      case Written => s.(matrixLock := s.matrixLock + 1, procs := s.procs[p := Advance(proc)]))
    case Acquire(m) => s.(sems := s.sems[m := s.sems[m] - 1], procs := s.procs[p := Advance(proc)])
    case Release(m) => s.(sems := s.sems[m := s.sems[m] + 1], procs := s.procs[p := Advance(proc)])
    case Work(_, _) => s.(procs := s.procs[p := Advance(proc)])
  }

  /** A process with nothing left to do is given a new script. */
  function Begin(s: System, p: nat, script: seq<Op>): System
    requires p < |s.procs| && !Unfinished(s, p)
  {
    s.(procs := s.procs[p := Process(script, 0, Outside)])
  }

  predicate ManagerEnabled(s: System) {
    match s.manager
    case Idle => s.matrixLock > 0
    case Entered => true
    case Read(_) => true
    case Checking(_) => true
    case Reported => false
  }

  /** One step of the manager; `verdict` is what the check of its snapshot returns. */
  function ManagerStep(s: System, verdict: Matrix -> bool): System
    requires ManagerEnabled(s)
  {
    match s.manager
    case Idle => s.(matrixLock := s.matrixLock - 1, manager := Entered)
    case Entered => s.(manager := Read(s.matrix))
    case Read(m) => s.(matrixLock := s.matrixLock + 1, manager := Checking(m))
    case Checking(m) => s.(manager := if verdict(m) then Reported else Idle)
  }

  /** A step moves its own process on by at most one operation, and no other. */
  lemma StepMoves(s: System, p: nat, q: nat)
    requires Enabled(s, p) && q < |s.procs|
    ensures |Step(s, p).procs| == |s.procs| && Step(s, p).procs[q].script == s.procs[q].script
    ensures Step(s, p).procs[q].pc == s.procs[q].pc || (q == p && Step(s, p).procs[q].pc == s.procs[q].pc + 1)
  {}

  // ---------- Invariant ----------

  predicate Holds(s: System, p: nat, m: nat) {
    p < |s.procs| && s.procs[p].pc <= |s.procs[p].script| && Held(s.procs[p].script, s.procs[p].pc, m)
  }

  /** Process p is between sem_wait and sem_post of the matrix semaphore. */
  predicate Inside(s: System, p: nat) {
    p < |s.procs| && !s.procs[p].micro.Outside?
  }

  predicate ManagerInside(s: System) { s.manager.Entered? || s.manager.Read? }

  /** What the matrix cell of `proc` has to say: the write comes one step before the script moves on. */
  function Published(proc: Process, column: nat): int
    requires proc.pc <= |proc.script|
    requires proc.micro.Written? ==> proc.pc < |proc.script|
  {
    Shown(proc.script, if proc.micro.Written? then proc.pc + 1 else proc.pc, column)
  }

  ghost predicate WellFormed(s: System, sems: nat, columns: nat) {
    && |s.sems| == sems
    && |s.matrix| == |s.procs| && Shaped(s.matrix, columns)
    && forall p :: 0 <= p < |s.procs| ==> ProcessOk(s.procs[p], sems, columns)
  }

  ghost predicate ProcessOk(proc: Process, sems: nat, columns: nat) {
    && Disciplined(proc.script, sems, columns)
    && proc.pc <= |proc.script|
    && (proc.micro != Outside ==> proc.pc < |proc.script| && proc.script[proc.pc].Publish?)
  }

  /** Semaphore m is free, or exactly one process is between its sem_wait and its sem_post. */
  ghost predicate Exclusive(s: System, m: nat)
    requires m < |s.sems|
  {
    || (s.sems[m] == 1 && forall p :: !Holds(s, p, m))
    || (s.sems[m] == 0 && exists p :: Holds(s, p, m) && forall q :: Holds(s, q, m) ==> q == p)
  }

  /** The same for the matrix semaphore, which the manager takes too. */
  ghost predicate MatrixExclusive(s: System) {
    || (s.matrixLock == 1 && !ManagerInside(s) && forall p :: !Inside(s, p))
    || (s.matrixLock == 0 && ManagerInside(s) && forall p :: !Inside(s, p))
    || (s.matrixLock == 0 && !ManagerInside(s) && exists p :: Inside(s, p) && forall q :: Inside(s, q) ==> q == p)
  }

  /** No update is lost: the matrix shows exactly what every process has published. */
  ghost predicate Faithful(s: System, sems: nat, columns: nat)
    requires WellFormed(s, sems, columns)
  {
    forall p, c :: 0 <= p < |s.procs| && 0 <= c < columns ==> s.matrix[p][c] == Published(s.procs[p], c)
  }

  ghost predicate CopiesCurrent(s: System) {
    && (forall p :: 0 <= p < |s.procs| && s.procs[p].micro.Copied? ==> s.procs[p].micro.copy == s.matrix)
    && (s.manager.Read? ==> s.manager.copy == s.matrix)
  }

  ghost predicate Inv(s: System, sems: nat, columns: nat) {
    && WellFormed(s, sems, columns)
    && (forall m :: 0 <= m < sems ==> Exclusive(s, m))
    && MatrixExclusive(s)
    && Faithful(s, sems, columns)
    && CopiesCurrent(s)
  }

  lemma StepWellFormed(s: System, p: nat, sems: nat, columns: nat)
    requires WellFormed(s, sems, columns) && Enabled(s, p)
    requires CopiesCurrent(s)
    ensures WellFormed(Step(s, p), sems, columns)
  {
    assert LegalAt(s.procs[p].script, s.procs[p].pc, sems, columns);
  }

  lemma ExclusiveKept(s: System, t: System, m: nat)
    requires m < |s.sems| == |t.sems| && t.sems[m] == s.sems[m]
    requires forall q :: Holds(t, q, m) <==> Holds(s, q, m)
    requires Exclusive(s, m)
    ensures Exclusive(t, m)
  {
    if s.sems[m] == 0 {
      var h :| Holds(s, h, m);
      assert Holds(t, h, m);
    }
  }

  lemma StepExclusive(s: System, p: nat, sems: nat, columns: nat, m: nat)
    requires Inv(s, sems, columns) && Enabled(s, p) && m < sems
    ensures |Step(s, p).sems| == sems && Exclusive(Step(s, p), m)
  {
    var t := Step(s, p);
    var proc := s.procs[p];
    var op := proc.script[proc.pc];
    assert LegalAt(proc.script, proc.pc, sems, columns) && Exclusive(s, m);
    forall q: nat | q != p ensures Holds(t, q, m) <==> Holds(s, q, m) {
      assert q < |s.procs| ==> t.procs[q] == s.procs[q];
    }
    if op == Acquire(m) {
      assert Holds(t, p, m);
    } else if op == Release(m) {
      assert Holds(s, p, m) && !Holds(t, p, m);
    } else {
      assert Holds(t, p, m) <==> Holds(s, p, m);
      ExclusiveKept(s, t, m);
    }
  }

  lemma MatrixExclusiveKept(s: System, t: System)
    requires t.matrixLock == s.matrixLock && ManagerInside(t) == ManagerInside(s)
    requires forall q :: Inside(t, q) <==> Inside(s, q)
    requires MatrixExclusive(s)
    ensures MatrixExclusive(t)
  {
    if q :| Inside(s, q) { assert Inside(t, q); }
  }

  lemma StepMatrixExclusive(s: System, p: nat, sems: nat, columns: nat)
    requires Inv(s, sems, columns) && Enabled(s, p)
    ensures MatrixExclusive(Step(s, p))
  {
    var t := Step(s, p);
    forall q: nat | q != p ensures Inside(t, q) <==> Inside(s, q) {
      assert q < |s.procs| ==> t.procs[q] == s.procs[q];
    }
    if Inside(s, p) == Inside(t, p) {
      MatrixExclusiveKept(s, t);
    } else if Inside(t, p) {
      assert s.matrixLock == 1 && t.matrixLock == 0;
    } else {
      assert s.matrixLock == 0 && t.matrixLock == 1;
    }
  }

  lemma StepFaithful(s: System, p: nat, sems: nat, columns: nat)
    requires Inv(s, sems, columns) && Enabled(s, p)
    requires WellFormed(Step(s, p), sems, columns)
    ensures Faithful(Step(s, p), sems, columns) && CopiesCurrent(Step(s, p))
  {
    var t := Step(s, p);
    var proc := s.procs[p];
    assert LegalAt(proc.script, proc.pc, sems, columns);
    forall q, c | 0 <= q < |t.procs| && 0 <= c < columns
      ensures t.matrix[q][c] == Published(t.procs[q], c)
    {
      assert s.matrix[q][c] == Published(s.procs[q], c);
    }
    if proc.micro.Copied? {
      assert Inside(s, p);
      forall q | 0 <= q < |t.procs| ensures !t.procs[q].micro.Copied? {
        assert q != p ==> !Inside(s, q);
      }
    }
  }

  /** Every step of every process keeps mutual exclusion on every semaphore and loses no matrix update. */
  lemma StepKeepsInv(s: System, p: nat, sems: nat, columns: nat)
    requires Inv(s, sems, columns) && Enabled(s, p)
    ensures Inv(Step(s, p), sems, columns)
  {
    StepWellFormed(s, p, sems, columns);
    forall m | 0 <= m < sems ensures Exclusive(Step(s, p), m) {
      StepExclusive(s, p, sems, columns, m);
    }
    StepMatrixExclusive(s, p, sems, columns);
    StepFaithful(s, p, sems, columns);
  }

  lemma BeginKeepsInv(s: System, p: nat, script: seq<Op>, sems: nat, columns: nat)
    requires Inv(s, sems, columns) && p < |s.procs| && !Unfinished(s, p)
    requires Disciplined(script, sems, columns)
    ensures Inv(Begin(s, p, script), sems, columns)
  {
    var t := Begin(s, p, script);
    forall m | 0 <= m < sems ensures Exclusive(t, m) {
      assert Exclusive(s, m);
      assert forall q :: Holds(t, q, m) <==> Holds(s, q, m);
    }
    assert forall q :: Inside(t, q) <==> Inside(s, q);
    forall q, c | 0 <= q < |t.procs| && 0 <= c < columns
      ensures t.matrix[q][c] == Published(t.procs[q], c)
    {
      assert s.matrix[q][c] == Published(s.procs[q], c);
    }
  }

  lemma ManagerKeepsInv(s: System, verdict: Matrix -> bool, sems: nat, columns: nat)
    requires Inv(s, sems, columns) && ManagerEnabled(s)
    ensures Inv(ManagerStep(s, verdict), sems, columns)
  {
    var t := ManagerStep(s, verdict);
    forall m | 0 <= m < sems ensures Exclusive(t, m) {
      assert Exclusive(s, m);
      assert forall q :: Holds(t, q, m) <==> Holds(s, q, m);
    }
    assert forall q :: Inside(t, q) <==> Inside(s, q);
  }

  lemma HolderUnique(s: System, p: nat, q: nat, m: nat, sems: nat, columns: nat)
    requires Inv(s, sems, columns) && m < sems && Holds(s, p, m) && Holds(s, q, m)
    ensures p == q
  {
    assert Exclusive(s, m);
  }

  // ---------- What a blocked process waits for ----------

  /** Process p stands at sem_wait of semaphore m. */
  predicate WaitsAt(s: System, p: nat, m: nat) {
    Unfinished(s, p) && s.procs[p].script[s.procs[p].pc] == Acquire(m)
  }

  /** The wait for m at line `at` is announced in the matrix: nothing but sem_wait lies ahead. */
  predicate Announced(proc: Process, at: nat, m: nat) {
    && 0 < at < |proc.script| && proc.script[at] == Acquire(m) && proc.script[at - 1].Publish?
    && (proc.pc == at || (proc.pc == at - 1 && proc.micro.Written?))
  }

  /** It stays so, whoever steps, while m is taken. */
  lemma AnnouncedStays(s: System, p: nat, t: nat, at: nat, m: nat)
    requires Enabled(s, p) && t < |s.procs| && Announced(s.procs[t], at, m)
    requires m < |s.sems| && s.sems[m] == 0
    ensures t < |Step(s, p).procs| && Announced(Step(s, p).procs[t], at, m)
    ensures Step(s, p).procs[t].script == s.procs[t].script
  {}

  /** No process can take a step, and that is not the manager's doing. */
  ghost predicate Stuck(s: System) {
    !ManagerInside(s) && forall p :: !Enabled(s, p)
  }

  /** In a stuck system every unfinished process waits for a semaphore held by another one that waits too. */
  lemma StuckWaits(s: System, p: nat, sems: nat, columns: nat) returns (m: nat, h: nat)
    requires Inv(s, sems, columns) && Stuck(s) && Unfinished(s, p)
    ensures m < sems && WaitsAt(s, p, m)
    ensures Holds(s, h, m) && h != p && Unfinished(s, h)
  {
    var proc := s.procs[p];
    assert LegalAt(proc.script, proc.pc, sems, columns);
    assert !Enabled(s, p);
    if proc.script[proc.pc].Publish? {
      assert s.matrixLock == 0;
      var q :| Inside(s, q);
      assert Enabled(s, q);
      assert false;
    }
    m := proc.script[proc.pc].sem;
    assert Exclusive(s, m);
    h :| Holds(s, h, m);
    assert !Held(s.procs[h].script, |s.procs[h].script|, m);
  }

  // ---------- How much is left to do ----------

  /** Steps from the start of operation pc to the end of the script. */
  function Cost(script: seq<Op>, pc: nat): nat
    requires pc <= |script|
    decreases |script| - pc
  {
    if pc == |script| then 0 else (if script[pc].Publish? then 4 else 1) + Cost(script, pc + 1)
  }

  function MicroSteps(micro: Micro): nat {
    match micro
    case Outside => 0
    case Locked => 1
    case Copied(_) => 2
    case Written => 3
  }

  ghost function Remaining(proc: Process): int
  {
    if proc.pc <= |proc.script| then Cost(proc.script, proc.pc) - MicroSteps(proc.micro) else 0
  }

  ghost function TotalRemaining(procs: seq<Process>): int {
    if procs == [] then 0 else Remaining(procs[0]) + TotalRemaining(procs[1..])
  }

  lemma {:induction false} TotalAfterUpdate(procs: seq<Process>, p: nat, proc: Process)
    requires p < |procs|
    ensures TotalRemaining(procs[p := proc]) == TotalRemaining(procs) - Remaining(procs[p]) + Remaining(proc)
  {
    if p == 0 {
      assert procs[p := proc][1..] == procs[1..];
    } else {
      assert procs[p := proc][1..] == procs[1..][p - 1 := proc];
      TotalAfterUpdate(procs[1..], p - 1, proc);
    }
  }

  /** Every step brings the system exactly one step nearer to its end. */
  lemma StepCostsOne(s: System, p: nat, sems: nat, columns: nat)
    requires Inv(s, sems, columns) && Enabled(s, p)
    ensures TotalRemaining(Step(s, p).procs) == TotalRemaining(s.procs) - 1
  {
    var proc, after := s.procs[p], Step(s, p).procs[p];
    assert LegalAt(proc.script, proc.pc, sems, columns);
    assert Remaining(after) == Remaining(proc) - 1;
    assert Step(s, p).procs == s.procs[p := after];
    TotalAfterUpdate(s.procs, p, after);
  }

  /** Nothing is left to do exactly when no process is unfinished. */
  lemma {:induction false} NothingLeft(procs: seq<Process>, sems: nat, columns: nat)
    requires forall p :: 0 <= p < |procs| ==> ProcessOk(procs[p], sems, columns)
    ensures TotalRemaining(procs) >= 0
    ensures TotalRemaining(procs) == 0 <==> forall p :: 0 <= p < |procs| ==> procs[p].pc == |procs[p].script|
  {
    if procs != [] {
      NothingLeft(procs[1..], sems, columns);
      assert forall p :: 0 < p < |procs| ==> procs[p] == procs[1..][p - 1];
      assert ProcessOk(procs[0], sems, columns);
    }
  }

  // ---------- One process running alone ----------

  /** Process p alone takes k steps from s to t. */
  ghost predicate Solo(s: System, p: nat, k: nat, t: System)
    decreases k
  {
    if k == 0 then t == s else Enabled(s, p) && Solo(Step(s, p), p, k - 1, t)
  }

  ghost predicate SoloReaches(s: System, p: nat, t: System) { exists k :: Solo(s, p, k, t) }

  lemma {:induction false} SoloJoins(s: System, p: nat, j: nat, t: System, k: nat, u: System)
    requires Solo(s, p, j, t) && Solo(t, p, k, u)
    ensures Solo(s, p, j + k, u)
    decreases j
  {
    if j > 0 { SoloJoins(Step(s, p), p, j - 1, t, k, u); }
  }

  lemma SoloReachesOn(s: System, p: nat, t: System, u: System)
    requires SoloReaches(s, p, t) && SoloReaches(t, p, u)
    ensures SoloReaches(s, p, u)
  {
    var j: nat :| Solo(s, p, j, t);
    var k: nat :| Solo(t, p, k, u);
    SoloJoins(s, p, j, t, k, u);
  }

  /** Four steps of p alone, from the lock to its release, are one update of the matrix. */
  lemma SoloPublish(s: System, p: nat)
    requires Enabled(s, p) && s.procs[p].micro.Outside? && s.procs[p].script[s.procs[p].pc].Publish?
    requires var c := s.procs[p].script[s.procs[p].pc].column; p < |s.matrix| && c < |s.matrix[p]|
    ensures var op := s.procs[p].script[s.procs[p].pc];
            SoloReaches(s, p, s.(matrix := Replace(s.matrix, p, op.column, op.state),
                                  procs := s.procs[p := Advance(s.procs[p])]))
  {
    var op := s.procs[p].script[s.procs[p].pc];
    var t := s.(matrix := Replace(s.matrix, p, op.column, op.state), procs := s.procs[p := Advance(s.procs[p])]);
    var s1 := Step(s, p);
    var s2 := Step(s1, p);
    var s3 := Step(s2, p);
    assert s1.procs[p].micro == Locked && s2.procs[p].micro == Copied(s.matrix) && s3.procs[p].micro == Written;
    assert Step(s3, p).procs == t.procs;
    assert Step(s3, p) == t;
    assert Solo(s3, p, 1, t);
    assert Solo(s2, p, 2, t);
    assert Solo(s1, p, 3, t);
    assert Solo(s, p, 4, t);
  }

  /** p is about to do operation pc, outside every critical part. */
  predicate StandsAt(s: System, p: nat, script: seq<Op>, pc: nat) {
    p < |s.procs| && s.procs[p] == Process(script, pc, Outside) && pc < |script|
  }

  /** What an operation does to the semaphores. */
  function SemsAfter(sems: seq<nat>, op: Op): seq<nat> {
    match op
    case Acquire(m) => if m < |sems| && sems[m] > 0 then sems[m := sems[m] - 1] else sems
    case Release(m) => if m < |sems| then sems[m := sems[m] + 1] else sems
    case _ => sems
  }

  /** p's next operation, done by p alone: nothing else changes but the matrix and the semaphores it names. */
  lemma SoloOperation(s: System, p: nat, script: seq<Op>, pc: nat, sems: nat, columns: nat) returns (t: System)
    requires WellFormed(s, sems, columns) && StandsAt(s, p, script, pc) && Enabled(s, p)
    ensures SoloReaches(s, p, t) && WellFormed(t, sems, columns)
    ensures t.procs == s.procs[p := Process(script, pc + 1, Outside)]
    ensures t.sems == SemsAfter(s.sems, script[pc]) && t.matrixLock == s.matrixLock && t.manager == s.manager
  {
    assert LegalAt(script, pc, sems, columns);
    if script[pc].Publish? {
      SoloPublish(s, p);
      t := s.(matrix := Replace(s.matrix, p, script[pc].column, script[pc].state),
              procs := s.procs[p := Advance(s.procs[p])]);
    } else {
      t := Step(s, p);
      assert Solo(s, p, 1, t);
    }
  }
}
