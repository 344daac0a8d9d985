/**
 Five producers and five consumers over two bounded message queues (os_lab/assignment5/question1).

 A producer locks one queue, a consumer one or both.  Consumers that want both may deadlock;
 the avoidance flag makes them take queue 0 first.
 */
module QueueDeadlock {
  import opened Chains
  import opened SemaphoreScripts
  import opened StateMatrix

  const NUM_Q: nat := 2
  const NUM_PC: nat := 5
  const PROCESSES: nat := 10    // producers 0..4, consumers 5..9
  const Q_SIZE: nat := 10

  const PEEK: nat := 0          // msgctl(IPC_STAT): read the number of messages
  const ACT: nat := 1           // msgsnd or msgrcv, if the number read allows it

  function Other(q: nat): nat { if q == 0 then 1 else 0 }

  /** One iteration of a producer, or of a consumer that wants one queue, line by line. */
  function OneOp(q: nat, line: nat): Op {
    match line
    case 0 => Publish(q, REQUESTED)
    case 1 => Acquire(q)
    case 2 => Publish(q, ACQUIRED)
    case 3 => Work(PEEK, q)
    case 4 => Work(ACT, q)
    case 5 => Publish(q, NONE)
    case _ => Release(q)
  }

  /** One iteration of a consumer that wants both queues, q first. */
  function TwoOp(q: nat, line: nat): Op {
    match line
    case 0 => Publish(q, REQUESTED)
    case 1 => Acquire(q)
    case 2 => Publish(q, ACQUIRED)
    case 3 => Work(PEEK, q)
    case 4 => Work(ACT, q)
    case 5 => Publish(Other(q), REQUESTED)
    case 6 => Acquire(Other(q))
    case 7 => Publish(Other(q), ACQUIRED)
    case 8 => Work(PEEK, Other(q))
    case 9 => Work(ACT, Other(q))
    case 10 => Publish(q, NONE)
    case 11 => Release(q)
    case 12 => Publish(Other(q), NONE)
    case _ => Release(Other(q))
  }

  predicate IsOne(script: seq<Op>, q: nat) {
    |script| == 7 && forall i :: 0 <= i < 7 ==> script[i] == OneOp(q, i)
  }

  predicate IsTwo(script: seq<Op>, q: nat) {
    |script| == 14 && forall i :: 0 <= i < 14 ==> script[i] == TwoOp(q, i)
  }

  /** The scripts process p may choose for its next iteration. */
  predicate Choice(p: nat, avoid: bool, script: seq<Op>) {
    || IsOne(script, 0) || IsOne(script, 1)
    || (p >= NUM_PC && (IsTwo(script, 0) || (!avoid && IsTwo(script, 1))))
  }

  // ---------- checkCycle ----------

  /** A consumer with this row holds the other queue and has asked for queue x. */
  predicate Wants(row: seq<int>, x: nat)
    requires x < 2
  {
    |row| == NUM_Q && row[x] == REQUESTED && row[Other(x)] == ACQUIRED
  }

  function RowPairs(i: nat, row: seq<int>): seq<(int, int)> {
    (if Wants(row, 0) then [(i + NUM_PC, 0)] else []) + (if Wants(row, 1) then [(i + NUM_PC, 1)] else [])
  }

  /** The (consumer, wanted queue) pairs of the first k rows. */
  function Pairs(rows: Matrix, k: nat): seq<(int, int)>
    requires k <= |rows|
  {
    if k == 0 then [] else Pairs(rows, k - 1) + RowPairs(k - 1, rows[k - 1])
  }

  predicate Wanted(rows: Matrix, k: nat, x: nat)
    requires k <= |rows| && x < 2
  {
    exists i :: 0 <= i < k && Wants(rows[i], x)
  }

  predicate Detects(rows: Matrix) {
    Wanted(rows, |rows|, 0) && Wanted(rows, |rows|, 1)
  }

  /** Scanning the consumer rows writes no more than `length` cells of `cycle`. */
  ghost predicate Fits(rows: Matrix, length: nat) {
    (forall i :: 0 <= i < |rows| ==> |rows[i]| == NUM_Q) && 2 * |Pairs(rows, |rows|)| <= length
  }

  ghost predicate Lists(cells: seq<int>, pairs: seq<(int, int)>) {
    |cells| >= 2 * |pairs| &&
    forall j :: 0 <= j < |pairs| ==> cells[2 * j] == pairs[j].0 && cells[2 * j + 1] == pairs[j].1
  }

  lemma {:induction false} PairsGrow(rows: Matrix, j: nat, k: nat)
    requires j <= k <= |rows|
    ensures |Pairs(rows, j)| <= |Pairs(rows, k)|
    decreases k
  {
    if j < k { PairsGrow(rows, j, k - 1); }
  }

  /** The two tests of one row, each appending its pair to `cycle`. */
  method ScanRow(row: seq<int>, i: nat, cycle: array<int>, ghost pairs: seq<(int, int)>,
                 count0: nat, flagA0: bool, flagB0: bool) returns (count: nat, flagA: bool, flagB: bool)
    requires |row| == NUM_Q && count0 == 2 * |pairs| && Lists(cycle[..], pairs)
    requires count0 + 2 * |RowPairs(i, row)| <= cycle.Length
    modifies cycle
    ensures count == 2 * |pairs + RowPairs(i, row)| && Lists(cycle[..], pairs + RowPairs(i, row))
    ensures flagA == (flagA0 || Wants(row, 0)) && flagB == (flagB0 || Wants(row, 1))
  {
    count, flagA, flagB := count0, flagA0, flagB0;
    if row[0] == 1 && row[1] == 2 {
      cycle[count], cycle[count + 1] := i + NUM_PC, 0;
      count, flagA := count + 2, true;
    }
    if row[0] == 2 && row[1] == 1 {
      cycle[count], cycle[count + 1] := i + NUM_PC, 1;
      count, flagB := count + 2, true;
    }
  }

  method CheckCycle(consumerStates: Matrix, cycle: array<int>) returns (result: bool)
    requires Fits(consumerStates, cycle.Length)
    modifies cycle
    ensures result <==> Detects(consumerStates)
    ensures Lists(cycle[..], Pairs(consumerStates, |consumerStates|))
  {
    var flagA, flagB := false, false;
    var count := 0;
    var i := 0;
    while i < |consumerStates|
      invariant 0 <= i <= |consumerStates|
      invariant flagA == Wanted(consumerStates, i, 0) && flagB == Wanted(consumerStates, i, 1)
      invariant count == 2 * |Pairs(consumerStates, i)|
      invariant Lists(cycle[..], Pairs(consumerStates, i))
    {
      PairsGrow(consumerStates, i + 1, |consumerStates|);
      count, flagA, flagB := ScanRow(consumerStates[i], i, cycle, Pairs(consumerStates, i), count, flagA, flagB);
      i := i + 1;
    }
    return flagA && flagB;
  }

  lemma {:induction false} PairsAreTrue(rows: Matrix, k: nat, j: nat)
    requires k <= |rows| && j < |Pairs(rows, k)|
    ensures TruePair(rows, k, Pairs(rows, k)[j])
  {
    if j < |Pairs(rows, k - 1)| { PairsAreTrue(rows, k - 1, j); }
  }

  lemma {:induction false} WantsAreListed(rows: Matrix, k: nat, i: nat, x: nat)
    requires i < k <= |rows| && x < 2 && Wants(rows[i], x)
    ensures (i + NUM_PC, x) in Pairs(rows, k)
  {
    if i < k - 1 { WantsAreListed(rows, k - 1, i, x); }
  }

  /** Every pair is a true one, and every true one is a pair. */
  lemma PairsAreWants(rows: Matrix, k: nat)
    requires k <= |rows|
    ensures forall j :: 0 <= j < |Pairs(rows, k)| ==> TruePair(rows, k, Pairs(rows, k)[j])
    ensures forall i, x :: 0 <= i < k && 0 <= x < 2 && Wants(rows[i], x) ==> (i + NUM_PC, x) in Pairs(rows, k)
  {
    forall j: nat | j < |Pairs(rows, k)| ensures TruePair(rows, k, Pairs(rows, k)[j]) { PairsAreTrue(rows, k, j); }
    forall i: nat, x: nat | i < k && x < 2 && Wants(rows[i], x) ensures (i + NUM_PC, x) in Pairs(rows, k) {
      WantsAreListed(rows, k, i, x);
    }
  }

  ghost predicate TruePair(rows: Matrix, k: nat, pair: (int, int))
    requires k <= |rows|
  {
    NUM_PC <= pair.0 < NUM_PC + k && 0 <= pair.1 < 2 && Wants(rows[pair.0 - NUM_PC], pair.1)
  }

  lemma {:induction false} PairsDistinct(rows: Matrix, k: nat, i: nat, j: nat)
    requires k <= |rows| && i < j < |Pairs(rows, k)|
    ensures Pairs(rows, k)[i] != Pairs(rows, k)[j]
  {
    var before := Pairs(rows, k - 1);
    if j < |before| {
      PairsDistinct(rows, k - 1, i, j);
    } else if i < |before| {
      PairsAreWants(rows, k - 1);
      assert TruePair(rows, k - 1, before[i]);
    }
  }

  /** No two consumers hold the same queue and ask for the other. */
  ghost predicate OneWantEach(rows: Matrix) {
    forall x, i, j :: 0 <= x < 2 && 0 <= i < |rows| && 0 <= j < |rows| ==>
      Wants(rows[i], x) && Wants(rows[j], x) ==> i == j
  }

  lemma PairsDiffer(rows: Matrix, j: nat, k: nat)
    requires OneWantEach(rows) && j < k < |Pairs(rows, |rows|)|
    ensures 0 <= Pairs(rows, |rows|)[j].1 < 2 && 0 <= Pairs(rows, |rows|)[k].1 < 2
    ensures Pairs(rows, |rows|)[j].1 != Pairs(rows, |rows|)[k].1
  {
    PairsAreWants(rows, |rows|);
    PairsDistinct(rows, |rows|, j, k);
    var a, b := Pairs(rows, |rows|)[j], Pairs(rows, |rows|)[k];
    assert TruePair(rows, |rows|, a) && TruePair(rows, |rows|, b);
  }

  lemma AtMostTwoPairs(rows: Matrix)
    requires OneWantEach(rows)
    ensures |Pairs(rows, |rows|)| <= 2
  {
    if |Pairs(rows, |rows|)| >= 3 {
      PairsDiffer(rows, 0, 1);
      PairsDiffer(rows, 0, 2);
      PairsDiffer(rows, 1, 2);
    }
  }

  lemma DetectedAreTwoPairs(rows: Matrix)
    requires Detects(rows)
    ensures |Pairs(rows, |rows|)| >= 2
  {
    PairsAreWants(rows, |rows|);
    var a :| 0 <= a < |rows| && Wants(rows[a], 0);
    var b :| 0 <= b < |rows| && Wants(rows[b], 1);
    TwoMembers(Pairs(rows, |rows|), (a + NUM_PC, 0), (b + NUM_PC, 1));
  }

  lemma TwoMembers<T>(s: seq<T>, a: T, b: T)
    requires a in s && b in s && a != b
    ensures |s| >= 2
  {}

  /** At most four cells are written; on a detection exactly four, and they close a cycle of two consumers. */
  lemma PairsCloseCycle(rows: Matrix)
    requires OneWantEach(rows)
    ensures |Pairs(rows, |rows|)| <= 2
    ensures Detects(rows) ==>
              && |Pairs(rows, |rows|)| == 2
              && Pairs(rows, |rows|)[0].1 == 1 - Pairs(rows, |rows|)[1].1
  {
    AtMostTwoPairs(rows);
    if Detects(rows) {
      DetectedAreTwoPairs(rows);
      PairsDiffer(rows, 0, 1);
    }
  }

  // ---------- The scripts in tables ----------

  lemma {:induction false} OneHolds(script: seq<Op>, q: nat, pc: nat, m: nat)
    requires IsOne(script, q) && pc <= 7
    ensures Held(script, pc, m) <==> m == q && 2 <= pc <= 6
  {
    if pc > 0 { OneHolds(script, q, pc - 1, m); }
  }

  lemma {:induction false} OneShows(script: seq<Op>, q: nat, pc: nat, c: nat)
    requires IsOne(script, q) && pc <= 7
    ensures Shown(script, pc, c) ==
              if c != q then NONE
              else if pc == 0 then NONE else if pc <= 2 then REQUESTED else if pc <= 5 then ACQUIRED else NONE
  {
    if pc > 0 { OneShows(script, q, pc - 1, c); }
  }

  lemma {:induction false} TwoHolds(script: seq<Op>, q: nat, pc: nat, m: nat)
    requires IsTwo(script, q) && q < 2 && pc <= 14
    ensures Held(script, pc, m) <==> (m == q && 2 <= pc <= 11) || (m == Other(q) && 7 <= pc <= 13)
  {
    if pc > 0 { TwoHolds(script, q, pc - 1, m); }
  }

  lemma {:induction false} TwoShows(script: seq<Op>, q: nat, pc: nat, c: nat)
    requires IsTwo(script, q) && q < 2 && pc <= 14
    ensures Shown(script, pc, c) ==
              if c == q then
                (if pc == 0 then NONE else if pc <= 2 then REQUESTED else if pc <= 10 then ACQUIRED else NONE)
              else if c == Other(q) then
                (if pc <= 5 then NONE else if pc <= 7 then REQUESTED else if pc <= 12 then ACQUIRED else NONE)
              else NONE
  {
    if pc > 0 { TwoShows(script, q, pc - 1, c); }
  }

  lemma OneDisciplined(script: seq<Op>, q: nat)
    requires IsOne(script, q) && q < 2
    ensures Disciplined(script, NUM_Q, NUM_Q)
  {
    forall i | 0 <= i < |script| ensures LegalAt(script, i, NUM_Q, NUM_Q) { OneHolds(script, q, i, q); }
    forall m: nat | m < NUM_Q ensures !Held(script, |script|, m) { OneHolds(script, q, |script|, m); }
    forall c: nat | c < NUM_Q ensures Shown(script, |script|, c) == NONE { OneShows(script, q, |script|, c); }
  }

  lemma TwoDisciplined(script: seq<Op>, q: nat)
    requires IsTwo(script, q) && q < 2
    ensures Disciplined(script, NUM_Q, NUM_Q)
  {
    forall i | 0 <= i < |script| ensures LegalAt(script, i, NUM_Q, NUM_Q) {
      TwoHolds(script, q, i, q);
      TwoHolds(script, q, i, Other(q));
    }
    forall m: nat | m < NUM_Q ensures !Held(script, |script|, m) { TwoHolds(script, q, |script|, m); }
    forall c: nat | c < NUM_Q ensures Shown(script, |script|, c) == NONE { TwoShows(script, q, |script|, c); }
  }

  /** Work on a queue is done with its semaphore held, and the reading comes right before the acting. */
  lemma WorkTable(p: nat, avoid: bool, script: seq<Op>, pc: nat, stage: nat, q: nat)
    requires Choice(p, avoid, script) && pc < |script| && script[pc] == Work(stage, q)
    ensures q < NUM_Q && Held(script, pc, q) && (stage == PEEK || stage == ACT)
    ensures stage == ACT ==> pc > 0 && script[pc - 1] == Work(PEEK, q)
  {
    var r: nat :| r < 2 && (IsOne(script, r) || IsTwo(script, r));
    if IsOne(script, r) { OneHolds(script, r, pc, q); } else { TwoHolds(script, r, pc, q); }
  }

  /** Whoever waits with a queue in hand is a consumer that took that one first. */
  lemma WaitTable(p: nat, avoid: bool, script: seq<Op>, pc: nat, m: nat, held: nat)
    requires Choice(p, avoid, script) && pc < |script| && script[pc] == Acquire(m) && Held(script, pc, held)
    ensures held < 2 && m == Other(held) && IsTwo(script, held) && pc == 6 && p >= NUM_PC
  {
    var r: nat :| r < 2 && (IsOne(script, r) || (IsTwo(script, r) && p >= NUM_PC));
    if IsOne(script, r) { OneHolds(script, r, pc, held); } else { TwoHolds(script, r, pc, held); }
  }

  lemma TwoUnique(script: seq<Op>, q: nat, r: nat)
    requires IsTwo(script, q) && IsTwo(script, r)
    ensures q == r
  {
    assert script[0] == TwoOp(q, 0) && script[0] == TwoOp(r, 0);
  }

  /** The row of a consumer, at effective position `at`, that has asked for x and holds the other queue. */
  lemma WantTable(p: nat, avoid: bool, script: seq<Op>, at: nat, x: nat)
    requires Choice(p, avoid, script) && at <= |script| && x < 2
    ensures Shown(script, at, x) == REQUESTED && Shown(script, at, Other(x)) == ACQUIRED <==>
              IsTwo(script, Other(x)) && (at == 6 || at == 7)
  {
    var r: nat :| r < 2 && (IsOne(script, r) || IsTwo(script, r));
    if IsOne(script, r) {
      OneShows(script, r, at, x);
      OneShows(script, r, at, Other(x));
    } else {
      if IsTwo(script, Other(x)) { TwoUnique(script, r, Other(x)); }
      TwoShows(script, r, at, x);
      TwoShows(script, r, at, Other(x));
    }
  }

  // ---------- Runs ----------

  /** mtype is the producer's id plus NUM_PC. */
  datatype Message = Message(mtype: nat, value: int)

  /** `sent` and `taken` record the whole history of each queue. */
  datatype Plant = Plant(sys: System, avoid: bool, queues: seq<seq<Message>>, peeked: seq<nat>,
                         sent: seq<seq<Message>>, taken: seq<seq<Message>>, inserts: seq<nat>, consumes: seq<nat>)

  datatype Event =
    | ProcessStep(p: nat, value: int)            // value: what rand() gives a producer
    | NextIteration(q: nat, script: seq<Op>)
    | ManagerTurn

  ghost predicate Init(s: Plant) {
    && s.sys == System(seq(PROCESSES, _ => Process([], 0, Outside)), [1, 1], 1, seq(PROCESSES, _ => [NONE, NONE]), Idle)
    && s.queues == [[], []] && s.sent == [[], []] && s.taken == [[], []]
    && s.peeked == s.inserts == s.consumes == [0, 0, 0, 0, 0, 0, 0, 0, 0, 0]
  }

  /** The manager checks the consumer rows of its snapshot. */
  predicate Verdict(m: Matrix) { |m| >= NUM_PC && Detects(m[NUM_PC..]) }

  predicate Possible(s: Plant, e: Event) {
    match e
    case ProcessStep(p, _) => Enabled(s.sys, p)
    case NextIteration(p, script) => p < |s.sys.procs| && !Unfinished(s.sys, p) && Choice(p, s.avoid, script)
    case ManagerTurn => ManagerEnabled(s.sys)
  }

  ghost predicate DataShaped(s: Plant) {
    && |s.queues| == |s.sent| == |s.taken| == NUM_Q
    && |s.peeked| == |s.inserts| == |s.consumes| == PROCESSES
  }

  /** What a Work operation of process p does to the queues. */
  function WorkOn(s: Plant, p: nat, stage: nat, q: nat, value: int): Plant
    requires DataShaped(s) && p < PROCESSES && q < NUM_Q
  {
    if stage == PEEK then
      s.(peeked := s.peeked[p := |s.queues[q]|])
    else if p < NUM_PC then
      if s.peeked[p] >= Q_SIZE then s
      else
        var m := Message(p + NUM_PC, value);
        s.(queues := s.queues[q := s.queues[q] + [m]], sent := s.sent[q := s.sent[q] + [m]],
           inserts := s.inserts[p := s.inserts[p] + 1])
    else
      if s.peeked[p] == 0 || |s.queues[q]| == 0 then s
      else
        s.(queues := s.queues[q := s.queues[q][1..]], taken := s.taken[q := s.taken[q] + [s.queues[q][0]]],
           consumes := s.consumes[p := s.consumes[p] + 1])
  }

  function After(s: Plant, e: Event): Plant
    requires Possible(s, e) && DataShaped(s) && |s.sys.procs| == PROCESSES
  {
    match e
    case ProcessStep(p, value) =>
      var op := s.sys.procs[p].script[s.sys.procs[p].pc];
      var t := if op.Work? && op.subject < NUM_Q then WorkOn(s, p, op.stage, op.subject, value) else s;
      t.(sys := Step(s.sys, p))
    case NextIteration(p, script) => s.(sys := Begin(s.sys, p, script))
    case ManagerTurn => s.(sys := ManagerStep(s.sys, Verdict))
  }

  /** The states of a run that starts in `states[0]`. */
  ghost predicate Trace(states: seq<Plant>, events: seq<Event>) {
    && |states| == |events| + 1
    && (forall i :: 0 <= i < |states| ==> DataShaped(states[i]) && |states[i].sys.procs| == PROCESSES)
    && forall i :: 0 <= i < |events| ==> Possible(states[i], events[i]) && states[i + 1] == After(states[i], events[i])
  }

  ghost predicate Run(states: seq<Plant>, events: seq<Event>) {
    Trace(states, events) && Init(states[0])
  }

  // ---------- Circular wait ----------

  /** Consumer c holds the other queue and has asked for queue x: nothing but sem_wait lies ahead. */
  predicate Committed(s: System, c: nat, x: nat) {
    NUM_PC <= c < |s.procs| && IsTwo(s.procs[c].script, Other(x)) &&
    (s.procs[c].pc == 6 || (s.procs[c].pc == 5 && s.procs[c].micro.Written?))
  }

  predicate Blocked(s: System, c: nat, x: nat) {
    Committed(s, c, x) && WaitsAt(s, c, x) && Holds(s, c, Other(x))
  }

  ghost predicate SomeCommitted(s: System, x: nat) { exists c :: Committed(s, c, x) }

  ghost predicate SomeBlocked(s: System, x: nat) { exists c :: Blocked(s, c, x) }

  ghost predicate CircularWait(s: System) { SomeCommitted(s, 0) && SomeCommitted(s, 1) }

  /** Two consumers each hold one queue and stand at the sem_wait of the other's. */
  ghost predicate Deadlocked(s: System) { SomeBlocked(s, 0) && SomeBlocked(s, 1) }

  ghost predicate Assigned(s: System, avoid: bool) {
    && |s.procs| == PROCESSES
    && forall p :: 0 <= p < PROCESSES ==> s.procs[p].script == [] || Choice(p, avoid, s.procs[p].script)
  }

  ghost predicate Sound(s: System, avoid: bool) { Inv(s, NUM_Q, NUM_Q) && Assigned(s, avoid) }

  lemma WantsTable(s: System, avoid: bool, c: nat, x: nat)
    requires Sound(s, avoid) && NUM_PC <= c < PROCESSES && x < 2
    ensures Wants(s.matrix[c], x) <==>
              Committed(s, c, x)
              || (IsTwo(s.procs[c].script, Other(x)) && s.procs[c].pc == 7 && !s.procs[c].micro.Written?)
  {
    var proc := s.procs[c];
    var at := if proc.micro.Written? then proc.pc + 1 else proc.pc;
    assert ProcessOk(proc, NUM_Q, NUM_Q);
    assert s.matrix[c][x] == Published(proc, x) && s.matrix[c][Other(x)] == Published(proc, Other(x));
    if proc.script != [] { WantTable(c, avoid, proc.script, at, x); }
    if IsTwo(proc.script, Other(x)) { assert proc.script[6] == Acquire(x); }
  }

  lemma WantsHolds(s: System, avoid: bool, c: nat, x: nat)
    requires Sound(s, avoid) && NUM_PC <= c < PROCESSES && x < 2 && Wants(s.matrix[c], x)
    ensures Holds(s, c, Other(x))
    ensures !Committed(s, c, x) ==> Holds(s, c, x)
  {
    WantsTable(s, avoid, c, x);
    TwoHolds(s.procs[c].script, Other(x), s.procs[c].pc, Other(x));
    TwoHolds(s.procs[c].script, Other(x), s.procs[c].pc, x);
  }

  lemma SameWantSameConsumer(s: System, avoid: bool, c: nat, d: nat, x: nat)
    requires Sound(s, avoid) && x < 2 && NUM_PC <= c < PROCESSES && NUM_PC <= d < PROCESSES
    requires Wants(s.matrix[c], x) && Wants(s.matrix[d], x)
    ensures c == d
  {
    WantsHolds(s, avoid, c, x);
    WantsHolds(s, avoid, d, x);
    HolderUnique(s, c, d, Other(x), NUM_Q, NUM_Q);
  }

  lemma OneWantInReach(s: System, avoid: bool)
    requires Sound(s, avoid)
    ensures OneWantEach(s.matrix[NUM_PC..])
  {
    var rows := s.matrix[NUM_PC..];
    forall x, i, j | 0 <= x < 2 && 0 <= i < |rows| && 0 <= j < |rows| && Wants(rows[i], x) && Wants(rows[j], x)
      ensures i == j {
      SameWantSameConsumer(s, avoid, i + NUM_PC, j + NUM_PC, x);
    }
  }

  lemma CommittedShows(s: System, avoid: bool, x: nat)
    requires Sound(s, avoid) && x < 2 && SomeCommitted(s, x)
    ensures Wanted(s.matrix[NUM_PC..], |s.matrix[NUM_PC..]|, x)
  {
    var c: nat :| Committed(s, c, x);
    WantsTable(s, avoid, c, x);
    assert s.matrix[NUM_PC..][c - NUM_PC] == s.matrix[c];
  }

  /** Of two wants for different queues neither can have been granted. */
  lemma CrossedWants(s: System, avoid: bool, c: nat, d: nat, x: nat)
    requires Sound(s, avoid) && x < 2 && NUM_PC <= c < PROCESSES && NUM_PC <= d < PROCESSES
    requires Wants(s.matrix[c], x) && Wants(s.matrix[d], Other(x))
    ensures Committed(s, c, x)
  {
    WantsHolds(s, avoid, c, x);
    WantsHolds(s, avoid, d, Other(x));
    if !Committed(s, c, x) { HolderUnique(s, c, d, x, NUM_Q, NUM_Q); }
  }

  /** The detector is exact although the matrix lags behind the semaphores. */
  lemma DetectorIsExact(s: System, avoid: bool)
    requires Sound(s, avoid)
    ensures Verdict(s.matrix) <==> CircularWait(s)
    ensures Fits(s.matrix[NUM_PC..], 4)
  {
    var rows := s.matrix[NUM_PC..];
    OneWantInReach(s, avoid);
    PairsCloseCycle(rows);
    if CircularWait(s) {
      CommittedShows(s, avoid, 0);
      CommittedShows(s, avoid, 1);
    }
    if Detects(rows) { DetectedMeansWait(s, avoid); }
  }

  lemma DetectedMeansWait(s: System, avoid: bool)
    requires Sound(s, avoid) && Detects(s.matrix[NUM_PC..])
    ensures CircularWait(s)
  {
    var a := VerdictHasWants(s.matrix, 0);
    var b := VerdictHasWants(s.matrix, 1);
    CrossedWants(s, avoid, a, b, 0);
    CrossedWants(s, avoid, b, a, 1);
  }

  // ---------- A circular wait is permanent ----------

  lemma CommittedTaken(s: System, avoid: bool, x: nat)
    requires Sound(s, avoid) && x < 2 && SomeCommitted(s, x)
    ensures s.sems[Other(x)] == 0
  {
    var c: nat :| Committed(s, c, x);
    TwoHolds(s.procs[c].script, Other(x), s.procs[c].pc, Other(x));
    assert Holds(s, c, Other(x)) && Exclusive(s, Other(x));
  }

  lemma StepKeepsCommitted(s: System, p: nat, c: nat, x: nat)
    requires Enabled(s, p) && Committed(s, c, x) && x < 2
    requires x < |s.sems| && s.sems[x] == 0
    ensures Committed(Step(s, p), c, x)
  {
    assert s.procs[c].script[6] == Acquire(x) && s.procs[c].script[5].Publish?;
    AnnouncedStays(s, p, c, 6, x);
  }

  lemma CommittedStays(s: Plant, e: Event, x: nat)
    requires Sound(s.sys, s.avoid) && DataShaped(s) && Possible(s, e)
    requires CircularWait(s.sys) && x < 2
    ensures SomeCommitted(After(s, e).sys, x)
  {
    CommittedTaken(s.sys, s.avoid, Other(x));
    var c: nat :| Committed(s.sys, c, x);
    if e.ProcessStep? {
      StepKeepsCommitted(s.sys, e.p, c, x);
      assert After(s, e).sys == Step(s.sys, e.p);
    }
    assert Committed(After(s, e).sys, c, x);
  }

  lemma CircularWaitStays(s: Plant, e: Event)
    requires Sound(s.sys, s.avoid) && DataShaped(s) && Possible(s, e) && CircularWait(s.sys)
    ensures CircularWait(After(s, e).sys)
  {
    CommittedStays(s, e, 0);
    CommittedStays(s, e, 1);
  }

  lemma QuietMatrixMeansBlocked(s: System, x: nat)
    requires Inv(s, NUM_Q, NUM_Q) && x < 2 && forall p :: !Inside(s, p)
    ensures SomeCommitted(s, x) <==> SomeBlocked(s, x)
  {
    if c: nat :| Committed(s, c, x) {
      assert !Inside(s, c);
      TwoHolds(s.procs[c].script, Other(x), 6, Other(x));
      assert Blocked(s, c, x);
    }
  }

  // ---------- The queues ----------

  function Sum(a: seq<nat>): nat {
    if a == [] then 0 else a[0] + Sum(a[1..])
  }

  lemma {:induction false} SumAfterIncrement(a: seq<nat>, i: nat)
    requires i < |a|
    ensures Sum(a[i := a[i] + 1]) == Sum(a) + 1
  {
    if i == 0 {
      assert a[i := a[i] + 1][1..] == a[1..];
    } else {
      assert a[i := a[i] + 1][1..] == a[1..][i - 1 := a[1..][i - 1] + 1];
      SumAfterIncrement(a[1..], i - 1);
    }
  }

  /**
   Bounded, first in first out, nothing lost: what was sent is what was taken followed by what
   is queued; and a process about to act on a queue has read its true length.
   */
  ghost predicate Conserved(s: Plant)
    requires DataShaped(s)
  {
    && (forall q :: 0 <= q < NUM_Q ==> |s.queues[q]| <= Q_SIZE && s.sent[q] == s.taken[q] + s.queues[q])
    && Sum(s.inserts) == |s.sent[0]| + |s.sent[1]|
    && Sum(s.consumes) == |s.taken[0]| + |s.taken[1]|
    && Sum(s.inserts) == Sum(s.consumes) + |s.queues[0]| + |s.queues[1]|
  }

  predicate AtAct(s: System, p: nat, q: nat) {
    Unfinished(s, p) && s.procs[p].script[s.procs[p].pc] == Work(ACT, q)
  }

  ghost predicate PeekedTrue(s: Plant)
    requires DataShaped(s)
  {
    forall p, q :: 0 <= p < PROCESSES && 0 <= q < NUM_Q && AtAct(s.sys, p, q) ==> s.peeked[p] == |s.queues[q]|
  }

  ghost predicate PlantInv(s: Plant) {
    Sound(s.sys, s.avoid) && DataShaped(s) && Conserved(s) && PeekedTrue(s) && Honest(s.sys)
  }

  /** A snapshot under the lock tells the truth; one taken earlier can only have missed a later wait. */
  ghost predicate Honest(s: System) {
    match s.manager
    case Read(m) => |m| == PROCESSES && (Verdict(m) <==> CircularWait(s)) && Fits(m[NUM_PC..], 4)
    case Checking(m) => |m| == PROCESSES && (Verdict(m) ==> CircularWait(s)) && Fits(m[NUM_PC..], 4)
    case Reported => CircularWait(s)
    case _ => true
  }

  /** Whoever works on a queue holds its semaphore. */
  lemma WorkHolds(s: System, avoid: bool, p: nat, stage: nat, q: nat)
    requires Sound(s, avoid) && Unfinished(s, p) && s.procs[p].script[s.procs[p].pc] == Work(stage, q)
    ensures q < NUM_Q && Holds(s, p, q)
    ensures stage == PEEK || stage == ACT
  {
    WorkTable(p, avoid, s.procs[p].script, s.procs[p].pc, stage, q);
  }

  lemma InsertKeepsConserved(s: Plant, p: nat, q: nat, value: int)
    requires DataShaped(s) && Conserved(s) && p < NUM_PC && q < NUM_Q
    requires s.peeked[p] == |s.queues[q]|
    ensures Conserved(WorkOn(s, p, ACT, q, value))
  {
    SumAfterIncrement(s.inserts, p);
  }

  lemma RemoveKeepsConserved(s: Plant, p: nat, q: nat, value: int)
    requires DataShaped(s) && Conserved(s) && NUM_PC <= p < PROCESSES && q < NUM_Q
    ensures Conserved(WorkOn(s, p, ACT, q, value))
  {
    SumAfterIncrement(s.consumes, p);
    if s.queues[q] != [] {
      assert s.taken[q] + s.queues[q] == s.taken[q] + [s.queues[q][0]] + s.queues[q][1..];
    }
  }

  lemma StepKeepsData(s: Plant, p: nat, value: int)
    requires Sound(s.sys, s.avoid) && DataShaped(s) && Conserved(s) && PeekedTrue(s) && Enabled(s.sys, p)
    ensures DataShaped(After(s, ProcessStep(p, value))) && Conserved(After(s, ProcessStep(p, value)))
  {
    var op := s.sys.procs[p].script[s.sys.procs[p].pc];
    if op.Work? {
      WorkHolds(s.sys, s.avoid, p, op.stage, op.subject);
      if op.stage == ACT { assert AtAct(s.sys, p, op.subject); }
      WorkKeepsConserved(s, p, op.stage, op.subject, value);
    }
  }

  lemma WorkKeepsConserved(s: Plant, p: nat, stage: nat, q: nat, value: int)
    requires DataShaped(s) && Conserved(s) && p < PROCESSES && q < NUM_Q
    requires stage == ACT ==> s.peeked[p] == |s.queues[q]|
    requires stage == PEEK || stage == ACT
    ensures DataShaped(WorkOn(s, p, stage, q, value)) && Conserved(WorkOn(s, p, stage, q, value))
  {
    if stage == ACT {
      if p < NUM_PC { InsertKeepsConserved(s, p, q, value); } else { RemoveKeepsConserved(s, p, q, value); }
    }
  }

  /** The two works of an iteration follow each other on the same queue. */
  lemma PeekBeforeAct(s: System, avoid: bool, p: nat, q: nat)
    requires Sound(s, avoid) && AtAct(s, p, q)
    ensures q < NUM_Q && s.procs[p].pc > 0 && s.procs[p].script[s.procs[p].pc - 1] == Work(PEEK, q)
  {
    WorkTable(p, avoid, s.procs[p].script, s.procs[p].pc, ACT, q);
  }

  /** The length a process has read stays true until it acts: nobody else can touch the queue in between. */
  lemma StepKeepsPeeked(s: Plant, p: nat, value: int, r: nat, q: nat)
    requires Sound(s.sys, s.avoid) && DataShaped(s) && PeekedTrue(s) && Enabled(s.sys, p)
    requires r < PROCESSES && q < NUM_Q && AtAct(Step(s.sys, p), r, q) && Sound(Step(s.sys, p), s.avoid)
    ensures After(s, ProcessStep(p, value)).peeked[r] == |After(s, ProcessStep(p, value)).queues[q]|
  {
    var op := s.sys.procs[p].script[s.sys.procs[p].pc];
    if op.Work? { WorkHolds(s.sys, s.avoid, p, op.stage, op.subject); }
    if r == p {
      PeekBeforeAct(Step(s.sys, p), s.avoid, p, q);
    } else {
      assert AtAct(s.sys, r, q);
      WorkHolds(s.sys, s.avoid, r, ACT, q);
      if op.Work? && op.subject == q { HolderUnique(s.sys, p, r, q, NUM_Q, NUM_Q); }
    }
  }

  // ---------- The invariant of every run ----------

  lemma SystemKept(s: Plant, e: Event)
    requires Sound(s.sys, s.avoid) && DataShaped(s) && Possible(s, e)
    ensures Sound(After(s, e).sys, s.avoid)
  {
    match e {
      case ProcessStep(p, _) =>
        StepKeepsInv(s.sys, p, NUM_Q, NUM_Q);
        assert forall i :: 0 <= i < PROCESSES ==> Step(s.sys, p).procs[i].script == s.sys.procs[i].script;
      case NextIteration(p, script) =>
        var q: nat :| q < 2 && (IsOne(script, q) || IsTwo(script, q));
        if IsOne(script, q) { OneDisciplined(script, q); } else { TwoDisciplined(script, q); }
        BeginKeepsInv(s.sys, p, script, NUM_Q, NUM_Q);
      case ManagerTurn => ManagerKeepsInv(s.sys, Verdict, NUM_Q, NUM_Q);
    }
  }

  lemma DataKept(s: Plant, e: Event)
    requires PlantInv(s) && Possible(s, e)
    requires Sound(After(s, e).sys, s.avoid)
    ensures DataShaped(After(s, e)) && Conserved(After(s, e)) && PeekedTrue(After(s, e))
  {
    var t := After(s, e);
    match e {
      case ProcessStep(p, value) =>
        StepKeepsData(s, p, value);
        forall r, q | 0 <= r < PROCESSES && 0 <= q < NUM_Q && AtAct(t.sys, r, q) ensures t.peeked[r] == |t.queues[q]| {
          StepKeepsPeeked(s, p, value, r, q);
        }
      case NextIteration(p, script) =>
        assert forall r: nat, q: nat :: AtAct(t.sys, r, q) ==> AtAct(s.sys, r, q);
      case ManagerTurn =>
        assert forall r: nat, q: nat :: AtAct(t.sys, r, q) ==> AtAct(s.sys, r, q);
    }
  }

  lemma ReadIsHonest(s: System, avoid: bool)
    requires Sound(s, avoid) && s.manager.Read?
    ensures var m := s.manager.copy;
            |m| == PROCESSES && (Verdict(m) <==> CircularWait(s)) && Fits(m[NUM_PC..], 4)
  {
    DetectorIsExact(s, avoid);
  }

  lemma HonestKept(s: Plant, e: Event)
    requires Sound(s.sys, s.avoid) && Honest(s.sys) && DataShaped(s) && Possible(s, e)
    requires CircularWait(s.sys) ==> CircularWait(After(s, e).sys)
    requires var t := After(s, e).sys;
             t.manager.Read? ==>
               && |t.manager.copy| == PROCESSES
               && (Verdict(t.manager.copy) <==> CircularWait(t)) && Fits(t.manager.copy[NUM_PC..], 4)
    ensures Honest(After(s, e).sys)
  {
  }

  lemma HonestStays(s: Plant, e: Event)
    requires PlantInv(s) && Possible(s, e)
    requires Sound(After(s, e).sys, s.avoid)
    ensures Honest(After(s, e).sys)
  {
    if CircularWait(s.sys) { CircularWaitStays(s, e); }
    if After(s, e).sys.manager.Read? { ReadIsHonest(After(s, e).sys, s.avoid); }
    HonestKept(s, e);
  }

  lemma EventKeepsInv(s: Plant, e: Event)
    requires PlantInv(s) && Possible(s, e)
    ensures PlantInv(After(s, e)) && After(s, e).avoid == s.avoid
  {
    SystemKept(s, e);
    DataKept(s, e);
    HonestStays(s, e);
  }

  lemma {:induction false} ZerosSum(a: seq<nat>)
    requires forall i :: 0 <= i < |a| ==> a[i] == 0
    ensures Sum(a) == 0
  {
    if a != [] { ZerosSum(a[1..]); }
  }

  lemma InitHasInv(s: Plant)
    requires Init(s)
    ensures PlantInv(s)
  {
    assert Exclusive(s.sys, 0) && Exclusive(s.sys, 1);
    assert MatrixExclusive(s.sys);
    ZerosSum(s.inserts);
  }

  lemma {:induction false} TraceKeepsInv(states: seq<Plant>, events: seq<Event>, i: nat)
    requires Trace(states, events) && PlantInv(states[0]) && i < |states|
    ensures PlantInv(states[i]) && states[i].avoid == states[0].avoid
  {
    if i > 0 {
      TraceKeepsInv(states, events, i - 1);
      EventKeepsInv(states[i - 1], events[i - 1]);
    }
  }

  lemma AcquiredTable(p: nat, avoid: bool, script: seq<Op>, pc: nat, at: nat, q: nat)
    requires Choice(p, avoid, script) && pc <= at <= pc + 1 && at <= |script| && q < NUM_Q
    requires at == pc + 1 ==> script[pc].Publish?
    requires Shown(script, at, q) == ACQUIRED
    ensures Held(script, pc, q)
  {
    var r: nat :| r < 2 && (IsOne(script, r) || IsTwo(script, r));
    if IsOne(script, r) {
      OneShows(script, r, at, q);
      OneHolds(script, r, pc, q);
    } else {
      TwoShows(script, r, at, q);
      TwoHolds(script, r, pc, q);
      if at == pc + 1 { assert script[pc] == TwoOp(r, pc); }
    }
  }

  lemma AcquiredMeansHolds(s: System, avoid: bool, p: nat, q: nat)
    requires Sound(s, avoid) && p < PROCESSES && q < NUM_Q && s.matrix[p][q] == ACQUIRED
    ensures Holds(s, p, q)
  {
    var proc := s.procs[p];
    assert ProcessOk(proc, NUM_Q, NUM_Q) && s.matrix[p][q] == Published(proc, q);
    if proc.script != [] {
      AcquiredTable(p, avoid, proc.script, proc.pc, if proc.micro.Written? then proc.pc + 1 else proc.pc, q);
    }
  }

  /** In every state of every run the file shows exactly what each process has published, a LOCK cell
      is backed by the semaphore, and no column has two of them. */
  lemma MatrixFidelity(states: seq<Plant>, events: seq<Event>, i: nat, p: nat, q: nat)
    requires Run(states, events) && i < |states| && p < PROCESSES && q < NUM_Q
    ensures var s := states[i].sys;
            && Inv(s, NUM_Q, NUM_Q) && |s.procs| == PROCESSES
            && s.matrix[p][q] == Published(s.procs[p], q)
            && (s.matrix[p][q] == ACQUIRED ==>
                  Holds(s, p, q) && forall r :: 0 <= r < PROCESSES && r != p ==> s.matrix[r][q] != ACQUIRED)
  {
    var s := states[i].sys;
    InitHasInv(states[0]);
    TraceKeepsInv(states, events, i);
    if s.matrix[p][q] == ACQUIRED {
      AcquiredMeansHolds(s, states[i].avoid, p, q);
      forall r: nat | r < PROCESSES && s.matrix[r][q] == ACQUIRED ensures r == p {
        AcquiredMeansHolds(s, states[i].avoid, r, q);
        HolderUnique(s, p, r, q, NUM_Q, NUM_Q);
      }
    }
  }

  /** No call on a queue ever fails: whoever found room still has it, whoever found a message still
      finds one -- the oldest that is not taken yet. */
  lemma QueueCallsSucceed(states: seq<Plant>, events: seq<Event>, i: nat, p: nat, q: nat)
    requires Run(states, events) && i < |states| && AtAct(states[i].sys, p, q)
    ensures p < PROCESSES && q < NUM_Q
    ensures states[i].peeked[p] < Q_SIZE <==> |states[i].queues[q]| < Q_SIZE
    ensures states[i].peeked[p] != 0 ==>
              states[i].queues[q] != [] && |states[i].taken[q]| < |states[i].sent[q]|
              && states[i].queues[q][0] == states[i].sent[q][|states[i].taken[q]|]
  {
    InitHasInv(states[0]);
    TraceKeepsInv(states, events, i);
    WorkHolds(states[i].sys, states[i].avoid, p, ACT, q);
  }

  /** Exact and permanent over every run; what the manager reports is true, its snapshot misses nothing. */
  lemma DetectionOverRuns(states: seq<Plant>, events: seq<Event>, i: nat, j: nat)
    requires Run(states, events) && i <= j < |states|
    ensures Verdict(states[i].sys.matrix) <==> CircularWait(states[i].sys)
    ensures CircularWait(states[i].sys) ==> CircularWait(states[j].sys)
    ensures states[j].sys.manager.Reported? ==> CircularWait(states[j].sys)
    ensures states[j].sys.manager.Read? ==> (Verdict(states[j].sys.manager.copy) <==> Deadlocked(states[j].sys))
    decreases j
  {
    InitHasInv(states[0]);
    TraceKeepsInv(states, events, i);
    DetectorIsExact(states[i].sys, states[i].avoid);
    TraceKeepsInv(states, events, j);
    if CircularWait(states[i].sys) { CircularWaitForever(states, events, i, j); }
    if states[j].sys.manager.Read? { SnapshotIsExact(states[j]); }
  }

  lemma SnapshotIsExact(s: Plant)
    requires PlantInv(s) && s.sys.manager.Read?
    ensures Verdict(s.sys.manager.copy) <==> Deadlocked(s.sys)
  {
    QuietMatrixMeansBlocked(s.sys, 0);
    QuietMatrixMeansBlocked(s.sys, 1);
  }

  lemma CircularWaitGoesOn(states: seq<Plant>, events: seq<Event>, k: nat)
    requires Run(states, events) && k < |events| && CircularWait(states[k].sys)
    ensures CircularWait(states[k + 1].sys)
  {
    InitHasInv(states[0]);
    TraceKeepsInv(states, events, k);
    CircularWaitStays(states[k], events[k]);
  }

  lemma {:induction false} CircularWaitForever(states: seq<Plant>, events: seq<Event>, i: nat, j: nat)
    requires Run(states, events) && i <= j < |states| && CircularWait(states[i].sys)
    ensures CircularWait(states[j].sys)
    decreases j
  {
    if i < j {
      CircularWaitForever(states, events, i, j - 1);
      CircularWaitGoesOn(states, events, j - 1);
    }
  }

  // ---------- What the manager prints ----------

  /** Every want that the snapshot m shows is a wait that lasts: its consumer is committed in s. */
  ghost predicate WantsLast(s: System, m: Matrix) {
    |m| == PROCESSES
    && forall c, x :: NUM_PC <= c < PROCESSES && 0 <= x < 2 && Wants(m[c], x) ==> Committed(s, c, x)
  }

  lemma VerdictHasWants(m: Matrix, x: nat) returns (c: nat)
    requires |m| == PROCESSES && Verdict(m) && x < 2
    ensures NUM_PC <= c < PROCESSES && Wants(m[c], x)
  {
    var rows := m[NUM_PC..];
    assert Wanted(rows, |rows|, x);
    var i :| 0 <= i < |rows| && Wants(rows[i], x);
    c := i + NUM_PC;
  }

  lemma WantLastsWhenRead(s: System, avoid: bool, c: nat, x: nat)
    requires Sound(s, avoid) && Verdict(s.matrix) && NUM_PC <= c < PROCESSES && x < 2 && Wants(s.matrix[c], x)
    ensures Committed(s, c, x)
  {
    var d := VerdictHasWants(s.matrix, Other(x));
    CrossedWants(s, avoid, c, d, x);
  }

  lemma WantsLastWhenRead(s: System, avoid: bool)
    requires Sound(s, avoid) && Verdict(s.matrix)
    ensures WantsLast(s, s.matrix)
  {
    forall c, x: nat | NUM_PC <= c < PROCESSES && x < 2 && Wants(s.matrix[c], x) ensures Committed(s, c, x) {
      WantLastsWhenRead(s, avoid, c, x);
    }
  }

  lemma WantsLastMeansWait(s: System, m: Matrix)
    requires WantsLast(s, m) && Verdict(m)
    ensures CircularWait(s)
  {
    var a := VerdictHasWants(m, 0);
    var b := VerdictHasWants(m, 1);
    assert Committed(s, a, 0) && Committed(s, b, 1);
  }

  /** Each single wait of a circular wait is permanent. */
  lemma EachWaitStays(s: Plant, e: Event, c: nat, x: nat)
    requires Sound(s.sys, s.avoid) && DataShaped(s) && Possible(s, e)
    requires CircularWait(s.sys) && x < 2 && Committed(s.sys, c, x)
    ensures Committed(After(s, e).sys, c, x)
  {
    assert SomeCommitted(s.sys, Other(x));
    CommittedTaken(s.sys, s.avoid, Other(x));
    if e.ProcessStep? {
      StepKeepsCommitted(s.sys, e.p, c, x);
      assert After(s, e).sys == Step(s.sys, e.p);
    }
  }

  lemma WantsStillLast(s: Plant, e: Event, m: Matrix)
    requires Sound(s.sys, s.avoid) && DataShaped(s) && Possible(s, e)
    requires WantsLast(s.sys, m) && Verdict(m)
    ensures WantsLast(After(s, e).sys, m)
  {
    WantsLastMeansWait(s.sys, m);
    forall c, x: nat | NUM_PC <= c < PROCESSES && x < 2 && Wants(m[c], x) ensures Committed(After(s, e).sys, c, x) {
      EachWaitStays(s, e, c, x);
    }
  }

  /** The snapshot under check, if it shows a cycle, shows only waits that last. */
  ghost predicate Lasting(s: System) {
    s.manager.Checking? && Verdict(s.manager.snapshot) ==> WantsLast(s, s.manager.snapshot)
  }

  lemma SnapshotOf(s: Plant, e: Event)
    requires DataShaped(s) && |s.sys.procs| == PROCESSES && CopiesCurrent(s.sys) && Possible(s, e)
    requires After(s, e).sys.manager.Checking?
    ensures After(s, e).sys.manager.snapshot == if s.sys.manager.Checking? then s.sys.manager.snapshot else s.sys.matrix
  {}

  lemma LastingKept(s: Plant, e: Event)
    requires PlantInv(s) && Possible(s, e) && Lasting(s.sys)
    ensures Lasting(After(s, e).sys)
  {
    if After(s, e).sys.manager.Checking? && Verdict(After(s, e).sys.manager.snapshot) {
      SnapshotOf(s, e);
      if !s.sys.manager.Checking? { WantsLastWhenRead(s.sys, s.avoid); }
      WantsStillLast(s, e, After(s, e).sys.manager.snapshot);
    }
  }

  lemma LastingGoesOn(states: seq<Plant>, events: seq<Event>, k: nat)
    requires Run(states, events) && k < |events| && Lasting(states[k].sys)
    ensures Lasting(states[k + 1].sys)
  {
    InitHasInv(states[0]);
    TraceKeepsInv(states, events, k);
    LastingKept(states[k], events[k]);
  }

  lemma {:induction false} LastingAlongRun(states: seq<Plant>, events: seq<Event>, i: nat)
    requires Run(states, events) && i < |states|
    ensures Lasting(states[i].sys)
  {
    if i > 0 {
      LastingAlongRun(states, events, i - 1);
      LastingGoesOn(states, events, i - 1);
    }
  }

  lemma WantsLastGoOn(states: seq<Plant>, events: seq<Event>, k: nat, m: Matrix)
    requires Run(states, events) && k < |events| && WantsLast(states[k].sys, m) && Verdict(m)
    ensures WantsLast(states[k + 1].sys, m)
  {
    InitHasInv(states[0]);
    TraceKeepsInv(states, events, k);
    WantsStillLast(states[k], events[k], m);
  }

  /** From the check on, while the manager prints and ever after. */
  lemma {:induction false} WantsLastForever(states: seq<Plant>, events: seq<Event>, i: nat, j: nat, m: Matrix)
    requires Run(states, events) && i <= j < |states| && WantsLast(states[i].sys, m) && Verdict(m)
    ensures WantsLast(states[j].sys, m)
    decreases j
  {
    if i < j {
      WantsLastForever(states, events, i, j - 1, m);
      WantsLastGoOn(states, events, j - 1, m);
    }
  }

  lemma CommittedHolds(s: System, avoid: bool, c: nat, x: nat)
    requires Sound(s, avoid) && x < 2 && Committed(s, c, x)
    ensures Holds(s, c, Other(x))
  {
    TwoHolds(s.procs[c].script, Other(x), s.procs[c].pc, Other(x));
  }

  lemma SnapshotHasOneWantEach(s: System, avoid: bool, m: Matrix)
    requires Sound(s, avoid) && WantsLast(s, m)
    ensures OneWantEach(m[NUM_PC..])
  {
    var rows := m[NUM_PC..];
    forall x, i, j | 0 <= x < 2 && 0 <= i < |rows| && 0 <= j < |rows| && Wants(rows[i], x) && Wants(rows[j], x)
      ensures i == j {
      CommittedHolds(s, avoid, i + NUM_PC, x);
      CommittedHolds(s, avoid, j + NUM_PC, x);
      HolderUnique(s, i + NUM_PC, j + NUM_PC, Other(x), NUM_Q, NUM_Q);
    }
  }

  lemma DetectedPairs(rows: Matrix) returns (c: nat, x: nat, d: nat)
    requires OneWantEach(rows) && Detects(rows)
    ensures Pairs(rows, |rows|) == [(c + NUM_PC, x), (d + NUM_PC, Other(x))]
    ensures x < 2 && c < |rows| && d < |rows| && Wants(rows[c], x) && Wants(rows[d], Other(x))
  {
    var pairs := Pairs(rows, |rows|);
    PairsCloseCycle(rows);
    PairsAreWants(rows, |rows|);
    PairsDiffer(rows, 0, 1);
    assert TruePair(rows, |rows|, pairs[0]) && TruePair(rows, |rows|, pairs[1]);
    c, x, d := pairs[0].0 - NUM_PC, pairs[0].1, pairs[1].0 - NUM_PC;
  }

  lemma ListsTwo(cells: seq<int>, a: (int, int), b: (int, int))
    requires Lists(cells, [a, b])
    ensures |cells| >= 4 && cells[0] == a.0 && cells[1] == a.1 && cells[2] == b.0 && cells[3] == b.1
  {
    assert [a, b][0] == a && [a, b][1] == b;
    assert cells[2 * 0] == a.0 && cells[2 * 1] == b.0;
  }

  /** The four cells name two consumers, each waiting for the queue that the other one holds. */
  ghost predicate TrueCycle(s: System, cycle: seq<int>) {
    && |cycle| >= 4
    && NUM_PC <= cycle[0] < PROCESSES && NUM_PC <= cycle[2] < PROCESSES
    && 0 <= cycle[1] < 2 && 0 <= cycle[3] < 2 && cycle[1] != cycle[3]
    && Committed(s, cycle[0], cycle[1]) && Holds(s, cycle[2], cycle[1])
    && Committed(s, cycle[2], cycle[3]) && Holds(s, cycle[0], cycle[3])
  }

  lemma CycleOfSnapshot(s: System, avoid: bool, m: Matrix, cycle: seq<int>)
    requires Sound(s, avoid) && WantsLast(s, m) && Verdict(m)
    requires Lists(cycle, Pairs(m[NUM_PC..], |m[NUM_PC..]|))
    ensures TrueCycle(s, cycle)
  {
    SnapshotHasOneWantEach(s, avoid, m);
    var c, x, d := DetectedPairs(m[NUM_PC..]);
    ListsTwo(cycle, (c + NUM_PC, x), (d + NUM_PC, Other(x)));
    CommittedHolds(s, avoid, c + NUM_PC, x);
    CommittedHolds(s, avoid, d + NUM_PC, Other(x));
  }

  /** What printCycle prints is true: the snapshot that is checked after the lock was given back
      names two consumers that wait for each other at that moment and at every later one. */
  lemma ReportedCycleIsTrue(states: seq<Plant>, events: seq<Event>, i: nat, j: nat, m: Matrix, cycle: seq<int>)
    requires Run(states, events) && i <= j < |states|
    requires states[i].sys.manager == Checking(m) && Verdict(m)
    requires Lists(cycle, Pairs(m[NUM_PC..], |m[NUM_PC..]|))
    ensures Fits(m[NUM_PC..], 4) && TrueCycle(states[j].sys, cycle)
  {
    LastingAlongRun(states, events, i);
    WantsLastForever(states, events, i, j, m);
    InitHasInv(states[0]);
    TraceKeepsInv(states, events, i);
    TraceKeepsInv(states, events, j);
    CycleOfSnapshot(states[j].sys, states[j].avoid, m, cycle);
  }

  // ---------- What an act does ----------

  /** The acts of a one-queue iteration and of a two-queue one, and all they do around them. */
  lemma ScriptsAre(script: seq<Op>, q: nat)
    requires q < NUM_Q
    ensures IsOne(script, q) <==>
            script == [Publish(q, 1), Acquire(q), Publish(q, 2), Work(PEEK, q), Work(ACT, q), Publish(q, 0), Release(q)]
    ensures IsTwo(script, q) <==>
            script == [Publish(q, 1), Acquire(q), Publish(q, 2), Work(PEEK, q), Work(ACT, q),
                       Publish(1 - q, 1), Acquire(1 - q), Publish(1 - q, 2), Work(PEEK, 1 - q), Work(ACT, 1 - q),
                       Publish(q, 0), Release(q), Publish(1 - q, 0), Release(1 - q)]
  {
    if IsTwo(script, q) { TwoIs(script, q); }
  }

  lemma TwoIs(script: seq<Op>, q: nat)
    requires q < NUM_Q && IsTwo(script, q)
    ensures script == [Publish(q, 1), Acquire(q), Publish(q, 2), Work(PEEK, q), Work(ACT, q),
                       Publish(1 - q, 1), Acquire(1 - q), Publish(1 - q, 2), Work(PEEK, 1 - q), Work(ACT, 1 - q),
                       Publish(q, 0), Release(q), Publish(1 - q, 0), Release(1 - q)]
  {
    forall i: nat | i < 14 ensures script[i] == TwoOp(q, i) {}
  }

  /** An idle process may begin on either queue; an idle consumer on both, queue 0 first, and without the flag also
      queue 1 first; nothing else. */
  lemma MayBegin(s: Plant, p: nat, script: seq<Op>)
    requires PlantInv(s) && p < 10 && !Unfinished(s.sys, p)
    ensures IsOne(script, 0) || IsOne(script, 1) ==> Possible(s, NextIteration(p, script))
    ensures IsTwo(script, 0) ==> (Possible(s, NextIteration(p, script)) <==> p >= 5)
    ensures IsTwo(script, 1) ==> (Possible(s, NextIteration(p, script)) <==> p >= 5 && !s.avoid)
    ensures Possible(s, NextIteration(p, script)) ==>
              IsOne(script, 0) || IsOne(script, 1) || IsTwo(script, 0) || IsTwo(script, 1)
  {
    if IsTwo(script, 0) && IsTwo(script, 1) { TwoUnique(script, 0, 1); }
  }

  ghost predicate SameData(s: Plant, t: Plant) {
    t.queues == s.queues && t.inserts == s.inserts && t.consumes == s.consumes
  }

  /** A producer at its act sends exactly if the queue holds fewer than 10 messages, a consumer takes the oldest
      exactly if there is one; each counts it as its own, and nothing else changes. */
  lemma ActDoesIt(states: seq<Plant>, events: seq<Event>, k: nat, p: nat, value: int, q: nat)
    requires Run(states, events) && k < |events| && events[k] == ProcessStep(p, value) && AtAct(states[k].sys, p, q)
    ensures p < 10 && q < 2 && |states[k].queues[q]| <= 10
    ensures var s, t := states[k], states[k + 1];
            if p < 5 && |s.queues[q]| < 10 then
              && t.queues == s.queues[q := s.queues[q] + [Message(p + 5, value)]]
              && t.inserts == s.inserts[p := s.inserts[p] + 1] && t.consumes == s.consumes
            else if p >= 5 && s.queues[q] != [] then
              && t.queues == s.queues[q := s.queues[q][1..]]
              && t.consumes == s.consumes[p := s.consumes[p] + 1] && t.inserts == s.inserts
            else SameData(s, t)
  {
    InitHasInv(states[0]);
    TraceKeepsInv(states, events, k);
    WorkHolds(states[k].sys, states[k].avoid, p, ACT, q);
    assert Possible(states[k], events[k]);
  }

  /** Nothing but an act touches a queue or a counter. */
  lemma OnlyActsChange(states: seq<Plant>, events: seq<Event>, k: nat)
    requires Run(states, events) && k < |events|
    requires events[k].ProcessStep? ==> forall q :: !AtAct(states[k].sys, events[k].p, q)
    ensures SameData(states[k], states[k + 1])
  {
    InitHasInv(states[0]);
    TraceKeepsInv(states, events, k);
    assert Possible(states[k], events[k]);
    if events[k].ProcessStep? { StepWithoutAct(states[k], events[k].p, events[k].value); }
  }

  lemma StepWithoutAct(s: Plant, p: nat, value: int)
    requires PlantInv(s) && Enabled(s.sys, p) && forall q :: !AtAct(s.sys, p, q)
    ensures SameData(s, After(s, ProcessStep(p, value)))
  {
    var op := s.sys.procs[p].script[s.sys.procs[p].pc];
    if op.Work? {
      assert !AtAct(s.sys, p, op.subject);
      WorkHolds(s.sys, s.avoid, p, op.stage, op.subject);
    }
  }

  /** Since its event k process p has run the one iteration it began there. */
  ghost predicate SameIteration(events: seq<Event>, k: nat, i: nat, p: nat) {
    k < i <= |events| && forall x :: k < x < i ==> !(events[x].NextIteration? && events[x].q == p)
  }

  /** One event: p keeps its script unless it begins anew, and gets past a line only by its own step there. */
  lemma PastByOwnStep(s: Plant, e: Event, p: nat, line: nat)
    requires PlantInv(s) && Possible(s, e) && p < PROCESSES && !(e.NextIteration? && e.q == p)
    ensures |After(s, e).sys.procs| == PROCESSES && After(s, e).sys.procs[p].script == s.sys.procs[p].script
    ensures line < After(s, e).sys.procs[p].pc && !(line < s.sys.procs[p].pc) ==>
              e.ProcessStep? && e.p == p && s.sys.procs[p].pc == line && Unfinished(s.sys, p)
  {}

  lemma Begins(s: Plant, e: Event)
    requires PlantInv(s) && Possible(s, e) && e.NextIteration?
    ensures e.q < |After(s, e).sys.procs| && After(s, e).sys.procs[e.q] == Process(e.script, 0, Outside)
  {}

  lemma InvAt(states: seq<Plant>, events: seq<Event>, x: nat)
    requires Run(states, events) && x < |states|
    ensures PlantInv(states[x])
  {
    InitHasInv(states[0]);
    TraceKeepsInv(states, events, x);
  }

  lemma PastAt(states: seq<Plant>, events: seq<Event>, x: nat, p: nat, line: nat)
    requires Run(states, events) && x < |events| && p < PROCESSES && !(events[x].NextIteration? && events[x].q == p)
    ensures |states[x].sys.procs| == |states[x + 1].sys.procs| == PROCESSES
    ensures states[x + 1].sys.procs[p].script == states[x].sys.procs[p].script
    ensures line < states[x + 1].sys.procs[p].pc && !(line < states[x].sys.procs[p].pc) ==>
              events[x].ProcessStep? && events[x].p == p && states[x].sys.procs[p].pc == line
                  && Unfinished(states[x].sys, p)
  {
    InvAt(states, events, x);
    PastByOwnStep(states[x], events[x], p, line);
  }

  lemma BeginsAt(states: seq<Plant>, events: seq<Event>, x: nat)
    requires Run(states, events) && x < |events| && events[x].NextIteration?
    ensures events[x].q < |states[x + 1].sys.procs| == PROCESSES
    ensures states[x + 1].sys.procs[events[x].q] == Process(events[x].script, 0, Outside)
  {
    InvAt(states, events, x);
    Begins(states[x], events[x]);
  }

  lemma {:induction false} IterationScript(states: seq<Plant>, events: seq<Event>, k: nat, i: nat, p: nat,
                                           script: seq<Op>)
    requires Run(states, events) && i < |states| && p < PROCESSES
    requires k < |events| && events[k] == NextIteration(p, script) && SameIteration(events, k, i, p)
    ensures |states[i].sys.procs| == PROCESSES && states[i].sys.procs[p].script == script
    decreases i
  {
    if k == i - 1 {
      BeginsAt(states, events, k);
    } else {
      IterationScript(states, events, k, i - 1, p, script);
      PastAt(states, events, i - 1, p, 0);
    }
  }

  /** A process past a line of its iteration has gone through it, in a step of its own. */
  lemma WentThrough(states: seq<Plant>, events: seq<Event>, k: nat, i: nat, p: nat, script: seq<Op>, line: nat)
    returns (j: nat)
    requires Run(states, events) && k < |events| && i < |states| && p < PROCESSES
    requires events[k] == NextIteration(p, script) && SameIteration(events, k, i, p)
    requires p < |states[i].sys.procs| && line < states[i].sys.procs[p].pc
    ensures k < j < i && events[j].ProcessStep? && events[j].p == p
    ensures Unfinished(states[j].sys, p) && states[j].sys.procs[p].pc == line
    ensures states[j].sys.procs[p].script == script
  {
    BeginsAt(states, events, k);
    var counter := seq(|states|, x requires 0 <= x < |states| =>
                         if p < |states[x].sys.procs| then states[x].sys.procs[p].pc else 0);
    j := Passes(counter, k + 1, i, line);
    PastAt(states, events, j, p, line);
    IterationScript(states, events, k, j, p, script);
  }

  /** A finished iteration has acted on every queue it was for: a one-queue one on q, a two-queue one on both. */
  lemma IterationActs(states: seq<Plant>, events: seq<Event>, k: nat, i: nat, p: nat, script: seq<Op>, r: nat, q: nat)
    returns (j: nat)
    requires Run(states, events) && i < |states| && p < PROCESSES && r < NUM_Q && q < NUM_Q
    requires k < |events| && events[k] == NextIteration(p, script) && SameIteration(events, k, i, p)
    requires !Unfinished(states[i].sys, p)
    requires (IsOne(script, r) && q == r) || IsTwo(script, r)
    ensures k < j < i && events[j].ProcessStep? && events[j].p == p && AtAct(states[j].sys, p, q)
  {
    InitHasInv(states[0]);
    TraceKeepsInv(states, events, i);
    IterationScript(states, events, k, i, p, script);
    assert ProcessOk(states[i].sys.procs[p], NUM_Q, NUM_Q);
    var line := if q == r then 4 else 9;
    j := WentThrough(states, events, k, i, p, script, line);
    assert script[line] == Work(ACT, q);
  }

  // ---------- The manager reports ----------

  /** How many of the events from i up to j are the manager's. */
  function ManagerTurns(events: seq<Event>, i: nat, j: nat): nat
    requires i <= j <= |events|
  {
    if i == j then 0 else ManagerTurns(events, i, j - 1) + if events[j - 1].ManagerTurn? then 1 else 0
  }

  /** Where a manager that has read m is after `turns` more turns of its own. */
  ghost predicate ManagerAt(manager: Manager, m: Matrix, turns: nat) {
    && (turns == 0 ==> manager == Read(m))
    && (turns == 1 ==> manager == Checking(m))
    && (turns == 2 ==> manager == if Verdict(m) then Reported else Idle)
    && (turns > 2 ==> !Verdict(m))
  }

  lemma ManagerAfter(s: Plant, e: Event, m: Matrix, turns: nat)
    requires DataShaped(s) && |s.sys.procs| == PROCESSES && Possible(s, e) && ManagerAt(s.sys.manager, m, turns)
    ensures ManagerAt(After(s, e).sys.manager, m, turns + if e.ManagerTurn? then 1 else 0)
  {}

  lemma {:induction false} ManagerGoesOn(states: seq<Plant>, events: seq<Event>, i: nat, j: nat, m: Matrix)
    requires Run(states, events) && i <= j < |states| && states[i].sys.manager == Read(m)
    ensures ManagerAt(states[j].sys.manager, m, ManagerTurns(events, i, j))
    decreases j
  {
    if i < j {
      ManagerGoesOn(states, events, i, j - 1, m);
      ManagerAfter(states[j - 1], events[j - 1], m, ManagerTurns(events, i, j - 1));
    }
  }

  /** The manager's next two turns after it has read the matrix, whatever happens in between: it has reported if two
      consumers were deadlocked when it read, and is idle again if none were. */
  lemma DeadlockIsReported(states: seq<Plant>, events: seq<Event>, i: nat, j: nat)
    requires Run(states, events) && i <= j < |states| && states[i].sys.manager.Read?
    requires ManagerTurns(events, i, j) >= 2
    ensures Deadlocked(states[i].sys) ==> states[j].sys.manager == Reported
    ensures !Deadlocked(states[i].sys) && ManagerTurns(events, i, j) == 2 ==> states[j].sys.manager == Idle
  {
    InitHasInv(states[0]);
    TraceKeepsInv(states, events, i);
    SnapshotIsExact(states[i]);
    ManagerGoesOn(states, events, i, j, states[i].sys.manager.copy);
  }

  // ---------- With and without avoidance ----------

  /** In a stuck plant whoever holds a queue waits for the other one. */
  lemma StuckHolder(s: System, avoid: bool, h: nat, m: nat) returns (g: nat)
    requires Sound(s, avoid) && Stuck(s) && m < NUM_Q && Unfinished(s, h) && Holds(s, h, m)
    ensures Blocked(s, h, Other(m)) && Unfinished(s, g) && Holds(s, g, Other(m))
  {
    var m';
    m', g := StuckWaits(s, h, NUM_Q, NUM_Q);
    WaitTable(h, avoid, s.procs[h].script, s.procs[h].pc, m', m);
  }

  /** A plant where nobody in mid-iteration can move is deadlocked. */
  lemma StuckMeansDeadlock(s: System, avoid: bool, p: nat)
    requires Sound(s, avoid) && Stuck(s) && Unfinished(s, p)
    ensures Deadlocked(s)
  {
    var m, h := StuckWaits(s, p, NUM_Q, NUM_Q);
    var g := StuckHolder(s, avoid, h, m);
    var f := StuckHolder(s, avoid, g, Other(m));
    assert SomeBlocked(s, m) && SomeBlocked(s, Other(m));
  }

  /** Under avoidance nobody takes queue 1 first, so there is no circular wait. */
  lemma AvoidanceExcludesWait(s: System)
    requires Assigned(s, true)
    ensures !CircularWait(s)
  {
    if SomeCommitted(s, 0) {
      var c: nat :| Committed(s, c, 0);
      TwoUnique(s.procs[c].script, 0, 1);
    }
  }

  lemma DeadlockIsCircularWait(s: System)
    requires Deadlocked(s)
    ensures CircularWait(s)
  {
    var c: nat :| Blocked(s, c, 0);
    var d: nat :| Blocked(s, d, 1);
    assert Committed(s, c, 0) && Committed(s, d, 1);
  }

  /** With avoidance, in every run: never a detection, and whoever is in mid-iteration, someone can move. */
  lemma AvoidanceWorks(states: seq<Plant>, events: seq<Event>, i: nat)
    requires Run(states, events) && i < |states| && states[0].avoid
    ensures !CircularWait(states[i].sys) && !Verdict(states[i].sys.matrix)
    ensures !states[i].sys.manager.Reported?
    ensures (exists p :: Unfinished(states[i].sys, p)) ==>
              (exists q :: Enabled(states[i].sys, q)) || (ManagerInside(states[i].sys) && ManagerEnabled(states[i].sys))
  {
    var s := states[i];
    InitHasInv(states[0]);
    TraceKeepsInv(states, events, i);
    AvoidanceExcludesWait(s.sys);
    DetectorIsExact(s.sys, true);
    if p: nat :| Unfinished(s.sys, p) {
      if Stuck(s.sys) {
        StuckMeansDeadlock(s.sys, true, p);
        DeadlockIsCircularWait(s.sys);
      }
    }
  }

  /** Without avoidance: in a stuck plant someone is left in mid-iteration exactly when two consumers are deadlocked. */
  lemma StuckVerdict(s: Plant)
    requires PlantInv(s) && Stuck(s.sys)
    ensures (exists p :: Unfinished(s.sys, p)) <==> Deadlocked(s.sys)
    ensures Verdict(s.sys.matrix) <==> Deadlocked(s.sys)
  {
    DetectorIsExact(s.sys, s.avoid);
    if p: nat :| Unfinished(s.sys, p) { StuckMeansDeadlock(s.sys, s.avoid, p); }
    if Deadlocked(s.sys) { DeadlockIsCircularWait(s.sys); }
    if CircularWait(s.sys) {
      var c: nat :| Committed(s.sys, c, 0);
      assert Unfinished(s.sys, c);
    }
  }

  // ---------- Everyone can finish ----------

  ghost function StepsLeft(s: System): int {
    TotalRemaining(s.procs) + if s.manager.Entered? then 2 else if s.manager.Read? then 1 else 0
  }

  lemma NotStuck(s: Plant)
    requires PlantInv(s) && s.avoid && exists p :: Unfinished(s.sys, p)
    ensures !Stuck(s.sys)
  {
    AvoidanceExcludesWait(s.sys);
    if Stuck(s.sys) {
      StuckVerdict(s);
      DeadlockIsCircularWait(s.sys);
    }
  }

  lemma MoveCost(s: Plant, e: Event)
    requires Inv(s.sys, NUM_Q, NUM_Q) && DataShaped(s) && |s.sys.procs| == PROCESSES
    requires Possible(s, e) && (e.ProcessStep? || (e.ManagerTurn? && ManagerInside(s.sys)))
    ensures StepsLeft(After(s, e).sys) < StepsLeft(s.sys)
  {
    if e.ProcessStep? { StepCostsOne(s.sys, e.p, NUM_Q, NUM_Q); }
  }

  lemma NextMove(s: Plant) returns (e: Event)
    requires PlantInv(s) && s.avoid && exists p :: Unfinished(s.sys, p)
    ensures Possible(s, e) && (e.ProcessStep? || (e.ManagerTurn? && ManagerInside(s.sys)))
  {
    if ManagerInside(s.sys) {
      e := ManagerTurn;
    } else {
      NotStuck(s);
      var q: nat :| Enabled(s.sys, q);
      e := ProcessStep(q, 1);
    }
  }

  ghost predicate AllIdle(s: System) { forall p :: !Unfinished(s, p) }

  /** A run from s in which nobody starts a new iteration and everybody ends the current one. */
  ghost predicate FinishesFrom(s: Plant, states: seq<Plant>, events: seq<Event>) {
    && Trace(states, events) && states[0] == s
    && (forall i :: 0 <= i < |events| ==> !events[i].NextIteration?)
    && AllIdle(states[|events|].sys)
  }

  lemma FinishPrepend(s: Plant, e: Event, rest: seq<Plant>, more: seq<Event>)
    requires DataShaped(s) && |s.sys.procs| == PROCESSES
    requires Possible(s, e) && !e.NextIteration? && FinishesFrom(After(s, e), rest, more)
    ensures FinishesFrom(s, [s] + rest, [e] + more)
  {
    var states, events := [s] + rest, [e] + more;
    forall i | 0 <= i < |events|
      ensures Possible(states[i], events[i]) && states[i + 1] == After(states[i], events[i]) {
      if i > 0 { assert states[i] == rest[i - 1] && events[i] == more[i - 1]; }
    }
  }

  /** With avoidance, from any state of a run everyone's iteration can be finished without starting a new one. */
  lemma {:induction false} EveryoneCanFinish(s: Plant) returns (states: seq<Plant>, events: seq<Event>)
    requires PlantInv(s) && s.avoid
    ensures FinishesFrom(s, states, events)
    decreases StepsLeft(s.sys)
  {
    if AllIdle(s.sys) {
      states, events := [s], [];
    } else {
      var e := NextMove(s);
      EventKeepsInv(s, e);
      MoveCost(s, e);
      NothingLeft(s.sys.procs, NUM_Q, NUM_Q);
      var rest, more := EveryoneCanFinish(After(s, e));
      FinishPrepend(s, e, rest, more);
      states, events := [s] + rest, [e] + more;
    }
  }
}
