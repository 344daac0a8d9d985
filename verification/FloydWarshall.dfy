/**
 All-pairs shortest paths with one thread per row and no lock (os_lab/assignment7).

 For every k the main thread creates n threads, one for each row, and joins them.  They all
 read and write one matrix; every read and every write of a matrix element is one step, and
 any thread may take the next one.
 */
module FloydWarshall {
  import opened ShortestPaths
  import opened EdgeLists

  /** Where a thread stands inside updateDist: the next element access. */
  datatype Stage =
    | TestIK | TestKJ              // dist[i][k] == -1 || dist[k][j] == -1
    | TestIJ                       // dist[i][j] == -1 ||
    | SumIK | SumKJ | CompareIJ    //   dist[i][k] + dist[k][j] < dist[i][j]
    | LoadIK | LoadKJ | StoreIJ    // dist[i][j] = dist[i][k] + dist[k][j]

  /** a and b hold the values last read from dist[i][k] and dist[k][j]. */
  datatype Thread = Waiting | Running(j: nat, stage: Stage, a: int, b: int) | Finished

  datatype Main = Creating(i: nat) | Joining(i: nat) | Printing

  datatype Machine = Machine(n: nat, k: nat, main: Main, threads: seq<Thread>, dist: Grid)

  datatype Event = MainTurn | ThreadTurn(i: nat)

  // ---------- The machine ----------

  ghost predicate Init(s: Machine, g: Grid) {
    && Square(g, s.n) && s.dist == g && s.k == 0
    && s.main == (if s.n == 0 then Printing else Creating(0))
    && s.threads == seq(s.n, _ => Waiting)
  }

  ghost predicate Sized(s: Machine) {
    && Square(s.dist, s.n) && |s.threads| == s.n
    && (s.main != Printing ==> s.k < s.n)
    && (s.main.Creating? ==> s.main.i <= s.n) && (s.main.Joining? ==> s.main.i <= s.n)
    && forall i :: 0 <= i < s.n && s.threads[i].Running? ==> s.k < s.n && s.threads[i].j < s.n
  }

  ghost predicate Possible(s: Machine, e: Event) {
    Sized(s) &&
    match e
    case ThreadTurn(i) => i < s.n && s.threads[i].Running?
    case MainTurn =>
      match s.main
      case Creating(_) => true
      case Joining(i) => i == s.n || s.threads[i].Finished?    // pthread_join blocks until then
      case Printing => false
  }

  /** Thread i goes on to its next j. */
  function NextColumn(s: Machine, j: nat): Thread {
    if j + 1 < s.n then Running(j + 1, TestIK, 0, 0) else Finished
  }

  /** One element access of thread i: its next state, and the value it stores, if any. */
  ghost function Access(s: Machine, i: nat): (Thread, Grid)
    requires Sized(s) && i < s.n && s.threads[i].Running?
  {
    var t := s.threads[i];
    var ik, kj, ij := s.dist[i][s.k], s.dist[s.k][t.j], s.dist[i][t.j];
    match t.stage
    case TestIK => (if ik == INF then NextColumn(s, t.j) else t.(stage := TestKJ), s.dist)
    case TestKJ => (if kj == INF then NextColumn(s, t.j) else t.(stage := TestIJ), s.dist)
    case TestIJ => (t.(stage := if ij == INF then LoadIK else SumIK), s.dist)
    case SumIK => (t.(stage := SumKJ, a := ik), s.dist)
    case SumKJ => (t.(stage := CompareIJ, b := kj), s.dist)
    case CompareIJ => (if t.a + t.b < ij then t.(stage := LoadIK) else NextColumn(s, t.j), s.dist)
    case LoadIK => (t.(stage := LoadKJ, a := ik), s.dist)
    case LoadKJ => (t.(stage := StoreIJ, b := kj), s.dist)
    case StoreIJ => (NextColumn(s, t.j), s.dist[i := s.dist[i][t.j := t.a + t.b]])
  }

  ghost function After(s: Machine, e: Event): Machine
    requires Possible(s, e)
  {
    match e
    case ThreadTurn(i) =>
      var (t, dist) := Access(s, i);
      s.(threads := s.threads[i := t], dist := dist)
    case MainTurn =>
      match s.main
      case Creating(i) =>
        if i == s.n then s.(main := Joining(0))
        else s.(main := Creating(i + 1), threads := s.threads[i := Running(0, TestIK, 0, 0)])
      case Joining(i) =>
        if i < s.n then s.(main := Joining(i + 1))
        else if s.k + 1 < s.n then s.(k := s.k + 1, main := Creating(0), threads := seq(s.n, _ => Waiting))
        else s.(k := s.k + 1, main := Printing)
  }

  ghost predicate Run(g: Grid, states: seq<Machine>, events: seq<Event>) {
    && |states| == |events| + 1
    && Init(states[0], g)
    && forall x :: 0 <= x < |events| ==> Possible(states[x], events[x]) && states[x + 1] == After(states[x], events[x])
  }

  // ---------- Non-interference ----------

  /** Thread i has dealt with column j in this phase. */
  predicate Dealt(t: Thread, j: nat) {
    t.Finished? || (t.Running? && j < t.j)
  }

  /** What thread i knows, in terms of the matrix d at the start of the phase. */
  ghost predicate Knows(t: Thread, d: Grid, n: nat, k: nat, i: nat)
    requires Square(d, n) && k < n && i < n && (t.Running? ==> t.j < n)
  {
    t.Running? ==>
      var ik, kj, ij := d[i][k], d[k][t.j], d[i][t.j];
      match t.stage
      case TestIK => true
      case TestKJ => ik != INF
      case TestIJ => ik != INF && kj != INF
      case SumIK => ik != INF && kj != INF && ij != INF
      case SumKJ => ik != INF && kj != INF && ij != INF && t.a == ik
      case CompareIJ => ik != INF && kj != INF && ij != INF && t.a == ik && t.b == kj
      case LoadIK => ik != INF && kj != INF && (ij == INF || ik + kj < ij)
      case LoadKJ => ik != INF && kj != INF && (ij == INF || ik + kj < ij) && t.a == ik
      case StoreIJ => ik != INF && kj != INF && (ij == INF || ik + kj < ij) && t.a == ik && t.b == kj
  }

  /**
   Whatever the schedule, each element is either still what it was at the start of the phase
   or already what one functional pass makes of it.
   */
  ghost predicate Undisturbed(s: Machine, d: Grid)
    requires Sized(s) && Square(d, s.n) && s.k < s.n
  {
    && (forall i, j :: 0 <= i < s.n && 0 <= j < s.n ==>
          s.dist[i][j] == if Dealt(s.threads[i], j) then Via(d, s.n, s.k, i, j) else d[i][j])
    && forall i :: 0 <= i < s.n ==> Knows(s.threads[i], d, s.n, s.k, i)
  }

  /** Which threads the main thread has created, and which it has seen to finish. */
  ghost predicate Ordered(s: Machine)
    requires Sized(s)
  {
    match s.main
    case Creating(i) => forall x :: 0 <= x < s.n ==> (s.threads[x].Waiting? <==> i <= x)
    case Joining(i) => forall x :: 0 <= x < s.n ==> !s.threads[x].Waiting? && (x < i ==> s.threads[x].Finished?)
    case Printing => forall x :: 0 <= x < s.n ==> !s.threads[x].Running?
  }

  ghost predicate MachineInv(s: Machine, g: Grid) {
    && Sized(s) && Weighted(g, s.n) && s.k <= s.n && Ordered(s)
    && if s.main == Printing then s.k == s.n && s.dist == Passes(g, s.n, s.n)
       else Undisturbed(s, Passes(g, s.n, s.k))
  }

  /** Nobody ever changes row k or column k during phase k. */
  lemma PivotUntouched(s: Machine, d: Grid, i: nat)
    requires Sized(s) && s.k < s.n && Weighted(d, s.n) && Undisturbed(s, d) && i < s.n
    ensures s.dist[i][s.k] == d[i][s.k] && s.dist[s.k][i] == d[s.k][i]
  {
    PivotFixed(d, s.n, s.k, i);
  }

  /** One access leaves every other element alone and its own at the old or at the final value. */
  lemma AccessIsRight(s: Machine, d: Grid, i: nat)
    requires Sized(s) && i < s.n && s.threads[i].Running? && s.k < s.n && Weighted(d, s.n) && Undisturbed(s, d)
    ensures var (next, dist) := Access(s, i);
            var j := s.threads[i].j;
            && (next.Running? ==> next.j < s.n) && Knows(next, d, s.n, s.k, i)
            && (forall c :: 0 <= c < s.n && c != j ==> (Dealt(next, c) <==> Dealt(s.threads[i], c)))
            && dist == s.dist[i := s.dist[i][j := if Dealt(next, j) then Via(d, s.n, s.k, i, j) else d[i][j]]]
  {
    PivotUntouched(s, d, i);
    PivotUntouched(s, d, s.threads[i].j);
    var j := s.threads[i].j;
    assert Knows(s.threads[i], d, s.n, s.k, i) && s.dist[i][j] == d[i][j];
    assert s.dist[i][j := d[i][j]] == s.dist[i] && s.dist[i := s.dist[i]] == s.dist;
  }

  lemma ThreadKeepsUndisturbed(s: Machine, d: Grid, i: nat)
    requires Possible(s, ThreadTurn(i)) && s.k < s.n && Weighted(d, s.n) && Undisturbed(s, d)
    ensures Sized(After(s, ThreadTurn(i))) && Undisturbed(After(s, ThreadTurn(i)), d)
  {
    var next := After(s, ThreadTurn(i));
    AccessIsRight(s, d, i);
    forall x, j | 0 <= x < s.n && 0 <= j < s.n
      ensures next.dist[x][j] == if Dealt(next.threads[x], j) then Via(d, s.n, s.k, x, j) else d[x][j]
    {
      assert s.dist[x][j] == if Dealt(s.threads[x], j) then Via(d, s.n, s.k, x, j) else d[x][j];
    }
    assert forall x :: 0 <= x < s.n && x != i ==> next.threads[x] == s.threads[x];
  }

  /** When all threads are done the matrix is one functional pass over the matrix the phase began with. */
  lemma PhaseIsOnePass(s: Machine, d: Grid)
    requires Sized(s) && Square(d, s.n) && s.k < s.n && Undisturbed(s, d)
    requires forall i :: 0 <= i < s.n ==> s.threads[i].Finished?
    ensures s.dist == Pass(d, s.n, s.k)
  {
    assert forall i, j :: 0 <= i < s.n && 0 <= j < s.n ==> s.dist[i][j] == Pass(d, s.n, s.k)[i][j];
    assert forall i :: 0 <= i < s.n ==> s.dist[i] == Pass(d, s.n, s.k)[i];
  }

  lemma PhaseEnds(s: Machine, g: Grid)
    requires MachineInv(s, g) && s.main == Joining(s.n)
    ensures Possible(s, MainTurn) && MachineInv(After(s, MainTurn), g)
  {
    PhaseIsOnePass(s, Passes(g, s.n, s.k));
    assert After(s, MainTurn).dist == Passes(g, s.n, s.k + 1);
  }

  lemma ThreadCreated(s: Machine, g: Grid)
    requires MachineInv(s, g) && s.main.Creating? && s.main.i < s.n
    ensures Possible(s, MainTurn) && MachineInv(After(s, MainTurn), g)
  {
    var next := After(s, MainTurn);
    assert forall x :: 0 <= x < s.n && x != s.main.i ==> next.threads[x] == s.threads[x];
  }

  lemma PhaseGoesOn(s: Machine, g: Grid)
    requires MachineInv(s, g) && Possible(s, MainTurn) && s.main != Joining(s.n)
    ensures MachineInv(After(s, MainTurn), g)
  {
    if s.main.Creating? && s.main.i < s.n { ThreadCreated(s, g); }
  }

  lemma ThreadKeepsOrdered(s: Machine, i: nat)
    requires Possible(s, ThreadTurn(i)) && Ordered(s) && Sized(After(s, ThreadTurn(i)))
    ensures Ordered(After(s, ThreadTurn(i)))
  {
    var next := After(s, ThreadTurn(i));
    assert !next.threads[i].Waiting? && s.main != Printing;
    assert forall x :: 0 <= x < s.n && x != i ==> next.threads[x] == s.threads[x];
  }

  lemma ThreadKeepsInv(s: Machine, g: Grid, i: nat)
    requires MachineInv(s, g) && Possible(s, ThreadTurn(i))
    ensures MachineInv(After(s, ThreadTurn(i)), g)
  {
    PassesAreLeast(g, s.n, s.k);
    ThreadKeepsUndisturbed(s, Passes(g, s.n, s.k), i);
    ThreadKeepsOrdered(s, i);
  }

  lemma EventKeepsInv(s: Machine, g: Grid, e: Event)
    requires MachineInv(s, g) && Possible(s, e)
    ensures MachineInv(After(s, e), g)
  {
    if e.ThreadTurn? {
      ThreadKeepsInv(s, g, e.i);
    } else if s.main == Joining(s.n) {
      PhaseEnds(s, g);
    } else {
      PhaseGoesOn(s, g);
    }
  }

  lemma {:induction false} RunKeepsInv(g: Grid, states: seq<Machine>, events: seq<Event>, x: nat)
    requires Run(g, states, events) && x < |states| && Weighted(g, states[0].n)
    ensures MachineInv(states[x], g) && states[x].n == states[0].n
  {
    if x > 0 {
      RunKeepsInv(g, states, events, x - 1);
      EventKeepsInv(states[x - 1], g, events[x - 1]);
    }
  }

  /** For every schedule, the printed matrix holds exactly the least path lengths, and -1 where there is no path. */
  lemma EveryScheduleFindsShortestPaths(g: Grid, states: seq<Machine>, events: seq<Event>, x: nat)
    requires Run(g, states, events) && x < |states| && Weighted(g, states[0].n)
    requires states[x].main == Printing
    ensures Square(states[x].dist, states[0].n)
    ensures AllLeast(g, states[0].n, states[0].n, states[x].dist)
  {
    RunKeepsInv(g, states, events, x);
    PassesAreLeast(g, states[0].n, states[0].n);
  }

  /** In terms of the edges that were read: for every schedule, what is printed for i and j is the least cost of a
      route between them, and -1 exactly when there is none. */
  lemma EveryScheduleFindsShortestRoutes(n: nat, edges: seq<Edge>, states: seq<Machine>, events: seq<Event>,
                                         x: nat, i: nat, j: nat)
    requires NotNegative(edges) && Run(InputGrid(n, edges), states, events) && states[0].n == n
    requires x < |states| && states[x].main == Printing && i < n && j < n
    ensures Square(states[x].dist, n) && Shortest(edges, n, i, j, states[x].dist[i][j])
  {
    InputIsWeighted(n, edges);
    EveryScheduleFindsShortestPaths(InputGrid(n, edges), states, events, x);
    LeastIsShortest(edges, n, i, j, states[x].dist[i][j]);
  }

  /** A vertex whose diagonal entry is 0 (every one without a self-loop in the input) is printed at distance 0. */
  lemma DiagonalStaysZero(g: Grid, n: nat, d: Grid, i: nat)
    requires Weighted(g, n) && Square(d, n) && AllLeast(g, n, n, d) && i < n && g[i][i] == 0
    ensures d[i][i] == 0
  {
    assert IsPath(g, n, n, i, i, [i, i]) && Length(g, n, [i, i][1..]) == 0;
    assert Least(g, n, n, i, i, d[i][i]);
    DistancesNotNegative(g, n, n, d);
  }

  lemma SumBounded(g: Grid, s: Machine, i: nat, w: nat)
    requires MachineInv(s, g) && s.main != Printing && i < s.n && s.threads[i].Running?
    requires s.threads[i].stage in {CompareIJ, StoreIJ}
    requires forall u, v :: 0 <= u < s.n && 0 <= v < s.n ==> g[u][v] <= w
    ensures 0 <= s.threads[i].a <= s.n * w && 0 <= s.threads[i].b <= s.n * w
  {
    var d := Passes(g, s.n, s.k);
    PassesAreLeast(g, s.n, s.k);
    assert Knows(s.threads[i], d, s.n, s.k, i);
    LeastIsBounded(g, s.n, s.k, i, s.k, d, w);
    LeastIsBounded(g, s.n, s.k, s.k, s.threads[i].j, d, w);
    TimesMonotone(s.k + 1, s.n, w);
  }

  /** No sum that a thread compares or stores exceeds 2 n times the largest weight: below 2^31 an int holds it. */
  lemma SumsAreBounded(g: Grid, states: seq<Machine>, events: seq<Event>, x: nat, i: nat, w: nat)
    requires Run(g, states, events) && x < |states| && Weighted(g, states[0].n)
    requires forall u, v :: 0 <= u < states[0].n && 0 <= v < states[0].n ==> g[u][v] <= w
    requires states[x].main != Printing && i < |states[x].threads| && states[x].threads[i].Running?
    requires states[x].threads[i].stage in {CompareIJ, StoreIJ}
    ensures 0 <= states[x].threads[i].a + states[x].threads[i].b <= 2 * (states[0].n * w)
  {
    RunKeepsInv(g, states, events, x);
    SumBounded(g, states[x], i, w);
  }

  // ---------- Every schedule ends ----------

  function StageIndex(stage: Stage): nat {
    match stage
    case TestIK => 0 case TestKJ => 1 case TestIJ => 2 case SumIK => 3 case SumKJ => 4
    case CompareIJ => 5 case LoadIK => 6 case LoadKJ => 7 case StoreIJ => 8
  }

  function Work(t: Thread, n: nat): int {
    if t.Running? then 9 * (n - t.j) - StageIndex(t.stage) else 0
  }

  function TotalWork(threads: seq<Thread>, n: nat): int {
    if threads == [] then 0 else Work(threads[0], n) + TotalWork(threads[1..], n)
  }

  lemma {:induction false} TotalWorkAfterUpdate(threads: seq<Thread>, n: nat, i: nat, t: Thread)
    requires i < |threads|
    ensures TotalWork(threads[i := t], n) == TotalWork(threads, n) - Work(threads[i], n) + Work(t, n)
  {
    if i == 0 {
      assert threads[i := t][1..] == threads[1..];
    } else {
      assert threads[i := t][1..] == threads[1..][i - 1 := t];
      TotalWorkAfterUpdate(threads[1..], n, i - 1, t);
    }
  }

  lemma {:induction false} TotalWorkNotNegative(threads: seq<Thread>, n: nat)
    requires forall i :: 0 <= i < |threads| && threads[i].Running? ==> threads[i].j < n
    ensures TotalWork(threads, n) >= 0
  {
    if threads != [] { TotalWorkNotNegative(threads[1..], n); }
  }

  ghost function Rank(s: Machine): (int, int, int) {
    (s.n - s.k,
     match s.main case Creating(i) => 2 * s.n + 3 - i case Joining(i) => s.n + 1 - i case Printing => 0,
     TotalWork(s.threads, s.n))
  }

  ghost predicate Bounded(r: (int, int, int)) { r.0 >= 0 && r.1 >= 0 && r.2 >= 0 }

  ghost predicate Below(r: (int, int, int), q: (int, int, int)) {
    r.0 < q.0 || (r.0 == q.0 && (r.1 < q.1 || (r.1 == q.1 && r.2 < q.2)))
  }

  lemma SomebodyMoves(g: Grid, s: Machine)
    requires MachineInv(s, g) && s.main != Printing
    ensures exists e :: Possible(s, e)
  {
    if Possible(s, MainTurn) {
    } else {
      assert Possible(s, ThreadTurn(s.main.i));
    }
  }

  lemma ThreadTurnDescends(s: Machine, i: nat)
    requires Possible(s, ThreadTurn(i))
    ensures Below(Rank(After(s, ThreadTurn(i))), Rank(s))
  {
    TotalWorkAfterUpdate(s.threads, s.n, i, Access(s, i).0);
  }

  /** No schedule blocks before the printing and none goes on for ever: every step goes down in a well-founded order. */
  lemma EveryScheduleEnds(g: Grid, s: Machine)
    requires MachineInv(s, g)
    ensures s.main != Printing <==> exists e :: Possible(s, e)
    ensures Bounded(Rank(s))
    ensures forall e :: Possible(s, e) ==> Below(Rank(After(s, e)), Rank(s))
  {
    TotalWorkNotNegative(s.threads, s.n);
    if s.main != Printing { SomebodyMoves(g, s); }
    forall e | Possible(s, e) ensures Below(Rank(After(s, e)), Rank(s)) {
      if e.ThreadTurn? { ThreadTurnDescends(s, e.i); }
    }
  }

  // ---------- The same code on the matrix itself ----------

  /** Two-dimensional array as a grid. */
  ghost function Contents(dist: array2<int>): (g: Grid)
    reads dist
    ensures |g| == dist.Length0 && forall i :: 0 <= i < |g| ==> |g[i]| == dist.Length1
    ensures forall i, j :: 0 <= i < |g| && 0 <= j < dist.Length1 ==> g[i][j] == dist[i, j]
  {
    seq(dist.Length0, i requires 0 <= i < dist.Length0 reads dist =>
      seq(dist.Length1, j requires 0 <= j < dist.Length1 reads dist => dist[i, j]))
  }

  method ReadInput(n: nat, edges: seq<Edge>) returns (dist: array2<int>)
    requires InRange(edges, n)
    ensures fresh(dist) && dist.Length0 == n && dist.Length1 == n
    ensures forall i: nat, j: nat :: i < n && j < n ==> IsEntry(edges, i, j, dist[i, j])
    ensures Contents(dist) == InputGrid(n, edges)
  {
    dist := new int[n, n];
    for i := 0 to n
      invariant forall x, y :: 0 <= x < i && 0 <= y < n ==> dist[x, y] == Entry([], x, y)
    {
      for j := 0 to n
        invariant forall x, y :: 0 <= x < i && 0 <= y < n ==> dist[x, y] == Entry([], x, y)
        invariant forall y :: 0 <= y < j ==> dist[i, y] == Entry([], i, y)
      {
        if i != j { dist[i, j] := -1; } else { dist[i, j] := 0; }
      }
    }
    for m := 0 to |edges|
      invariant forall x, y :: 0 <= x < n && 0 <= y < n ==> dist[x, y] == Entry(edges[..m], x, y)
    {
      var e := edges[m];
      assert e in edges && edges[..m + 1][..m] == edges[..m];
      dist[e.j, e.i] := e.w;
      dist[e.i, e.j] := e.w;
    }
    assert edges[..|edges|] == edges;
    GridsEqual(Contents(dist), InputGrid(n, edges), n);
    forall i: nat, j: nat | i < n && j < n ensures IsEntry(edges, i, j, dist[i, j]) { EntryIs(edges, i, j); }
  }

  lemma GridsEqual(a: Grid, b: Grid, n: nat)
    requires Square(a, n) && Square(b, n)
    requires forall i, j :: 0 <= i < n && 0 <= j < n ==> a[i][j] == b[i][j]
    ensures a == b
  {
    assert forall i :: 0 <= i < n ==> a[i] == b[i];
  }

  method UpdateDist(dist: array2<int>, i: nat, j: nat, k: nat)
    requires dist.Length0 == dist.Length1 && i < dist.Length0 && j < dist.Length0 && k < dist.Length0
    modifies dist
    ensures dist[i, j] == old(Via(Contents(dist), dist.Length0, k, i, j))
    ensures forall x, y :: 0 <= x < dist.Length0 && 0 <= y < dist.Length0 && (x != i || y != j) ==>
      dist[x, y] == old(dist[x, y])
  {
    if dist[i, k] == -1 || dist[k, j] == -1 {
      return;
    }
    if dist[i, j] == -1 || dist[i, k] + dist[k, j] < dist[i, j] {
      dist[i, j] := dist[i, k] + dist[k, j];
      return;
    }
  }

  /** A thread that runs alone turns its own row into that of the functional pass. */
  method IjLoop(dist: array2<int>, i: nat, k: nat)
    requires dist.Length0 == dist.Length1 && i < dist.Length0 && k < dist.Length0
    requires forall x, y :: 0 <= x < dist.Length0 && 0 <= y < dist.Length0 ==> dist[x, y] >= INF
    modifies dist
    ensures forall y :: 0 <= y < dist.Length0 ==> dist[i, y] == old(Via(Contents(dist), dist.Length0, k, i, y))
    ensures forall x, y :: 0 <= x < dist.Length0 && 0 <= y < dist.Length0 && x != i ==> dist[x, y] == old(dist[x, y])
  {
    ghost var d := Contents(dist);
    var n := dist.Length0;
    for j := 0 to n
      invariant forall x, y :: 0 <= x < n && 0 <= y < n ==>
        dist[x, y] == if x == i && y < j then Via(d, n, k, i, y) else d[x][y]
    {
      PivotFixed(d, n, k, i);
      PivotFixed(d, n, k, j);
      UpdateDist(dist, i, j, k);
    }
  }

  /** The whole program under the schedule in which every thread runs to its end before the next one. */
  method Sequential(n: nat, edges: seq<Edge>) returns (dist: array2<int>)
    requires InRange(edges, n) && NotNegative(edges)
    ensures dist.Length0 == n && dist.Length1 == n
    ensures forall i: nat, j: nat :: i < n && j < n ==> Shortest(edges, n, i, j, dist[i, j])
  {
    dist := ReadInput(n, edges);
    ghost var g := InputGrid(n, edges);
    InputIsWeighted(n, edges);
    for k := 0 to n
      invariant dist.Length0 == n && dist.Length1 == n && fresh(dist)
      invariant Contents(dist) == Passes(g, n, k)
    {
      ghost var d := Contents(dist);
      PassesAreLeast(g, n, k);
      for i := 0 to n
        invariant dist.Length0 == n && dist.Length1 == n && fresh(dist)
        invariant forall x, y :: 0 <= x < n && 0 <= y < n ==>
          dist[x, y] == if x < i then Via(d, n, k, x, y) else d[x][y]
      {
        RowFromSnapshot(d, Contents(dist), n, k, i);
        IjLoop(dist, i, k);
      }
      GridsEqual(Contents(dist), Pass(d, n, k), n);
    }
    PassesAreLeast(g, n, n);
    forall i: nat, j: nat | i < n && j < n ensures Shortest(edges, n, i, j, dist[i, j]) {
      LeastIsShortest(edges, n, i, j, Contents(dist)[i][j]);
    }
  }

  /** Rows already passed do not change what the pass makes of the next row. */
  lemma RowFromSnapshot(d: Grid, e: Grid, n: nat, k: nat, i: nat)
    requires Weighted(d, n) && Square(e, n) && k < n && i < n
    requires forall x, y :: 0 <= x < n && 0 <= y < n ==> e[x][y] == if x < i then Via(d, n, k, x, y) else d[x][y]
    ensures forall y :: 0 <= y < n ==> Via(e, n, k, i, y) == Via(d, n, k, i, y)
    ensures Weighted(e, n)
  {
    forall y | 0 <= y < n ensures Via(e, n, k, i, y) == Via(d, n, k, i, y) { PivotFixed(d, n, k, y); }
    PivotFixed(d, n, k, i);
  }
}
