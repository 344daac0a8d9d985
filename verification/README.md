# Verified models of the concurrency and allocation assignments

This project models the parts of the repository whose correctness is not visible from reading one
function, and proves what they are for:

| modules | what they model |
|---|---|
| `SemaphoreScripts` | processes that run straight-line scripts over semaphores and publish their state in one shared matrix; `updateMatrix` is four steps (lock, read, write back, unlock) |
| `StateMatrix`, `Chains`, `Wrappers` | the type of that matrix; sequences of states joined end to end; a value that may be missing |
| `TrainJunction`, `JunctionReachability` | the four-way junction: the trains' scripts, the manager that starts them and takes locked snapshots, `checkCycle`; which trains can deadlock |
| `QueueDeadlock`, `QueueReachability` | producers and consumers over two bounded queues, with and without the avoidance flag; when they can deadlock |
| `MatrixFile` | the text file the matrix lives in, byte by byte |
| `ShortestPaths`, `EdgeLists`, `FloydWarshall` | the edge list that is read and its routes; one thread per row, no lock, every element access a step of its own |
| `Gossip`, `GossipRounds`, `GossipLockstep`, `GossipReach`, `GossipFinish` | flooding over pipes, its lockstep rounds, the schedule that makes the rounds a run, which networks can finish, and that no run of them is a dead end |
| `SeatBooking` | the booking branch of the reservation server over an array of rows |
| `InternetChecksum` | the two checksum routines, on either byte order |
| `AtmLedger` | the teller machines' logs and the master's fold |
| `Handshake` | connection set-up over a channel that loses, repeats and reorders |

Protocols are state machines whose runs are sequences of states; a theorem about "every run" is a
lemma over every such sequence and every position in it. Loops over memory are methods with
invariants, proved against specification functions about which the lemmas then speak.

The central results:

- The deadlock detectors are exact in every reachable state although the matrix lags behind the
  semaphores (`TrainJunction.DetectionOverRuns`, `QueueDeadlock.DetectionOverRuns`); a junction
  that stops has either passed all its trains or holds the four-train cycle
  (`TrainJunction.EveryRunEnds`); the avoidance flag makes deadlock impossible
  (`QueueDeadlock.AvoidanceWorks`, `QueueDeadlock.EveryoneCanFinish`). Deadlocks do happen: exactly
  for train sequences with all four directions (`JunctionReachability.DeadlockReachable`), exactly
  without the flag (`QueueReachability.DeadlockReachable`); and the cycle the queue manager prints
  from its snapshot is a true one then and ever after (`QueueDeadlock.ReportedCycleIsTrue`).
- Both managers report: a deadlock that stands when the matrix is read is reported by the manager's next
  two turns, none is reported otherwise, and from every circular wait the run can go on to a report
  (`DeadlockIsReported` and `WaitGetsReported` of the trains and of the queues).
- A producer at its act sends exactly if the queue has room, a consumer takes the oldest message exactly if
  there is one, and nothing else touches a queue (`QueueDeadlock.ActDoesIt`, `QueueDeadlock.OnlyActsChange`).
- Every schedule of the unlocked threads prints exactly the least cost of a route over the edges that were
  read, the last edge between two vertices counting (`FloydWarshall.EveryScheduleFindsShortestRoutes`), and
  every schedule ends.
- Every node that exits has stored the values of all nodes and nothing else, so its status is their mean
  exactly under a stated condition on the uninitialised `sum` (`Gossip.EveryExitIsTheMean`); none is left
  incomplete with nothing on its way (`Gossip.NeverStuck`); the lockstep rounds are a breadth-first search
  (`GossipRounds.LockstepIsBreadthFirst`, `GossipLockstep.LockstepIsARun`). All nodes can exit exactly when
  the network is connected (`GossipReach.FinishesIfConnected`), and then every run, cut off anywhere, can be
  continued until they have (`GossipFinish.EveryRunCanFinish`).
- A booking is all or nothing, in one coach where one has room, and no seat is given out twice.
- Each checksum routine is right exactly under a stated bound on the sum. The bytes `checksum` puts on the
  wire are the same from both kinds of host exactly when the wraps of the two sums and the byte left over
  balance (`InternetChecksum.ChecksumBytes`) -- where neither sum reaches 2^32, exactly for an even length or
  a last byte 0 (`InternetChecksum.ChecksumSameBytes`); those of `csum` exactly when neither host drops a
  carry (`InternetChecksum.CSumSameBytes`).

Six expectations one may have of the code do not hold without a condition. The condition is proved
exact, and an input the code can receive shows the failing side:

- `csum` is right if and only if two folds of the word sum leave no carry
  (`InternetChecksum.CSumIsRight`); it is wrong on 65538 words 0xFFFF followed by a word 1
  (`InternetChecksum.CSumCanFail`).
- `checksum` is right if and only if its 32-bit sum does not wrap (`InternetChecksum.ChecksumIsRight`);
  it is wrong on 131076 bytes 0xFF (`InternetChecksum.ChecksumCanFail`).
- A granted ATM transaction is accounted for if and only if the machine's log had a free slot or the
  transaction moves nothing (`AtmLedger.GrantCounts`); the deposit after the hundredth in a row at one
  machine is lost (`AtmLedger.FullLogLosesDeposit`).
- The mean a node computes is right if and only if the value that the uninitialised `sum` starts with
  leaves the remainder in its range; it is wrong for a start at N (`Gossip.StartDecides`).
- Two kinds of host send the same checksum bytes only under the conditions above; they send different ones
  for 131594 bytes FF 00 FF 00 ... (`InternetChecksum.ChecksumBytesCanDiffer`) and from `csum` for the buffer
  of the first item (`InternetChecksum.CSumBytesCanDiffer`).
- A viewed balance is short by exactly what the logs still owe (`AtmLedger.ViewedBalance`); a deposit behind
  another account's entry is not seen although no log is full (`AtmLedger.ViewFallsShort`).

Assumed of the surroundings: semaphores and message queues behave as their manual pages say, one
memory access at a time takes effect, a pipe delivers in order.

## Model

| member | source | states |
|---|---|---|
| `SemaphoreScripts.StepKeepsInv` | os_lab/assignment5/question2/ass5q2.h:65-74 | Every step keeps every semaphore exclusive, keeps the matrix lock exclusive, and loses no update although `updateMatrix` copies the whole file out and back |
| `SemaphoreScripts.BeginKeepsInv` | os_lab/assignment5/question2/manager.c:176-200 | Starting a process on a new script keeps all of that |
| `SemaphoreScripts.ManagerKeepsInv` | os_lab/assignment5/question2/manager.c:155-175 | So does every step of the manager's snapshot and check |
| `SemaphoreScripts.HolderUnique` | os_lab/assignment5/question2/train.c:84-127 | A semaphore never has two holders |
| `SemaphoreScripts.StuckWaits` | os_lab/assignment5/question2/train.c:84-127 | When nobody can move, each unfinished process stands at a semaphore held by another unfinished one |
| `SemaphoreScripts.StepCostsOne` | os_lab/assignment5/question2/train.c:84-127 | Each step uses up exactly one unit of the work that is left |
| `SemaphoreScripts.NothingLeft` | os_lab/assignment5/question2/train.c:84-127 | No work is left exactly when every process is at its end |
| `TrainJunction.ScanRow` | os_lab/assignment5/question2/ass5q2.h:80-103 | The four tests of one row append exactly the row's (train, wanted direction) pairs and count them |
| `TrainJunction.CheckCycle` | os_lab/assignment5/question2/ass5q2.h:77-106 | Returns 1 exactly when the count is 4 after some row; `cycle` then starts with the eight cells of the pairs found so far |
| `TrainJunction.DetectsMeansAllFour` | os_lab/assignment5/question2/ass5q2.h:77-106 | With at most one row per direction, the count meets 4 exactly when all four directions are held with the next one requested |
| `TrainJunction.TraceIsExact` | os_lab/assignment5/question2/ass5q2.h:80-100 | The cells written are pairs (train, wanted direction): each pair is a row that holds the direction before and has asked for that one, and every such row is there |
| `TrainJunction.TrainHolds` | os_lab/assignment5/question2/train.c:84-127 | Between which lines a train holds which semaphore |
| `TrainJunction.TrainShows` | os_lab/assignment5/question2/train.c:84-127 | What its matrix row says at each line |
| `TrainJunction.TrainScriptDisciplined` | os_lab/assignment5/question2/train.c:84-127 | No semaphore is taken twice or given back unheld, and a train ends with nothing held and nothing shown |
| `TrainJunction.ArrowTable` | os_lab/assignment5/question2/train.c:84-104 | A row shows "holds x, wants the next" exactly while its train is past announcing the wait and has not published the grant |
| `TrainJunction.DetectorIsExact` | os_lab/assignment5/question2/ass5q2.h:77-106 | In any state that keeps the invariant, `checkCycle` on the matrix says 1 exactly for a four-train circular wait, and writes at most 8 cells |
| `TrainJunction.CircularWaitStays` | os_lab/assignment5/question2/train.c:84-127 | No event ends a circular wait, a newly started train included |
| `TrainJunction.SnapshotIsExact` | os_lab/assignment5/question2/manager.c:155-175 | On the manager's locked snapshot the verdict is 1 exactly when four trains stand at the semaphore the next one holds |
| `TrainJunction.DetectionOverRuns` | os_lab/assignment5/question2/manager.c:146-230 | In every state of every run: detection is exact, permanent, what is reported is true at the moment of reporting, and 8 of the 10 cells suffice |
| `TrainJunction.DeadlockIsReported` | os_lab/assignment5/question2/manager.c:155-175 | The manager's next two turns after reading the matrix, whatever happens in between, leave it reported, for good, if four trains were deadlocked when it read, and idle if not |
| `JunctionReachability.WaitGetsReported` | os_lab/assignment5/question2/manager.c:203-227 | From every state of every run with a circular wait and an idle manager the run can go on to a report |
| `TrainJunction.MatrixFidelity` | os_lab/assignment5/question2/ass5q2.h:65-74 | In every state of every run each cell is what its train last published, an ACQUIRED cell is backed by the semaphore, and a direction has at most one |
| `TrainJunction.EveryTrainCrosses` | os_lab/assignment5/question2/train.c:106-112 | A train that has come to its end has been on the junction |
| `TrainJunction.CrossingAlone` | os_lab/assignment5/question2/train.c:106-112 | In no state of any run two trains are on the junction, and the one that is holds its own direction and the next |
| `TrainJunction.StuckMeansDeadlock` | os_lab/assignment5/question2/train.c:84-127 | If nobody can move and some started train is unfinished, four trains are deadlocked |
| `TrainJunction.Progress` | os_lab/assignment5/question2/train.c:84-127 | Without a circular wait an unfinished train means that someone can step |
| `TrainJunction.StuckVerdict` | os_lab/assignment5/question2/manager.c:203-227 | In a stuck junction: somebody is left, four are deadlocked, the check returns 1 -- all the same |
| `TrainJunction.TrainCost` | os_lab/assignment5/question2/train.c:84-127 | A train takes exactly 31 steps |
| `TrainJunction.BudgetAlongRun` | os_lab/assignment5/question2/manager.c:146-230 | Along every run the steps taken and the steps left add up to 31 per train |
| `TrainJunction.EveryRunEnds` | os_lab/assignment5/question2/manager.c:146-230 | At most 31 n train steps; all n crossed exactly after 31 n; a stopped junction has passed all trains exactly if it is not deadlocked, and the check tells which |
| `JunctionReachability.TrainToSecondWait` | os_lab/assignment5/question2/train.c:84-100 | A train alone, its own direction free, gets to its second semaphore holding its own |
| `JunctionReachability.DeadlockReachable` | os_lab/assignment5/question2/train.c:84-100 | Some run of the trains of a sequence ends in the four-train deadlock exactly when all four directions occur in it |
| `QueueDeadlock.ScanRow` | os_lab/assignment5/question1/ass5.h:83-94 | One row appends exactly its (consumer, wanted queue) pair and sets its flag |
| `QueueDeadlock.CheckCycle` | os_lab/assignment5/question1/ass5.h:80-96 | True exactly when each queue is wanted by a consumer holding the other; `cycle` lists exactly the pairs |
| `QueueDeadlock.PairsAreWants` | os_lab/assignment5/question1/ass5.h:80-96 | The listed pairs are the true ones, all of them |
| `QueueDeadlock.PairsCloseCycle` | os_lab/assignment5/question1/ass5.h:80-96 | At most two pairs, that is four cells, and on a detection exactly two with different queues |
| `QueueDeadlock.OneDisciplined` | os_lab/assignment5/question1/producer.c:44-83 | An iteration over one queue takes and gives back that queue once |
| `QueueDeadlock.TwoDisciplined` | os_lab/assignment5/question1/consumer.c:46-124 | So does one over both queues, in its order of acquiring and releasing |
| `QueueDeadlock.ScriptsAre` | os_lab/assignment5/question1/consumer.c:51-121 | The operations of an iteration over one queue and of one over both, one by one |
| `QueueDeadlock.MayBegin` | os_lab/assignment5/question1/consumer.c:47-49 | An idle process may begin on either queue, an idle consumer on both with queue 0 first and, without the flag, with queue 1 first, and on nothing else |
| `QueueDeadlock.WaitTable` | os_lab/assignment5/question1/consumer.c:79-84 | Only a two-queue consumer at its second semaphore ever waits with a queue in hand |
| `QueueDeadlock.WantTable` | os_lab/assignment5/question1/consumer.c:51-89 | Which lines of which iteration show "holds one, wants the other" |
| `QueueDeadlock.DetectorIsExact` | os_lab/assignment5/question1/ass5.h:80-96 | `checkCycle` on the matrix is 1 exactly for a circular wait of two consumers, and fits 4 cells |
| `QueueDeadlock.CircularWaitStays` | os_lab/assignment5/question1/consumer.c:46-124 | No event ends it |
| `QueueDeadlock.SnapshotIsExact` | os_lab/assignment5/question1/manager.c:116-124 | On the locked snapshot it is 1 exactly when two consumers stand at the semaphore the other holds |
| `QueueDeadlock.DetectionOverRuns` | os_lab/assignment5/question1/manager.c:112-126 | In every state of every run: exact, permanent, and true when reported |
| `QueueDeadlock.DeadlockIsReported` | os_lab/assignment5/question1/manager.c:112-126 | The manager's next two turns after reading the matrix, whatever happens in between, leave it reported, for good, if two consumers were deadlocked when it read, and idle if not |
| `QueueReachability.WaitGetsReported` | os_lab/assignment5/question1/manager.c:112-126 | From every state of every run with a circular wait and an idle manager the run can go on to a report |
| `QueueDeadlock.WantsLastWhenRead` | os_lab/assignment5/question1/manager.c:116-124 | On a detection every want the locked snapshot shows, not just one per queue, is a wait that lasts |
| `QueueDeadlock.WantsLastForever` | os_lab/assignment5/question1/consumer.c:46-124 | It lasts through every later state, whoever moves |
| `QueueDeadlock.ReportedCycleIsTrue` | os_lab/assignment5/question1/manager.c:116-127 | In every run, whenever a snapshot is checked (the lock already given back) and shows a cycle, the four cells printed fit and name two consumers, each waiting for the queue the other holds, at that moment and in every later state |
| `QueueDeadlock.MatrixFidelity` | os_lab/assignment5/question1/ass5.h:48-65 | In every state of every run no update is lost, a LOCK cell is backed by its semaphore, and a column has at most one |
| `QueueDeadlock.QueueCallsSucceed` | os_lab/assignment5/question1/producer.c:58-73 | When a process acts on a queue, the length it read is still true: room for the sender, the oldest message not taken yet for the receiver |
| `QueueDeadlock.ActDoesIt` | os_lab/assignment5/question1/producer.c:58-73 | In every run a producer at its act appends exactly its message and counts it if the queue holds fewer than 10, a consumer removes exactly the head and counts it if there is one; nothing else changes |
| `QueueDeadlock.OnlyActsChange` | os_lab/assignment5/question1/consumer.c:62-77 | Nothing but an act changes a queue or a counter |
| `QueueDeadlock.IterationActs` | os_lab/assignment5/question1/consumer.c:46-124 | A finished iteration has acted on its queue, a two-queue one on both |
| `QueueDeadlock.TraceKeepsInv` | os_lab/assignment5/question1/consumer.c:62-77 | Along every run: queues bounded by 10 and first in first out, sent = taken followed by queued, inserts = consumes + queued |
| `QueueDeadlock.InsertKeepsConserved` | os_lab/assignment5/question1/producer.c:58-73 | An insert keeps the bound and the balance, given a true reading of the length |
| `QueueDeadlock.RemoveKeepsConserved` | os_lab/assignment5/question1/consumer.c:62-77 | A removal keeps the balance |
| `QueueDeadlock.StepKeepsPeeked` | os_lab/assignment5/question1/consumer.c:62-77 | No other process can change a queue between the reading of its length and the act |
| `QueueDeadlock.StuckMeansDeadlock` | os_lab/assignment5/question1/consumer.c:46-124 | If nobody can move and somebody is in mid-iteration, two consumers are deadlocked |
| `QueueDeadlock.StuckVerdict` | os_lab/assignment5/question1/manager.c:116-126 | In a stuck plant: somebody in mid-iteration, deadlock, check returns 1 -- all the same |
| `QueueDeadlock.AvoidanceExcludesWait` | os_lab/assignment5/question1/consumer.c:47-49 | With the flag, no circular wait is possible at all |
| `QueueDeadlock.AvoidanceWorks` | os_lab/assignment5/question1/consumer.c:46-121 | With the flag, in every state of every run: no detection, no report, and while anybody is in mid-iteration someone can move |
| `QueueDeadlock.EveryoneCanFinish` | os_lab/assignment5/question1/consumer.c:46-121 | With the flag, from every such state there is a continuation in which everybody ends the iteration |
| `QueueReachability.ConsumerToSecondWait` | os_lab/assignment5/question1/consumer.c:46-84 | A consumer of both queues alone, its first queue free, gets to its second semaphore holding the first |
| `QueueReachability.DeadlockReachable` | os_lab/assignment5/question1/consumer.c:46-121 | Some run deadlocks two consumers exactly when the avoidance flag is off |
| `MatrixFile.ScanUndoesDecimal` | os_lab/assignment5/question2/ass5q2.h:44-63 | "%d" reads back what "%d" printed, for every integer, up to the tab after it |
| `MatrixFile.ScanIs` | os_lab/assignment5/question2/ass5q2.h:48-48 | "%d" skips blanks, takes a sign or none and the digits up to the first other character |
| `MatrixFile.NaturalIs` | os_lab/assignment5/question2/ass5q2.h:59-59 | The k-th digit from the end is the number divided by 10 to the k, modulo 10 |
| `MatrixFile.NaturalLength` | os_lab/assignment5/question2/ass5q2.h:59-59 | No more digits are printed than the number has |
| `MatrixFile.LineIs` | os_lab/assignment5/question2/ass5q2.h:57-61 | Each cell is followed by a tab, and a newline closes the line |
| `MatrixFile.LinesAre` | os_lab/assignment5/question2/ass5q2.h:56-62 | The lines follow each other |
| `MatrixFile.ScanUndoesLines` | os_lab/assignment5/question2/ass5q2.h:44-63 | Reading a fixed number of cells undoes printing them, whatever text follows |
| `MatrixFile.WriteThenRead` | os_lab/assignment5/question1/ass5.h:23-46 | After `writeMatrix`, over older text of any length, the file reads as the written matrix |
| `MatrixFile.File.Print` | os_lab/assignment5/question2/ass5q2.h:54-63 | Printing never truncates: the text up to the position and the text behind what was printed stay, the printed text is in between, and the text grows only past its end |
| `MatrixFile.File.ScanInt` | os_lab/assignment5/question2/ass5q2.h:44-52 | Reading skips white space, takes the longest number and leaves the position behind it |
| `MatrixFile.File.WriteMatrix` | os_lab/assignment5/question2/ass5q2.h:54-63 | The new text is the printed matrix over the front of the old text |
| `MatrixFile.File.ReadMatrix` | os_lab/assignment5/question2/ass5q2.h:44-52 | Reads the lines the text holds from its start |
| `MatrixFile.File.UpdateMatrix` | os_lab/assignment5/question2/ass5q2.h:65-74 | A file that reads as a matrix afterwards reads as that matrix with one cell replaced |
| `ShortestPaths.PivotFixed` | os_lab/assignment7/13CS30011_fw.c:47-61 | A pass never changes row k or column k |
| `ShortestPaths.PassIsLowerBound` | os_lab/assignment7/13CS30011_fw.c:47-61 | After pass k no path through vertices up to k is shorter than the entry |
| `ShortestPaths.PassIsReached` | os_lab/assignment7/13CS30011_fw.c:47-61 | Every entry other than -1 is the length of such a path |
| `ShortestPaths.PassesAreLeast` | os_lab/assignment7/13CS30011_fw.c:82-97 | After k passes every entry is the least length over paths through the first k vertices, and -1 exactly where there is none |
| `ShortestPaths.SimplePathExists` | os_lab/assignment7/13CS30011_fw.c:82-97 | A path can be made simple without growing longer |
| `ShortestPaths.LeastIsBounded` | os_lab/assignment7/13CS30011_fw.c:82-97 | Entries stay below k + 1 times the largest weight |
| `EdgeLists.EntryIs` | os_lab/assignment7/13CS30011_fw.c:30-44 | Between any two vertices one edge counts, the last, or none joins them; the element says which |
| `EdgeLists.PathToRoute` | os_lab/assignment7/13CS30011_fw.c:24-45 | Every path of the matrix is, without its idle hops, a route over the edge list at the same cost |
| `EdgeLists.LeastIsShortest` | os_lab/assignment7/13CS30011_fw.c:24-45 | What is least over the paths of the matrix is the least cost of a route over the edge list, and -1 exactly when there is none |
| `FloydWarshall.PivotUntouched` | os_lab/assignment7/13CS30011_fw.c:47-76 | At every moment of phase k, row k and column k are what they were at its start |
| `FloydWarshall.AccessIsRight` | os_lab/assignment7/13CS30011_fw.c:47-61 | One element access of one thread acts as if it saw the matrix at the start of the phase |
| `FloydWarshall.ThreadKeepsUndisturbed` | os_lab/assignment7/13CS30011_fw.c:64-76 | Under any interleaving each element is either untouched or already the result of the functional pass |
| `FloydWarshall.PhaseIsOnePass` | os_lab/assignment7/13CS30011_fw.c:82-97 | When all threads are joined the matrix is that of one functional pass |
| `FloydWarshall.EveryScheduleFindsShortestPaths` | os_lab/assignment7/13CS30011_fw.c:78-101 | For every schedule the printed matrix holds exactly the least path lengths, and -1 exactly for unreachable pairs |
| `FloydWarshall.EveryScheduleFindsShortestRoutes` | os_lab/assignment7/13CS30011_fw.c:78-101 | For every schedule, what is printed for i and j is the least cost of a route over the edges read, and -1 exactly when there is none |
| `FloydWarshall.DiagonalStaysZero` | os_lab/assignment7/13CS30011_fw.c:30-37 | A vertex without a self-loop is printed at distance 0 from itself |
| `FloydWarshall.SumsAreBounded` | os_lab/assignment7/13CS30011_fw.c:56-58 | No sum compared or stored exceeds 2 n times the largest weight |
| `FloydWarshall.EveryScheduleEnds` | os_lab/assignment7/13CS30011_fw.c:82-97 | No schedule blocks before printing, and each step goes down in a well-founded order |
| `FloydWarshall.ReadInput` | os_lab/assignment7/13CS30011_fw.c:24-45 | Each element is the weight of the last edge between its two vertices, in either direction; without one 0 on the diagonal and -1 elsewhere |
| `FloydWarshall.UpdateDist` | os_lab/assignment7/13CS30011_fw.c:47-61 | One element becomes the minimum via k, -1 meaning infinity; no other changes |
| `FloydWarshall.IjLoop` | os_lab/assignment7/13CS30011_fw.c:64-76 | A thread alone turns its row into that of the functional pass |
| `FloydWarshall.Sequential` | os_lab/assignment7/13CS30011_fw.c:78-97 | The program with threads one after the other gives for all i and j the least cost of a route over the edge list, -1 exactly when there is none |
| `EdgeLists.InputIsWeighted` | os_lab/assignment7/13CS30011_fw.c:24-45 | Non-negative weights give a matrix the main theorem applies to |
| `Gossip.Node.CopyCurrent` | os_lab/labtest1/13CS30011/13CS30011_node.c:83-91 | The copy loop empties `current` into `total` as the specification function does |
| `Gossip.Node.Receive` | os_lab/labtest1/13CS30011/13CS30011_node.c:98-110 | The receive loop appends the unknown pairs of the message to `current` |
| `Gossip.Node.Mean` | os_lab/labtest1/13CS30011/13CS30011_node.c:115-126 | The result is the sum of the set entries from 1 to N, added up one by one to whatever `sum` started with, divided by N towards 0 |
| `Gossip.SumIs` | os_lab/labtest1/13CS30011/13CS30011_node.c:115-122 | The sum used is what adding up the set entries one by one gives |
| `Gossip.SumOfNone` | os_lab/labtest1/13CS30011/13CS30011_node.c:115-122 | It is 0 when nothing from 1 to N is set |
| `Gossip.SumAfterStore` | os_lab/labtest1/13CS30011/13CS30011_node.c:115-122 | Storing a value from 1 to N adds it if the entry was unset and the difference if it was set; outside it adds nothing |
| `Gossip.StartDecides` | os_lab/labtest1/13CS30011/13CS30011_node.c:115-126 | That is the master's mean exactly if start plus remainder stays at least 0 and below N; 0 always qualifies |
| `Gossip.CopyAllKnows` | os_lab/labtest1/13CS30011/13CS30011_node.c:83-91 | Copying stores every id once and counts it once, duplicates or not |
| `Gossip.CopyAllStores` | os_lab/labtest1/13CS30011/13CS30011_node.c:83-91 | It stores nothing but what `current` says |
| `Gossip.CopyAllKeeps` | os_lab/labtest1/13CS30011/13CS30011_node.c:86-86 | What was set stays as it was |
| `Gossip.CopyAllTakesLast` | os_lab/labtest1/13CS30011/13CS30011_node.c:83-91 | What was unset takes the value of its last pair in `current` |
| `Gossip.NewsIsUnknown` | os_lab/labtest1/13CS30011/13CS30011_node.c:98-110 | What is kept of a message is exactly what was unknown |
| `Gossip.NewsInOrder` | os_lab/labtest1/13CS30011/13CS30011_node.c:102-109 | A message is taken pair by pair, the last first, each kept exactly if its id is unset |
| `Gossip.NodeArgs` | os_lab/labtest1/13CS30011/13CS30011_master.c:80-93 | The descriptors a node gets are those of its edges, in edge order |
| `Gossip.FdsAreOwn` | os_lab/labtest1/13CS30011/13CS30011_master.c:80-93 | A node reads only pipes that lead to it and writes only pipes that lead from it |
| `Gossip.EveryPipeIsWritten` | os_lab/labtest1/13CS30011/13CS30011_master.c:80-93 | Every pipe between two different nodes is written by the one it leads from |
| `Gossip.RunIsTrue` | os_lab/labtest1/13CS30011/13CS30011_node.c:76-113 | In every state of every run each pair anywhere carries its owner's value, and `total_nodes` is the number of set entries |
| `Gossip.CountMeansComplete` | os_lab/labtest1/13CS30011/13CS30011_node.c:113-113 | The loop condition is met exactly when every node is known |
| `Gossip.EveryExitIsTheMean` | os_lab/labtest1/13CS30011/13CS30011_node.c:113-126 | In every run every exit status is the quotient that the node's start value of `sum` gives, and it is the master's mean (1 to 100) exactly if start plus remainder stays at least 0 and below N |
| `Gossip.ExitStatusIs` | os_lab/labtest1/13CS30011/13CS30011_node.c:115-126 | In every run every exit status is the start value plus the initial values from 1 to N, added up one by one, divided by N |
| `Gossip.ReferenceMean` | os_lab/labtest1/13CS30011/13CS30011_master.c:64-124 | The master's mean is the sum of the values it dealt out, added up one by one, divided by N |
| `Gossip.EveryNetworkStarts` | os_lab/labtest1/13CS30011/13CS30011_master.c:50-134 | Up to 99 nodes, any edges, any values from 1 to 100: there is such a network to start from |
| `Gossip.CoveredStays` | os_lab/labtest1/13CS30011/13CS30011_node.c:76-113 | What has been sent over a pipe is known, about to be stored or still to be read at its end, for ever after |
| `Gossip.RunIsFlooded` | os_lab/labtest1/13CS30011/13CS30011_node.c:76-113 | In every run what a node has stored, it has already sent to all its neighbours, exited nodes included |
| `Gossip.NeverStuck` | os_lab/labtest1/13CS30011/13CS30011_node.c:76-113 | On a connected graph, when nothing is on its way, every node knows everything and none is about to send again |
| `Gossip.CompleteNeverSendsAgain` | os_lab/labtest1/13CS30011/13CS30011_node.c:98-113 | Such a node only finishes its reads and exits |
| `GossipRounds.EveryPipeIsRead` | os_lab/labtest1/13CS30011/13CS30011_master.c:80-93 | Every pipe between two different nodes is read by the one it leads to |
| `GossipRounds.InboxIsNextSphere` | os_lab/labtest1/13CS30011/13CS30011_node.c:98-110 | What a node keeps in a round is exactly what lies one edge farther |
| `GossipRounds.RoundKeepsBalls` | os_lab/labtest1/13CS30011/13CS30011_node.c:76-113 | A round turns balls of radius r into balls of radius r + 1 |
| `GossipRounds.LockstepIsBreadthFirst` | os_lab/labtest1/13CS30011/13CS30011_node.c:76-113 | After r rounds a running node has stored exactly the nodes nearer than r, holds exactly those at distance r, and has exited exactly when all are nearer: after its eccentricity plus one rounds |
| `GossipLockstep.WriteAll` | os_lab/labtest1/13CS30011/13CS30011_node.c:78-81 | A node's own steps through its first loop append its message to exactly its pipes |
| `GossipLockstep.ReadEverything` | os_lab/labtest1/13CS30011/13CS30011_node.c:98-113 | Its steps through the last loop take one message from each pipe, in order, and end the iteration |
| `GossipLockstep.RoundIsScheduled` | os_lab/labtest1/13CS30011/13CS30011_node.c:76-113 | One lockstep round is a schedule of the nodes' own steps |
| `GossipLockstep.LockstepIsARun` | os_lab/labtest1/13CS30011/13CS30011_node.c:76-113 | Any number of rounds is a run from the initial network, so the breadth-first result holds in reachable states |
| `GossipRounds.RadiusOfAll` | os_lab/labtest1/13CS30011/13CS30011_node.c:76-113 | A connected network has one radius within which every node finds every other |
| `GossipReach.RunHeard` | os_lab/labtest1/13CS30011/13CS30011_node.c:76-113 | In every run a node has stored, is about to send, or has on its way only ids of nodes it is connected with |
| `GossipReach.FinishesIfConnected` | os_lab/labtest1/13CS30011/13CS30011_node.c:76-113 | Some run ends with all nodes exited exactly when the network is connected |
| `GossipFinish.CurrentGetsStored` | os_lab/labtest1/13CS30011/13CS30011_node.c:76-113 | A node running alone gets to store what is in its `current` |
| `GossipFinish.PipeGetsStored` | os_lab/labtest1/13CS30011/13CS30011_node.c:98-110 | A node running alone gets to store what is in a pipe it reads, behind any backlog |
| `GossipFinish.Progress` | os_lab/labtest1/13CS30011/13CS30011_node.c:76-113 | In a connected network, while some node is incomplete, some continuation leaves fewer entries unset |
| `GossipFinish.EveryRunCanFinish` | os_lab/labtest1/13CS30011/13CS30011_node.c:76-126 | In a connected network every run, cut off at any state, can be continued until all nodes have exited, each with the quotient of `Gossip.EveryExitIsTheMean` |
| `SeatBooking.MarkOne` | networks_lab/assignment2/server.c:291-297 | Marks one free matching row, any one, exactly if there is one; nothing else changes |
| `SeatBooking.FetchMarked` | networks_lab/assignment2/server.c:300-306 | Reports a marked row |
| `SeatBooking.BookMarked` | networks_lab/assignment2/server.c:309-309 | Marked rows become booked; nothing else changes |
| `SeatBooking.Attempt` | networks_lab/assignment2/server.c:291-312 | No row stays marked, and the row reported is the one just booked |
| `SeatBooking.BookOne` | networks_lab/assignment2/server.c:288-339 | One passenger gets a free seat in scope exactly if there is one, of the preferred type if there is one |
| `SeatBooking.Fill` | networks_lab/assignment2/server.c:348-393 | The loop ends and gives every passenger a distinct seat in scope, preferences served in order |
| `SeatBooking.FindCoach` | networks_lab/assignment2/server.c:276-285 | Finds a coach of the wanted type with room, in whatever order they are listed, or there is none |
| `SeatBooking.Book` | networks_lab/assignment2/server.c:260-404 | The whole effect of one request |
| `SeatBooking.GreedyCounts` | networks_lab/assignment2/server.c:348-393 | Each seat given lowers the count of free seats in scope by one, so the loop cannot run dry |
| `SeatBooking.NotAvailable` | networks_lab/assignment2/server.c:261-270 | NA exactly when the set of rows with flag 1, this train and this coach type has fewer elements than there are passengers; the table is unchanged then |
| `SeatBooking.RepliesAreSeats` | networks_lab/assignment2/server.c:300-309 | Otherwise each passenger is told coach, number and type of a row of the train that was free and is booked now; every other row is as it was |
| `SeatBooking.PreferencesHonoured` | networks_lab/assignment2/server.c:283-393 | All sit in one coach whose free rows of the type are enough, or no coach has enough; each has the preferred type unless all such seats there went to earlier ones |
| `SeatBooking.AllOrNothing` | networks_lab/assignment2/server.c:260-404 | NA exactly when fewer than `berth` seats of the type are free, and then nothing changes; else exactly `berth` distinct free rows of the train become booked |
| `SeatBooking.TogetherWhenPossible` | networks_lab/assignment2/server.c:283-344 | All in one coach whenever some coach of the type has room, and in the type asked for where coaches are of one type |
| `SeatBooking.Serve` | networks_lab/assignment2/server.c:222-408 | Any sequence of requests, each with the effect stated for one |
| `SeatBooking.StaysBooked` | networks_lab/assignment2/server.c:260-404 | A booked row stays booked over any sequence of requests, and a row never changes otherwise |
| `SeatBooking.NoDoubleBooking` | networks_lab/assignment2/server.c:288-393 | No row is given out twice, within or across replies |
| `SeatBooking.RepliesNameDifferentSeats` | networks_lab/assignment2/server.c:288-399 | No two passengers of a train read the same coach and seat number |
| `SeatBooking.SeatsBalance` | networks_lab/assignment2/server.c:260-404 | After any number of requests free + given = free at the start, and booked = booked at the start + given |
| `InternetChecksum.FoldIsOnesSum` | networks_lab/assignment3/udp4.c:280-282 | The loop fold of the plain sum is the sum with end-around carry |
| `InternetChecksum.FoldIsResidue` | networks_lab/assignment3/udp4.c:280-282 | It is congruent to the sum modulo 65535, and 0 only for 0 |
| `InternetChecksum.Checksum` | networks_lab/assignment3/udp4.c:260-288 | The method computes the complement of the fold of the 32-bit sum, odd last byte included |
| `InternetChecksum.WrapExact` | networks_lab/assignment3/udp4.c:263-275 | A wrapped sum folds to the right value exactly if it did not wrap |
| `InternetChecksum.ChecksumIsRight` | networks_lab/assignment3/udp4.c:260-288 | `checksum` is the complement of the one's-complement sum exactly when the words add up to less than 2^32 |
| `InternetChecksum.ChecksumIs` | networks_lab/assignment3/udp4.c:260-288 | Below 2^32 the result is the complement of the one word with the same remainder modulo 65535 as the sum over the bytes, one byte of each word weighing 1 and the other 256, and 0 only if the sum is |
| `InternetChecksum.ChecksumCanFail` | networks_lab/assignment3/udp4.c:260-288 | 131076 bytes 0xFF get a wrong checksum |
| `InternetChecksum.SmallBuffersFit` | networks_lab/assignment3/udp4.c:260-288 | Every buffer of up to 131074 bytes does |
| `InternetChecksum.CSum` | networks_lab/assignment6/ping.c:34-43 | The method computes the complement of two folds of the sum of its words |
| `InternetChecksum.TwoFoldsExact` | networks_lab/assignment6/ping.c:40-42 | Two folds are right exactly when the second leaves no carry |
| `InternetChecksum.TwoFoldsEnough` | networks_lab/assignment6/ping.c:40-42 | They are for every sum below 2^32 + 65535 |
| `InternetChecksum.CSumIsRight` | networks_lab/assignment6/ping.c:34-43 | `csum` is the complement of the one's-complement sum exactly when two folds of the total leave no carry |
| `InternetChecksum.CSumIs` | networks_lab/assignment6/ping.c:34-43 | The same of `csum` |
| `InternetChecksum.CSumCanFail` | networks_lab/assignment6/ping.c:34-43 | For 65538 words 0xFFFF and a word 1 it gives 0xFFFF where the checksum is 0xFFFE |
| `InternetChecksum.BothAgree` | networks_lab/assignment6/ping.c:34-43 | Below 2^32 the two routines agree with each other and with the definition |
| `InternetChecksum.FieldVerifies` | networks_lab/assignment6/ping.c:139-141 | A buffer checks to 0 exactly when its field holds the checksum of the buffer with the field zeroed, or the other zero |
| `InternetChecksum.OrderSwaps` | networks_lab/assignment3/udp4.c:266-270 | Reading the words in the other byte order swaps the bytes of the sum |
| `InternetChecksum.SameBytesOnTheWire` | networks_lab/assignment3/udp4.c:257-258 | The bytes of the RFC 1071 checksum itself are the same on both kinds of host exactly for an even length or a last byte 0 |
| `InternetChecksum.ChecksumBytes` | networks_lab/assignment3/udp4.c:260-288 | The bytes of what `checksum` returns are the same on both exactly when 256 times the wraps of the little-endian sum, less the wraps of the big-endian one and 255 times the byte left over, is divisible by 65535, and both wrapped sums or neither are 0 |
| `InternetChecksum.ChecksumSameBytes` | networks_lab/assignment3/udp4.c:260-288 | Where neither sum reaches 2^32, exactly for an even length or a last byte 0 |
| `InternetChecksum.ChecksumBytesCanDiffer` | networks_lab/assignment3/udp4.c:260-288 | For 131594 bytes FF 00 FF 00 ... the two hosts store different bytes |
| `InternetChecksum.CSumSameBytes` | networks_lab/assignment6/ping.c:34-43 | The bytes of what `csum` returns are the same on both kinds of host exactly when neither drops a carry |
| `InternetChecksum.CSumBytesCanDiffer` | networks_lab/assignment6/ping.c:34-43 | They differ for the buffer that one of them gets wrong |
| `InternetChecksum.PadIsFree` | networks_lab/assignment3/udp4.c:272-275 | On a little-endian host the odd last byte counts as if padded with 0 |
| `InternetChecksum.OneByteIsNoticed` | networks_lab/assignment3/udp4.c:257-288 | Changing one byte always changes the sum |
| `InternetChecksum.PrepareEcho` | networks_lab/assignment6/ping.c:139-141 | The ICMP header sent checks to 0; only its sequence and checksum fields change |
| `InternetChecksum.Append` | networks_lab/assignment3/udp4.c:301-304 | One copy through the moving pointer |
| `InternetChecksum.Udp4Checksum` | networks_lab/assignment3/udp4.c:291-359 | The result is the RFC 1071 checksum of pseudo-header, header, payload and padding |
| `InternetChecksum.CoveredIs` | networks_lab/assignment3/udp4.c:301-356 | The bytes covered are both addresses, zero, protocol, length, the two ports, length, zero checksum, payload and a zero after an odd payload, each at its place |
| `InternetChecksum.UdpVerifies` | networks_lab/assignment3/udp4.c:291-359 | A receiver's sum over the datagram is 0 exactly for that value in the field (or the other zero), and the bytes sent do not depend on the host |
| `AtmLedger.PushTransaction` | os_lab/assignment6/atm.cpp:101-112 | The first available slot takes the transaction, a full log stays as it is |
| `AtmLedger.PushedAt` | os_lab/assignment6/atm.cpp:101-112 | The first slot with AVAILABLE holds the transaction, every other what it held |
| `AtmLedger.PushedNowhere` | os_lab/assignment6/atm.cpp:101-112 | Without one the log stays as it is |
| `AtmLedger.PushAdds` | os_lab/assignment6/atm.cpp:101-112 | What the log owes grows by the transaction exactly if there was a slot |
| `AtmLedger.CheckAccount` | os_lab/assignment6/master.cpp:118-134 | Finds the account among the opened ones, or it is not there |
| `AtmLedger.Credit` | os_lab/assignment6/master.cpp:161-173 | The first row of the account gets the signed amount; no other row changes |
| `AtmLedger.FoldLog` | os_lab/assignment6/master.cpp:158-175 | The leading open entries of the account are credited and freed; the rest of the log stays |
| `AtmLedger.FoldFrees` | os_lab/assignment6/master.cpp:158-175 | A fold frees the first k slots, all unavailable ones of the account, and stops at the first that is not; no other changes |
| `AtmLedger.GlobalConsistencyCheck` | os_lab/assignment6/master.cpp:136-189 | The same for every machine's log |
| `AtmLedger.FoldTakes` | os_lab/assignment6/master.cpp:158-175 | What a log owes any account drops by exactly what the fold takes |
| `AtmLedger.VerifyAccount` | os_lab/assignment6/master.cpp:290-330 | An unknown account gets the next row with balance 0; a known one changes nothing |
| `AtmLedger.HundredCanEnter` | os_lab/assignment6/master.cpp:307-329 | Up to a hundred different clients can enter; their accounts stand in that order, all at 0 |
| `AtmLedger.EnterKeepsMoney` | os_lab/assignment6/master.cpp:307-329 | Opening an account moves no money |
| `AtmLedger.GrantCounts` | os_lab/assignment6/atm.cpp:218-249 | A granted transaction is accounted for exactly if the log had a slot or it moves nothing |
| `AtmLedger.FullLogLosesDeposit` | os_lab/assignment6/atm.cpp:101-112 | After a hundred deposits at one machine the next is granted and dropped, and the money held falls short by exactly it |
| `AtmLedger.CheckKeepsMoney` | os_lab/assignment6/master.cpp:136-189 | A consistency check moves no money, whatever holes the logs have |
| `AtmLedger.MoneyIsConserved` | os_lab/assignment6/atm.cpp:176-249 | After any run, for every account: balance + owed by the logs + dropped by full logs = granted deposits - granted withdrawals |
| `AtmLedger.ReplyBalance` | os_lab/assignment6/master.cpp:267-277 | The reply loop keeps the balance of the last row of the account, 0 if there is none |
| `AtmLedger.ReplyIsBalance` | os_lab/assignment6/master.cpp:267-277 | No account has two rows, so that is its balance; only for account 0 with rows unused it is 0 |
| `AtmLedger.ViewedBalance` | os_lab/assignment6/master.cpp:263-288 | While no log is full, the reply to a view is short by exactly what the logs still owe, and 0 for account 0 with rows unused |
| `AtmLedger.ExactAfterCheck` | os_lab/assignment6/master.cpp:263-288 | Right after a check the reply is exact, for every account but 0, if the account's entries came first in every log |
| `AtmLedger.ViewFallsShort` | os_lab/assignment6/master.cpp:158-175 | Two clients deposit at one machine and the second views: the reply is 0 although no log is full, its entry lying behind the other's |
| `AtmLedger.WithdrawalIsTaken` | os_lab/assignment6/master.cpp:165-170 | A client deposits a, withdraws b and views: the reply is a - b |
| `Handshake.ServerKeepsInv` | networks_lab/assignment3/Barno/Assign3Final/server_header.h:165-242 | Every step of `accept` keeps the invariant of the two numbers and of all packets sent |
| `Handshake.ClientKeepsInv` | networks_lab/assignment3/Barno/Assign3Final/client_header.h:226-346 | So does every step of `connect` |
| `Handshake.AcceptAgrees` | networks_lab/assignment3/Barno/Assign3Final/server_header.h:229-241 | When `accept` returns 0, the client has accepted a SYNACK and each SEQRCV is the other's SEQNO |
| `Handshake.ConnectAgrees` | networks_lab/assignment3/Barno/Assign3Final/client_header.h:280-345 | The numbers agree too when `connect` returns 0 |
| `Handshake.NumbersStay` | networks_lab/assignment3/Barno/Assign3Final/client_header.h:280-345 | Once the client has its answer, no packet repeated later changes any of the four numbers |
| `Handshake.BothCanReturn` | networks_lab/assignment3/Barno/Assign3Final/server_header.h:165-242 | Whatever was lost or repeated so far, every run can go on until both sides have returned, each with the number of the other |
| `Handshake.SynIsAnswered` | networks_lab/assignment3/Barno/Assign3Final/server_header.h:179-189 | A SYN is answered with its own number |
| `Handshake.OthersAreChecked` | networks_lab/assignment3/Barno/Assign3Final/server_header.h:227-237 | Any other packet ends the wait exactly if it acknowledges the server's number; otherwise the SYNACK is sent again |
| `Handshake.ServerSendsAgain` | networks_lab/assignment3/Barno/Assign3Final/server_header.h:200-223 | A server that hears nothing sends its SYNACK again |
| `Handshake.ClientSendsAgain` | networks_lab/assignment3/Barno/Assign3Final/client_header.h:232-277 | A client that hears nothing sends its SYN again |

## Left out

- Sockets, MySQL calls, `fork`, `exec`, signals, terminals and printing are modelled by their effect on shared state, or not at all; errors they return are not part of this model.
- Integer width is modelled where it decides (both checksums, the shortest-path sums, the exit status of a node); balances, seat numbers and matrix cells are unbounded.
- The processes' starting and shutting down: name clashes of semaphores, the kill after a detected deadlock, the totals taken from exit statuses, `trains_passed`.
- Partial writes of the matrix file while the matrix lock is held: nobody else reads it then, so read and write back are one step each; `MatrixFile` has the byte level.
- The trains' `printCycle`: it lists trains in id order, so what it prints is not generally the holder.
- FloydWarshall.Access: the elements in `updateDist` are read from left to right and accesses are sequentially consistent; a compiler may reorder, which C leaves undefined for racing threads.
- FloydWarshall.EveryScheduleFindsShortestPaths: weights below 0 and vertices out of range are excluded, since -1 stands for infinity and the program checks no index.
- Gossip.EveryExitIsTheMean: the cut of an exit status to its low 8 bits is left out; a mean from 1 to 100 does not feel it, a wrong one may.
- Gossip.Node.Receive: `current` grows as needed and pipes have no capacity; the program has room for 100 pairs and relies on the pipe buffer.
- Gossip.NeverStuck: says that a network with nothing on its way is complete; that a fair schedule brings every network there is not part of the statement; `GossipFinish.EveryRunCanFinish` gives, from any state, one continuation that does.
- End of file on a pipe: all processes hold every pipe open, so a read finds a message or nothing.
- SeatBooking.Fill: outside one coach the type of coach is not asked for, as in the program, so a staggered party may get seats of another type.
- SeatBooking.Book: parsing of the request; preferences are an arbitrary list of length `berth`, comparison of strings is exact.
- UDP's rule that a computed checksum of 0 is sent as 0xFFFF, and the IP header checksum of ping.c line 137, which covers nine words over a field that is not cleared.
- AtmLedger.FoldLog: the loop tests the index before the entry; the program reads one entry past a full log of one account before testing the index.
- AtmLedger.GrantMovesMoney: whether a withdrawal is granted is an arbitrary choice, because the local check uses a cached balance that may be stale; no claim is made against overdrafts.
- Replies mixed up on the shared queue of the master, and more than 100 accounts.
- Handshake liveness beyond the possible continuation of `Handshake.BothCanReturn`, RLTP data transfer and closing; packets of earlier connections.
- Shells, scheduler, mail, news and traceroute programs: input and output, or without a property of their own.
