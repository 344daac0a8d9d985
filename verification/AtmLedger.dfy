/**
 The bank of os_lab/assignment6: every teller machine keeps a log of transactions in shared memory
 (atm.cpp), and the master folds the logs into its account table when an account is viewed
 (master.cpp).  Each operation is one step here.
 */
module AtmLedger {

  const MAX_LOGS := 100
  const MAX_ACCOUNT := 100
  const UNAVAILABLE := 0
  const AVAILABLE := 1

  datatype Kind = Unset | Withdrawal | Deposit
  datatype Transaction = Transaction(amount: int, accNo: int, kind: Kind, avail: int)
  datatype Account = Account(balance: int, accNo: int)

  function Signed(amount: int, kind: Kind): int {
    match kind
    case Withdrawal => -amount
    case Deposit => amount
    case Unset => 0
  }

  // ---------- The log of one machine ----------

  predicate Open(t: Transaction, acc: int) { t.avail == UNAVAILABLE && t.accNo == acc }

  /** What the log still owes to the account. */
  function Pending(log: seq<Transaction>, acc: int): int {
    if log == [] then 0
    else (if Open(log[0], acc) then Signed(log[0].amount, log[0].kind) else 0) + Pending(log[1..], acc)
  }

  predicate Full(log: seq<Transaction>) { forall i :: 0 <= i < |log| ==> log[i].avail != AVAILABLE }

  /** The first available slot takes the transaction; a full log drops it. */
  function Pushed(log: seq<Transaction>, t: Transaction): seq<Transaction> {
    if log == [] then []
    else if log[0].avail == AVAILABLE then [t] + log[1..]
    else [log[0]] + Pushed(log[1..], t)
  }

  /** A fold reads the log up to the first slot that is free or belongs to another account. */
  function Folded(log: seq<Transaction>, acc: int): seq<Transaction> {
    if log == [] || !Open(log[0], acc) then log
    else [log[0].(avail := AVAILABLE)] + Folded(log[1..], acc)
  }

  function FoldedSum(log: seq<Transaction>, acc: int): int {
    if log == [] || !Open(log[0], acc) then 0
    else Signed(log[0].amount, log[0].kind) + FoldedSum(log[1..], acc)
  }

  lemma {:induction false} PushAdds(log: seq<Transaction>, t: Transaction, acc: int)
    requires t.avail == UNAVAILABLE
    ensures |Pushed(log, t)| == |log|
    ensures Pending(Pushed(log, t), acc)
            == Pending(log, acc) + if t.accNo == acc && !Full(log) then Signed(t.amount, t.kind) else 0
  {
    if log != [] && log[0].avail != AVAILABLE {
      PushAdds(log[1..], t, acc);
      assert Full(log) <==> Full(log[1..]);
      assert Pushed(log, t)[1..] == Pushed(log[1..], t);
    }
  }

  lemma {:induction false} FoldTakes(log: seq<Transaction>, acc: int, other: int)
    ensures |Folded(log, acc)| == |log|
    ensures Pending(Folded(log, acc), other) == Pending(log, other) - if other == acc then FoldedSum(log, acc) else 0
  {
    if log != [] && Open(log[0], acc) {
      FoldTakes(log[1..], acc, other);
      assert Folded(log, acc)[1..] == Folded(log[1..], acc);
    }
  }

  /** push_transaction */
  method PushTransaction(log: array<Transaction>, t: Transaction)
    modifies log
    ensures log[..] == Pushed(old(log[..]), t)
  {
    ghost var before := log[..];
    for i := 0 to log.Length
      invariant log[..] == before
      invariant Pushed(before, t) == before[..i] + Pushed(before[i..], t)
    {
      if log[i].avail == AVAILABLE {
        log[i] := t;
        assert log[..] == before[..i] + ([t] + before[i..][1..]);
        return;
      }
      assert before[i..][1..] == before[i + 1..];
      assert before[..i + 1] == before[..i] + [before[i]];
    }
    assert before[..log.Length] == before;
  }

  // ---------- The account table ----------

  /** The first row of the account; the length of the table if there is none. */
  function Slot(accounts: seq<Account>, acc: int): (k: nat)
    ensures k <= |accounts| && (k < |accounts| ==> accounts[k].accNo == acc)
    ensures forall j :: 0 <= j < k ==> accounts[j].accNo != acc
  {
    if accounts == [] || accounts[0].accNo == acc then 0 else 1 + Slot(accounts[1..], acc)
  }

  function Balance(accounts: seq<Account>, acc: int): int {
    if Slot(accounts, acc) < |accounts| then accounts[Slot(accounts, acc)].balance else 0
  }

  function Credited(accounts: seq<Account>, acc: int, amount: int): seq<Account> {
    var k := Slot(accounts, acc);
    if k < |accounts| then accounts[k := Account(accounts[k].balance + amount, acc)] else accounts
  }

  ghost predicate Registered(accounts: seq<Account>, total: nat, acc: int) {
    exists k :: 0 <= k < total && k < |accounts| && accounts[k].accNo == acc
  }

  /** Slots depend on the account numbers alone. */
  lemma SameSlot(one: seq<Account>, other: seq<Account>, acc: int)
    requires |one| == |other| && forall k :: 0 <= k < |one| ==> one[k].accNo == other[k].accNo
    ensures Slot(one, acc) == Slot(other, acc)
  {}

  lemma CreditedBalance(accounts: seq<Account>, acc: int, amount: int, other: int)
    requires Slot(accounts, acc) < |accounts|
    ensures Balance(Credited(accounts, acc, amount), other)
            == Balance(accounts, other) + if other == acc then amount else 0
  {
    SameSlot(accounts, Credited(accounts, acc, amount), other);
  }

  lemma CreditedTwice(accounts: seq<Account>, acc: int, x: int, y: int)
    ensures Credited(Credited(accounts, acc, x), acc, y) == Credited(accounts, acc, x + y)
    ensures Credited(accounts, acc, 0) == accounts
  {
    SameSlot(accounts, Credited(accounts, acc, x), acc);
  }

  /** checkAccount */
  method CheckAccount(data: array<Account>, acc: int, total: nat) returns (found: bool)
    requires total <= data.Length
    ensures found <==> Registered(data[..], total, acc)
  {
    for i := 0 to total
      invariant forall k :: 0 <= k < i ==> data[k].accNo != acc
    {
      if data[i].accNo == acc { return true; }
    }
    return false;
  }

  /** Look the account up and add to its balance. */
  method Credit(data: array<Account>, acc: int, t: Transaction)
    modifies data
    ensures data[..] == Credited(old(data[..]), acc, Signed(t.amount, t.kind))
  {
    ghost var before := data[..];
    for k := 0 to data.Length
      invariant data[..] == before
      invariant forall j :: 0 <= j < k ==> data[j].accNo != acc
    {
      if data[k].accNo == acc {
        assert Slot(before, acc) == k;
        if t.kind == Withdrawal {
          data[k] := data[k].(balance := data[k].balance - t.amount);
        } else if t.kind == Deposit {
          data[k] := data[k].(balance := data[k].balance + t.amount);
        }
        assert data[..] == before[k := Account(before[k].balance + Signed(t.amount, t.kind), acc)];
        return;
      }
    }
    assert forall j :: 0 <= j < |before| ==> before[j].accNo != acc;
  }

  /** `now` is the log with its first `j` slots folded, worth `sum`. */
  ghost predicate FoldedTo(was: seq<Transaction>, now: seq<Transaction>, j: nat, acc: int, sum: int) {
    && j <= |was| == |now|
    && now[j..] == was[j..]
    && Folded(was, acc) == now[..j] + Folded(was[j..], acc)
    && FoldedSum(was, acc) == sum + FoldedSum(was[j..], acc)
  }

  lemma FoldStep(was: seq<Transaction>, now: seq<Transaction>, j: nat, acc: int, sum: int)
    requires FoldedTo(was, now, j, acc, sum) && j < |now| && Open(now[j], acc)
    ensures FoldedTo(was, now[j := now[j].(avail := AVAILABLE)], j + 1, acc, sum + Signed(now[j].amount, now[j].kind))
  {
    var next := now[j := now[j].(avail := AVAILABLE)];
    assert was[j..][0] == now[j..][0] == now[j];
    assert was[j..][1..] == was[j + 1..];
    assert next[..j + 1] == now[..j] + [now[j].(avail := AVAILABLE)];
    assert next[j + 1..] == now[j..][1..];
  }

  lemma FoldEnds(was: seq<Transaction>, now: seq<Transaction>, j: nat, acc: int, sum: int)
    requires FoldedTo(was, now, j, acc, sum) && (j < |now| ==> !Open(now[j], acc))
    ensures now == Folded(was, acc) && sum == FoldedSum(was, acc)
  {
    assert j < |now| ==> was[j..][0] == now[j..][0] == now[j];
    assert now == now[..j] + now[j..];
  }

  /** One machine's log in the consistency check. */
  method FoldLog(data: array<Account>, log: array<Transaction>, acc: int)
    modifies data, log
    ensures log[..] == Folded(old(log[..]), acc)
    ensures data[..] == Credited(old(data[..]), acc, FoldedSum(old(log[..]), acc))
  {
    ghost var was, had := log[..], data[..];
    ghost var sum := 0;
    var j := 0;
    CreditedTwice(had, acc, 0, 0);
    while j < log.Length && log[j].avail == UNAVAILABLE && log[j].accNo == acc
      invariant 0 <= j <= log.Length && FoldedTo(was, log[..], j, acc, sum)
      invariant data[..] == Credited(had, acc, sum)
    {
      ghost var now := log[..];
      FoldStep(was, now, j, acc, sum);
      CreditedTwice(had, acc, sum, Signed(log[j].amount, log[j].kind));
      sum := sum + Signed(log[j].amount, log[j].kind);
      Credit(data, acc, log[j]);
      log[j] := log[j].(avail := AVAILABLE);
      assert log[..] == now[j := now[j].(avail := AVAILABLE)];
      j := j + 1;
    }
    FoldEnds(was, log[..], j, acc, sum);
  }

  // ---------- All machines ----------

  function PendingAll(logs: seq<seq<Transaction>>, acc: int): int {
    if logs == [] then 0 else PendingAll(logs[..|logs| - 1], acc) + Pending(logs[|logs| - 1], acc)
  }

  function FoldedSums(logs: seq<seq<Transaction>>, acc: int): int {
    if logs == [] then 0 else FoldedSums(logs[..|logs| - 1], acc) + FoldedSum(logs[|logs| - 1], acc)
  }

  function FoldedAll(logs: seq<seq<Transaction>>, acc: int): seq<seq<Transaction>> {
    seq(|logs|, i requires 0 <= i < |logs| => Folded(logs[i], acc))
  }

  ghost function Contents(logs: seq<array<Transaction>>): seq<seq<Transaction>>
    reads logs
  {
    seq(|logs|, i requires 0 <= i < |logs| reads logs => logs[i][..])
  }

  /** The balance in the last row of the account, 0 if it has none: what the reply loop keeps. */
  function LastBalance(accounts: seq<Account>, acc: int): int {
    if accounts == [] then 0
    else if accounts[|accounts| - 1].accNo == acc then accounts[|accounts| - 1].balance
    else LastBalance(accounts[..|accounts| - 1], acc)
  }

  /** The loop that finds the balance to be sent back. */
  method ReplyBalance(data: array<Account>, acc: int) returns (newBal: int)
    ensures newBal == LastBalance(data[..], acc)
  {
    newBal := 0;
    for i := 0 to data.Length
      invariant newBal == LastBalance(data[..i], acc)
    {
      assert data[..i + 1][..i] == data[..i];
      if data[i].accNo == acc { newBal := data[i].balance; }
    }
    assert data[..data.Length] == data[..];
  }

  /** globalConsistencyCheck */
  method GlobalConsistencyCheck(data: array<Account>, logs: seq<array<Transaction>>, acc: int)
    requires forall i, j :: 0 <= i < j < |logs| ==> logs[i] != logs[j]
    modifies data, set log | log in logs
    ensures Contents(logs) == FoldedAll(old(Contents(logs)), acc)
    ensures data[..] == Credited(old(data[..]), acc, FoldedSums(old(Contents(logs)), acc))
  {
    ghost var was, had := Contents(logs), data[..];
    CreditedTwice(had, acc, 0, 0);
    for i := 0 to |logs|
      invariant forall k :: i <= k < |logs| ==> logs[k][..] == was[k]
      invariant forall k :: 0 <= k < i ==> logs[k][..] == Folded(was[k], acc)
      invariant data[..] == Credited(had, acc, FoldedSums(was[..i], acc))
    {
      assert logs[i] in logs;
      FoldLog(data, logs[i], acc);
      FoldedOneMore(had, was, i, acc);
    }
    assert was[..|logs|] == was;
  }

  lemma FoldedOneMore(had: seq<Account>, logs: seq<seq<Transaction>>, i: nat, acc: int)
    requires i < |logs|
    ensures Credited(Credited(had, acc, FoldedSums(logs[..i], acc)), acc, FoldedSum(logs[i], acc))
            == Credited(had, acc, FoldedSums(logs[..i + 1], acc))
  {
    CreditedTwice(had, acc, FoldedSums(logs[..i], acc), FoldedSum(logs[i], acc));
    assert logs[..i + 1][..i] == logs[..i];
  }

  // ---------- The bank as a whole ----------

  datatype Bank = Bank(accounts: seq<Account>, total: nat, logs: seq<seq<Transaction>>)

  /** A client enters; a machine grants a deposit or withdrawal; the master checks an account. */
  datatype Event = Enter(acc: int) | Grant(atm: nat, acc: int, kind: Kind, amount: int) | Check(acc: int)

  ghost function Start(machines: nat): Bank {
    Bank(seq(MAX_ACCOUNT, i => Account(0, 0)), 0,
         seq(machines, i => seq(MAX_LOGS, j => Transaction(0, 0, Unset, AVAILABLE))))
  }

  /** Entering needs a free row unless the account exists; money moves on an entered account only. */
  ghost predicate Enabled(b: Bank, e: Event) {
    match e
    case Enter(acc) => Registered(b.accounts, b.total, acc) || b.total < |b.accounts|
    case Grant(atm, acc, kind, amount) => atm < |b.logs| && Registered(b.accounts, b.total, acc)
    case Check(acc) => true
  }

  ghost function Apply(b: Bank, e: Event): Bank
    requires Enabled(b, e)
  {
    match e
    case Enter(acc) =>
      if Registered(b.accounts, b.total, acc) then b
      else b.(accounts := b.accounts[b.total := Account(0, acc)], total := b.total + 1)
    case Grant(atm, acc, kind, amount) =>
      b.(logs := b.logs[atm := Pushed(b.logs[atm], Transaction(amount, acc, kind, UNAVAILABLE))])
    case Check(acc) =>
      b.(accounts := Credited(b.accounts, acc, FoldedSums(b.logs, acc)), logs := FoldedAll(b.logs, acc))
  }

  ghost predicate IsRun(run: seq<Bank>, events: seq<Event>, machines: nat) {
    && |run| == |events| + 1 && run[0] == Start(machines)
    && forall i :: 0 <= i < |events| ==> Enabled(run[i], events[i]) && run[i + 1] == Apply(run[i], events[i])
  }

  /** Granted deposits minus granted withdrawals. */
  function Net(events: seq<Event>, acc: int): int {
    if events == [] then 0 else Net(events[..|events| - 1], acc) + Moved(events[|events| - 1], acc)
  }

  function Moved(e: Event, acc: int): int {
    if e.Grant? && e.acc == acc then Signed(e.amount, e.kind) else 0
  }

  predicate Dropped(b: Bank, e: Event) {
    e.Grant? && e.atm < |b.logs| && Full(b.logs[e.atm])
  }

  /** What went to machines whose log was full. */
  function Lost(run: seq<Bank>, events: seq<Event>, acc: int): int
    requires |run| == |events| + 1
  {
    if events == [] then 0
    else
      var i := |events| - 1;
      Lost(run[..i + 1], events[..i], acc) + if Dropped(run[i], events[i]) then Moved(events[i], acc) else 0
  }

  function Money(b: Bank, acc: int): int { Balance(b.accounts, acc) + PendingAll(b.logs, acc) }

  ghost predicate OpenIsRegistered(b: Bank) {
    forall i, j :: 0 <= i < |b.logs| && 0 <= j < |b.logs[i]| && b.logs[i][j].avail == UNAVAILABLE ==>
      Registered(b.accounts, b.total, b.logs[i][j].accNo)
  }

  ghost predicate Sound(b: Bank) {
    && b.total <= |b.accounts|
    && (forall k :: b.total <= k < |b.accounts| ==> b.accounts[k] == Account(0, 0))
    && OpenIsRegistered(b)
    && DistinctRows(b.accounts, b.total)
  }

  /** No account was opened twice. */
  ghost predicate DistinctRows(accounts: seq<Account>, total: nat) {
    forall j, k :: 0 <= j < k < total && k < |accounts| ==> accounts[j].accNo != accounts[k].accNo
  }

  /** The master's answer to a verification request: true for an account just created. */
  method VerifyAccount(data: array<Account>, acc: int, total: nat, ghost logs: seq<seq<Transaction>>)
    returns (created: bool, now: nat)
    requires total <= data.Length && Enabled(Bank(data[..], total, logs), Enter(acc))
    modifies data
    ensures created <==> !Registered(old(data[..]), total, acc)
    ensures Bank(data[..], now, logs) == Apply(Bank(old(data[..]), total, logs), Enter(acc))
  {
    var found := CheckAccount(data, acc, total);
    created, now := !found, total;
    if created {
      data[total] := Account(0, acc);
      now := total + 1;
    }
  }

  // ---------- What each event moves ----------

  lemma {:induction false} PendingWith(logs: seq<seq<Transaction>>, i: nat, log: seq<Transaction>, acc: int)
    requires i < |logs|
    ensures PendingAll(logs[i := log], acc) == PendingAll(logs, acc) - Pending(logs[i], acc) + Pending(log, acc)
  {
    var n := |logs| - 1;
    if i < n {
      assert logs[i := log][..n] == logs[..n][i := log];
      PendingWith(logs[..n], i, log, acc);
    } else {
      assert logs[i := log][..n] == logs[..n];
    }
  }

  lemma {:induction false} FoldAllTakes(logs: seq<seq<Transaction>>, acc: int, other: int)
    ensures PendingAll(FoldedAll(logs, acc), other)
            == PendingAll(logs, other) - if other == acc then FoldedSums(logs, acc) else 0
  {
    if logs != [] {
      var n := |logs| - 1;
      FoldAllTakes(logs[..n], acc, other);
      FoldTakes(logs[n], acc, other);
      assert FoldedAll(logs, acc)[..n] == FoldedAll(logs[..n], acc);
    }
  }

  /** Accounts nobody opened have nothing to fold. */
  lemma {:induction false} NothingToFold(logs: seq<seq<Transaction>>, acc: int)
    requires forall i, j :: 0 <= i < |logs| && 0 <= j < |logs[i]| ==> !Open(logs[i][j], acc)
    ensures FoldedSums(logs, acc) == 0
  {
    if logs != [] {
      var n := |logs| - 1;
      forall i, j | 0 <= i < n && 0 <= j < |logs[..n][i]| ensures !Open(logs[..n][i][j], acc) {
        assert logs[..n][i] == logs[i];
      }
      NothingToFold(logs[..n], acc);
      assert |logs[n]| > 0 ==> !Open(logs[n][0], acc);
    }
  }

  lemma EnterKeepsMoney(b: Bank, acc: int, other: int)
    requires Sound(b) && Enabled(b, Enter(acc))
    ensures Money(Apply(b, Enter(acc)), other) == Money(b, other)
  {
    if !Registered(b.accounts, b.total, acc) {
      var now := b.accounts[b.total := Account(0, acc)];
      var k, l := Slot(b.accounts, other), Slot(now, other);
      if k < b.total {
        assert now[k].accNo == other;
        assert l == k;
      } else {
        assert Balance(b.accounts, other) == 0;
        assert forall j :: 0 <= j < b.total ==> now[j].accNo != other;
        assert Balance(now, other) == 0;
      }
    }
  }

  lemma GrantMovesMoney(b: Bank, e: Event, other: int)
    requires e.Grant? && Enabled(b, e)
    ensures Money(Apply(b, e), other) == Money(b, other) + if Dropped(b, e) then 0 else Moved(e, other)
  {
    var t := Transaction(e.amount, e.acc, e.kind, UNAVAILABLE);
    PushAdds(b.logs[e.atm], t, other);
    PendingWith(b.logs, e.atm, Pushed(b.logs[e.atm], t), other);
  }

  lemma CheckKeepsMoney(b: Bank, acc: int, other: int)
    requires Sound(b)
    ensures Money(Apply(b, Check(acc)), other) == Money(b, other)
  {
    FoldAllTakes(b.logs, acc, other);
    var x := FoldedSums(b.logs, acc);
    if Slot(b.accounts, acc) < |b.accounts| {
      CreditedBalance(b.accounts, acc, x, other);
    } else {
      assert !Registered(b.accounts, b.total, acc);
      NothingToFold(b.logs, acc);
    }
  }

  /** A granted transaction is accounted for exactly when the machine had a free slot, or it moves
      nothing. */
  lemma GrantCounts(b: Bank, e: Event)
    requires e.Grant? && Enabled(b, e)
    ensures Money(Apply(b, e), e.acc) == Money(b, e.acc) + Moved(e, e.acc)
            <==> !Full(b.logs[e.atm]) || Signed(e.amount, e.kind) == 0
  {
    GrantMovesMoney(b, e, e.acc);
  }

  // ---------- Soundness is kept ----------

  lemma {:induction false} PushedEntries(log: seq<Transaction>, t: Transaction, j: nat)
    requires j < |Pushed(log, t)|
    ensures j < |log| && (Pushed(log, t)[j] == t || Pushed(log, t)[j] == log[j])
  {
    if j > 0 && log[0].avail != AVAILABLE { PushedEntries(log[1..], t, j - 1); }
  }

  lemma {:induction false} FoldedEntries(log: seq<Transaction>, acc: int, j: nat)
    requires j < |Folded(log, acc)|
    ensures j < |log| && (Folded(log, acc)[j].avail == AVAILABLE || Folded(log, acc)[j] == log[j])
  {
    if j > 0 && Open(log[0], acc) { FoldedEntries(log[1..], acc, j - 1); }
  }

  lemma StillRegistered(b: Bank, e: Event, acc: int)
    requires Sound(b) && Enabled(b, e) && Registered(b.accounts, b.total, acc)
    ensures Registered(Apply(b, e).accounts, Apply(b, e).total, acc)
  {
    var k :| 0 <= k < b.total && k < |b.accounts| && b.accounts[k].accNo == acc;
    assert Apply(b, e).accounts[k].accNo == acc;
  }

  lemma EventKeepsSound(b: Bank, e: Event)
    requires Sound(b) && Enabled(b, e)
    ensures Sound(Apply(b, e))
  {
    var now := Apply(b, e);
    forall i, j | 0 <= i < |now.logs| && 0 <= j < |now.logs[i]| && now.logs[i][j].avail == UNAVAILABLE
      ensures Registered(now.accounts, now.total, now.logs[i][j].accNo)
    {
      if e.Grant? && i == e.atm {
        var t := Transaction(e.amount, e.acc, e.kind, UNAVAILABLE);
        PushedEntries(b.logs[i], t, j);
        StillRegistered(b, e, if now.logs[i][j] == t then e.acc else b.logs[i][j].accNo);
      } else {
        if e.Check? { FoldedEntries(b.logs[i], e.acc, j); }
        StillRegistered(b, e, b.logs[i][j].accNo);
      }
    }
    if e.Check? { CheckKeepsRows(b, e.acc); }
  }

  lemma CheckKeepsRows(b: Bank, acc: int)
    requires Sound(b)
    ensures forall k :: b.total <= k < |b.accounts| ==>
      Credited(b.accounts, acc, FoldedSums(b.logs, acc))[k] == Account(0, 0)
  {
    if Slot(b.accounts, acc) >= b.total {
      assert !Registered(b.accounts, b.total, acc);
      NothingToFold(b.logs, acc);
      CreditedTwice(b.accounts, acc, 0, 0);
    }
  }

  lemma {:induction false} NothingPendingAtStart(logs: seq<seq<Transaction>>, acc: int)
    requires forall i, j :: 0 <= i < |logs| && 0 <= j < |logs[i]| ==> logs[i][j].avail != UNAVAILABLE
    ensures PendingAll(logs, acc) == 0
  {
    if logs != [] {
      var n := |logs| - 1;
      forall i, j | 0 <= i < n && 0 <= j < |logs[..n][i]| ensures logs[..n][i][j].avail != UNAVAILABLE {
        assert logs[..n][i] == logs[i];
      }
      NothingPendingAtStart(logs[..n], acc);
      NothingPendingIn(logs[n], acc);
    }
  }

  lemma {:induction false} NothingPendingIn(log: seq<Transaction>, acc: int)
    requires forall j :: 0 <= j < |log| ==> !Open(log[j], acc)
    ensures Pending(log, acc) == 0
  {
    if log != [] { NothingPendingIn(log[1..], acc); }
  }

  // ---------- The reply ----------

  lemma {:induction false} LastOf(accounts: seq<Account>, acc: int, k: nat)
    requires k < |accounts| && accounts[k].accNo == acc && forall j :: k < j < |accounts| ==> accounts[j].accNo != acc
    ensures LastBalance(accounts, acc) == accounts[k].balance
  {
    var n := |accounts| - 1;
    if k < n { LastOf(accounts[..n], acc, k); }
  }

  lemma {:induction false} LastOfNone(accounts: seq<Account>, acc: int)
    requires forall j :: 0 <= j < |accounts| ==> accounts[j].accNo != acc
    ensures LastBalance(accounts, acc) == 0
  {
    if accounts != [] { LastOfNone(accounts[..|accounts| - 1], acc); }
  }

  /** The reply is the balance, except for account 0 while there are unused rows: it is 0 then. */
  lemma ReplyIsBalance(b: Bank, acc: int)
    requires Sound(b)
    ensures LastBalance(b.accounts, acc) == (if acc == 0 && b.total < |b.accounts| then 0 else Balance(b.accounts, acc))
  {
    if acc == 0 && b.total < |b.accounts| {
      LastOf(b.accounts, acc, |b.accounts| - 1);
    } else {
      var k := Slot(b.accounts, acc);
      if k < |b.accounts| {
        assert k < b.total;
        LastOf(b.accounts, acc, k);
      } else {
        LastOfNone(b.accounts, acc);
      }
    }
  }

  // ---------- Conservation ----------

  /** After any run, what the master holds, what the logs still owe and what full logs lost make up
      exactly the granted deposits minus the granted withdrawals -- for every account. */
  lemma {:induction false} MoneyIsConserved(run: seq<Bank>, events: seq<Event>, machines: nat, acc: int)
    requires IsRun(run, events, machines)
    ensures Sound(run[|events|])
    ensures Money(run[|events|], acc) + Lost(run, events, acc) == Net(events, acc)
  {
    if events == [] {
      NothingPendingAtStart(run[0].logs, acc);
    } else {
      var i := |events| - 1;
      MoneyIsConserved(run[..i + 1], events[..i], machines, acc);
      EventKeepsSound(run[i], events[i]);
      match events[i]
      case Enter(a) => EnterKeepsMoney(run[i], a, acc);
      case Grant(_, _, _, _) => GrantMovesMoney(run[i], events[i], acc);
      case Check(a) => CheckKeepsMoney(run[i], a, acc);
    }
  }

  lemma {:induction false} NothingLost(run: seq<Bank>, events: seq<Event>, acc: int)
    requires |run| == |events| + 1 && forall i :: 0 <= i < |events| ==> !Dropped(run[i], events[i])
    ensures Lost(run, events, acc) == 0
  {
    if events != [] {
      var n := |events| - 1;
      forall i | 0 <= i < n ensures !Dropped(run[..n + 1][i], events[..n][i]) {
        assert !Dropped(run[i], events[i]);
      }
      NothingLost(run[..n + 1], events[..n], acc);
    }
  }

  /** While no log is full, the reply to a view falls short by exactly what the logs still owe.
      (Clients use their process id as account number, so it is never 0.) */
  lemma ViewedBalance(run: seq<Bank>, events: seq<Event>, machines: nat, acc: int)
    requires IsRun(run, events, machines)
    requires forall i :: 0 <= i < |events| ==> !Dropped(run[i], events[i])
    ensures Balance(run[|events|].accounts, acc) == Net(events, acc) - PendingAll(run[|events|].logs, acc)
    ensures LastBalance(run[|events|].accounts, acc)
            == if acc == 0 && run[|events|].total < |run[|events|].accounts| then 0
               else Net(events, acc) - PendingAll(run[|events|].logs, acc)
  {
    MoneyIsConserved(run, events, machines, acc);
    NothingLost(run, events, acc);
    ReplyIsBalance(run[|events|], acc);
  }

  /** The account's entries in a log come before everything else. */
  ghost predicate InFront(log: seq<Transaction>, acc: int) {
    forall i, j :: 0 <= i < j < |log| && Open(log[j], acc) ==> Open(log[i], acc)
  }

  lemma RestInFront(log: seq<Transaction>, acc: int)
    requires log != [] && InFront(log, acc)
    ensures InFront(log[1..], acc)
  {}

  /** A check settles a log completely when the account's entries are in front. */
  lemma {:induction false} FoldSettles(log: seq<Transaction>, acc: int)
    requires InFront(log, acc)
    ensures Pending(Folded(log, acc), acc) == 0
  {
    if log != [] && Open(log[0], acc) {
      RestInFront(log, acc);
      FoldSettles(log[1..], acc);
      assert Folded(log, acc)[1..] == Folded(log[1..], acc);
    } else {
      assert forall j :: 0 < j < |log| && Open(log[j], acc) ==> Open(log[0], acc);
      NothingPendingIn(log, acc);
    }
  }

  lemma {:induction false} CheckSettles(logs: seq<seq<Transaction>>, acc: int)
    requires forall i :: 0 <= i < |logs| ==> InFront(logs[i], acc)
    ensures PendingAll(FoldedAll(logs, acc), acc) == 0
  {
    if logs != [] {
      var n := |logs| - 1;
      CheckSettles(logs[..n], acc);
      FoldSettles(logs[n], acc);
      assert FoldedAll(logs, acc)[..n] == FoldedAll(logs[..n], acc);
    }
  }

  /** Right after such a check the reply is exact. */
  lemma ExactAfterCheck(run: seq<Bank>, events: seq<Event>, machines: nat, acc: int)
    requires IsRun(run, events, machines) && events != [] && events[|events| - 1] == Check(acc)
    requires forall i :: 0 <= i < |events| ==> !Dropped(run[i], events[i])
    requires forall log :: log in run[|events| - 1].logs ==> InFront(log, acc)
    ensures Balance(run[|events|].accounts, acc) == Net(events, acc)
    ensures acc != 0 ==> LastBalance(run[|events|].accounts, acc) == Net(events, acc)
  {
    ViewedBalance(run, events, machines, acc);
    CheckSettles(run[|events| - 1].logs, acc);
  }

  // ---------- A log can fill up ----------

  /** A client enters and deposits `amount` k times at the first machine. */
  function Deposits(acc: int, amount: int, k: nat): seq<Event> {
    [Enter(acc)] + seq(k, _ => Grant(0, acc, Deposit, amount))
  }

  ghost predicate Filled(log: seq<Transaction>, k: nat) {
    && |log| == MAX_LOGS
    && forall i :: 0 <= i < MAX_LOGS ==> log[i].avail == if i < k then UNAVAILABLE else AVAILABLE
  }

  lemma RunGrows(run: seq<Bank>, events: seq<Event>, machines: nat, e: Event)
    requires IsRun(run, events, machines) && Enabled(run[|events|], e)
    ensures IsRun(run + [Apply(run[|events|], e)], events + [e], machines)
  {}

  /** After k deposits, up to the size of the log, its first k slots are taken. */
  lemma {:induction false} DepositsFill(machines: nat, acc: int, amount: int, k: nat) returns (run: seq<Bank>)
    requires machines > 0 && k <= MAX_LOGS
    ensures IsRun(run, Deposits(acc, amount, k), machines)
    ensures var b := run[k + 1]; |b.logs| > 0 && Filled(b.logs[0], k) && Registered(b.accounts, b.total, acc)
    ensures forall i :: 0 <= i <= k ==> !Dropped(run[i], Deposits(acc, amount, k)[i])
  {
    if k == 0 {
      var s := Start(machines);
      run := [s];
      RunGrows(run, [], machines, Enter(acc));
      run := run + [Apply(s, Enter(acc))];
      assert [] + [Enter(acc)] == Deposits(acc, amount, 0);
      assert run[1].accounts[0].accNo == acc;
    } else {
      var before := DepositsFill(machines, acc, amount, k - 1);
      var e := Grant(0, acc, Deposit, amount);
      assert Deposits(acc, amount, k - 1) + [e] == Deposits(acc, amount, k);
      RunGrows(before, Deposits(acc, amount, k - 1), machines, e);
      run := before + [Apply(before[k], e)];
      PushedAt(before[k].logs[0], Transaction(amount, acc, Deposit, UNAVAILABLE), k - 1);
      assert before[k].logs[0][k - 1].avail == AVAILABLE;
      forall i | 0 <= i <= k ensures !Dropped(run[i], Deposits(acc, amount, k)[i]) {
        if i < k { assert run[i] == before[i] && Deposits(acc, amount, k)[i] == Deposits(acc, amount, k - 1)[i]; }
      }
    }
  }

  /** The deposit after the hundredth is granted and lost: what the bank holds falls short by it. */
  lemma FullLogLosesDeposit(machines: nat, acc: int, amount: int) returns (run: seq<Bank>)
    requires machines > 0
    ensures var events := Deposits(acc, amount, 101);
            && IsRun(run, events, machines)
            && Dropped(run[101], events[101])
            && Money(run[102], acc) == Net(events, acc) - amount
  {
    var before := DepositsFill(machines, acc, amount, MAX_LOGS);
    var events, e := Deposits(acc, amount, MAX_LOGS), Grant(0, acc, Deposit, amount);
    assert events + [e] == Deposits(acc, amount, MAX_LOGS + 1);
    RunGrows(before, events, machines, e);
    run := before + [Apply(before[MAX_LOGS + 1], e)];
    assert (events + [e])[..MAX_LOGS + 1] == events;
    MoneyIsConserved(before, events, machines, acc);
    NothingLost(before, events, acc);
    GrantMovesMoney(before[MAX_LOGS + 1], e, acc);
  }

  // ---------- An entry behind another account's ----------

  /** Two clients deposit at the same machine, then the second one views its account. */
  function TwoDeposits(first: int, second: int, a: int, b: int): seq<Event> {
    [Enter(first), Enter(second), Grant(0, first, Deposit, a), Grant(0, second, Deposit, b), Check(second)]
  }

  lemma RunOfTwo(machines: nat, first: int, second: int, a: int, b: int) returns (run: seq<Bank>)
    requires machines > 0 && first != second
    ensures IsRun(run, TwoDeposits(first, second, a, b)[..4], machines)
    ensures run[4].accounts == Start(machines).accounts[0 := Account(0, first)][1 := Account(0, second)]
    ensures run[4].total == 2
    ensures |run[4].logs| == machines
    ensures run[4].logs[0] == Start(machines).logs[0][0 := Transaction(a, first, Deposit, UNAVAILABLE)]
                                                     [1 := Transaction(b, second, Deposit, UNAVAILABLE)]
    ensures forall k :: 1 <= k < machines ==> run[4].logs[k] == Start(machines).logs[k]
    ensures forall i :: 0 <= i < 4 ==> !Dropped(run[i], TwoDeposits(first, second, a, b)[i])
  {
    var e := TwoDeposits(first, second, a, b);
    var s0 := Start(machines);
    var s1 := Apply(s0, e[0]);
    assert s1.accounts[0].accNo == first;
    assert !Registered(s1.accounts, s1.total, second);
    var s2 := Apply(s1, e[1]);
    assert s2.accounts[0].accNo == first && s2.accounts[1].accNo == second;
    var t, u := Transaction(a, first, Deposit, UNAVAILABLE), Transaction(b, second, Deposit, UNAVAILABLE);
    PushedAt(s2.logs[0], t, 0);
    var s3 := Apply(s2, e[2]);
    PushedAt(s3.logs[0], u, 1);
    var s4 := Apply(s3, e[3]);
    assert s2.logs[0][0].avail == AVAILABLE && s3.logs[0][1].avail == AVAILABLE;
    run := [s0, s1, s2, s3, s4];
  }

  lemma NetOfTwo(first: int, second: int, a: int, b: int)
    requires first != second
    ensures Net(TwoDeposits(first, second, a, b), second) == b
  {
    var events := TwoDeposits(first, second, a, b);
    NetStep(events, 0, second);
    NetStep(events, 1, second);
    NetStep(events, 2, second);
    NetStep(events, 3, second);
    NetStep(events, 4, second);
    assert events[..5] == events;
  }

  lemma NetStep(events: seq<Event>, k: nat, acc: int)
    requires k < |events|
    ensures Net(events[..k + 1], acc) == Net(events[..k], acc) + Moved(events[k], acc)
  {
    assert events[..k + 1][..k] == events[..k];
  }

  /** A check that finds no entry in front leaves the account table alone. */
  lemma CheckFindsNothing(b: Bank, acc: int)
    requires forall log :: log in b.logs ==> log == [] || !Open(log[0], acc)
    ensures Apply(b, Check(acc)).accounts == b.accounts
  {
    NothingInFront(b.logs, acc);
    CreditedTwice(b.accounts, acc, 0, 0);
  }

  lemma SecondIsEmpty(accounts: seq<Account>, first: int, second: int)
    requires |accounts| == MAX_ACCOUNT && first != second && second != 0
    requires forall k :: 0 <= k < MAX_ACCOUNT ==>
      accounts[k] == Account(0, if k == 0 then first else if k == 1 then second else 0)
    ensures LastBalance(accounts, second) == 0
  {
    LastOf(accounts, second, 1);
  }

  /** No log is full, and still the second client sees nothing of its deposit: its entry lies behind the other's. */
  lemma ViewFallsShort(machines: nat, first: int, second: int, a: int, b: int) returns (run: seq<Bank>)
    requires machines > 0 && first != second && second != 0
    ensures var events := TwoDeposits(first, second, a, b);
            && IsRun(run, events, machines)
            && (forall i :: 0 <= i < |events| ==> !Dropped(run[i], events[i]))
            && LastBalance(run[5].accounts, second) == 0 && Net(events, second) == b
  {
    var events := TwoDeposits(first, second, a, b);
    var before := RunOfTwo(machines, first, second, a, b);
    RunGrows(before, events[..4], machines, Check(second));
    assert events[..4] + [Check(second)] == events;
    run := before + [Apply(before[4], Check(second))];
    CheckFindsNothing(before[4], second);
    SecondIsEmpty(run[5].accounts, first, second);
    NetOfTwo(first, second, a, b);
  }

  lemma {:induction false} NothingInFront(logs: seq<seq<Transaction>>, acc: int)
    requires forall log :: log in logs ==> log == [] || !Open(log[0], acc)
    ensures FoldedSums(logs, acc) == 0
  {
    if logs != [] { NothingInFront(logs[..|logs| - 1], acc); }
  }

  // ---------- The log, slot by slot ----------

  /** The first available slot holds the transaction afterwards, every other slot what it held. */
  lemma {:induction false} PushedAt(log: seq<Transaction>, t: Transaction, k: nat)
    requires k < |log| && log[k].avail == 1 && forall i :: 0 <= i < k ==> log[i].avail != 1
    ensures Pushed(log, t) == log[k := t]
  {
    if k > 0 {
      PushedAt(log[1..], t, k - 1);
      assert log[k := t] == [log[0]] + log[1..][k - 1 := t];
    }
  }

  lemma {:induction false} PushedNowhere(log: seq<Transaction>, t: Transaction)
    requires forall i :: 0 <= i < |log| ==> log[i].avail != 1
    ensures Pushed(log, t) == log
  {
    if log != [] { PushedNowhere(log[1..], t); }
  }

  /** A fold frees the first k slots, all unavailable ones of the account, and stops at slot k, which is not. */
  lemma {:induction false} FoldFrees(log: seq<Transaction>, acc: int, k: nat)
    requires k <= |log| && forall i :: 0 <= i < k ==> log[i].avail == 0 && log[i].accNo == acc
    requires k < |log| ==> log[k].avail != 0 || log[k].accNo != acc
    ensures |Folded(log, acc)| == |log|
    ensures forall i :: 0 <= i < |log| ==> Folded(log, acc)[i] == if i < k then log[i].(avail := 1) else log[i]
  {
    if k > 0 {
      FoldFrees(log[1..], acc, k - 1);
      forall i | 0 <= i < |log| ensures Folded(log, acc)[i] == if i < k then log[i].(avail := 1) else log[i] {
        if i > 0 { assert Folded(log, acc)[i] == Folded(log[1..], acc)[i - 1]; }
      }
    }
  }

  // ---------- A deposit, a withdrawal, a view ----------

  function DepositAndWithdraw(acc: int, a: int, b: int): seq<Event> {
    [Enter(acc), Grant(0, acc, Deposit, a), Grant(0, acc, Withdrawal, b), Check(acc)]
  }

  lemma RunOfBoth(machines: nat, acc: int, a: int, b: int) returns (run: seq<Bank>)
    requires machines > 0
    ensures IsRun(run, DepositAndWithdraw(acc, a, b)[..3], machines)
    ensures run[3].accounts == Start(machines).accounts[0 := Account(0, acc)] && |run[3].logs| == machines
    ensures run[3].logs[0] == Start(machines).logs[0][0 := Transaction(a, acc, Deposit, UNAVAILABLE)]
                                                     [1 := Transaction(b, acc, Withdrawal, UNAVAILABLE)]
    ensures forall k :: 1 <= k < machines ==> run[3].logs[k] == Start(machines).logs[k]
  {
    var e := DepositAndWithdraw(acc, a, b);
    var s0 := Start(machines);
    var s1 := Apply(s0, e[0]);
    assert s1.accounts[0].accNo == acc;
    var t, u := Transaction(a, acc, Deposit, UNAVAILABLE), Transaction(b, acc, Withdrawal, UNAVAILABLE);
    PushedAt(s1.logs[0], t, 0);
    var s2 := Apply(s1, e[1]);
    PushedAt(s2.logs[0], u, 1);
    run := [s0, s1, s2, Apply(s2, e[2])];
  }

  lemma {:induction false} FoldedSumOfRest(logs: seq<seq<Transaction>>, acc: int, x: int)
    requires logs != [] && FoldedSum(logs[0], acc) == x
    requires forall k :: 1 <= k < |logs| ==> FoldedSum(logs[k], acc) == 0
    ensures FoldedSums(logs, acc) == x
  {
    if |logs| > 1 { FoldedSumOfRest(logs[..|logs| - 1], acc, x); }
  }

  lemma FoldedSumOfTwo(log: seq<Transaction>, acc: int, a: int, b: int)
    requires |log| > 2 && log[0] == Transaction(a, acc, Deposit, UNAVAILABLE)
    requires log[1] == Transaction(b, acc, Withdrawal, UNAVAILABLE) && log[2].avail == AVAILABLE
    ensures FoldedSum(log, acc) == a - b
  {
    assert log[1..][0] == log[1] && log[1..][1..] == log[2..];
    assert FoldedSum(log[2..], acc) == 0;
    assert FoldedSum(log[1..], acc) == -b + FoldedSum(log[2..], acc);
  }

  /** A client deposits a, withdraws b and views its account: the reply is a - b. */
  lemma WithdrawalIsTaken(machines: nat, acc: int, a: int, b: int) returns (run: seq<Bank>)
    requires machines > 0 && acc != 0
    ensures IsRun(run, DepositAndWithdraw(acc, a, b), machines)
    ensures LastBalance(run[4].accounts, acc) == a - b
  {
    var events := DepositAndWithdraw(acc, a, b);
    var before := RunOfBoth(machines, acc, a, b);
    RunGrows(before, events[..3], machines, Check(acc));
    assert events[..3] + [Check(acc)] == events;
    run := before + [Apply(before[3], Check(acc))];
    FoldedSumOfTwo(before[3].logs[0], acc, a, b);
    FoldedSumOfRest(before[3].logs, acc, a - b);
    OneAccount(before[3].accounts, acc, a - b);
  }

  lemma OneAccount(accounts: seq<Account>, acc: int, x: int)
    requires |accounts| == MAX_ACCOUNT && acc != 0
    requires forall k :: 0 <= k < MAX_ACCOUNT ==> accounts[k] == Account(0, if k == 0 then acc else 0)
    ensures LastBalance(Credited(accounts, acc, x), acc) == x
  {
    LastOf(Credited(accounts, acc, x), acc, 0);
  }

  // ---------- A hundred accounts ----------

  function Entering(accs: seq<int>): seq<Event> { seq(|accs|, i requires 0 <= i < |accs| => Enter(accs[i])) }

  ghost predicate Distinct(accs: seq<int>) { forall i, j :: 0 <= i < j < |accs| ==> accs[i] != accs[j] }

  /** Up to a hundred different clients can enter; their accounts stand in the table in that order, all at 0. */
  lemma {:induction false} HundredCanEnter(machines: nat, accs: seq<int>) returns (run: seq<Bank>)
    requires |accs| <= 100 && Distinct(accs)
    ensures IsRun(run, Entering(accs), machines)
    ensures run[|accs|].total == |accs| && |run[|accs|].accounts| == 100
    ensures forall i :: 0 <= i < 100 ==> run[|accs|].accounts[i] == Account(0, if i < |accs| then accs[i] else 0)
  {
    var n := |accs|;
    if n == 0 {
      run := [Start(machines)];
    } else {
      var before := HundredCanEnter(machines, accs[..n - 1]);
      var e := Enter(accs[n - 1]);
      assert Entering(accs[..n - 1]) + [e] == Entering(accs);
      assert !Registered(before[n - 1].accounts, before[n - 1].total, accs[n - 1]);
      RunGrows(before, Entering(accs[..n - 1]), machines, e);
      run := before + [Apply(before[n - 1], e)];
    }
  }
}
