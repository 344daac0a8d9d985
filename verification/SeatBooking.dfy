/**
 The booking branch of the reservation server (networks_lab/assignment2/server.c).

 The seat table is an array of rows.  A row is free, booked, or -- between the two statements
 that take a seat and report it -- marked by a cursor flag.  `UPDATE ... LIMIT 1` takes any
 one matching row.
 */
module SeatBooking {
  import opened Wrappers

  const FREE := 1
  const BOOKED := 2
  const CURSOR := 3

  datatype Seat = Seat(train: int, coachNo: string, coachType: string, seatNo: int, seatType: string, flag: int)

  /** The columns of a reply. */
  datatype Reply = Reply(coachNo: string, seatNo: int, seatType: string)

  function ReplyOf(s: Seat): Reply { Reply(s.coachNo, s.seatNo, s.seatType) }

  /** The WHERE clause of a query, next to its test of the flag. */
  datatype Query = Query(train: int, coachNo: Option<string>, coachType: Option<string>, seatType: Option<string>)

  predicate Matches(s: Seat, q: Query) {
    && s.train == q.train
    && (q.coachNo == None || q.coachNo == Some(s.coachNo))
    && (q.coachType == None || q.coachType == Some(s.coachType))
    && (q.seatType == None || q.seatType == Some(s.seatType))
  }

  predicate Available(s: Seat, q: Query) { s.flag == FREE && Matches(s, q) }

  /** SELECT count(*) ... WHERE flag = 1 and q */
  function Count(seats: seq<Seat>, q: Query): nat {
    if seats == [] then 0
    else Count(seats[..|seats| - 1], q) + if Available(seats[|seats| - 1], q) then 1 else 0
  }

  ghost predicate NoCursor(seats: seq<Seat>) { forall i :: 0 <= i < |seats| ==> seats[i].flag != CURSOR }

  /** The table once the rows `rows` are booked. */
  ghost function BookedOut(seats: seq<Seat>, rows: seq<nat>): (now: seq<Seat>) {
    seq(|seats|, i requires 0 <= i < |seats| => if i in rows then seats[i].(flag := BOOKED) else seats[i])
  }

  // ---------- What a request promises ----------

  datatype Request = Request(train: int, coachType: string, prefs: seq<string>)

  /** Seats of the requested kind: what the two counting queries look at. */
  function Wanted(r: Request, coach: Option<string>): Query { Query(r.train, coach, Some(r.coachType), None) }

  /** Seats the updates may take: the type of the coach is not asked for again. */
  function Scope(r: Request, coach: Option<string>): Query { Query(r.train, coach, None, None) }

  predicate HasRoom(seats: seq<Seat>, r: Request, coach: string) { Count(seats, Wanted(r, Some(coach))) >= |r.prefs| }

  /** Passenger after passenger gets a distinct free seat in scope, of the preferred type unless
      every free seat of that type went to somebody earlier. */
  ghost predicate Greedy(before: seq<Seat>, scope: Query, prefs: seq<string>, rows: seq<nat>) {
    && |rows| <= |prefs|
    && forall k :: 0 <= k < |rows| ==> Given(before, scope, prefs[k], rows[..k], rows[k])
  }

  ghost predicate Given(before: seq<Seat>, scope: Query, pref: string, earlier: seq<nat>, row: nat) {
    && row < |before| && row !in earlier && Available(before[row], scope)
    && (before[row].seatType == pref
        || forall i: nat :: i < |before| && Available(before[i], scope) && before[i].seatType == pref ==> i in earlier)
  }

  /** The whole effect of one request. */
  ghost predicate Answered(before: seq<Seat>, r: Request, now: seq<Seat>, out: Option<seq<Reply>>, rows: seq<nat>) {
    if Count(before, Wanted(r, None)) < |r.prefs| then
      out == None && rows == [] && now == before
    else
      && |rows| == |r.prefs|
      && now == BookedOut(before, rows)
      && out.Some? && Reports(before, rows, out.value)
      && ((exists coach :: HasRoom(before, r, coach) && Greedy(before, Scope(r, Some(coach)), r.prefs, rows))
          || ((forall coach :: !HasRoom(before, r, coach)) && Greedy(before, Scope(r, None), r.prefs, rows)))
  }

  ghost predicate Reports(before: seq<Seat>, rows: seq<nat>, replies: seq<Reply>) {
    |replies| == |rows| && forall k :: 0 <= k < |rows| ==> rows[k] < |before| && replies[k] == ReplyOf(before[rows[k]])
  }

  // ---------- Counting ----------

  lemma {:induction false} CountFinds(seats: seq<Seat>, q: Query)
    ensures Count(seats, q) > 0 <==> exists i :: 0 <= i < |seats| && Available(seats[i], q)
  {
    if seats != [] {
      CountFinds(seats[..|seats| - 1], q);
    }
  }

  lemma {:induction false} CountAfterBooking(seats: seq<Seat>, r: nat, q: Query)
    requires r < |seats| && seats[r].flag == FREE
    ensures Count(seats[r := seats[r].(flag := BOOKED)], q) == Count(seats, q) - if Matches(seats[r], q) then 1 else 0
  {
    var now := seats[r := seats[r].(flag := BOOKED)];
    if r < |seats| - 1 {
      assert now[..|seats| - 1] == seats[..|seats| - 1][r := seats[r].(flag := BOOKED)];
      CountAfterBooking(seats[..|seats| - 1], r, q);
    } else {
      assert now[..|seats| - 1] == seats[..|seats| - 1];
    }
  }

  /** Dropping a condition never loses a seat. */
  lemma {:induction false} CountWider(seats: seq<Seat>, narrow: Query, wide: Query)
    requires narrow.train == wide.train && (wide.coachNo == None || wide.coachNo == narrow.coachNo)
    requires wide.coachType == None && wide.seatType == None
    ensures Count(seats, narrow) <= Count(seats, wide)
  {
    if seats != [] { CountWider(seats[..|seats| - 1], narrow, wide); }
  }

  // ---------- The statements ----------

  /** UPDATE tb_seat SET flag = 3 WHERE flag = 1 and q LIMIT 1 */
  method MarkOne(seats: array<Seat>, q: Query) returns (affected: bool, ghost row: nat)
    modifies seats
    ensures affected <==> exists i :: 0 <= i < seats.Length && Available(old(seats[i]), q)
    ensures affected ==> row < seats.Length && Available(old(seats[row]), q)
                         && seats[..] == old(seats[..])[row := old(seats[row]).(flag := CURSOR)]
    ensures !affected ==> seats[..] == old(seats[..])
  {
    row := 0;
    if exists i :: 0 <= i < seats.Length && Available(seats[i], q) {
      var i :| 0 <= i < seats.Length && Available(seats[i], q);
      seats[i] := seats[i].(flag := CURSOR);
      row := i;
      return true, row;
    }
    return false, row;
  }

  /** SELECT ... WHERE flag = 3; fetch the first row of the result. */
  method FetchMarked(seats: array<Seat>) returns (reply: Reply)
    requires exists i :: 0 <= i < seats.Length && seats[i].flag == CURSOR
    ensures exists i :: 0 <= i < seats.Length && seats[i].flag == CURSOR && reply == ReplyOf(seats[i])
  {
    var i := 0;
    while seats[i].flag != CURSOR
      invariant 0 <= i < seats.Length && exists j :: i <= j < seats.Length && seats[j].flag == CURSOR
      decreases seats.Length - i
    {
      i := i + 1;
    }
    reply := ReplyOf(seats[i]);
  }

  /** UPDATE tb_seat SET flag = 2 WHERE flag = 3 */
  method BookMarked(seats: array<Seat>)
    modifies seats
    ensures forall i :: 0 <= i < seats.Length ==>
              seats[i] == if old(seats[i]).flag == CURSOR then old(seats[i]).(flag := BOOKED) else old(seats[i])
  {
    for i := 0 to seats.Length
      invariant forall j :: 0 <= j < seats.Length ==>
                  seats[j] == if j < i && old(seats[j]).flag == CURSOR then old(seats[j]).(flag := BOOKED)
                              else old(seats[j])
    {
      if seats[i].flag == CURSOR { seats[i] := seats[i].(flag := BOOKED); }
    }
  }

  /** One attempt: mark a matching seat, report it, book it. */
  method Attempt(seats: array<Seat>, q: Query) returns (booked: bool, reply: Reply, ghost row: nat)
    requires NoCursor(seats[..])
    modifies seats
    ensures NoCursor(seats[..])
    ensures booked <==> exists i :: 0 <= i < seats.Length && Available(old(seats[i]), q)
    ensures booked ==> row < seats.Length && Available(old(seats[row]), q) && reply == ReplyOf(old(seats[row]))
                       && seats[..] == old(seats[..])[row := old(seats[row]).(flag := BOOKED)]
    ensures !booked ==> seats[..] == old(seats[..])
  {
    booked, row := MarkOne(seats, q);
    reply := Reply("", 0, "");
    if booked {
      assert seats[row].flag == CURSOR && forall i :: 0 <= i < seats.Length && i != row ==>
        seats[i] == old(seats[i]) && seats[i].flag != CURSOR;
      reply := FetchMarked(seats);
      BookMarked(seats);
      assert seats[..] == old(seats[..])[row := old(seats[row]).(flag := BOOKED)];
    }
  }

  // ---------- Seats run out only when the count says so ----------

  lemma BookedOutSteps(before: seq<Seat>, rows: seq<nat>, row: nat)
    requires row < |before| && row !in rows
    ensures BookedOut(before, rows + [row])
            == BookedOut(before, rows)[row := BookedOut(before, rows)[row].(flag := BOOKED)]
  {}

  lemma {:induction false} GreedyCounts(before: seq<Seat>, scope: Query, prefs: seq<string>, rows: seq<nat>)
    requires Greedy(before, scope, prefs, rows)
    ensures Count(BookedOut(before, rows), scope) == Count(before, scope) - |rows|
  {
    if rows == [] {
      assert BookedOut(before, rows) == before;
    } else {
      var k := |rows| - 1;
      var rest := rows[..k];
      forall j | 0 <= j < k ensures Given(before, scope, prefs[j], rest[..j], rest[j]) {
        assert rest[..j] == rows[..j];
      }
      assert Given(before, scope, prefs[k], rest, rows[k]);
      GreedyCounts(before, scope, prefs, rest);
      assert rows == rest + [rows[k]];
      BookedOutSteps(before, rest, rows[k]);
      CountAfterBooking(BookedOut(before, rest), rows[k], scope);
    }
  }

  /** One more passenger, served from the table as it now stands. */
  lemma GreedyGrows(before: seq<Seat>, scope: Query, prefs: seq<string>, rows: seq<nat>, row: nat)
    requires Greedy(before, scope, prefs, rows) && |rows| < |prefs|
    requires row < |before| && Available(BookedOut(before, rows)[row], scope)
    requires BookedOut(before, rows)[row].seatType == prefs[|rows|]
             || forall i :: 0 <= i < |before| ==>
               !Available(BookedOut(before, rows)[i], scope.(seatType := Some(prefs[|rows|])))
    requires scope.seatType == None
    ensures Greedy(before, scope, prefs, rows + [row])
    ensures before[row] == BookedOut(before, rows)[row]
  {
    var more := rows + [row];
    var now := BookedOut(before, rows);
    var pref := prefs[|rows|];
    assert row !in rows;
    forall i: nat | i < |before| && Available(before[i], scope) && before[i].seatType == pref && i !in rows
      ensures Available(now[i], scope.(seatType := Some(pref)))
    {}
    assert Given(before, scope, pref, rows, row);
    forall k | 0 <= k < |more| ensures Given(before, scope, prefs[k], more[..k], more[k]) {
      assert more[..k] == if k < |rows| then rows[..k] else rows;
    }
  }

  // ---------- The booking loops ----------

  /** One passenger: the preferred type first, then any seat in scope. */
  method BookOne(seats: array<Seat>, scope: Query, pref: string) returns (booked: bool, reply: Reply, ghost row: nat)
    requires NoCursor(seats[..]) && scope.seatType == None
    modifies seats
    ensures NoCursor(seats[..])
    ensures booked <==> Count(old(seats[..]), scope) > 0
    ensures booked ==> row < seats.Length && Available(old(seats[row]), scope) && reply == ReplyOf(old(seats[row]))
                       && seats[..] == old(seats[..])[row := old(seats[row]).(flag := BOOKED)]
    ensures booked ==> old(seats[row]).seatType == pref
                       || forall i :: 0 <= i < seats.Length ==>
                         !Available(old(seats[i]), scope.(seatType := Some(pref)))
    ensures !booked ==> seats[..] == old(seats[..])
  {
    CountFinds(seats[..], scope);
    assert forall i :: 0 <= i < seats.Length ==> seats[..][i] == seats[i];
    booked, reply, row := Attempt(seats, scope.(seatType := Some(pref)));
    if booked {
      assert Available(old(seats[row]), scope);
      return;
    }
    assert forall i :: 0 <= i < seats.Length ==> seats[..][i] == old(seats[..])[i];
    booked, reply, row := Attempt(seats, scope);
  }

  /** Where the loop stands after |rows| passengers. */
  ghost predicate Filled(before: seq<Seat>, scope: Query, prefs: seq<string>, now: seq<Seat>, rows: seq<nat>,
                         replies: seq<Reply>) {
    Greedy(before, scope, prefs, rows) && now == BookedOut(before, rows) && Reports(before, rows, replies)
  }

  lemma FilledGrows(before: seq<Seat>, scope: Query, prefs: seq<string>, now: seq<Seat>, rows: seq<nat>,
                    replies: seq<Reply>,
                    next: seq<Seat>, row: nat, reply: Reply)
    requires Filled(before, scope, prefs, now, rows, replies) && |rows| < |prefs| && scope.seatType == None
    requires row < |now| && Available(now[row], scope) && reply == ReplyOf(now[row])
    requires next == now[row := now[row].(flag := BOOKED)]
    requires now[row].seatType == prefs[|rows|]
             || forall i :: 0 <= i < |now| ==> !Available(now[i], scope.(seatType := Some(prefs[|rows|])))
    ensures Filled(before, scope, prefs, next, rows + [row], replies + [reply])
  {
    GreedyGrows(before, scope, prefs, rows, row);
    BookedOutSteps(before, rows, row);
  }

  /** Serve all the preferences from one scope.  The loop ends because every round finds a seat. */
  method Fill(seats: array<Seat>, scope: Query, prefs: seq<string>) returns (replies: seq<Reply>, ghost rows: seq<nat>)
    requires NoCursor(seats[..]) && scope.seatType == None
    requires Count(seats[..], scope) >= |prefs|
    modifies seats
    ensures NoCursor(seats[..])
    ensures |rows| == |prefs| && Greedy(old(seats[..]), scope, prefs, rows)
    ensures seats[..] == BookedOut(old(seats[..]), rows)
    ensures Reports(old(seats[..]), rows, replies)
  {
    ghost var before := seats[..];
    replies, rows := [], [];
    assert BookedOut(before, rows) == before;
    while |replies| < |prefs|
      invariant NoCursor(seats[..])
      invariant Filled(before, scope, prefs, seats[..], rows, replies)
    {
      ghost var now := seats[..];
      GreedyCounts(before, scope, prefs, rows);
      var booked, reply, row := BookOne(seats, scope, prefs[|replies|]);
      FilledGrows(before, scope, prefs, now, rows, replies, seats[..], row, reply);
      rows := rows + [row];
      replies := replies + [reply];
    }
  }

  /** The coaches the grouped query lists: those with a free seat of the wanted type. */
  function Coaches(seats: seq<Seat>, r: Request): set<string> {
    set i | 0 <= i < |seats| && Available(seats[i], Wanted(r, None)) :: seats[i].coachNo
  }

  lemma RoomIsListed(seats: seq<Seat>, r: Request, coach: string)
    requires HasRoom(seats, r, coach) && r.prefs != []
    ensures coach in Coaches(seats, r)
  {
    CountFinds(seats, Wanted(r, Some(coach)));
  }

  /** The grouped query lists its coaches in no promised order; the first one with room is used. */
  method FindCoach(seats: array<Seat>, r: Request) returns (coach: Option<string>)
    ensures coach.Some? ==> HasRoom(seats[..], r, coach.value)
    ensures coach.None? && r.prefs != [] ==> forall c :: !HasRoom(seats[..], r, c)
  {
    var left := Coaches(seats[..], r);
    while left != {}
      invariant left <= Coaches(seats[..], r)
      invariant forall c :: c in Coaches(seats[..], r) && HasRoom(seats[..], r, c) ==> c in left
    {
      var c :| c in left;
      if HasRoom(seats[..], r, c) { return Some(c); }
      left := left - {c};
    }
    if r.prefs != [] {
      forall c | HasRoom(seats[..], r, c) ensures false { RoomIsListed(seats[..], r, c); }
    }
    return None;
  }

  /** One request. */
  method Book(seats: array<Seat>, r: Request) returns (out: Option<seq<Reply>>, ghost rows: seq<nat>)
    requires NoCursor(seats[..])
    modifies seats
    ensures NoCursor(seats[..])
    ensures Answered(old(seats[..]), r, seats[..], out, rows)
  {
    rows := [];
    if Count(seats[..], Wanted(r, None)) < |r.prefs| { return None, rows; }
    ghost var before := seats[..];
    var coach := FindCoach(seats, r);
    CountWider(before, Wanted(r, coach), Scope(r, coach));
    var replies;
    replies, rows := Fill(seats, Scope(r, coach), r.prefs);
    out := Some(replies);
    if coach.Some? {
      assert Scope(r, Some(coach.value)) == Scope(r, coach);
    } else if r.prefs == [] {
      var any := "";
      assert HasRoom(before, r, any) && Greedy(before, Scope(r, Some(any)), r.prefs, rows);
    }
  }

  // ---------- All or nothing ----------

  function Flagged(seats: seq<Seat>, flag: int): nat {
    if seats == [] then 0 else Flagged(seats[..|seats| - 1], flag) + if seats[|seats| - 1].flag == flag then 1 else 0
  }

  ghost predicate DistinctFree(before: seq<Seat>, rows: seq<nat>) {
    && (forall k :: 0 <= k < |rows| ==> rows[k] < |before| && before[rows[k]].flag == FREE)
    && forall j, k :: 0 <= j < k < |rows| ==> rows[j] != rows[k]
  }

  lemma {:induction false} FlaggedAfterBooking(seats: seq<Seat>, r: nat)
    requires r < |seats| && seats[r].flag == FREE
    ensures Flagged(seats[r := seats[r].(flag := BOOKED)], FREE) == Flagged(seats, FREE) - 1
    ensures Flagged(seats[r := seats[r].(flag := BOOKED)], BOOKED) == Flagged(seats, BOOKED) + 1
  {
    var now := seats[r := seats[r].(flag := BOOKED)];
    if r < |seats| - 1 {
      assert now[..|seats| - 1] == seats[..|seats| - 1][r := seats[r].(flag := BOOKED)];
      FlaggedAfterBooking(seats[..|seats| - 1], r);
    } else {
      assert now[..|seats| - 1] == seats[..|seats| - 1];
    }
  }

  lemma {:induction false} BookedOutMoves(before: seq<Seat>, rows: seq<nat>)
    requires DistinctFree(before, rows)
    ensures Flagged(BookedOut(before, rows), FREE) == Flagged(before, FREE) - |rows|
    ensures Flagged(BookedOut(before, rows), BOOKED) == Flagged(before, BOOKED) + |rows|
  {
    if rows == [] {
      assert BookedOut(before, rows) == before;
    } else {
      var k := |rows| - 1;
      BookedOutMoves(before, rows[..k]);
      assert rows == rows[..k] + [rows[k]];
      assert rows[k] !in rows[..k];
      BookedOutSteps(before, rows[..k], rows[k]);
      FlaggedAfterBooking(BookedOut(before, rows[..k]), rows[k]);
    }
  }

  lemma GreedyIsDistinct(before: seq<Seat>, scope: Query, prefs: seq<string>, rows: seq<nat>)
    requires Greedy(before, scope, prefs, rows)
    ensures DistinctFree(before, rows)
    ensures forall k :: 0 <= k < |rows| ==> Matches(before[rows[k]], scope)
  {
    forall k | 0 <= k < |rows|
      ensures rows[k] < |before| && Available(before[rows[k]], scope) && rows[k] !in rows[..k] {
      assert Given(before, scope, prefs[k], rows[..k], rows[k]);
    }
    forall j, k | 0 <= j < k < |rows| ensures rows[j] != rows[k] { assert rows[j] in rows[..k]; }
  }

  /** NA exactly when the count falls short, and then nothing changes; otherwise one distinct free
      seat of the train for every passenger. */
  lemma AllOrNothing(before: seq<Seat>, r: Request, now: seq<Seat>, out: Option<seq<Reply>>, rows: seq<nat>)
    requires Answered(before, r, now, out, rows)
    ensures out == None <==> Count(before, Wanted(r, None)) < |r.prefs|
    ensures |rows| == (if out == None then 0 else |r.prefs|) && DistinctFree(before, rows)
    ensures now == BookedOut(before, rows)
    ensures forall k :: 0 <= k < |rows| ==> before[rows[k]].train == r.train
    ensures Flagged(now, FREE) == Flagged(before, FREE) - |rows|
    ensures Flagged(now, BOOKED) == Flagged(before, BOOKED) + |rows|
  {
    if out == None {
      assert BookedOut(before, rows) == before;
    } else if exists coach :: HasRoom(before, r, coach) && Greedy(before, Scope(r, Some(coach)), r.prefs, rows) {
      var coach :| HasRoom(before, r, coach) && Greedy(before, Scope(r, Some(coach)), r.prefs, rows);
      GreedyIsDistinct(before, Scope(r, Some(coach)), r.prefs, rows);
    } else {
      GreedyIsDistinct(before, Scope(r, None), r.prefs, rows);
    }
    BookedOutMoves(before, rows);
  }

  // ---------- The same, row by row ----------

  /** The free rows of a train in coaches of a type. */
  ghost function FreeRows(seats: seq<Seat>, train: int, coachType: string): set<int> {
    set i | 0 <= i < |seats| && seats[i].flag == 1 && seats[i].train == train && seats[i].coachType == coachType
  }

  /** Those in one coach. */
  ghost function FreeRowsIn(seats: seq<Seat>, train: int, coachType: string, coachNo: string): set<int> {
    set i | 0 <= i < |seats| && seats[i].flag == 1 && seats[i].train == train && seats[i].coachType == coachType
            && seats[i].coachNo == coachNo
  }

  ghost function Rows(seats: seq<Seat>, q: Query): set<int> { set i | 0 <= i < |seats| && Available(seats[i], q) }

  lemma {:induction false} CountIsSize(seats: seq<Seat>, q: Query)
    ensures Count(seats, q) == |Rows(seats, q)|
  {
    if seats != [] {
      var n := |seats| - 1;
      CountIsSize(seats[..n], q);
      assert Rows(seats, q) == Rows(seats[..n], q) + if Available(seats[n], q) then {n} else {};
    }
  }

  lemma CountsAreRows(seats: seq<Seat>, r: Request, coach: string)
    ensures Count(seats, Wanted(r, None)) == |FreeRows(seats, r.train, r.coachType)|
    ensures HasRoom(seats, r, coach) <==> |FreeRowsIn(seats, r.train, r.coachType, coach)| >= |r.prefs|
  {
    CountIsSize(seats, Wanted(r, None));
    CountIsSize(seats, Wanted(r, Some(coach)));
    assert Rows(seats, Wanted(r, None)) == FreeRows(seats, r.train, r.coachType);
    assert Rows(seats, Wanted(r, Some(coach))) == FreeRowsIn(seats, r.train, r.coachType, coach);
  }

  /** NA exactly when the train has fewer free rows of the coach type than there are passengers, and then the
      table is unchanged. */
  lemma NotAvailable(before: seq<Seat>, r: Request, now: seq<Seat>, out: Option<seq<Reply>>, rows: seq<nat>)
    requires Answered(before, r, now, out, rows)
    ensures out == None <==> |FreeRows(before, r.train, r.coachType)| < |r.prefs|
    ensures out == None ==> now == before
  {
    CountsAreRows(before, r, "");
  }

  /** Otherwise passenger k is told coach, number and type of the seat rows[k]; that row of the train was free
      and is booked now, and all other rows are as they were. */
  lemma RepliesAreSeats(before: seq<Seat>, r: Request, now: seq<Seat>, out: Option<seq<Reply>>, rows: seq<nat>)
    requires Answered(before, r, now, out, rows) && out.Some?
    ensures |out.value| == |rows| == |r.prefs| && |now| == |before|
    ensures forall k :: 0 <= k < |rows| ==>
              && rows[k] < |before| && before[rows[k]].flag == 1 && before[rows[k]].train == r.train
              && out.value[k].coachNo == before[rows[k]].coachNo && out.value[k].seatNo == before[rows[k]].seatNo
              && out.value[k].seatType == before[rows[k]].seatType
              && now[rows[k]] == before[rows[k]].(flag := 2)
    ensures forall i :: 0 <= i < |before| && i !in rows ==> now[i] == before[i]
  {
    AllOrNothing(before, r, now, out, rows);
  }

  /** A free row of the train that the passenger of `prefs[k]` would have preferred, in coach `within` if one
   is given. */
  predicate Better(s: Seat, train: int, within: Option<string>, pref: string) {
    s.flag == 1 && s.train == train && s.seatType == pref && (within.Some? ==> s.coachNo == within.value)
  }

  /** The party sits in one coach that has room for all, if there is such a coach of the type asked for; without
      one it sits anywhere in the train.  Each passenger has the preferred type unless all such seats there went
      to earlier ones. */
  lemma PreferencesHonoured(before: seq<Seat>, r: Request, now: seq<Seat>, out: Option<seq<Reply>>, rows: seq<nat>)
    returns (within: Option<string>)
    requires Answered(before, r, now, out, rows) && out.Some?
    ensures within == None ==>
              forall c :: |FreeRowsIn(before, r.train, r.coachType, c)| < |r.prefs|
    ensures within.Some? ==>
              && |FreeRowsIn(before, r.train, r.coachType, within.value)| >= |r.prefs|
              && SameCoach(before, rows, within.value)
    ensures |rows| == |r.prefs|
    ensures forall k :: 0 <= k < |rows| ==>
              rows[k] < |before| && (before[rows[k]].seatType == r.prefs[k]
                  || AllTaken(before, r.train, within, r.prefs[k], rows[..k]))
  {
    if coach :| HasRoom(before, r, coach) && Greedy(before, Scope(r, Some(coach)), r.prefs, rows) {
      within := Some(coach);
      CountsAreRows(before, r, coach);
      GreedyIsDistinct(before, Scope(r, Some(coach)), r.prefs, rows);
    } else {
      within := None;
      forall c ensures |FreeRowsIn(before, r.train, r.coachType, c)| < |r.prefs| { CountsAreRows(before, r, c); }
    }
    forall k | 0 <= k < |rows|
      ensures rows[k] < |before|
      ensures before[rows[k]].seatType == r.prefs[k] || AllTaken(before, r.train, within, r.prefs[k], rows[..k])
    {
      assert Given(before, Scope(r, within), r.prefs[k], rows[..k], rows[k]);
    }
  }

  ghost predicate AllTaken(before: seq<Seat>, train: int, within: Option<string>, pref: string, earlier: seq<nat>) {
    forall i: nat :: i < |before| && Better(before[i], train, within, pref) ==> i in earlier
  }

  ghost predicate SameCoach(seats: seq<Seat>, rows: seq<nat>, coach: string) {
    forall k :: 0 <= k < |rows| ==> rows[k] < |seats| && seats[rows[k]].coachNo == coach
  }

  ghost predicate OneTypePerCoach(seats: seq<Seat>) {
    forall i, j :: 0 <= i < |seats| && 0 <= j < |seats| ==>
      seats[i].train == seats[j].train && seats[i].coachNo == seats[j].coachNo ==>
        seats[i].coachType == seats[j].coachType
  }

  /** The party sits together whenever some coach can take it, and then in a coach of the type
      asked for, provided coaches are all of one type. */
  lemma TogetherWhenPossible(before: seq<Seat>, r: Request, now: seq<Seat>, out: Option<seq<Reply>>, rows: seq<nat>)
    requires Answered(before, r, now, out, rows)
    requires exists coach :: HasRoom(before, r, coach)
    ensures out.Some? && exists coach :: HasRoom(before, r, coach) && SameCoach(before, rows, coach)
    ensures OneTypePerCoach(before) ==> forall k :: 0 <= k < |rows| ==>
      rows[k] < |before| && before[rows[k]].coachType == r.coachType
  {
    var some :| HasRoom(before, r, some);
    CountNarrower(before, r, some);
    var coach :| HasRoom(before, r, coach) && Greedy(before, Scope(r, Some(coach)), r.prefs, rows);
    GreedyIsDistinct(before, Scope(r, Some(coach)), r.prefs, rows);
    assert SameCoach(before, rows, coach);
    if r.prefs != [] { CountFinds(before, Wanted(r, Some(coach))); }
  }

  lemma {:induction false} CountNarrower(seats: seq<Seat>, r: Request, coach: string)
    ensures Count(seats, Wanted(r, Some(coach))) <= Count(seats, Wanted(r, None))
  {
    if seats != [] { CountNarrower(seats[..|seats| - 1], r, coach); }
  }

  // ---------- Any sequence of requests ----------

  ghost predicate Served(tables: seq<seq<Seat>>, requests: seq<Request>, outs: seq<Option<seq<Reply>>>,
                         rows: seq<seq<nat>>) {
    && |outs| == |rows| == |requests| && |tables| == |requests| + 1
    && forall k :: 0 <= k < |requests| ==> Answered(tables[k], requests[k], tables[k + 1], outs[k], rows[k])
  }

  method Serve(seats: array<Seat>, requests: seq<Request>)
    returns (outs: seq<Option<seq<Reply>>>, ghost tables: seq<seq<Seat>>, ghost rows: seq<seq<nat>>)
    requires NoCursor(seats[..])
    modifies seats
    ensures NoCursor(seats[..])
    ensures Served(tables, requests, outs, rows) && tables[0] == old(seats[..]) && tables[|requests|] == seats[..]
  {
    outs, tables, rows := [], [seats[..]], [];
    for k := 0 to |requests|
      invariant NoCursor(seats[..])
      invariant Served(tables, requests[..k], outs, rows) && tables[0] == old(seats[..]) && tables[k] == seats[..]
    {
      var out, taken := Book(seats, requests[k]);
      ghost var was := tables;
      outs, rows, tables := outs + [out], rows + [taken], tables + [seats[..]];
      assert requests[..k + 1] == requests[..k] + [requests[k]];
      forall i | 0 <= i < k + 1 ensures Answered(tables[i], requests[..k + 1][i], tables[i + 1], outs[i], rows[i]) {
        if i < k { assert Answered(was[i], requests[..k][i], was[i + 1], outs[i], rows[i]); }
      }
    }
    assert requests[..|requests|] == requests;
  }

  /** A seat, once given away, is booked for ever, and stays the same seat all along. */
  lemma {:induction false} StaysBooked(tables: seq<seq<Seat>>, requests: seq<Request>,
                                       outs: seq<Option<seq<Reply>>>, rows: seq<seq<nat>>, j: nat, k: nat, row: nat)
    requires Served(tables, requests, outs, rows) && j <= k <= |requests| && row < |tables[j]|
    ensures |tables[k]| == |tables[j]|
    ensures tables[k][row] == tables[j][row]
            || (tables[j][row].flag == FREE && tables[k][row] == tables[j][row].(flag := BOOKED))
    ensures tables[j][row].flag == BOOKED ==> tables[k][row] == tables[j][row]
  {
    if j < k {
      StaysBooked(tables, requests, outs, rows, j, k - 1, row);
      AllOrNothing(tables[k - 1], requests[k - 1], tables[k], outs[k - 1], rows[k - 1]);
    }
  }

  /** No row is given out twice: not within a reply, not across replies. */
  lemma NoDoubleBooking(tables: seq<seq<Seat>>, requests: seq<Request>, outs: seq<Option<seq<Reply>>>,
                        rows: seq<seq<nat>>, j: nat, a: nat, k: nat, b: nat)
    requires Served(tables, requests, outs, rows)
    requires j < |rows| && k < |rows| && a < |rows[j]| && b < |rows[k]|
    requires rows[j][a] == rows[k][b]
    ensures j == k && a == b
  {
    AllOrNothing(tables[j], requests[j], tables[j + 1], outs[j], rows[j]);
    AllOrNothing(tables[k], requests[k], tables[k + 1], outs[k], rows[k]);
    if j < k {
      StaysBooked(tables, requests, outs, rows, j + 1, k, rows[j][a]);
    } else if k < j {
      StaysBooked(tables, requests, outs, rows, k + 1, j, rows[k][b]);
    }
  }

  /** Trains number their seats: no two rows of a train agree on coach and seat. */
  ghost predicate Numbered(seats: seq<Seat>) {
    forall i, j :: 0 <= i < j < |seats| ==>
      (seats[i].train, seats[i].coachNo, seats[i].seatNo) != (seats[j].train, seats[j].coachNo, seats[j].seatNo)
  }

  /** What passengers see: two passengers on a train never hold replies naming the same seat. */
  lemma RepliesNameDifferentSeats(tables: seq<seq<Seat>>, requests: seq<Request>, outs: seq<Option<seq<Reply>>>,
                                  rows: seq<seq<nat>>, j: nat, a: nat, k: nat, b: nat)
    requires Served(tables, requests, outs, rows) && Numbered(tables[0])
    requires j < |outs| && k < |outs| && outs[j].Some? && outs[k].Some? && a < |outs[j].value| && b < |outs[k].value|
    requires requests[j].train == requests[k].train && (j, a) != (k, b)
    ensures (outs[j].value[a].coachNo, outs[j].value[a].seatNo) != (outs[k].value[b].coachNo, outs[k].value[b].seatNo)
  {
    AllOrNothing(tables[j], requests[j], tables[j + 1], outs[j], rows[j]);
    AllOrNothing(tables[k], requests[k], tables[k + 1], outs[k], rows[k]);
    var s, t := rows[j][a], rows[k][b];
    if s == t { NoDoubleBooking(tables, requests, outs, rows, j, a, k, b); }
    SameLength(tables, requests, outs, rows, j);
    SameLength(tables, requests, outs, rows, k);
    StaysBooked(tables, requests, outs, rows, 0, j, s);
    StaysBooked(tables, requests, outs, rows, 0, k, t);
  }

  lemma {:induction false} SameLength(tables: seq<seq<Seat>>, requests: seq<Request>,
                                      outs: seq<Option<seq<Reply>>>, rows: seq<seq<nat>>, k: nat)
    requires Served(tables, requests, outs, rows) && k <= |requests|
    ensures |tables[k]| == |tables[0]|
  {
    if k > 0 {
      SameLength(tables, requests, outs, rows, k - 1);
      AllOrNothing(tables[k - 1], requests[k - 1], tables[k], outs[k - 1], rows[k - 1]);
    }
  }

  function SeatsGiven(rows: seq<seq<nat>>): nat {
    if rows == [] then 0 else SeatsGiven(rows[..|rows| - 1]) + |rows[|rows| - 1]|
  }

  /** Free and booked seats balance after any number of requests. */
  lemma {:induction false} SeatsBalance(tables: seq<seq<Seat>>, requests: seq<Request>,
                                        outs: seq<Option<seq<Reply>>>, rows: seq<seq<nat>>, k: nat)
    requires Served(tables, requests, outs, rows) && k <= |requests|
    ensures Flagged(tables[k], FREE) + SeatsGiven(rows[..k]) == Flagged(tables[0], FREE)
    ensures Flagged(tables[k], BOOKED) == Flagged(tables[0], BOOKED) + SeatsGiven(rows[..k])
  {
    if k > 0 {
      SeatsBalance(tables, requests, outs, rows, k - 1);
      AllOrNothing(tables[k - 1], requests[k - 1], tables[k], outs[k - 1], rows[k - 1]);
      assert rows[..k][..k - 1] == rows[..k - 1];
    }
  }
}
