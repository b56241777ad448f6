/** Executions that strand a seat, one for each kind of step that can: a split cancellation, a capacity edit, and
    the commit of a booking overtaken by an edit or by a cancellation. And which split cancellations and which
    edits keep every covered state covered that executions reach. */
module CoverLimits {
  import opened Wrappers
  import opened BookingTable
  import opened BookingProtocol
  import opened Principal
  import opened SerialBookings
  import opened SplitBookings
  import opened CoverRuns
  import opened Text

  /** Request validation lets no event have less than one seat. */
  ghost predicate Positive(capacity: map<EventId, int>) {
    forall e :: e in capacity ==> capacity[e] >= 1
  }

  ghost predicate EndsIn(t: seq<Machine>, acts: seq<Action>, m: Machine) {
    && Execution(t, acts)
    && (forall i :: 0 <= i < |t| ==> Positive(t[i].db.capacity))
    && t[|t| - 1] == m
  }

  ghost predicate Reachable(m: Machine) {
    exists t, acts :: EndsIn(t, acts, m)
  }

  // Whole calls as sequences of steps --------------------------------------------------------------

  /** An execution in which the one event "e" has had `n` seats throughout. */
  ghost predicate Fixed(t: seq<Machine>, acts: seq<Action>, n: int) {
    && Execution(t, acts)
    && forall i :: 0 <= i < |t| ==> t[i].db.capacity == map["e" := n]
  }

  /** No cancellation is split, and no capacity is edited. */
  predicate Undivided(acts: seq<Action>) {
    forall i :: 0 <= i < |acts| ==> !acts[i].ReadCancel? && !acts[i].WriteCancel? && !acts[i].Edit?
  }

  lemma FixedExtends(t: seq<Machine>, acts: seq<Action>, n: int, a: Action, m: Machine)
    requires Fixed(t, acts, n) && Next(t[|t| - 1], a, m) && m.db.capacity == map["e" := n]
    ensures Fixed(t + [m], acts + [a], n)
  {
    ExecutionExtends(t, acts, a, m);
  }

  lemma FixedIsReached(t: seq<Machine>, acts: seq<Action>, n: int)
    requires Fixed(t, acts, n) && n >= 1
    ensures Reachable(t[|t| - 1])
  {
    assert EndsIn(t, acts, t[|t| - 1]);
  }

  function Booked(m: Machine, c: CallId, b: Booking, id: BookingId): Machine {
    m.(db := m.db.(rows := m.db.rows[id := b]),
       log := m.log + [Entry(b.eventId, b.status == Confirmed)],
       used := m.used + {c})
  }

  /** A first booking of a user, undisturbed. */
  lemma WholeBooking(t: seq<Machine>, acts: seq<Action>, n: int, c: CallId, u: UserId, id: BookingId, st: Status)
    returns (t': seq<Machine>, acts': seq<Action>)
    requires Fixed(t, acts, n)
    requires var m := t[|t| - 1];
             && c !in m.used && c !in m.calls && id !in m.db.rows
             && Decide(m.db.rows, n, u, "e") == Go(Insert(st))
    ensures Fixed(t', acts', n) && (Undivided(acts) ==> Undivided(acts'))
    ensures t'[|t'| - 1] == Booked(t[|t| - 1], c, Booking(u, "e", st, 0), id)
  {
    var m := t[|t| - 1];
    var idle := Call(ForUser(u), "e", n, 0, None);
    var open := idle.(attempts := 1, open := Some(Snapshot(m.db.rows, |m.log|)));
    var m1 := m.(calls := m.calls[c := idle], used := m.used + {c});
    var m2 := m1.(calls := m.calls[c := open]);
    var m3 := Booked(m, c, Booking(u, "e", st, 0), id);
    FixedExtends(t, acts, n, StartBooking(c, u, "e"), m1);
    t', acts' := t + [m1], acts + [StartBooking(c, u, "e")];
    assert m1.calls[c := open] == m2.calls;
    FixedExtends(t', acts', n, Begin(c), m2);
    t', acts' := t' + [m2], acts' + [Begin(c)];
    assert m2.calls - {c} == m.calls;
    FixedExtends(t', acts', n, Commit(c, Some(Insert(st)), id, 0, false), m3);
    t', acts' := t' + [m3], acts' + [Commit(c, Some(Insert(st)), id, 0, false)];
  }

  function PromotionDone(m: Machine, c: CallId, who: Option<BookingId>): Machine {
    m.(db := m.db.(rows := Promoted(m.db.rows, who), jobs := m.db.jobs - multiset{"e"}),
       log := m.log + (if who.Some? then [Entry("e", true)] else []),
       used := m.used + {c})
  }

  /** A promotion, undisturbed, that ends a queued job. */
  lemma WholePromotion(t: seq<Machine>, acts: seq<Action>, n: int, c: CallId, who: Option<BookingId>)
    returns (t': seq<Machine>, acts': seq<Action>)
    requires Fixed(t, acts, n)
    requires var m := t[|t| - 1];
             c !in m.used && c !in m.calls && Picks(m.db.rows, n, "e", who) && "e" in m.db.jobs
    ensures Fixed(t', acts', n) && (Undivided(acts) ==> Undivided(acts'))
    ensures t'[|t'| - 1] == PromotionDone(t[|t| - 1], c, who)
  {
    var m := t[|t| - 1];
    var idle := Call(ForQueue, "e", 0, 0, None);
    var open := Call(ForQueue, "e", n, 1, Some(Snapshot(m.db.rows, |m.log|)));
    var m1 := m.(calls := m.calls[c := idle], used := m.used + {c});
    var m2 := m1.(calls := m.calls[c := open]);
    var commit := Commit(c, if who.Some? then Some(Flip(who.value, Confirmed)) else None, "", 0, true);
    FixedExtends(t, acts, n, StartPromotion(c, "e"), m1);
    t', acts' := t + [m1], acts + [StartPromotion(c, "e")];
    assert m1.calls[c := open] == m2.calls;
    FixedExtends(t', acts', n, Begin(c), m2);
    t', acts' := t' + [m2], acts' + [Begin(c)];
    assert m2.calls - {c} == m.calls;
    FixedExtends(t', acts', n, commit, PromotionDone(m, c, who));
    t', acts' := t' + [PromotionDone(m, c, who)], acts' + [commit];
  }

  // A full event with somebody waiting -------------------------------------------------------------

  /** `n` users, each named by a number, have a seat of "e". */
  function Seated(n: nat): Table {
    if n == 0 then map[]
    else var id := Decimal(n - 1); Seated(n - 1)[id := Booking(id, "e", Confirmed, 0)]
  }

  lemma {:induction false} SeatedRows(n: nat)
    ensures Seats(Seated(n), "e") == n
    ensures forall k: nat :: Decimal(k) in Seated(n) <==> k < n
    ensures forall id :: id in Seated(n) ==> Seated(n)[id] == Booking(id, "e", Confirmed, 0)
  {
    if n == 0 {
      NoRowsNoSeats("e");
    } else {
      SeatedRows(n - 1);
      var id := Decimal(n - 1);
      InsertCounts(Seated(n - 1), id, Booking(id, "e", Confirmed, 0), "e");
      forall k: nat | Decimal(k) == id ensures k == n - 1 {
        DecimalInjective(k, n - 1);
      }
    }
  }

  lemma {:induction false} Fill(n: nat, k: nat) returns (t: seq<Machine>, acts: seq<Action>)
    requires k <= n
    ensures Fixed(t, acts, n) && Undivided(acts)
    ensures var m := t[|t| - 1];
            && m.db == State(map["e" := n], Seated(k), multiset{})
            && m.calls == map[] && m.cancels == map[] && forall c :: c in m.used ==> c < k
  {
    if k == 0 {
      t, acts := [Machine(State(map["e" := n], map[], multiset{}), [], map[], {}, map[])], [];
    } else {
      t, acts := Fill(n, k - 1);
      SeatedRows(k - 1);
      var id := Decimal(k - 1);
      t, acts := WholeBooking(t, acts, n, k - 1, id, id, Confirmed);
    }
  }

  /** "e" is full, and the next user waits. */
  function Full(n: nat): State {
    State(map["e" := n], Seated(n)[Decimal(n) := Booking(Decimal(n), "e", Waitlisted, 0)], multiset{})
  }

  lemma FullSets(n: nat)
    ensures Seats(Full(n).rows, "e") == n && WithStatus(Full(n).rows, "e", Waitlisted) == {Decimal(n)}
    ensures SeatsCovered(Full(n))
  {
    SeatedRows(n);
    InsertAddsOneRow(Seated(n), Decimal(n), Booking(Decimal(n), "e", Waitlisted, 0));
  }

  lemma FillUp(n: nat) returns (t: seq<Machine>, acts: seq<Action>)
    ensures Fixed(t, acts, n)
    ensures var m := t[|t| - 1];
            m.db == Full(n) && m.calls == map[] && m.cancels == map[] && forall c :: c in m.used ==> c <= n
  {
    t, acts := Fill(n, n);
    SeatedRows(n);
    t, acts := WholeBooking(t, acts, n, n, Decimal(n), Decimal(n), Waitlisted);
  }

  // Edits ------------------------------------------------------------------------------------------

  function Edited(s: State, e: EventId, n: int): State {
    s.(capacity := s.capacity[e := n])
  }

  ghost predicate EditKeepsCoverAlways(n: int, n': int) {
    forall m: Machine, e ::
      Reachable(m) && SeatsCovered(m.db) && e in m.db.capacity && m.db.capacity[e] == n ==>
        SeatsCovered(Edited(m.db, e, n'))
  }

  lemma RaisedFullIsUncovered(n: nat, n': nat)
    requires n < n'
    ensures !SeatsCovered(Edited(Full(n), "e", n'))
  {
    FullSets(n);
    var s := Edited(Full(n), "e", n');
    assert "e" in s.capacity && s.capacity["e"] - Seats(s.rows, "e") > s.jobs["e"];
  }

  /** An execution in which an edit raises the capacity of a full event that somebody waits for: the service
      queues no promotion for the seats the edit adds. */
  lemma RaisedCapacityStrands(n: nat, n': nat) returns (t: seq<Machine>, acts: seq<Action>)
    requires 1 <= n < n'
    ensures Execution(t, acts) && acts != [] && acts[|acts| - 1] == Edit(map["e" := n'])
    ensures forall i :: 0 <= i < |acts| ==> t[i].db.capacity == map["e" := n]
    ensures SeatsCovered(t[|acts| - 1].db) && !SeatsCovered(t[|acts|].db)
  {
    t, acts := FillUp(n);
    FullSets(n);
    RaisedFullIsUncovered(n, n');
    var edit := Edit(map["e" := n']);
    var m := t[|t| - 1].(db := Edited(Full(n), "e", n'));
    assert m.db.capacity == map["e" := n'];
    ExecutionExtends(t, acts, edit, m);
    t, acts := t + [m], acts + [edit];
  }

  /** An edit keeps every reachable covered state covered if and only if it does not raise the capacity. */
  lemma EditKeepsCoverIff(n: nat, n': nat)
    requires n >= 1 && n' >= 1
    ensures EditKeepsCoverAlways(n, n') <==> n' <= n
  {
    if n < n' {
      var t, acts := FillUp(n);
      FixedIsReached(t, acts, n);
      FullSets(n);
      RaisedFullIsUncovered(n, n');
    }
  }

  // Raises under a booking -------------------------------------------------------------------------

  /** The event is full, nobody waits, and a booking that has read the capacity is overtaken by the edit. */
  lemma RaiseDuringBooking(n: nat, n': nat) returns (t: seq<Machine>, acts: seq<Action>)
    requires n < n'
    ensures Execution(t, acts)
    ensures var m := t[|t| - 1];
            && m.db == State(map["e" := n'], Seated(n), multiset{})
            && m.calls == map[n := Call(ForUser(Decimal(n)), "e", n, 0, None)]
  {
    t, acts := Fill(n, n);
    var m := t[|t| - 1];
    var start, edit := StartBooking(n, Decimal(n), "e"), Edit(map["e" := n']);
    var m1 := m.(calls := map[n := Call(ForUser(Decimal(n)), "e", n, 0, None)], used := m.used + {n});
    ExecutionExtends(t, acts, start, m1);
    t, acts := t + [m1], acts + [start];
    var m2 := m1.(db := m.db.(capacity := map["e" := n']));
    ExecutionExtends(t, acts, edit, m2);
    t, acts := t + [m2], acts + [edit];
  }

  /** The booking then waits, by the capacity it had read, while a seat is free: that nobody waits yet does not
      make a raise harmless. */
  lemma RaiseDuringBookingStrands(n: nat, n': nat) returns (t: seq<Machine>, acts: seq<Action>)
    requires 1 <= n < n'
    ensures Execution(t, acts) && acts != [] && acts[|acts| - 1].Commit?
    ensures SeatsCovered(t[|acts| - 1].db) && !SeatsCovered(t[|acts|].db)
  {
    t, acts := RaiseDuringBooking(n, n');
    SeatedRows(n);
    RaisedFullIsUncovered(n, n');
    var m, u := t[|t| - 1], Decimal(n);
    var m1 := m.(calls := map[n := Call(ForUser(u), "e", n, 1, Some(Snapshot(m.db.rows, |m.log|)))]);
    ExecutionExtends(t, acts, Begin(n), m1);
    t, acts := t + [m1], acts + [Begin(n)];
    var commit := Commit(n, Some(Insert(Waitlisted)), u, 0, false);
    var m2 := m1.(db := Edited(Full(n), "e", n'), calls := map[], log := m.log + [Entry("e", false)]);
    assert m1.calls - {n} == map[];
    assert Edited(Full(n), "e", n') == m.db.(rows := m.db.rows[u := Booking(u, "e", Waitlisted, 0)]);
    ExecutionExtends(t, acts, commit, m2);
    t, acts := t + [m2], acts + [commit];
  }

  // Cancellations under a booking ------------------------------------------------------------------

  function OneRow(status: Status): Table {
    map["0" := Booking("0", "e", status, 0)]
  }

  function Two(first: Status, second: Status): Table {
    map["0" := Booking("0", "e", first, 0), "1" := Booking("1", "e", second, 0)]
  }

  function OneSeat(rows: Table, jobs: multiset<EventId>): State {
    State(map["e" := 1], rows, jobs)
  }

  lemma OneRowSets()
    ensures WithStatus(OneRow(Confirmed), "e", Confirmed) == {"0"}
    ensures WithStatus(OneRow(Cancelled), "e", Confirmed) == {}
    ensures WithStatus(OneRow(Cancelled), "e", Waitlisted) == {}
    ensures WithStatus(Two(Cancelled, Waitlisted), "e", Confirmed) == {}
    ensures WithStatus(Two(Cancelled, Waitlisted), "e", Waitlisted) == {"1"}
  {
  }

  /** User "0" has the one seat, and the booking of user "1" has begun its transaction. */
  lemma BeginWhileFull() returns (t: seq<Machine>, acts: seq<Action>, call: Call)
    ensures Fixed(t, acts, 1) && Undivided(acts)
    ensures call.kind == ForUser("1") && call.e == "e" && call.seen == 1
    ensures call.open.Some? && call.open.value.rows == OneRow(Confirmed)
    ensures var m := t[|t| - 1];
            && m.db == OneSeat(OneRow(Confirmed), multiset{}) && m.calls == map[1 := call]
            && forall c :: c in m.used ==> c <= 1
  {
    t, acts := Fill(1, 1);
    assert Decimal(0) == "0" && Seated(0) == map[];
    var m, idle := t[|t| - 1], Call(ForUser("1"), "e", 1, 0, None);
    assert m.db == OneSeat(OneRow(Confirmed), multiset{});
    call := idle.(attempts := 1, open := Some(Snapshot(m.db.rows, |m.log|)));
    var m1 := m.(calls := map[1 := idle], used := m.used + {1});
    FixedExtends(t, acts, 1, StartBooking(1, "1", "e"), m1);
    t, acts := t + [m1], acts + [StartBooking(1, "1", "e")];
    var m2 := m1.(calls := map[1 := call]);
    FixedExtends(t, acts, 1, Begin(1), m2);
    t, acts := t + [m2], acts + [Begin(1)];
  }

  /** User "0" gives the seat up, and the job of that seat finds nobody waiting. */
  lemma JobSpentBeforeCommit() returns (t: seq<Machine>, acts: seq<Action>, call: Call)
    ensures Fixed(t, acts, 1) && Undivided(acts)
    ensures call.kind == ForUser("1") && call.e == "e" && call.seen == 1
    ensures call.open.Some? && call.open.value.rows == OneRow(Confirmed)
    ensures var m := t[|t| - 1];
            m.db == OneSeat(OneRow(Cancelled), multiset{}) && m.calls == map[1 := call]
  {
    t, acts, call := BeginWhileFull();
    OneRowSets();
    var m, cancel := t[|t| - 1], WholeCancel("0", Actor("0", false));
    var m1 := m.(db := OneSeat(OneRow(Cancelled), multiset{"e"}));
    FixedExtends(t, acts, 1, cancel, m1);
    t, acts := t + [m1], acts + [cancel];
    t, acts := WholePromotion(t, acts, 1, 2, None);
    assert t[|t| - 1].db == OneSeat(OneRow(Cancelled), multiset{});
  }

  /** With the capacity constant and every cancellation whole, a booking that began while the event was full
      commits to the waitlist after the seat was freed and its job spent: a free seat, somebody waiting, and
      no job. A cancellation runs outside any serializable transaction, so no commit rule stops it. */
  lemma CancelUnderBookingStrands() returns (t: seq<Machine>, acts: seq<Action>)
    ensures Execution(t, acts) && acts != [] && acts[|acts| - 1].Commit? && Undivided(acts)
    ensures forall i :: 0 <= i < |t| ==> t[i].db.capacity == map["e" := 1]
    ensures SeatsCovered(t[|acts| - 1].db) && !SeatsCovered(t[|acts|].db)
  {
    var call;
    t, acts, call := JobSpentBeforeCommit();
    OneRowSets();
    var m, commit := t[|t| - 1], Commit(1, Some(Insert(Waitlisted)), "1", 0, false);
    var m' := m.(db := OneSeat(Two(Cancelled, Waitlisted), multiset{}), calls := map[],
                 log := m.log + [Entry("e", false)]);
    assert m.calls - {1} == map[];
    assert m'.db.rows == m.db.rows["1" := Booking("1", "e", Waitlisted, 0)];
    FixedExtends(t, acts, 1, commit, m');
    t, acts := t + [m'], acts + [commit];
    assert "e" in m'.db.capacity && m'.db.capacity["e"] - Seats(m'.db.rows, "e") > m'.db.jobs["e"];
  }

  // Split cancellations ----------------------------------------------------------------------------

  /** Cancellation `c` has read `read` of a row that by now has status `found`. */
  predicate Pending(m: Machine, c: CallId, read: Status, found: Status) {
    && c in m.cancels && m.cancels[c].read == read
    && m.cancels[c].id in m.db.rows && m.db.rows[m.cancels[c].id].status == found
  }

  ghost predicate CancelKeepsCoverAlways(read: Status, found: Status) {
    forall m: Machine, c ::
      Reachable(m) && SeatsCovered(m.db) && Pending(m, c, read, found) ==>
        SeatsCovered(CancelWritten(m.db, m.cancels[c].id, read))
  }

  /** The guard lets no cancellation through that has read a cancelled row. */
  lemma {:induction false} PendingReadsActive(t: seq<Machine>, acts: seq<Action>, i: nat, c: CallId)
    requires Execution(t, acts) && i < |t|
    ensures c in t[i].cancels ==> t[i].cancels[c].read != Cancelled
  {
    if i > 0 {
      PendingReadsActive(t, acts, i - 1, c);
      var m, a, m' := t[i - 1], acts[i - 1], t[i];
      assert Next(m, a, m');
    }
  }

  /** The table of the race, for the statuses its three rows have by then. */
  function Three(first: Status, second: Status, third: Status): Table {
    map["0" := Booking("0", "e", first, 0), "1" := Booking("1", "e", second, 0), "2" := Booking("2", "e", third, 0)]
  }

  /** User "1", waiting, asks to cancel and is read as waiting; user "0" gives up the one seat. */
  lemma ReadWhileWaiting() returns (t: seq<Machine>, acts: seq<Action>)
    ensures Fixed(t, acts, 1)
    ensures var m := t[|t| - 1];
            && m.db == OneSeat(Two(Cancelled, Waitlisted), multiset{"e"})
            && m.calls == map[] && m.cancels == map[2 := PendingCancel("1", Waitlisted)]
            && forall c :: c in m.used ==> c <= 2
  {
    t, acts := FillUp(1);
    assert Decimal(0) == "0" && Decimal(1) == "1";
    assert Seated(1) == map["0" := Booking("0", "e", Confirmed, 0)] by { assert Seated(0) == map[]; }
    var m := t[|t| - 1];
    assert m.db == OneSeat(Two(Confirmed, Waitlisted), multiset{});
    var read, cancel := ReadCancel(2, "1", Actor("1", false)), WholeCancel("0", Actor("0", false));
    var m1 := m.(cancels := map[2 := PendingCancel("1", Waitlisted)], used := m.used + {2});
    FixedExtends(t, acts, 1, read, m1);
    t, acts := t + [m1], acts + [read];
    var m2 := m1.(db := OneSeat(Two(Cancelled, Waitlisted), multiset{"e"}));
    FixedExtends(t, acts, 1, cancel, m2);
    t, acts := t + [m2], acts + [cancel];
  }

  lemma RaceSets()
    ensures WithStatus(Two(Cancelled, Waitlisted), "e", Confirmed) == {}
    ensures WithStatus(Two(Cancelled, Waitlisted), "e", Waitlisted) == {"1"}
    ensures WithStatus(Two(Cancelled, Confirmed), "e", Confirmed) == {"1"}
    ensures WithStatus(Three(Cancelled, Confirmed, Waitlisted), "e", Confirmed) == {"1"}
    ensures WithStatus(Three(Cancelled, Cancelled, Waitlisted), "e", Confirmed) == {}
    ensures WithStatus(Three(Cancelled, Cancelled, Waitlisted), "e", Waitlisted) == {"2"}
  {
  }

  /** The job of that seat promotes user "1", and user "2" finds the event full and waits. */
  lemma WaitsBehindPromoted() returns (t: seq<Machine>, acts: seq<Action>)
    ensures Fixed(t, acts, 1)
    ensures var m := t[|t| - 1];
            && m.db == OneSeat(Three(Cancelled, Confirmed, Waitlisted), multiset{})
            && m.cancels == map[2 := PendingCancel("1", Waitlisted)]
  {
    t, acts := ReadWhileWaiting();
    RaceSets();
    t, acts := WholePromotion(t, acts, 1, 3, Some("1"));
    assert t[|t| - 1].db == OneSeat(Two(Cancelled, Confirmed), multiset{});
    t, acts := WholeBooking(t, acts, 1, 4, "2", "2", Waitlisted);
    assert t[|t| - 1].db.rows == Three(Cancelled, Confirmed, Waitlisted);
  }

  lemma RaceUncovers()
    ensures SeatsCovered(OneSeat(Three(Cancelled, Confirmed, Waitlisted), multiset{}))
    ensures !SeatsCovered(OneSeat(Three(Cancelled, Cancelled, Waitlisted), multiset{}))
  {
    RaceSets();
    var s := OneSeat(Three(Cancelled, Cancelled, Waitlisted), multiset{});
    assert "e" in s.capacity && s.capacity["e"] - Seats(s.rows, "e") > s.jobs["e"];
  }

  /** The race of the real `cancelBooking`, as an execution: the row is read as waiting, it is promoted
      meanwhile, and the write gives its seat back without queueing the promotion of whoever waits now. */
  lemma CancelAfterPromotionStrands() returns (t: seq<Machine>, acts: seq<Action>)
    ensures Execution(t, acts) && acts != [] && acts[|acts| - 1].WriteCancel?
    ensures forall i :: 0 <= i < |t| ==> t[i].db.capacity == map["e" := 1]
    ensures SeatsCovered(t[|acts| - 1].db) && !SeatsCovered(t[|acts|].db)
  {
    t, acts := WaitsBehindPromoted();
    RaceUncovers();
    var m := t[|t| - 1];
    var m' := m.(db := CancelWritten(m.db, "1", Waitlisted), cancels := m.cancels - {2});
    assert m'.db == OneSeat(Three(Cancelled, Cancelled, Waitlisted), multiset{});
    FixedExtends(t, acts, 1, WriteCancel(2), m');
    t, acts := t + [m'], acts + [WriteCancel(2)];
  }

  lemma RacingCancelIsNotSafe()
    ensures !CancelKeepsCoverAlways(Waitlisted, Confirmed)
  {
    var t, acts := WaitsBehindPromoted();
    FixedIsReached(t, acts, 1);
    RaceUncovers();
    var m := t[|t| - 1];
    assert Pending(m, 2, Waitlisted, Confirmed);
    assert CancelWritten(m.db, "1", Waitlisted) == OneSeat(Three(Cancelled, Cancelled, Waitlisted), multiset{});
  }

  /** A split cancellation keeps every reachable covered state covered unless it had read its row as waiting
      and writes over it as confirmed. */
  lemma SplitCancelKeepsCoverIff(read: Status, found: Status)
    ensures CancelKeepsCoverAlways(read, found) <==> !(read == Waitlisted && found == Confirmed)
  {
    if read == Waitlisted && found == Confirmed {
      RacingCancelIsNotSafe();
    } else {
      forall m: Machine, c | Reachable(m) && SeatsCovered(m.db) && Pending(m, c, read, found)
        ensures SeatsCovered(CancelWritten(m.db, m.cancels[c].id, read))
      {
        var t, acts :| EndsIn(t, acts, m);
        PendingReadsActive(t, acts, |t| - 1, c);
        CancelKeepsCoverIff(m.db, m.cancels[c].id, read);
      }
    }
  }
}
