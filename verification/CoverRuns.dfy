/** Which steps of the interleaved protocol break the guarantee against stranded seats: each kind of step has its
    exact condition, and a run keeps the guarantee if and only if every step of it meets its own. */
module CoverRuns {
  import opened Wrappers
  import opened BookingTable
  import opened BookingProtocol
  import opened SerialBookings
  import opened SplitBookings

  function Free(s: State, e: EventId): int
    requires e in s.capacity
  {
    s.capacity[e] - Seats(s.rows, e)
  }

  ghost predicate CoveredAt(s: State, e: EventId) {
    e in s.capacity && SomebodyWaits(s.rows, e) ==> Free(s, e) <= s.jobs[e]
  }

  predicate JoinsWaitlist(w: Write) {
    !w.Keep? && w.status == Waitlisted
  }

  // The conditions ---------------------------------------------------------------------------------

  /** A commit that lets a user wait finds a job for every free seat; one that ends a job without promoting
      anybody finds a job to spare, if somebody waits. */
  ghost predicate CommitIsSafe(s: State, e: EventId, plan: Option<Write>, acknowledged: bool) {
    e in s.capacity ==>
      && (plan.Some? && JoinsWaitlist(plan.value) ==> Free(s, e) <= s.jobs[e])
      && (plan.None? && acknowledged && SomebodyWaits(s.rows, e) ==> Free(s, e) < s.jobs[e])
  }

  /** A cancellation that gives up a seat it did not read as taken finds a job to spare, if somebody waits. */
  ghost predicate CancelIsSafe(s: State, id: BookingId, read: Status) {
    id in s.rows && s.rows[id].status == Confirmed && read != Confirmed ==>
      var e := s.rows[id].eventId;
      e in s.capacity && SomebodyWaits(s.rows, e) ==> Free(s, e) < s.jobs[e]
  }

  /** An edit leaves no more free seats than there are jobs, where somebody waits. */
  ghost predicate EditIsSafe(s: State, capacity: map<EventId, int>) {
    forall e :: e in capacity && SomebodyWaits(s.rows, e) ==> capacity[e] - Seats(s.rows, e) <= s.jobs[e]
  }

  ghost predicate IsSafe(m: Machine, a: Action) {
    match a
    case Commit(c, plan, _, _, acknowledged) => c in m.calls ==> CommitIsSafe(m.db, m.calls[c].e, plan, acknowledged)
    case WriteCancel(c) => c in m.cancels ==> CancelIsSafe(m.db, m.cancels[c].id, m.cancels[c].read)
    case Edit(capacity) => EditIsSafe(m.db, capacity)
    case _ => true
  }

  // Commits ----------------------------------------------------------------------------------------

  lemma FlipWaits(rows: Table, id: BookingId, st: Status, x: EventId)
    requires id in rows && rows[id].status != st
    ensures var rows' := rows[id := rows[id].(status := st)];
            && (x == rows[id].eventId && st == Waitlisted ==> SomebodyWaits(rows', x))
            && (x != rows[id].eventId || (rows[id].status != Waitlisted && st != Waitlisted) ==>
                  (SomebodyWaits(rows', x) <==> SomebodyWaits(rows, x)))
            && (st != Waitlisted && SomebodyWaits(rows', x) ==> SomebodyWaits(rows, x))
  {
    FlipMovesOneRow(rows, id, st);
    var rows' := rows[id := rows[id].(status := st)];
    assert x == rows[id].eventId && st == Waitlisted ==> id in WithStatus(rows', x, Waitlisted);
    if rows[id].status != Waitlisted && st != Waitlisted {
      assert WithStatus(rows', x, Waitlisted) == WithStatus(rows, x, Waitlisted);
    }
  }

  lemma InsertWaits(rows: Table, id: BookingId, b: Booking, x: EventId)
    requires id !in rows
    ensures SomebodyWaits(rows[id := b], x) <==>
              SomebodyWaits(rows, x) || (x == b.eventId && b.status == Waitlisted)
  {
    InsertAddsOneRow(rows, id, b);
    assert x == b.eventId && b.status == Waitlisted ==> id in WithStatus(rows[id := b], x, Waitlisted);
  }

  /** A committed write takes the seat it confirms, puts on the waitlist whom it lets wait, and otherwise takes
      nobody off a waitlist but a row it confirms. */
  lemma CommitMeaning(m: Machine, call: Call, w: Write, newId: BookingId, now: int, x: EventId)
    requires call.open.Some? && Plans(call.kind, call.e, call.seen, call.open.value.rows, Some(w))
    requires MayCommit(m, call, w, newId)
    ensures var rows' := Apply(m.db.rows, w, Owner(call.kind), call.e, newId, now);
            && Seats(rows', x) == Seats(m.db.rows, x) + (if x == call.e && Confirms(w) then 1 else 0)
            && (x == call.e && JoinsWaitlist(w) ==> SomebodyWaits(rows', x))
            && (x != call.e || w.Keep? ==> (SomebodyWaits(rows', x) <==> SomebodyWaits(m.db.rows, x)))
            && (Confirms(w) && SomebodyWaits(rows', x) ==> SomebodyWaits(m.db.rows, x))
  {
    match w
    case Keep(_) =>
    case Flip(id, st) =>
      FlipCounts(m.db.rows, id, st, x);
      FlipWaits(m.db.rows, id, st, x);
    case Insert(st) =>
      InsertCounts(m.db.rows, newId, Booking(Owner(call.kind), call.e, st, now), x);
      InsertWaits(m.db.rows, newId, Booking(Owner(call.kind), call.e, st, now), x);
  }

  lemma CommitKeepsOtherEvents(m: Machine, a: Action, m': Machine, x: EventId)
    requires a.Commit? && CommitStep(m, a, m') && CoveredAt(m.db, x) && x != m.calls[a.c].e
    ensures CoveredAt(m'.db, x)
  {
    if a.plan.Some? {
      CommitMeaning(m, m.calls[a.c], a.plan.value, a.newId, a.now, x);
    }
  }

  lemma CommitKeepsItsEventIff(m: Machine, a: Action, m': Machine)
    requires a.Commit? && CommitStep(m, a, m') && CoveredAt(m.db, m.calls[a.c].e)
    ensures CoveredAt(m'.db, m.calls[a.c].e) <==> CommitIsSafe(m.db, m.calls[a.c].e, a.plan, a.acknowledged)
  {
    if a.plan.Some? {
      CommitMeaning(m, m.calls[a.c], a.plan.value, a.newId, a.now, m.calls[a.c].e);
    }
  }

  lemma CoveredEverywhere(s: State)
    ensures SeatsCovered(s) <==> forall e :: CoveredAt(s, e)
  {
    if forall e :: CoveredAt(s, e) {
      forall e | e in s.capacity && WithStatus(s.rows, e, Waitlisted) != {}
        ensures s.capacity[e] - Seats(s.rows, e) <= s.jobs[e]
      {
        assert CoveredAt(s, e);
      }
    }
  }

  /** A commit keeps a covered state covered if and only if it is safe. */
  lemma CommitKeepsCoverIff(m: Machine, a: Action, m': Machine)
    requires a.Commit? && CommitStep(m, a, m') && SeatsCovered(m.db)
    ensures SeatsCovered(m'.db) <==> CommitIsSafe(m.db, m.calls[a.c].e, a.plan, a.acknowledged)
  {
    CoveredEverywhere(m.db);
    CoveredEverywhere(m'.db);
    CommitKeepsItsEventIff(m, a, m');
    forall x | x != m.calls[a.c].e ensures CoveredAt(m'.db, x) {
      CommitKeepsOtherEvents(m, a, m', x);
    }
  }

  /** A booking that unsafely waits has been overtaken since its snapshot: the event has lost a seat, or its
      capacity is above the one the call goes by. */
  lemma UnsafeWaitIsOvertaken(m: Machine, call: Call, w: Write)
    requires call.open.Some? && Plans(call.kind, call.e, call.seen, call.open.value.rows, Some(w))
    requires JoinsWaitlist(w) && !CommitIsSafe(m.db, call.e, Some(w), false)
    ensures call.e in m.db.capacity
    ensures Seats(m.db.rows, call.e) < Seats(call.open.value.rows, call.e) || call.seen < m.db.capacity[call.e]
  {
  }

  // Cancellations and edits ------------------------------------------------------------------------

  lemma CancelMeaning(s: State, id: BookingId, read: Status, x: EventId)
    requires id in s.rows
    ensures var s', b := CancelWritten(s, id, read), s.rows[id];
            && Seats(s'.rows, x) == Seats(s.rows, x) - (if x == b.eventId && b.status == Confirmed then 1 else 0)
            && (SomebodyWaits(s'.rows, x) ==> SomebodyWaits(s.rows, x))
            && (b.status == Confirmed ==> (SomebodyWaits(s'.rows, x) <==> SomebodyWaits(s.rows, x)))
  {
    FlipCounts(s.rows, id, Cancelled, x);
    if s.rows[id].status != Cancelled {
      FlipWaits(s.rows, id, Cancelled, x);
    } else {
      assert s.rows[id := s.rows[id].(status := Cancelled)] == s.rows;
    }
  }

  lemma CancelKeepsCoverIff(s: State, id: BookingId, read: Status)
    requires SeatsCovered(s)
    ensures SeatsCovered(CancelWritten(s, id, read)) <==> CancelIsSafe(s, id, read)
  {
    var s' := CancelWritten(s, id, read);
    CoveredEverywhere(s);
    CoveredEverywhere(s');
    if id in s.rows {
      var e := s.rows[id].eventId;
      CancelMeaning(s, id, read, e);
      assert CoveredAt(s, e);
      forall x | x != e ensures CoveredAt(s', x) {
        CancelMeaning(s, id, read, x);
        assert CoveredAt(s, x);
      }
      assert CoveredAt(s', e) <==> CancelIsSafe(s, id, read);
    }
  }

  // Runs -------------------------------------------------------------------------------------------

  /** Every step of the interleaved protocol keeps a covered state covered if and only if it is safe. */
  lemma StepKeepsCoverIff(m: Machine, a: Action, m': Machine)
    requires Next(m, a, m') && SeatsCovered(m.db)
    ensures SeatsCovered(m'.db) <==> IsSafe(m, a)
  {
    match a
    case Commit(_, _, _, _, _) => CommitKeepsCoverIff(m, a, m');
    case WriteCancel(c) => CancelKeepsCoverIff(m.db, m.cancels[c].id, m.cancels[c].read);
    case WholeCancel(id, _) => CancelKeepsCoverIff(m.db, id, m.db.rows[id].status);
    case Edit(capacity) => CoveredEverywhere(m'.db);
    case _ =>
  }

  /** So in every interleaving, cancellations and edits included, no state strands a seat if and only if every
      step is safe. */
  lemma {:induction false} RunCoveredIff(t: seq<Machine>, acts: seq<Action>, i: nat)
    requires Execution(t, acts) && i <= |acts|
    ensures (forall k :: 0 <= k <= i ==> SeatsCovered(t[k].db)) <==>
              (forall k {:trigger acts[k]} :: 0 <= k < i ==> IsSafe(t[k], acts[k]))
  {
    if i > 0 {
      var m, a, m' := t[i - 1], acts[i - 1], t[i];
      RunCoveredIff(t, acts, i - 1);
      if SeatsCovered(m.db) {
        StepKeepsCoverIff(m, a, m');
      }
    }
  }

  /** And then a drained queue leaves every event full or without a waitlist, at every moment of the run. */
  lemma SafeRunStrandsNoSeat(t: seq<Machine>, acts: seq<Action>, i: nat, e: EventId)
    requires Execution(t, acts) && i <= |acts| && e in t[i].db.capacity
    requires forall k {:trigger acts[k]} :: 0 <= k < i ==> IsSafe(t[k], acts[k])
    ensures e !in t[i].db.jobs ==>
              Seats(t[i].db.rows, e) >= t[i].db.capacity[e] || WithStatus(t[i].db.rows, e, Waitlisted) == {}
  {
    RunCoveredIff(t, acts, i);
    assert SeatsCovered(t[i].db);
  }
}
