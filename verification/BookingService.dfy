/** The booking operations as the service runs them: over a database that is updated in place. */
module BookingService {
  import opened Wrappers
  import opened BookingTable
  import opened BookingProtocol
  import opened Principal

  /** An error raised by the database driver, in the two shapes the service inspects. */
  datatype DbError = DbError(code: string, originalCode: string, kind: string)

  predicate IsSerializationFailure(e: DbError) {
    e.code == "P2034" || e.code == "40001" || e.originalCode == "40001" || e.kind == "TransactionWriteConflict"
  }

  datatype Reply =
    | NotFound
    | Forbidden
    | Conflict(why: Decision)
    | AlreadyCancelled
    | Booked(id: BookingId)
    | Failed(error: DbError)

  /** One attempt as the outside world decides it: the table that other transactions have left when the
      attempt starts, and the error, if any, with which the database ends it. */
  datatype Turn = Turn(seen: Table, failure: Option<DbError>)

  const MAX_RETRIES: nat := 8

  predicate IsRetried(t: Turn) {
    t.failure.Some? && t.failure.value.code != "P2002" && IsSerializationFailure(t.failure.value)
  }

  /** How many leading attempts end in a serialization failure. */
  function Refusals(turns: seq<Turn>): (n: nat)
    ensures n <= |turns|
    ensures forall i :: 0 <= i < n ==> IsRetried(turns[i])
    ensures n < |turns| ==> !IsRetried(turns[n])
  {
    if turns != [] && IsRetried(turns[0]) then 1 + Refusals(turns[1..]) else 0
  }

  lemma RefusalsUnique(turns: seq<Turn>, n: nat)
    requires n <= |turns|
    requires forall i :: 0 <= i < n ==> IsRetried(turns[i])
    requires n < |turns| ==> !IsRetried(turns[n])
    ensures Refusals(turns) == n
  {
  }

  /** The errors that are retried, and no others: those with one of four marks, short of a unique violation. */
  lemma ConflictsAreRetried(turns: seq<Turn>, n: nat)
    requires n <= |turns|
    requires forall i :: 0 <= i < n ==>
               && turns[i].failure.Some?
               && var x := turns[i].failure.value;
               && x.code != "P2002"
               && (x.code == "P2034" || x.code == "40001" || x.originalCode == "40001"
                   || x.kind == "TransactionWriteConflict")
    requires n < |turns| && turns[n].failure.Some? ==>
               var x := turns[n].failure.value;
               || x.code == "P2002"
               || (x.code != "P2034" && x.code != "40001" && x.originalCode != "40001"
                   && x.kind != "TransactionWriteConflict")
    ensures Refusals(turns) == n
  {
    RefusalsUnique(turns, n);
  }

  class Database {
    var events: map<EventId, int>
    var rows: Table
    var jobs: multiset<EventId>
    var emails: seq<BookingId>

    constructor ()
      ensures events == map[] && rows == map[] && jobs == multiset{} && emails == []
    {
      events, rows, jobs, emails := map[], map[], multiset{}, [];
    }

    /** The database as a state of the booking protocol. */
    function View(): State
      reads this
    {
      State(events, rows, jobs)
    }

    method CountConfirmed(e: EventId) returns (n: nat)
      ensures n == Seats(rows, e)
    {
      n := |set id | id in rows && rows[id].eventId == e && rows[id].status == Confirmed|;
    }

    method FindBooking(u: UserId, e: EventId) returns (o: Option<BookingId>)
      requires UniquePairs(rows)
      ensures o == FindByUserEvent(rows, u, e)
    {
      if id :| id in rows && Holds(rows[id], u, e) {
        o := Some(id);
      } else {
        o := None;
      }
    }

    method SetStatus(id: BookingId, st: Status)
      requires id in rows
      modifies `rows
      ensures rows == old(rows)[id := old(rows)[id].(status := st)]
    {
      rows := rows[id := rows[id].(status := st)];
    }

    method Create(u: UserId, e: EventId, st: Status, newId: BookingId, now: int)
      requires newId !in rows
      modifies `rows
      ensures rows == old(rows)[newId := Booking(u, e, st, now)]
    {
      rows := rows[newId := Booking(u, e, st, now)];
    }

    method FindOldestWaitlisted(e: EventId) returns (o: Option<BookingId>)
      ensures o.Some? ==> IsOldestWaitlisted(rows, e, o.value)
      ensures o.None? <==> WithStatus(rows, e, Waitlisted) == {}
    {
      var waiting := WithStatus(rows, e, Waitlisted);
      if waiting == {} {
        return None;
      }
      ghost var first := SomebodyIsOldest(rows, e, waiting);
      var id :| id in waiting && forall j :: j in waiting ==> rows[id].createdAt <= rows[j].createdAt;
      o := Some(id);
    }
  }

  /** The body of the serializable transaction. */
  method BookingTransaction(db: Database, capacity: int, u: UserId, e: EventId, newId: BookingId, now: int)
    returns (reply: Reply)
    requires UniquePairs(db.rows) && newId !in db.rows
    modifies db`rows
    ensures var d := old(Decide(db.rows, capacity, u, e));
            && (!d.Go? ==> reply == Conflict(d) && db.rows == old(db.rows))
            && (d.Go? ==>
                  && reply == Booked(Target(d.write, newId))
                  && db.rows == Apply(old(db.rows), d.write, u, e, newId, now))
  {
    var confirmedCount := db.CountConfirmed(e);
    var existing := db.FindBooking(u, e);

    if confirmedCount >= capacity {
      if existing.Some? {
        var id := existing.value;
        if db.rows[id].status == Waitlisted {
          return Booked(id);
        }
        if db.rows[id].status == Cancelled {
          db.SetStatus(id, Waitlisted);
          return Booked(id);
        }
        return Conflict(AlreadyBooked);
      }
      db.Create(u, e, Waitlisted, newId, now);
      return Booked(newId);
    }

    if existing.Some? {
      var id := existing.value;
      if db.rows[id].status == Cancelled {
        db.SetStatus(id, Confirmed);
        return Booked(id);
      }
      if db.rows[id].status == Confirmed {
        return Conflict(AlreadyBooked);
      }
      return Conflict(AlreadyWaitlisted);
    }

    db.Create(u, e, Confirmed, newId, now);
    return Booked(newId);
  }

  /** How `Refusals` answers to an attempt that comes after retried ones alone. */
  lemma RefusalsUpTo(turns: seq<Turn>, n: nat)
    requires n < |turns| && forall i :: 0 <= i < n ==> IsRetried(turns[i])
    ensures !IsRetried(turns[n]) ==> Refusals(turns) == n
    ensures IsRetried(turns[n]) && n == |turns| - 1 ==> Refusals(turns) == |turns|
  {
    if !IsRetried(turns[n]) {
      RefusalsUnique(turns, n);
    } else if n == |turns| - 1 {
      RefusalsUnique(turns, |turns|);
    }
  }

  /** The bounded retry loop. Whatever the other transactions do between attempts, the call answers as its
      first attempt that is not a serialization failure, with that attempt's write and no other; if all
      eight are, it fails with the last error and writes nothing. The last clause says the same of the
      errors themselves: what is retried, what is a conflict, and what ends the call at once. */
  method CreateBooking(db: Database, u: UserId, e: EventId, newId: BookingId, now: int, turns: seq<Turn>)
    returns (reply: Reply)
    requires |turns| == 8
    requires forall i :: 0 <= i < |turns| ==> UniquePairs(turns[i].seen) && newId !in turns[i].seen
    modifies db`rows
    ensures e !in db.events ==> reply == NotFound && db.rows == old(db.rows)
    ensures e in db.events && Refusals(turns) == 8 ==>
              reply == Failed(turns[7].failure.value) && db.rows == turns[7].seen
    ensures e in db.events && Refusals(turns) < 8 ==>
              var t := turns[Refusals(turns)];
              if t.failure.Some? then
                && db.rows == t.seen
                && reply == (if t.failure.value.code == "P2002" then Conflict(AlreadyBooked)
                             else Failed(t.failure.value))
              else
                var d := Decide(t.seen, db.events[e], u, e);
                && (!d.Go? ==> reply == Conflict(d) && db.rows == t.seen)
                && (d.Go? ==>
                      && reply == Booked(Target(d.write, newId))
                      && db.rows == Apply(t.seen, d.write, u, e, newId, now))
                && Step(db.View().(rows := t.seen), Book(u, e, db.events[e], newId, now, d), db.View())
    ensures e in db.events ==>
              forall n ::
                && 0 <= n < 8
                && (forall i :: 0 <= i < n ==>
                      && turns[i].failure.Some?
                      && var x := turns[i].failure.value;
                      && x.code != "P2002"
                      && (x.code == "P2034" || x.code == "40001" || x.originalCode == "40001"
                          || x.kind == "TransactionWriteConflict"))
                ==>
                  && (turns[n].failure.None? ==>
                        var d := Decide(turns[n].seen, db.events[e], u, e);
                        && (!d.Go? ==> reply == Conflict(d) && db.rows == turns[n].seen)
                        && (d.Go? ==>
                              && reply == Booked(Target(d.write, newId))
                              && db.rows == Apply(turns[n].seen, d.write, u, e, newId, now)))
                  && (turns[n].failure.Some? ==>
                        var x := turns[n].failure.value;
                        && (x.code == "P2002" ==> reply == Conflict(AlreadyBooked) && db.rows == turns[n].seen)
                        && (x.code != "P2002"
                            && (n == 7 || (x.code != "P2034" && x.code != "40001" && x.originalCode != "40001"
                                           && x.kind != "TransactionWriteConflict")) ==>
                              reply == Failed(x) && db.rows == turns[n].seen))
  {
    forall n: nat | n < 8 && forall i :: 0 <= i < n ==> IsRetried(turns[i])
      ensures !IsRetried(turns[n]) ==> Refusals(turns) == n
      ensures IsRetried(turns[n]) && n == 7 ==> Refusals(turns) == 8
    {
      RefusalsUpTo(turns, n);
    }
    if e !in db.events {
      return NotFound;
    }
    var capacity := db.events[e];
    var lastError: Option<DbError> := None;
    var attempt := 0;
    while attempt < MAX_RETRIES
      invariant attempt <= MAX_RETRIES
      invariant forall i :: 0 <= i < attempt ==> IsRetried(turns[i])
      invariant attempt > 0 ==> lastError == turns[attempt - 1].failure && db.rows == turns[attempt - 1].seen
    {
      db.rows := turns[attempt].seen;
      match turns[attempt].failure {
        case None =>
          RefusalsUnique(turns, attempt);
          reply := BookingTransaction(db, capacity, u, e, newId, now);
          return;
        case Some(error) =>
          if error.code == "P2002" {
            RefusalsUnique(turns, attempt);
            return Conflict(AlreadyBooked);
          }
          if IsSerializationFailure(error) {
            lastError := Some(error);
          } else {
            RefusalsUnique(turns, attempt);
            return Failed(error);
          }
      }
      attempt := attempt + 1;
    }
    RefusalsUnique(turns, MAX_RETRIES);
    return Failed(lastError.value);
  }

  /** Only the owner or an administrator cancels, and only a live booking. A cancellation that reaches the
      queue is a step of the protocol: a promotion is queued exactly when a seat was given back. */
  method CancelBooking(db: Database, id: BookingId, actor: Actor, queueUp: bool) returns (reply: Reply)
    modifies db`rows, db`jobs
    ensures reply.NotFound? <==> id !in old(db.rows)
    ensures reply.Forbidden? <==> id in old(db.rows) && !actor.isAdmin && old(db.rows)[id].userId != actor.sub
    ensures reply == Booked(id) <==> MayCancel(old(db.rows), id, actor)
    ensures reply.NotFound? || reply.Forbidden? || reply.AlreadyCancelled? || reply == Booked(id)
    ensures queueUp ==> Step(old(db.View()), Cancel(id, actor), db.View())
    ensures !queueUp ==> db.jobs == old(db.jobs)
    ensures queueUp && reply.Booked? ==>
              db.jobs == old(db.jobs) + (if old(db.rows)[id].status == Confirmed then multiset{old(db.rows)[id].eventId}
                                         else multiset{})
    ensures reply.Booked? ==>
              && OnlyRowChanged(old(db.rows), db.rows, id)
              && db.rows[id].status == Cancelled
    ensures !reply.Booked? ==> db.rows == old(db.rows) && db.jobs == old(db.jobs)
  {
    if id !in db.rows {
      return NotFound;
    }
    var booking := db.rows[id];
    if !actor.isAdmin && booking.userId != actor.sub {
      return Forbidden;
    }
    if booking.status == Cancelled {
      return AlreadyCancelled;
    }
    db.SetStatus(id, Cancelled);
    if booking.status == Confirmed && queueUp {
      db.jobs := db.jobs + multiset{booking.eventId};
    }
    return Booked(id);
  }

  datatype PromotionReply = EventMissing | Aborted(error: DbError) | Done(who: Option<BookingId>)

  /** The promotion job: re-checks capacity, confirms the oldest waiting row, then queues its e-mail. */
  method PromoteWaitlisted(db: Database, e: EventId, failure: Option<DbError>, mailUp: bool)
    returns (reply: PromotionReply)
    modifies db`rows, db`emails
    ensures reply.EventMissing? <==> e !in db.events
    ensures e in db.events ==> (reply.Aborted? <==> failure.Some?)
    ensures !reply.Done? ==> db.rows == old(db.rows) && db.emails == old(db.emails)
    ensures reply.Done? ==>
              && Picks(old(db.rows), db.events[e], e, reply.who)
              && db.rows == Promoted(old(db.rows), reply.who)
              && Step(old(db.View()), Promote(e, reply.who, false), db.View())
              && db.emails == old(db.emails) + (if mailUp && reply.who.Some? then [reply.who.value] else [])
  {
    var promotedId: Option<BookingId> := None;
    if e !in db.events {
      return EventMissing;
    }
    if failure.Some? {
      return Aborted(failure.value);
    }
    var confirmedCount := db.CountConfirmed(e);
    if confirmedCount < db.events[e] {
      var oldest := db.FindOldestWaitlisted(e);
      if oldest.Some? {
        db.SetStatus(oldest.value, Confirmed);
        promotedId := oldest;
      }
    }
    if promotedId.Some? && mailUp {
      db.emails := db.emails + [promotedId.value];
    }
    return Done(promotedId);
  }
}
