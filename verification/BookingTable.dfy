/** The booking table and the two decisions taken over it.
    A row is keyed by its id; `(userId, eventId)` is unique. */
module BookingTable {
  import opened Wrappers

  type UserId = string
  type EventId = string
  type BookingId = string

  datatype Status = Confirmed | Cancelled | Waitlisted

  datatype Booking = Booking(userId: UserId, eventId: EventId, status: Status, createdAt: int)

  type Table = map<BookingId, Booking>

  function WithStatus(rows: Table, e: EventId, st: Status): set<BookingId> {
    set id | id in rows && rows[id].eventId == e && rows[id].status == st
  }

  /** How many seats of `e` are taken. */
  function Seats(rows: Table, e: EventId): nat {
    |WithStatus(rows, e, Confirmed)|
  }

  predicate Holds(b: Booking, u: UserId, e: EventId) {
    b.userId == u && b.eventId == e
  }

  /** The database constraint: one row per user and event. */
  ghost predicate UniquePairs(rows: Table) {
    forall i, j :: i in rows && j in rows && Holds(rows[j], rows[i].userId, rows[i].eventId) ==> i == j
  }

  ghost function FindByUserEvent(rows: Table, u: UserId, e: EventId): (o: Option<BookingId>)
    ensures o.Some? ==> o.value in rows && Holds(rows[o.value], u, e)
    ensures o.None? ==> forall id :: id in rows ==> !Holds(rows[id], u, e)
  {
    if id :| id in rows && Holds(rows[id], u, e) then Some(id) else None
  }

  /** The one write a booking transaction performs. */
  datatype Write = Keep(id: BookingId) | Flip(id: BookingId, status: Status) | Insert(status: Status)

  datatype Decision = AlreadyBooked | AlreadyWaitlisted | Go(write: Write)

  /** What the body of the booking transaction decides from the table it sees. */
  ghost function Decide(rows: Table, capacity: int, u: UserId, e: EventId): Decision {
    var existing := FindByUserEvent(rows, u, e);
    var full := Seats(rows, e) >= capacity;
    if existing.None? then
      Go(Insert(if full then Waitlisted else Confirmed))
    else
      match rows[existing.value].status
      case Confirmed => AlreadyBooked
      case Cancelled => Go(Flip(existing.value, if full then Waitlisted else Confirmed))
      case Waitlisted => if full then Go(Keep(existing.value)) else AlreadyWaitlisted
  }

  /** The table after a write; `newId` and `now` are used by an insertion only. */
  function Apply(rows: Table, w: Write, u: UserId, e: EventId, newId: BookingId, now: int): Table {
    match w
    case Keep(_) => rows
    case Flip(id, st) => if id in rows then rows[id := rows[id].(status := st)] else rows
    case Insert(st) => rows[newId := Booking(u, e, st, now)]
  }

  function Target(w: Write, newId: BookingId): BookingId {
    if w.Insert? then newId else w.id
  }

  ghost predicate IsOldestWaitlisted(rows: Table, e: EventId, id: BookingId) {
    && id in WithStatus(rows, e, Waitlisted)
    && forall j :: j in WithStatus(rows, e, Waitlisted) ==> rows[id].createdAt <= rows[j].createdAt
  }

  /** `who` is a row that the promotion transaction may pick; the database breaks ties of `createdAt`. */
  ghost predicate Picks(rows: Table, capacity: int, e: EventId, who: Option<BookingId>) {
    if Seats(rows, e) < capacity && WithStatus(rows, e, Waitlisted) != {}
    then who.Some? && IsOldestWaitlisted(rows, e, who.value)
    else who.None?
  }

  function Promoted(rows: Table, who: Option<BookingId>): Table {
    if who.Some? && who.value in rows then rows[who.value := rows[who.value].(status := Confirmed)] else rows
  }

  // Counting under one write -------------------------------------------------------------------

  lemma FlipMovesOneRow(rows: Table, id: BookingId, st: Status)
    requires id in rows && rows[id].status != st
    ensures var rows' := rows[id := rows[id].(status := st)];
            forall e, x ::
              WithStatus(rows', e, x) ==
                if e != rows[id].eventId then WithStatus(rows, e, x)
                else if x == st then WithStatus(rows, e, x) + {id}
                else WithStatus(rows, e, x) - {id}
  {
  }

  lemma InsertAddsOneRow(rows: Table, id: BookingId, b: Booking)
    requires id !in rows
    ensures forall e, x ::
              WithStatus(rows[id := b], e, x) ==
                if e == b.eventId && x == b.status then WithStatus(rows, e, x) + {id} else WithStatus(rows, e, x)
  {
  }

  /** A single flip changes every seat count by at most one, in the direction the statuses say. */
  lemma FlipCounts(rows: Table, id: BookingId, st: Status, e: EventId)
    requires id in rows
    ensures var rows' := rows[id := rows[id].(status := st)];
            Seats(rows', e) == Seats(rows, e)
              + (if e == rows[id].eventId && st == Confirmed && rows[id].status != Confirmed then 1 else 0)
              - (if e == rows[id].eventId && st != Confirmed && rows[id].status == Confirmed then 1 else 0)
  {
    if rows[id].status != st {
      FlipMovesOneRow(rows, id, st);
    } else {
      assert rows[id := rows[id].(status := st)] == rows;
    }
  }

  lemma InsertCounts(rows: Table, id: BookingId, b: Booking, e: EventId)
    requires id !in rows
    ensures Seats(rows[id := b], e) == Seats(rows, e) + (if e == b.eventId && b.status == Confirmed then 1 else 0)
  {
    InsertAddsOneRow(rows, id, b);
  }

  // What a booking means ------------------------------------------------------------------------

  ghost predicate HasActiveRow(rows: Table, u: UserId, e: EventId, st: Status) {
    exists id :: id in rows && Holds(rows[id], u, e) && rows[id].status == st
  }

  /** `after` differs from `before` in row `b` alone, which keeps its owner, event and creation time. */
  ghost predicate OnlyRowChanged(before: Table, after: Table, b: BookingId) {
    && after.Keys == before.Keys + {b}
    && (forall j :: j in before && j != b ==> after[j] == before[j])
    && (b in before ==> after[b] == before[b].(status := after[b].status))
  }

  /** All eight outcomes at once. A user is refused exactly when they hold a seat, or wait while a
      seat is free; any other booking leaves the user with exactly one row, confirmed exactly when a
      seat was free, and takes at most that seat. */
  lemma BookingMeaning(rows: Table, capacity: int, u: UserId, e: EventId, newId: BookingId, now: int)
    requires UniquePairs(rows) && newId !in rows
    ensures var d := Decide(rows, capacity, u, e);
            var full := Seats(rows, e) >= capacity;
            && (d.AlreadyBooked? <==> HasActiveRow(rows, u, e, Confirmed))
            && (d.AlreadyWaitlisted? <==> !full && HasActiveRow(rows, u, e, Waitlisted))
            && (d.Go? ==>
                  var b := Target(d.write, newId);
                  var after := Apply(rows, d.write, u, e, newId, now);
                  && OnlyRowChanged(rows, after, b)
                  && UniquePairs(after)
                  && Holds(after[b], u, e)
                  && after[b].status == (if full then Waitlisted else Confirmed)
                  && (b !in rows ==> after[b].createdAt == now)
                  && forall x :: Seats(after, x) == Seats(rows, x) + (if x == e && !full then 1 else 0))
  {
    var d := Decide(rows, capacity, u, e);
    if d.Go? {
      match d.write
      case Keep(id) =>
      case Flip(id, st) =>
        forall x { FlipCounts(rows, id, st, x); }
      case Insert(st) =>
        forall x { InsertCounts(rows, newId, Booking(u, e, st, now), x); }
    }
  }

  /** The waitlist of `x` after row `id` has, or has not, joined it. */
  function Joined(rows: Table, x: EventId, joins: bool, id: BookingId): set<BookingId> {
    WithStatus(rows, x, Waitlisted) + if joins then {id} else {}
  }

  lemma FlipJoins(rows: Table, id: BookingId, st: Status, x: EventId)
    requires id in rows && rows[id].status == Cancelled && st != Cancelled
    ensures WithStatus(rows[id := rows[id].(status := st)], x, Waitlisted) ==
              Joined(rows, x, x == rows[id].eventId && st == Waitlisted, id)
  {
    FlipMovesOneRow(rows, id, st);
  }

  lemma InsertJoins(rows: Table, id: BookingId, b: Booking, x: EventId)
    requires id !in rows
    ensures WithStatus(rows[id := b], x, Waitlisted) == Joined(rows, x, x == b.eventId && b.status == Waitlisted, id)
  {
    InsertAddsOneRow(rows, id, b);
  }

  lemma KeepJoins(rows: Table, id: BookingId, x: EventId)
    requires id in rows && rows[id].status == Waitlisted
    ensures WithStatus(rows, x, Waitlisted) == Joined(rows, x, x == rows[id].eventId, id)
  {
  }

  lemma BookingJoins(rows: Table, capacity: int, u: UserId, e: EventId, newId: BookingId, now: int, x: EventId)
    requires newId !in rows && Decide(rows, capacity, u, e).Go?
    ensures var w := Decide(rows, capacity, u, e).write;
            WithStatus(Apply(rows, w, u, e, newId, now), x, Waitlisted) ==
              Joined(rows, x, x == e && Seats(rows, e) >= capacity, Target(w, newId))
  {
    match Decide(rows, capacity, u, e).write
    case Keep(id) => KeepJoins(rows, id, x);
    case Flip(id, st) => FlipJoins(rows, id, st, x);
    case Insert(st) => InsertJoins(rows, newId, Booking(u, e, st, now), x);
  }

  /** A booking of a full event adds its row to that waitlist; no other booking touches a waitlist. */
  lemma BookingWaitlist(rows: Table, capacity: int, u: UserId, e: EventId, newId: BookingId, now: int)
    requires newId !in rows
    ensures var d := Decide(rows, capacity, u, e);
            d.Go? ==>
              forall x :: WithStatus(Apply(rows, d.write, u, e, newId, now), x, Waitlisted) ==
                Joined(rows, x, x == e && Seats(rows, e) >= capacity, Target(d.write, newId))
  {
    if Decide(rows, capacity, u, e).Go? {
      forall x { BookingJoins(rows, capacity, u, e, newId, now, x); }
    }
  }

  /** A promotion takes one seat of a not-full event from the front of the waitlist, or does nothing. */
  lemma PromotionMeaning(rows: Table, capacity: int, e: EventId, who: Option<BookingId>)
    requires Picks(rows, capacity, e, who)
    ensures var after := Promoted(rows, who);
            && (who.Some? ==>
                  && OnlyRowChanged(rows, after, who.value)
                  && Seats(rows, e) < capacity
                  && Seats(after, e) == Seats(rows, e) + 1
                  && WithStatus(after, e, Waitlisted) == WithStatus(rows, e, Waitlisted) - {who.value})
            && (who.None? ==> after == rows && (Seats(rows, e) >= capacity || WithStatus(rows, e, Waitlisted) == {}))
            && (UniquePairs(rows) ==> UniquePairs(after))
            && (forall x :: x != e ==> Seats(after, x) == Seats(rows, x))
  {
    if who.Some? {
      FlipMovesOneRow(rows, who.value, Confirmed);
      forall x { FlipCounts(rows, who.value, Confirmed, x); }
    }
  }

  /** A waitlisted row exists to be picked whenever anybody waits. */
  lemma SomebodyIsOldest(rows: Table, e: EventId, waiting: set<BookingId>) returns (id: BookingId)
    requires waiting != {} && waiting <= WithStatus(rows, e, Waitlisted)
    ensures id in waiting && forall j :: j in waiting ==> rows[id].createdAt <= rows[j].createdAt
    decreases waiting
  {
    id :| id in waiting;
    if waiting != {id} {
      var other := SomebodyIsOldest(rows, e, waiting - {id});
      id := if rows[other].createdAt < rows[id].createdAt then other else id;
    }
  }
}
