/** What every run of the booking protocol keeps when its steps are whole calls. */
module SerialBookings {
  import opened Wrappers
  import opened BookingTable
  import opened BookingProtocol

  // Rows are permanent -----------------------------------------------------------------------------

  /** A row never disappears and never changes owner, event or creation time. */
  ghost predicate RowsPersist(before: Table, after: Table) {
    forall id :: id in before ==> id in after && after[id] == before[id].(status := after[id].status)
  }

  lemma OneRowPersists(before: Table, after: Table, b: BookingId)
    requires OnlyRowChanged(before, after, b)
    ensures RowsPersist(before, after)
  {
  }

  lemma BookKeepsRows(s: State, l: Label, s': State)
    requires Step(s, l, s') && UniquePairs(s.rows) && l.Book?
    ensures RowsPersist(s.rows, s'.rows) && UniquePairs(s'.rows)
  {
    if l.decision.Go? {
      BookingMeaning(s.rows, l.seen, l.u, l.e, l.newId, l.now);
      OneRowPersists(s.rows, s'.rows, Target(l.decision.write, l.newId));
    }
  }

  lemma StepKeepsRows(s: State, l: Label, s': State)
    requires Step(s, l, s') && UniquePairs(s.rows)
    ensures RowsPersist(s.rows, s'.rows) && UniquePairs(s'.rows)
  {
    if l.Book? {
      BookKeepsRows(s, l, s');
    }
  }

  lemma {:induction false} RunKeepsUnique(t: seq<State>, ls: seq<Label>, i: nat)
    requires Run(t, ls) && i < |t|
    ensures UniquePairs(t[i].rows)
  {
    if i > 0 {
      RunKeepsUnique(t, ls, i - 1);
      StepKeepsRows(t[i - 1], ls[i - 1], t[i]);
    }
  }

  lemma PersistTransitive(a: Table, b: Table, c: Table)
    requires RowsPersist(a, b) && RowsPersist(b, c)
    ensures RowsPersist(a, c)
  {
  }

  lemma {:induction false} RunKeepsRows(t: seq<State>, ls: seq<Label>, i: nat, j: nat)
    requires Run(t, ls) && i <= j < |t|
    ensures RowsPersist(t[i].rows, t[j].rows)
  {
    if i < j {
      RunKeepsRows(t, ls, i, j - 1);
      RunKeepsUnique(t, ls, j - 1);
      StepKeepsRows(t[j - 1], ls[j - 1], t[j]);
      var a, b, c := t[i].rows, t[j - 1].rows, t[j].rows;
      PersistTransitive(a, b, c);
    }
  }

  // No stranded seat -------------------------------------------------------------------------------

  /** Somebody waits only while every free seat has a promotion job on its way. */
  ghost predicate SeatsCovered(s: State) {
    forall e :: e in s.capacity && WithStatus(s.rows, e, Waitlisted) != {} ==>
      s.capacity[e] - Seats(s.rows, e) <= s.jobs[e]
  }

  ghost predicate SomebodyWaits(rows: Table, e: EventId) {
    WithStatus(rows, e, Waitlisted) != {}
  }

  /** No seat is added behind anybody's back: an edit raises the capacity of no event that somebody waits
      for, and a booking goes by no less than the capacity its event still has. */
  ghost predicate AddsNoSeat(s: State, l: Label) {
    && (l.EditEvents? ==>
          forall e :: e in l.capacity && SomebodyWaits(s.rows, e) ==> e in s.capacity && l.capacity[e] <= s.capacity[e])
    && (l.Book? && l.e in s.capacity ==> l.seen >= s.capacity[l.e])
  }

  /** Every cancellation and promotion is so, a booking at the current capacity, and an edit that only lowers. */
  lemma OrdinaryCallsAddNoSeat(s: State, l: Label)
    requires l.Book? ==> l.e in s.capacity && l.seen == s.capacity[l.e]
    requires l.EditEvents? ==> forall e :: e in l.capacity ==> e in s.capacity && l.capacity[e] <= s.capacity[e]
    ensures AddsNoSeat(s, l)
  {
  }

  lemma BookKeepsCover(s: State, l: Label, s': State)
    requires Step(s, l, s') && UniquePairs(s.rows) && l.Book? && AddsNoSeat(s, l) && SeatsCovered(s)
    ensures SeatsCovered(s')
  {
    if l.decision.Go? {
      BookingMeaning(s.rows, l.seen, l.u, l.e, l.newId, l.now);
      BookingWaitlist(s.rows, l.seen, l.u, l.e, l.newId, l.now);
    }
  }

  lemma CancelKeepsCover(s: State, l: Label, s': State)
    requires Step(s, l, s') && l.Cancel? && SeatsCovered(s)
    ensures SeatsCovered(s')
  {
    if MayCancel(s.rows, l.id, l.actor) {
      FlipMovesOneRow(s.rows, l.id, Cancelled);
      forall x { FlipCounts(s.rows, l.id, Cancelled, x); }
    }
  }

  lemma PromoteKeepsCover(s: State, l: Label, s': State)
    requires Step(s, l, s') && l.Promote? && SeatsCovered(s)
    ensures SeatsCovered(s')
  {
    PromotionMeaning(s.rows, s.capacity[l.e], l.e, l.who);
    if l.who.Some? {
      FlipMovesOneRow(s.rows, l.who.value, Confirmed);
    }
  }

  lemma StepKeepsCover(s: State, l: Label, s': State)
    requires Step(s, l, s') && UniquePairs(s.rows) && AddsNoSeat(s, l) && SeatsCovered(s)
    ensures SeatsCovered(s')
  {
    match l
    case Book(_, _, _, _, _, _) => BookKeepsCover(s, l, s');
    case Cancel(_, _) => CancelKeepsCover(s, l, s');
    case Promote(_, _, _) => PromoteKeepsCover(s, l, s');
    case EditEvents(_) =>
      assert forall e :: SomebodyWaits(s.rows, e) <==> WithStatus(s.rows, e, Waitlisted) != {};
  }

  lemma {:induction false} RunKeepsCover(t: seq<State>, ls: seq<Label>, i: nat)
    requires Run(t, ls) && i < |t|
    requires forall k {:trigger ls[k]} :: 0 <= k < |ls| ==> AddsNoSeat(t[k], ls[k])
    ensures SeatsCovered(t[i])
  {
    if i > 0 {
      var s, l, s' := t[i - 1], ls[i - 1], t[i];
      RunKeepsCover(t, ls, i - 1);
      RunKeepsUnique(t, ls, i - 1);
      StepKeepsCover(s, l, s');
    }
  }

  /** Over every run of whole calls that adds no seat and whose queue loses nothing (it may redeliver),
      free seats never outnumber pending jobs while somebody waits; so once an event has no pending job it
      is full or nobody waits for it. */
  lemma NoStrandedSeat(t: seq<State>, ls: seq<Label>, i: nat, e: EventId)
    requires Run(t, ls) && i < |t|
    requires forall k {:trigger ls[k]} :: 0 <= k < |ls| ==> AddsNoSeat(t[k], ls[k])
    requires e in t[i].capacity
    ensures WithStatus(t[i].rows, e, Waitlisted) != {} ==> t[i].capacity[e] - Seats(t[i].rows, e) <= t[i].jobs[e]
    ensures e !in t[i].jobs ==> Seats(t[i].rows, e) >= t[i].capacity[e] || WithStatus(t[i].rows, e, Waitlisted) == {}
  {
    RunKeepsCover(t, ls, i);
  }

  // First come, first promoted ---------------------------------------------------------------------

  /** A waiting row gains its seat through a promotion of that row and in no other way. */
  lemma OnlyPromotionConfirms(s: State, l: Label, s': State, id: BookingId)
    requires Step(s, l, s') && UniquePairs(s.rows)
    requires id in s.rows && s.rows[id].status == Waitlisted
    requires id in s'.rows && s'.rows[id].status == Confirmed
    ensures l.Promote? && l.who == Some(id) && l.e == s.rows[id].eventId
    ensures IsOldestWaitlisted(s.rows, l.e, id)
  {
  }

  predicate TakesFromWaitlist(l: Label, id: BookingId) {
    (l.Promote? && l.who == Some(id)) || (l.Cancel? && l.id == id)
  }

  predicate Waits(s: State, id: BookingId) {
    id in s.rows && s.rows[id].status == Waitlisted
  }

  lemma OlderIsGone(s: State, l: Label, s': State, a: BookingId, b: BookingId)
    requires Step(s, l, s') && UniquePairs(s.rows)
    requires Waits(s, b) && b in s'.rows && s'.rows[b].status == Confirmed
    requires a in s.rows && s.rows[a].eventId == s.rows[b].eventId && s.rows[a].createdAt < s.rows[b].createdAt
    ensures !Waits(s, a)
  {
    OnlyPromotionConfirms(s, l, s', b);
  }

  lemma LastWaiting(t: seq<State>, i: nat, j: nat, a: BookingId) returns (k: nat)
    requires i <= j < |t| && Waits(t[i], a) && !Waits(t[j], a)
    ensures i <= k < j && Waits(t[k], a) && !Waits(t[k + 1], a)
  {
    k := i;
    while Waits(t[k + 1], a)
      invariant i <= k < j && Waits(t[k], a)
      decreases j - k
    {
      k := k + 1;
    }
  }

  /** Of two rows waiting for one event at the same moment, the strictly younger is promoted only
      after the older has left the waitlist, by a promotion or a cancellation of its own. */
  lemma FirstComeFirstPromoted(t: seq<State>, ls: seq<Label>, i: nat, j: nat, a: BookingId, b: BookingId)
    returns (k: nat)
    requires Run(t, ls) && i <= j < |ls|
    requires Waits(t[i], a) && Waits(t[i], b) && t[i].rows[a].eventId == t[i].rows[b].eventId
    requires t[i].rows[a].createdAt < t[i].rows[b].createdAt
    requires Waits(t[j], b) && b in t[j + 1].rows && t[j + 1].rows[b].status == Confirmed
    ensures i <= k < j && Waits(t[k], a) && !Waits(t[k + 1], a)
    ensures TakesFromWaitlist(ls[k], a)
  {
    RunKeepsUnique(t, ls, j);
    RunKeepsRows(t, ls, i, j);
    OlderIsGone(t[j], ls[j], t[j + 1], a, b);
    k := LastWaiting(t, i, j, a);
    RunKeepsUnique(t, ls, k);
    RunKeepsRows(t, ls, i, k);
    LeavesWaitlist(t[k], ls[k], t[k + 1], a);
  }

  lemma LeavesWaitlist(s: State, l: Label, s': State, a: BookingId)
    requires Step(s, l, s') && UniquePairs(s.rows) && Waits(s, a) && !Waits(s', a)
    ensures TakesFromWaitlist(l, a)
  {
  }

  /** A cancelled user who rejoins a full event goes to the place their first booking gave them: they
      are behind exactly those whose rows are older than their original row. */
  lemma RejoinKeepsPlace(s: State, l: Label, s': State, id: BookingId)
    requires Step(s, l, s') && UniquePairs(s.rows) && l.Book?
    requires id in s.rows && Holds(s.rows[id], l.u, l.e) && s.rows[id].status == Cancelled
    ensures id in s'.rows && s'.rows == s.rows[id := s.rows[id].(status := s'.rows[id].status)]
    ensures s'.rows[id].status == (if Seats(s.rows, l.e) >= l.seen then Waitlisted else Confirmed)
    ensures Waits(s', id)
            && (forall j :: Waits(s, j) && s.rows[j].eventId == l.e ==> s.rows[id].createdAt <= s.rows[j].createdAt)
            ==> IsOldestWaitlisted(s'.rows, l.e, id)
  {
  }
}
