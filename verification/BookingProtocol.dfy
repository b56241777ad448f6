/** The booking protocol as a state machine whose steps are whole calls. */
module BookingProtocol {
  import opened Wrappers
  import opened BookingTable
  import opened Principal

  predicate MayCancel(rows: Table, id: BookingId, actor: Actor) {
    id in rows && (actor.isAdmin || rows[id].userId == actor.sub) && rows[id].status != Cancelled
  }

  datatype State = State(capacity: map<EventId, int>, rows: Table, jobs: multiset<EventId>)

  /** `Book` carries the capacity the call read (`seen`) and the decision its transaction took, a refusal
      included; `Promote` carries the row it picked and whether it ends a queued job or is a redelivery of one. */
  datatype Label =
    | Book(u: UserId, e: EventId, seen: int, newId: BookingId, now: int, decision: Decision)
    | Cancel(id: BookingId, actor: Actor)
    | Promote(e: EventId, who: Option<BookingId>, acknowledged: bool)
    | EditEvents(capacity: map<EventId, int>)

  ghost predicate Step(s: State, l: Label, s': State) {
    match l
    case Book(u, e, seen, newId, now, decision) =>
      && decision == Decide(s.rows, seen, u, e)
      && (decision.Go? ==> newId !in s.rows)
      && s' == s.(rows := if decision.Go? then Apply(s.rows, decision.write, u, e, newId, now) else s.rows)
    case Cancel(id, actor) =>
      if MayCancel(s.rows, id, actor) then
        s' == s.(rows := s.rows[id := s.rows[id].(status := Cancelled)],
                 jobs := s.jobs + (if s.rows[id].status == Confirmed then multiset{s.rows[id].eventId} else multiset{}))
      else s' == s
    case Promote(e, who, acknowledged) =>
      && e in s.capacity
      && Picks(s.rows, s.capacity[e], e, who)
      && (acknowledged ==> e in s.jobs)
      && s' == s.(rows := Promoted(s.rows, who), jobs := if acknowledged then s.jobs - multiset{e} else s.jobs)
    case EditEvents(capacity) =>
      s' == s.(capacity := capacity)
  }

  ghost predicate Start(s: State) {
    s.rows == map[] && s.jobs == multiset{}
  }

  ghost predicate Run(t: seq<State>, ls: seq<Label>) {
    && |t| == |ls| + 1
    && Start(t[0])
    && forall i {:trigger ls[i]} :: 0 <= i < |ls| ==> Step(t[i], ls[i], t[i + 1])
  }
}
