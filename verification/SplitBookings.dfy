/** The booking protocol with its calls cut into the steps other calls can slip between.

    Assumed of the database: a serializable transaction that confirms a row may commit only if no other
    serializable transaction has confirmed a row of that event since its snapshot; a transaction may
    write only a row that is as its snapshot has it, or insert a pair that has no row. Cancellations and
    capacity edits run outside any such transaction and are never stopped. A stricter database has
    fewer runs, so what is proved here holds for it too. */
module SplitBookings {
  import opened Wrappers
  import opened BookingTable
  import opened BookingProtocol
  import opened Principal
  import opened BookingService

  type CallId = nat

  datatype Kind = ForUser(u: UserId) | ForQueue

  datatype Snapshot = Snapshot(rows: Table, at: nat)

  /** A call in progress: the capacity it goes by, the attempts begun, and the transaction it has open. */
  datatype Call = Call(kind: Kind, e: EventId, seen: int, attempts: nat, open: Option<Snapshot>)

  datatype PendingCancel = PendingCancel(id: BookingId, read: Status)

  datatype Entry = Entry(e: EventId, confirms: bool)

  /** `log` lists the committed serializable transactions; `used` the call ids ever given out. */
  datatype Machine = Machine(db: State, log: seq<Entry>, calls: map<CallId, Call>, used: set<CallId>,
                             cancels: map<CallId, PendingCancel>)

  datatype Action =
    | StartBooking(c: CallId, u: UserId, e: EventId)
    | StartPromotion(c: CallId, e: EventId)
    | Begin(c: CallId)
    | Commit(c: CallId, plan: Option<Write>, newId: BookingId, now: int, acknowledged: bool)
    | Abort(c: CallId)
    | Fail(c: CallId)
    | ReadCancel(c: CallId, id: BookingId, actor: Actor)
    | WriteCancel(c: CallId)
    | WholeCancel(id: BookingId, actor: Actor)
    | Edit(capacity: map<EventId, int>)

  /** The write, if any, that a transaction of this call chooses from the rows and capacity it sees. */
  ghost predicate Plans(kind: Kind, e: EventId, seen: int, rows: Table, plan: Option<Write>) {
    match kind
    case ForUser(u) =>
      var d := Decide(rows, seen, u, e);
      plan == if d.Go? then Some(d.write) else None
    case ForQueue =>
      if plan.None? then Picks(rows, seen, e, None)
      else plan.value.Flip? && plan.value.status == Confirmed && Picks(rows, seen, e, Some(plan.value.id))
  }

  predicate Confirms(w: Write) {
    (w.Flip? || w.Insert?) && w.status == Confirmed
  }

  function Owner(kind: Kind): UserId {
    if kind.ForUser? then kind.u else ""
  }

  predicate NoneConfirmedSince(log: seq<Entry>, at: nat, e: EventId) {
    forall k :: at <= k < |log| && log[k].e == e ==> !log[k].confirms
  }

  ghost predicate MayCommit(m: Machine, call: Call, w: Write, newId: BookingId)
    requires call.open.Some?
  {
    var snap := call.open.value;
    && (Confirms(w) ==> NoneConfirmedSince(m.log, snap.at, call.e))
    && (w.Flip? ==> w.id in m.db.rows && w.id in snap.rows && m.db.rows[w.id] == snap.rows[w.id])
    && (w.Insert? ==> newId !in m.db.rows && FindByUserEvent(m.db.rows, Owner(call.kind), call.e).None?)
  }

  function Limit(kind: Kind): nat {
    if kind.ForUser? then MAX_RETRIES else 1
  }

  function WithoutCall(m: Machine, c: CallId): Machine {
    m.(calls := m.calls - {c})
  }

  /** What a commit does, by whatever rule it was allowed. */
  ghost predicate CommitEffect(m: Machine, a: Action, m': Machine)
    requires a.Commit?
  {
    && a.c in m.calls && m.calls[a.c].open.Some?
    && var call := m.calls[a.c];
    && Plans(call.kind, call.e, call.seen, call.open.value.rows, a.plan)
    && (a.acknowledged ==> call.kind.ForQueue? && call.e in m.db.jobs)
    && var jobs := if a.acknowledged then m.db.jobs - multiset{call.e} else m.db.jobs;
    if a.plan.None? then
      m' == WithoutCall(m, a.c).(db := m.db.(jobs := jobs))
    else
      m' == WithoutCall(m, a.c).(
           db := m.db.(rows := Apply(m.db.rows, a.plan.value, Owner(call.kind), call.e, a.newId, a.now), jobs := jobs),
           log := m.log + [Entry(call.e, Confirms(a.plan.value))])
  }

  ghost predicate CommitStep(m: Machine, a: Action, m': Machine)
    requires a.Commit?
  {
    CommitEffect(m, a, m') && (a.plan.Some? ==> MayCommit(m, m.calls[a.c], a.plan.value, a.newId))
  }

  ghost predicate Next(m: Machine, a: Action, m': Machine) {
    match a
    case StartBooking(c, u, e) =>
      && c !in m.used && e in m.db.capacity
      && m' == m.(calls := m.calls[c := Call(ForUser(u), e, m.db.capacity[e], 0, None)], used := m.used + {c})
    case StartPromotion(c, e) =>
      && c !in m.used
      && m' == m.(calls := m.calls[c := Call(ForQueue, e, 0, 0, None)], used := m.used + {c})
    case Begin(c) =>
      && c in m.calls && m.calls[c].open.None? && m.calls[c].attempts < Limit(m.calls[c].kind)
      && var call := m.calls[c];
      && (call.kind.ForQueue? ==> call.e in m.db.capacity)
      && m' == m.(calls := m.calls[c := call.(
                    seen := if call.kind.ForQueue? then m.db.capacity[call.e] else call.seen,
                    attempts := call.attempts + 1,
                    open := Some(Snapshot(m.db.rows, |m.log|)))])
    case Commit(_, _, _, _, _) => CommitStep(m, a, m')
    case Abort(c) =>
      && c in m.calls && m.calls[c].open.Some?
      && m' == m.(calls := m.calls[c := m.calls[c].(open := None)])
    case Fail(c) =>
      c in m.calls && m' == WithoutCall(m, c)
    case ReadCancel(c, id, actor) =>
      && c !in m.used && MayCancel(m.db.rows, id, actor)
      && m' == m.(cancels := m.cancels[c := PendingCancel(id, m.db.rows[id].status)], used := m.used + {c})
    case WriteCancel(c) =>
      && c in m.cancels
      && m' == m.(db := CancelWritten(m.db, m.cancels[c].id, m.cancels[c].read), cancels := m.cancels - {c})
    case WholeCancel(id, actor) =>
      && MayCancel(m.db.rows, id, actor)
      && m' == m.(db := CancelWritten(m.db, id, m.db.rows[id].status))
    case Edit(capacity) =>
      m' == m.(db := m.db.(capacity := capacity))
  }

  /** The write of a cancellation, unconditional, and the job it queues by the status it had read. */
  function CancelWritten(s: State, id: BookingId, read: Status): State {
    if id in s.rows then
      s.(rows := s.rows[id := s.rows[id].(status := Cancelled)],
         jobs := s.jobs + (if read == Confirmed then multiset{s.rows[id].eventId} else multiset{}))
    else s
  }

  ghost predicate Initial(m: Machine) {
    Start(m.db) && m.log == [] && m.calls == map[] && m.used == {} && m.cancels == map[]
  }

  ghost predicate Execution(t: seq<Machine>, acts: seq<Action>) {
    && |t| == |acts| + 1
    && Initial(t[0])
    && forall i {:trigger acts[i]} :: 0 <= i < |acts| ==> Next(t[i], acts[i], t[i + 1])
  }

  // Seats under one step ---------------------------------------------------------------------------

  /** Cancellations only lower seat counts. */
  lemma CancelLowersSeats(s: State, id: BookingId, read: Status, e: EventId)
    ensures Seats(CancelWritten(s, id, read).rows, e) <= Seats(s.rows, e)
  {
    if id in s.rows {
      FlipCounts(s.rows, id, Cancelled, e);
    }
  }

  /** A planned write concerns the call's event, and confirms only below the capacity the call goes by. */
  lemma PlanMeaning(kind: Kind, e: EventId, seen: int, rows: Table, plan: Option<Write>)
    requires Plans(kind, e, seen, rows, plan) && plan.Some?
    ensures plan.value.Flip? ==> plan.value.id in rows && rows[plan.value.id].eventId == e
    ensures Confirms(plan.value) ==> Seats(rows, e) < seen
  {
  }

  lemma CommitRaisesByOne(m: Machine, call: Call, w: Write, newId: BookingId, now: int, x: EventId)
    requires call.open.Some? && Plans(call.kind, call.e, call.seen, call.open.value.rows, Some(w))
    requires MayCommit(m, call, w, newId)
    ensures Seats(Apply(m.db.rows, w, Owner(call.kind), call.e, newId, now), x)
              <= Seats(m.db.rows, x) + (if x == call.e && Confirms(w) then 1 else 0)
  {
    PlanMeaning(call.kind, call.e, call.seen, call.open.value.rows, Some(w));
    match w
    case Keep(_) =>
    case Flip(id, st) => FlipCounts(m.db.rows, id, st, x);
    case Insert(st) => InsertCounts(m.db.rows, newId, Booking(Owner(call.kind), call.e, st, now), x);
  }

  // Snapshots stay upper bounds --------------------------------------------------------------------

  /** While no one else has confirmed a row of its event, a snapshot still counts at least the seats
      that are taken now: all that can have slipped in are cancellations. */
  ghost predicate SnapshotBounds(m: Machine, call: Call) {
    call.open.Some? ==>
      && call.open.value.at <= |m.log|
      && (NoneConfirmedSince(m.log, call.open.value.at, call.e) ==>
            Seats(m.db.rows, call.e) <= Seats(call.open.value.rows, call.e))
  }

  ghost predicate SnapshotsBound(m: Machine) {
    forall c :: c in m.calls ==> SnapshotBounds(m, m.calls[c])
  }

  lemma CommitKeepsBounds(m: Machine, a: Action, m': Machine, other: Call)
    requires a.Commit? && CommitStep(m, a, m') && SnapshotBounds(m, other)
    ensures SnapshotBounds(m', other)
  {
    if a.plan.Some? && other.open.Some? {
      var call := m.calls[a.c];
      CommitRaisesByOne(m, call, a.plan.value, a.newId, a.now, other.e);
      var entry := Entry(call.e, Confirms(a.plan.value));
      assert m'.log[|m.log|] == entry;
      if NoneConfirmedSince(m'.log, other.open.value.at, other.e) {
        forall k | other.open.value.at <= k < |m.log| && m.log[k].e == other.e ensures !m.log[k].confirms {
          assert m'.log[k] == m.log[k];
        }
      }
    }
  }

  lemma StepKeepsBounds(m: Machine, a: Action, m': Machine)
    requires Next(m, a, m') && SnapshotsBound(m)
    ensures SnapshotsBound(m')
  {
    if a.Commit? {
      forall c | c in m'.calls ensures SnapshotBounds(m', m'.calls[c]) {
        CommitKeepsBounds(m, a, m', m.calls[c]);
      }
    } else if a.WriteCancel? {
      forall e { CancelLowersSeats(m.db, m.cancels[a.c].id, m.cancels[a.c].read, e); }
    } else if a.WholeCancel? {
      forall e { CancelLowersSeats(m.db, a.id, m.db.rows[a.id].status, e); }
    }
  }

  lemma {:induction false} ExecutionKeepsBounds(t: seq<Machine>, acts: seq<Action>, i: nat)
    requires Execution(t, acts) && i < |t|
    ensures SnapshotsBound(t[i])
  {
    if i > 0 {
      var m, a, m' := t[i - 1], acts[i - 1], t[i];
      ExecutionKeepsBounds(t, acts, i - 1);
      StepKeepsBounds(m, a, m');
    }
  }

  // No oversell ------------------------------------------------------------------------------------

  /** At some moment up to step `i` the event had at least `n` seats on offer. */
  ghost predicate Offered(t: seq<Machine>, i: nat, e: EventId, n: int)
    requires i < |t|
  {
    exists j :: 0 <= j <= i && e in t[j].db.capacity && n <= t[j].db.capacity[e]
  }

  /** A promotion has read no capacity until its transaction begins. */
  predicate GoesByCapacity(call: Call) {
    call.kind.ForUser? || call.open.Some?
  }

  ghost predicate CallsGoByOffers(t: seq<Machine>, i: nat)
    requires i < |t|
  {
    forall c :: c in t[i].calls ==>
      (GoesByCapacity(t[i].calls[c]) ==> Offered(t, i, t[i].calls[c].e, t[i].calls[c].seen))
  }

  lemma OfferedLater(t: seq<Machine>, i: nat, j: nat, e: EventId, n: int, n': int)
    requires i <= j < |t| && Offered(t, i, e, n) && n' <= n
    ensures Offered(t, j, e, n')
  {
  }

  lemma CapacityIsRead(m: Machine, a: Action, m': Machine, c: CallId)
    requires Next(m, a, m') && c in m'.calls && GoesByCapacity(m'.calls[c])
    ensures var call := m'.calls[c];
            || (c in m.calls && GoesByCapacity(m.calls[c]) && call.e == m.calls[c].e && call.seen == m.calls[c].seen)
            || (m'.db.capacity == m.db.capacity && call.e in m.db.capacity && call.seen == m.db.capacity[call.e])
  {
  }

  lemma {:induction false} CallsStayOffered(t: seq<Machine>, acts: seq<Action>, i: nat)
    requires Execution(t, acts) && i < |t|
    ensures CallsGoByOffers(t, i)
  {
    if i > 0 {
      var m, a, m' := t[i - 1], acts[i - 1], t[i];
      CallsStayOffered(t, acts, i - 1);
      forall c | c in m'.calls && GoesByCapacity(m'.calls[c])
        ensures Offered(t, i, m'.calls[c].e, m'.calls[c].seen)
      {
        CapacityIsRead(m, a, m', c);
      }
    }
  }

  lemma StepStaysOffered(t: seq<Machine>, acts: seq<Action>, i: nat, e: EventId)
    requires 0 < i < |t| && i <= |acts| && Next(t[i - 1], acts[i - 1], t[i])
    requires SnapshotsBound(t[i - 1]) && CallsGoByOffers(t, i - 1)
    ensures Seats(t[i].db.rows, e) <= Seats(t[i - 1].db.rows, e) || Offered(t, i, e, Seats(t[i].db.rows, e))
  {
    var m, a, m' := t[i - 1], acts[i - 1], t[i];
    if a.Commit? && a.plan.Some? {
      var call := m.calls[a.c];
      CommitRaisesByOne(m, call, a.plan.value, a.newId, a.now, e);
      if e == call.e && Confirms(a.plan.value) {
        PlanMeaning(call.kind, call.e, call.seen, call.open.value.rows, a.plan);
        assert SnapshotBounds(m, call);
        OfferedLater(t, i - 1, i, e, call.seen, Seats(m'.db.rows, e));
      }
    } else if a.WriteCancel? {
      CancelLowersSeats(m.db, m.cancels[a.c].id, m.cancels[a.c].read, e);
    } else if a.WholeCancel? {
      CancelLowersSeats(m.db, a.id, m.db.rows[a.id].status, e);
    }
  }

  /** No oversell, in every state of every interleaving: the seats taken never exceed the largest
      capacity the event has had so far. */
  lemma {:induction false} NoOversell(t: seq<Machine>, acts: seq<Action>, i: nat, e: EventId)
    requires Execution(t, acts) && i < |t|
    ensures Seats(t[i].db.rows, e) == 0
            || exists j :: 0 <= j <= i && e in t[j].db.capacity && Seats(t[i].db.rows, e) <= t[j].db.capacity[e]
  {
    if i > 0 {
      NoOversell(t, acts, i - 1, e);
      ExecutionKeepsBounds(t, acts, i - 1);
      CallsStayOffered(t, acts, i - 1);
      var a := acts[i - 1];
      StepStaysOffered(t, acts, i, e);
    }
  }

  /** Hence an event whose capacity is never lowered is never sold beyond it. */
  lemma NoOversellOfFixedCapacity(t: seq<Machine>, acts: seq<Action>, i: nat, e: EventId)
    requires Execution(t, acts) && i < |t|
    requires forall j, k :: 0 <= j <= k < |t| && e in t[j].db.capacity ==>
               e in t[k].db.capacity && t[j].db.capacity[e] <= t[k].db.capacity[e]
    ensures Seats(t[i].db.rows, e) > 0 ==> e in t[i].db.capacity && Seats(t[i].db.rows, e) <= t[i].db.capacity[e]
  {
    NoOversell(t, acts, i, e);
  }

  // The commit rule is needed ----------------------------------------------------------------------

  /** One seat, two users who both began before either committed, and the first has committed. */
  function AfterOneCommit(first: CallId, second: CallId): Machine {
    Machine(State(map["e" := 1], map["a" := Booking("u", "e", Confirmed, 0)], multiset{}),
            [Entry("e", true)],
            map[second := Call(ForUser("w"), "e", 1, 1, Some(Snapshot(map[], 0)))],
            {first, second}, map[])
  }

  lemma NoRowsNoSeats(e: EventId)
    ensures Seats(map[], e) == 0
  {
  }

  lemma ExecutionExtends(t: seq<Machine>, acts: seq<Action>, a: Action, m: Machine)
    requires Execution(t, acts) && Next(t[|t| - 1], a, m)
    ensures Execution(t + [m], acts + [a])
  {
  }

  /** One seat on offer, and no rows yet. */
  function Opening(calls: map<CallId, Call>, used: set<CallId>): Machine {
    Machine(State(map["e" := 1], map[], multiset{}), [], calls, used, map[])
  }

  lemma BothBegin() returns (t: seq<Machine>, acts: seq<Action>)
    ensures var open := Some(Snapshot(map[], 0));
            Execution(t, acts)
            && t[|t| - 1] == Opening(map[0 := Call(ForUser("u"), "e", 1, 1, open),
                                         1 := Call(ForUser("w"), "e", 1, 1, open)], {0, 1})
    ensures forall i :: 0 <= i < |t| ==> t[i].db.capacity == map["e" := 1]
  {
    var idle0, idle1 := Call(ForUser("u"), "e", 1, 0, None), Call(ForUser("w"), "e", 1, 0, None);
    var open := Some(Snapshot(map[], 0));
    var open0, open1 := idle0.(attempts := 1, open := open), idle1.(attempts := 1, open := open);
    t, acts := [Opening(map[], {})], [];
    ExecutionExtends(t, acts, StartBooking(0, "u", "e"), Opening(map[0 := idle0], {0}));
    t, acts := t + [Opening(map[0 := idle0], {0})], acts + [StartBooking(0, "u", "e")];
    ExecutionExtends(t, acts, StartBooking(1, "w", "e"), Opening(map[0 := idle0, 1 := idle1], {0, 1}));
    t, acts := t + [Opening(map[0 := idle0, 1 := idle1], {0, 1})], acts + [StartBooking(1, "w", "e")];
    ExecutionExtends(t, acts, Begin(0), Opening(map[0 := open0, 1 := idle1], {0, 1}));
    t, acts := t + [Opening(map[0 := open0, 1 := idle1], {0, 1})], acts + [Begin(0)];
    ExecutionExtends(t, acts, Begin(1), Opening(map[0 := open0, 1 := open1], {0, 1}));
    t, acts := t + [Opening(map[0 := open0, 1 := open1], {0, 1})], acts + [Begin(1)];
  }

  lemma OneCommitIsReached() returns (t: seq<Machine>, acts: seq<Action>)
    ensures Execution(t, acts) && t[|t| - 1] == AfterOneCommit(0, 1)
    ensures forall i :: 0 <= i < |t| ==> t[i].db.capacity == map["e" := 1]
  {
    t, acts := BothBegin();
    NoRowsNoSeats("e");
    var m, commit := t[|t| - 1], Commit(0, Some(Insert(Confirmed)), "a", 0, false);
    assert m.calls - {0} == AfterOneCommit(0, 1).calls;
    ExecutionExtends(t, acts, commit, AfterOneCommit(0, 1));
    t, acts := t + [AfterOneCommit(0, 1)], acts + [commit];
  }

  /** An execution reaches a state from which the second commit, were it not stopped by the rule, would
      sell the one seat twice: write skew. */
  lemma WriteSkewWouldOversell() returns (t: seq<Machine>, acts: seq<Action>, skewed: Machine)
    ensures Execution(t, acts) && forall i :: 0 <= i < |t| ==> t[i].db.capacity == map["e" := 1]
    ensures var second := Commit(1, Some(Insert(Confirmed)), "b", 1, false);
            && CommitEffect(t[|t| - 1], second, skewed)
            && !CommitStep(t[|t| - 1], second, skewed)
            && Seats(skewed.db.rows, "e") == 2
  {
    t, acts := OneCommitIsReached();
    var m := AfterOneCommit(0, 1);
    NoRowsNoSeats("e");
    InsertCounts(map[], "a", Booking("u", "e", Confirmed, 0), "e");
    InsertCounts(m.db.rows, "b", Booking("w", "e", Confirmed, 1), "e");
    assert m.log[0].confirms;
    skewed := WithoutCall(m, 1).(db := m.db.(rows := m.db.rows["b" := Booking("w", "e", Confirmed, 1)]),
                                 log := m.log + [Entry("e", true)]);
  }

  // The retry loop ---------------------------------------------------------------------------------

  function Begins(acts: seq<Action>, c: CallId): nat {
    if acts == [] then 0
    else Begins(acts[..|acts| - 1], c) + (if acts[|acts| - 1] == Begin(c) then 1 else 0)
  }

  function Commits(acts: seq<Action>, c: CallId): nat {
    if acts == [] then 0
    else Commits(acts[..|acts| - 1], c) + (if acts[|acts| - 1].Commit? && acts[|acts| - 1].c == c then 1 else 0)
  }

  predicate Accounted(m: Machine) {
    && m.calls.Keys + m.cancels.Keys <= m.used
    && forall c :: c in m.calls ==> m.calls[c].attempts <= Limit(m.calls[c].kind)
  }

  lemma CallProgress(m: Machine, a: Action, m': Machine, c: CallId)
    requires Next(m, a, m') && Accounted(m)
    ensures Accounted(m') && m.used <= m'.used
    ensures a == Begin(c) ==> c in m.calls && c in m'.calls && m'.calls[c].attempts == m.calls[c].attempts + 1
    ensures a.Commit? && a.c == c ==> c in m.calls && c !in m'.calls
    ensures a != Begin(c) && c in m'.calls ==>
              m'.calls[c].attempts == if c in m.calls then m.calls[c].attempts else 0
    ensures c in m'.calls && c !in m.calls ==> c !in m.used
  {
  }

  predicate Counted(m: Machine, c: CallId, begins: nat, commits: nat) {
    && (c in m.calls ==> begins == m.calls[c].attempts && commits == 0)
    && (c !in m.used ==> begins == 0 && commits == 0)
    && begins <= MAX_RETRIES && commits <= 1
  }

  lemma {:induction false} AttemptsCounted(t: seq<Machine>, acts: seq<Action>, i: nat, c: CallId)
    requires Execution(t, acts) && i <= |acts|
    ensures Accounted(t[i]) && Counted(t[i], c, Begins(acts[..i], c), Commits(acts[..i], c))
  {
    if i > 0 {
      var m, a, m' := t[i - 1], acts[i - 1], t[i];
      AttemptsCounted(t, acts, i - 1, c);
      CallProgress(m, a, m', c);
      assert acts[..i][..i - 1] == acts[..i - 1];
    }
  }

  /** A call that has failed is over, and had not committed. */
  lemma {:induction false} FailedNeverCommits(t: seq<Machine>, acts: seq<Action>, k: nat, i: nat, c: CallId)
    requires Execution(t, acts) && k < i <= |acts| && acts[k] == Fail(c)
    ensures c !in t[i].calls && c in t[i].used && Commits(acts[..i], c) == 0
    decreases i
  {
    var m, a, m' := t[i - 1], acts[i - 1], t[i];
    assert acts[..i][..i - 1] == acts[..i - 1];
    AttemptsCounted(t, acts, i - 1, c);
    CallProgress(m, a, m', c);
    if k < i - 1 {
      FailedNeverCommits(t, acts, k, i - 1, c);
    }
  }

  predicate Writes(a: Action) {
    (a.Commit? && a.plan.Some?) || a.WriteCancel? || a.WholeCancel?
  }

  /** Each call begins at most eight transactions and commits at most once, and not at all if it fails; a
      step that is neither a commit nor a cancellation leaves every row as it is. */
  lemma BoundedRetries(t: seq<Machine>, acts: seq<Action>, c: CallId)
    requires Execution(t, acts)
    ensures Begins(acts, c) <= 8 && Commits(acts, c) <= 1
    ensures Fail(c) in acts ==> Commits(acts, c) == 0
    ensures forall i {:trigger acts[i]} :: 0 <= i < |acts| && !Writes(acts[i]) ==> t[i + 1].db.rows == t[i].db.rows
  {
    AttemptsCounted(t, acts, |acts|, c);
    assert acts[..|acts|] == acts;
    if Fail(c) in acts {
      var k :| 0 <= k < |acts| && acts[k] == Fail(c);
      FailedNeverCommits(t, acts, k, |acts|, c);
    }
    forall i {:trigger acts[i]} | 0 <= i < |acts| && !Writes(acts[i]) ensures t[i + 1].db.rows == t[i].db.rows {
      var m, a, m' := t[i], acts[i], t[i + 1];
      assert Next(m, a, m');
    }
  }

  lemma KindStays(m: Machine, a: Action, m': Machine, c: CallId)
    requires Next(m, a, m') && Accounted(m) && c in m'.calls
    ensures c in m.calls ==> m'.calls[c].kind == m.calls[c].kind
    ensures c !in m.calls ==> (a.StartBooking? || a.StartPromotion?) && a.c == c
  {
  }

  /** A promotion job begins one transaction and is not retried by the service. */
  lemma {:induction false} PromotionBeginsOnce(t: seq<Machine>, acts: seq<Action>, k: nat, i: nat, c: CallId)
    requires Execution(t, acts) && k < i <= |acts| && acts[k].StartPromotion? && acts[k].c == c
    ensures c in t[i].used && (c in t[i].calls ==> t[i].calls[c].kind.ForQueue?) && Begins(acts[..i], c) <= 1
    decreases i
  {
    var m, a, m' := t[i - 1], acts[i - 1], t[i];
    assert acts[..i][..i - 1] == acts[..i - 1];
    AttemptsCounted(t, acts, i - 1, c);
    AttemptsCounted(t, acts, i, c);
    CallProgress(m, a, m', c);
    if k < i - 1 {
      PromotionBeginsOnce(t, acts, k, i - 1, c);
      if c in m'.calls {
        KindStays(m, a, m', c);
      }
    }
  }

  lemma BeginsAppended(acts: seq<Action>, a: Action, c: CallId)
    ensures Begins(acts + [a], c) == Begins(acts, c) + if a == Begin(c) then 1 else 0
  {
    assert (acts + [a])[..|acts|] == acts;
  }

  /** One booking that has begun, and been aborted, `k` times. */
  function Tried(k: nat): Machine {
    Opening(map[0 := Call(ForUser("u"), "e", 1, k, None)], {0})
  }

  lemma OnceMore(t: seq<Machine>, acts: seq<Action>, k: nat) returns (t': seq<Machine>, acts': seq<Action>)
    requires Execution(t, acts) && t[|t| - 1] == Tried(k) && k < 8
    ensures Execution(t', acts') && t'[|t'| - 1] == Tried(k + 1) && Begins(acts', 0) == Begins(acts, 0) + 1
  {
    var m := Opening(map[0 := Call(ForUser("u"), "e", 1, k + 1, Some(Snapshot(map[], 0)))], {0});
    ExecutionExtends(t, acts, Begin(0), m);
    BeginsAppended(acts, Begin(0), 0);
    t', acts' := t + [m], acts + [Begin(0)];
    ExecutionExtends(t', acts', Abort(0), Tried(k + 1));
    BeginsAppended(acts', Abort(0), 0);
    t', acts' := t' + [Tried(k + 1)], acts' + [Abort(0)];
  }

  lemma {:induction false} Aborted(k: nat) returns (t: seq<Machine>, acts: seq<Action>)
    requires k <= 8
    ensures Execution(t, acts) && Begins(acts, 0) == k && t[|t| - 1] == Tried(k)
  {
    if k == 0 {
      t, acts := [Opening(map[], {})], [];
      ExecutionExtends(t, acts, StartBooking(0, "u", "e"), Tried(0));
      t, acts := t + [Tried(0)], acts + [StartBooking(0, "u", "e")];
      BeginsAppended([], StartBooking(0, "u", "e"), 0);
    } else {
      t, acts := Aborted(k - 1);
      t, acts := OnceMore(t, acts, k - 1);
    }
  }

  /** The bound on attempts is reached: a booking may begin eight times, be aborted every time, and fail. */
  lemma EightAttempts() returns (t: seq<Machine>, acts: seq<Action>)
    ensures Execution(t, acts) && Begins(acts, 0) == 8 && Fail(0) in acts && 0 !in t[|t| - 1].calls
  {
    t, acts := Aborted(8);
    var m := Opening(map[], {0});
    assert t[|t| - 1].calls - {0} == m.calls;
    ExecutionExtends(t, acts, Fail(0), m);
    BeginsAppended(acts, Fail(0), 0);
    t, acts := t + [m], acts + [Fail(0)];
    assert acts[|acts| - 1] == Fail(0);
  }
}
