/** When a transaction commits only if nothing it read has changed, the interleaved protocol does what
    the serial one does: each commit is one whole call, and everything else is invisible.

    A serializable database gives serializable transactions some serial order; the rule makes it the order
    of commits. Cancellations run outside any such transaction, so that they too stop a commit is assumed
    here and more than the database enforces; `CoverRuns` does without the rule. */
module BookingRefinement {
  import opened Wrappers
  import opened BookingTable
  import opened BookingProtocol
  import opened SplitBookings
  import opened SerialBookings

  /** The rows read by the call's open transaction: the seats of the event and, for a booking, the
      user's row, for a promotion, the waitlist and the capacity. */
  ghost predicate ReadsUnchanged(m: Machine, call: Call)
    requires call.open.Some?
  {
    var before, after := call.open.value.rows, m.db.rows;
    && WithStatus(before, call.e, Confirmed) == WithStatus(after, call.e, Confirmed)
    && match call.kind
       case ForUser(u) =>
         var row := FindByUserEvent(before, u, call.e);
         && row == FindByUserEvent(after, u, call.e)
         && (row.Some? ==> before[row.value] == after[row.value])
       case ForQueue =>
         && call.e in m.db.capacity && m.db.capacity[call.e] == call.seen
         && WithStatus(before, call.e, Waitlisted) == WithStatus(after, call.e, Waitlisted)
         && forall id :: id in WithStatus(before, call.e, Waitlisted) ==> before[id] == after[id]
  }

  /** A transaction that nothing has disturbed commits under the rule. */
  lemma UndisturbedReads(m: Machine, call: Call)
    requires call.open.Some? && call.open.value.rows == m.db.rows
    requires call.kind.ForQueue? ==> call.e in m.db.capacity && m.db.capacity[call.e] == call.seen
    ensures ReadsUnchanged(m, call)
  {
  }

  /** A booking refused inside its transaction is rolled back, not committed, so no rule stops it. */
  ghost predicate StrictNext(m: Machine, a: Action, m': Machine) {
    if a.Commit? then
      && CommitEffect(m, a, m')
      && (a.plan.Some? || m.calls[a.c].kind.ForQueue? ==> ReadsUnchanged(m, m.calls[a.c]))
      && a.newId !in m.db.rows
    else
      Next(m, a, m') && !a.ReadCancel? && !a.WriteCancel?
  }

  ghost predicate StrictExecution(t: seq<Machine>, acts: seq<Action>) {
    && |t| == |acts| + 1
    && Initial(t[0])
    && forall i {:trigger acts[i]} :: 0 <= i < |acts| ==> StrictNext(t[i], acts[i], t[i + 1])
  }

  /** Call `c` begins its last transaction at step `j` and is refused in it at step `k`. */
  ghost predicate RefusedIn(acts: seq<Action>, c: CallId, j: int, k: int) {
    && 0 <= j < k < |acts|
    && acts[j] == Begin(c)
    && acts[k].Commit? && acts[k].c == c && acts[k].plan.None?
    && forall n :: j < n < k ==> acts[n] != Begin(c)
  }

  /** The whole call that a commit, a cancellation or an edit shows. */
  function Visible(m: Machine, a: Action): seq<Label> {
    match a
    case Commit(c, plan, newId, now, acknowledged) =>
      if c !in m.calls then []
      else
        var call := m.calls[c];
        if call.kind.ForQueue? then
          [Promote(call.e, if plan.None? || plan.value.Insert? then None else Some(plan.value.id), acknowledged)]
        else if plan.Some? then [Book(call.kind.u, call.e, call.seen, newId, now, Go(plan.value))]
        else []
    case WholeCancel(id, actor) => [Cancel(id, actor)]
    case Edit(capacity) => [EditEvents(capacity)]
    case _ => []
  }

  /** The whole call that a step shows, if it shows one. A booking that is refused is shown when its last
      transaction begins, with what is decided there; it draws no id. */
  ghost function Shown(t: seq<Machine>, acts: seq<Action>, j: nat): seq<Label>
    requires j < |acts| < |t|
  {
    var m := t[j];
    match acts[j]
    case Begin(c) =>
      if c in m.calls && m.calls[c].kind.ForUser? && exists k :: RefusedIn(acts, c, j, k) then
        var call := m.calls[c];
        [Book(call.kind.u, call.e, call.seen, "", 0, Decide(m.db.rows, call.seen, call.kind.u, call.e))]
      else []
    case a => Visible(m, a)
  }

  /** What every step shows, and the database around the steps. */
  ghost function Shows(t: seq<Machine>, acts: seq<Action>): (shows: seq<seq<Label>>)
    requires |t| == |acts| + 1
    ensures |shows| == |acts|
  {
    seq(|acts|, j requires 0 <= j < |acts| => Shown(t, acts, j))
  }

  function Databases(t: seq<Machine>): (dbs: seq<State>)
    ensures |dbs| == |t|
  {
    seq(|t|, j requires 0 <= j < |t| => t[j].db)
  }

  /** Nothing is shown and nothing changes, or one whole call is shown and made. */
  ghost predicate ShowsStep(s: State, v: seq<Label>, s': State) {
    |v| <= 1 && if v == [] then s' == s else Step(s, v[0], s')
  }

  lemma PlanDependsOnReads(m: Machine, call: Call, plan: Option<Write>)
    requires call.open.Some? && Plans(call.kind, call.e, call.seen, call.open.value.rows, plan)
    requires ReadsUnchanged(m, call)
    ensures Plans(call.kind, call.e, call.seen, m.db.rows, plan)
  {
    var before, after := call.open.value.rows, m.db.rows;
    assert Seats(before, call.e) == Seats(after, call.e);
    if call.kind.ForUser? {
      assert Decide(before, call.seen, call.kind.u, call.e) == Decide(after, call.seen, call.kind.u, call.e);
    }
  }

  lemma CommitIsWholeCall(m: Machine, a: Action, m': Machine)
    requires a.Commit? && StrictNext(m, a, m')
    ensures ShowsStep(m.db, Visible(m, a), m'.db)
  {
    var call := m.calls[a.c];
    if a.plan.Some? || call.kind.ForQueue? {
      PlanDependsOnReads(m, call, a.plan);
      if call.kind.ForQueue? {
        var who := if a.plan.None? then None else Some(a.plan.value.id);
        assert m'.db.rows == Promoted(m.db.rows, who);
      }
    }
  }

  /** Every step of the interleaved protocol is one step of the serial one, or leaves the database alone. */
  lemma StepSimulated(m: Machine, a: Action, m': Machine)
    requires StrictNext(m, a, m')
    ensures ShowsStep(m.db, Visible(m, a), m'.db)
  {
    if a.Commit? {
      CommitIsWholeCall(m, a, m');
    }
  }

  // Refusals ---------------------------------------------------------------------------------------

  ghost predicate SameRequest(a: Call, b: Call) {
    a.kind == b.kind && a.e == b.e && (a.kind.ForUser? ==> a.seen == b.seen)
  }

  lemma OpenStays(m: Machine, a: Action, m': Machine, c: CallId)
    requires StrictNext(m, a, m') && c in m'.calls && m'.calls[c].open.Some?
    ensures c in m.calls
    ensures if a == Begin(c) then SameRequest(m.calls[c], m'.calls[c]) && m'.calls[c].open.value.rows == m.db.rows
            else m'.calls[c] == m.calls[c]
  {
  }

  /** What an open transaction sees is the table at its call's last begin. */
  lemma {:induction false} LastBegin(t: seq<Machine>, acts: seq<Action>, k: nat, c: CallId) returns (j: nat)
    requires StrictExecution(t, acts) && k < |t| && c in t[k].calls && t[k].calls[c].open.Some?
    ensures j < k && acts[j] == Begin(c) && forall n :: j < n < k ==> acts[n] != Begin(c)
    ensures c in t[j].calls && SameRequest(t[j].calls[c], t[k].calls[c])
    ensures t[k].calls[c].open.value.rows == t[j].db.rows
  {
    j := k - 1;
    var m, a, m' := t[j], acts[j], t[k];
    OpenStays(m, a, m', c);
    if a != Begin(c) {
      j := LastBegin(t, acts, j, c);
    }
  }

  /** A refused booking is shown once its last transaction has begun, while the call is in progress, and the
      refusal is what whole calls decide on the table of that moment. */
  lemma RefusalIsShown(t: seq<Machine>, acts: seq<Action>, k: nat) returns (j: nat)
    requires StrictExecution(t, acts) && k < |acts| && acts[k].Commit? && acts[k].plan.None?
    requires acts[k].c in t[k].calls && t[k].calls[acts[k].c].kind.ForUser?
    ensures RefusedIn(acts, acts[k].c, j, k)
    ensures var call := t[k].calls[acts[k].c];
            var d := Decide(t[j].db.rows, call.seen, call.kind.u, call.e);
            !d.Go? && Shown(t, acts, j) == [Book(call.kind.u, call.e, call.seen, "", 0, d)]
  {
    var a := acts[k];
    assert StrictNext(t[k], a, t[k + 1]);
    j := LastBegin(t, acts, k, a.c);
    assert RefusedIn(acts, a.c, j, k);
  }

  lemma RefusalIsStep(t: seq<Machine>, acts: seq<Action>, j: nat)
    requires StrictExecution(t, acts) && j < |acts| && acts[j].Begin?
    ensures t[j + 1].db == t[j].db && |Shown(t, acts, j)| <= 1
    ensures Shown(t, acts, j) != [] ==> Step(t[j].db, Shown(t, acts, j)[0], t[j + 1].db)
  {
    var m, a, c := t[j], acts[j], acts[j].c;
    assert StrictNext(m, a, t[j + 1]);
    if k :| m.calls[c].kind.ForUser? && RefusedIn(acts, c, j, k) {
      var last := acts[k];
      assert StrictNext(t[k], last, t[k + 1]);
      var origin := LastBegin(t, acts, k, c);
      assert origin == j;
      var shown := RefusalIsShown(t, acts, k);
      assert shown == j;
    }
  }

  lemma ShownIsStep(t: seq<Machine>, acts: seq<Action>, j: nat)
    requires StrictExecution(t, acts) && j < |acts|
    ensures ShowsStep(t[j].db, Shown(t, acts, j), t[j + 1].db)
  {
    var a := acts[j];
    if a.Begin? {
      RefusalIsStep(t, acts, j);
    } else {
      StepSimulated(t[j], a, t[j + 1]);
    }
  }

  // Simulation -------------------------------------------------------------------------------------

  ghost predicate Stutters(dbs: seq<State>, shows: seq<seq<Label>>) {
    && |dbs| == |shows| + 1
    && forall j {:trigger shows[j]} :: 0 <= j < |shows| ==> ShowsStep(dbs[j], shows[j], dbs[j + 1])
  }

  /** The labels shown by the first `i` steps, and the states between them. */
  function Labels(shows: seq<seq<Label>>, i: nat): seq<Label>
    requires i <= |shows|
  {
    if i == 0 then [] else Labels(shows, i - 1) + shows[i - 1]
  }

  function States(dbs: seq<State>, shows: seq<seq<Label>>, i: nat): seq<State>
    requires i <= |shows| < |dbs|
  {
    if i == 0 then [dbs[0]] else States(dbs, shows, i - 1) + if shows[i - 1] == [] then [] else [dbs[i]]
  }

  lemma RunExtends(st: seq<State>, ls: seq<Label>, v: seq<Label>, s: State)
    requires Run(st, ls) && ShowsStep(st[|st| - 1], v, s)
    ensures var st' := st + if v == [] then [] else [s];
            Run(st', ls + v) && st'[|st'| - 1] == s
  {
    if v == [] {
      assert ls + v == ls && st + [] == st;
    }
  }

  lemma {:induction false} StuttersMakeRun(dbs: seq<State>, shows: seq<seq<Label>>, i: nat)
    requires Stutters(dbs, shows) && Start(dbs[0]) && i <= |shows|
    ensures var st := States(dbs, shows, i);
            Run(st, Labels(shows, i)) && st[|st| - 1] == dbs[i]
  {
    if i > 0 {
      StuttersMakeRun(dbs, shows, i - 1);
      RunExtends(States(dbs, shows, i - 1), Labels(shows, i - 1), shows[i - 1], dbs[i]);
    }
  }

  lemma StatesEnd(dbs: seq<State>, shows: seq<seq<Label>>, i: nat)
    requires Stutters(dbs, shows) && Start(dbs[0]) && i <= |shows|
    ensures var st := States(dbs, shows, i);
            st != [] && st[|st| - 1] == dbs[i]
  {
    StuttersMakeRun(dbs, shows, i);
  }

  lemma ExecutionStutters(t: seq<Machine>, acts: seq<Action>)
    requires StrictExecution(t, acts)
    ensures Stutters(Databases(t), Shows(t, acts)) && Start(Databases(t)[0])
  {
    forall j: nat | j < |acts| ensures ShowsStep(t[j].db, Shown(t, acts, j), t[j + 1].db) {
      ShownIsStep(t, acts, j);
    }
  }

  /** Every interleaved run is simulated by the serial run of the calls it shows, in order, with the same
      decisions; aborts, retries and failures are invisible. */
  lemma Simulation(t: seq<Machine>, acts: seq<Action>, i: nat)
    requires StrictExecution(t, acts) && i <= |acts|
    ensures var st := States(Databases(t), Shows(t, acts), i);
            Run(st, Labels(Shows(t, acts), i)) && st[|st| - 1] == t[i].db
  {
    ExecutionStutters(t, acts);
    StuttersMakeRun(Databases(t), Shows(t, acts), i);
  }

  // Seat cover -------------------------------------------------------------------------------------

  ghost predicate BookingUnderWay(m: Machine, e: EventId) {
    exists c :: c in m.calls && m.calls[c].kind.ForUser? && m.calls[c].e == e
  }

  /** An edit raises the capacity of no event that somebody waits for or is booking. */
  ghost predicate EditAddsNoSeat(m: Machine, a: Action) {
    a.Edit? ==>
      forall e :: e in a.capacity && (SomebodyWaits(m.db.rows, e) || BookingUnderWay(m, e)) ==>
        e in m.db.capacity && a.capacity[e] <= m.db.capacity[e]
  }

  /** Every bookings call in progress goes by no less than the capacity its event still has. */
  ghost predicate CapacitiesFresh(m: Machine) {
    forall c :: c in m.calls && m.calls[c].kind.ForUser? && m.calls[c].e in m.db.capacity ==>
      m.calls[c].seen >= m.db.capacity[m.calls[c].e]
  }

  lemma EditStaysFresh(m: Machine, a: Action, m': Machine)
    requires StrictNext(m, a, m') && CapacitiesFresh(m) && a.Edit? && EditAddsNoSeat(m, a)
    ensures CapacitiesFresh(m')
  {
    forall c | c in m.calls && m.calls[c].kind.ForUser? && m.calls[c].e in a.capacity
      ensures m.calls[c].seen >= a.capacity[m.calls[c].e]
    {
      assert BookingUnderWay(m, m.calls[c].e);
    }
  }

  lemma StepStaysFresh(m: Machine, a: Action, m': Machine)
    requires StrictNext(m, a, m') && CapacitiesFresh(m) && EditAddsNoSeat(m, a)
    ensures CapacitiesFresh(m')
  {
    if a.Edit? {
      EditStaysFresh(m, a, m');
    }
  }

  lemma {:induction false} RunStaysFresh(t: seq<Machine>, acts: seq<Action>, i: nat)
    requires StrictExecution(t, acts) && i <= |acts|
    requires forall k {:trigger acts[k]} :: 0 <= k < i ==> EditAddsNoSeat(t[k], acts[k])
    ensures CapacitiesFresh(t[i])
  {
    if i > 0 {
      var m, a, m' := t[i - 1], acts[i - 1], t[i];
      RunStaysFresh(t, acts, i - 1);
      StepStaysFresh(m, a, m');
    }
  }

  lemma ShownAddsNoSeat(t: seq<Machine>, acts: seq<Action>, j: nat)
    requires j < |acts| < |t| && CapacitiesFresh(t[j]) && EditAddsNoSeat(t[j], acts[j]) && Shown(t, acts, j) != []
    ensures AddsNoSeat(t[j].db, Shown(t, acts, j)[0])
  {
  }

  ghost predicate AllAddNoSeat(st: seq<State>, ls: seq<Label>) {
    |st| == |ls| + 1 && forall k {:trigger ls[k]} :: 0 <= k < |ls| ==> AddsNoSeat(st[k], ls[k])
  }

  lemma AllAddNoSeatExtends(st: seq<State>, ls: seq<Label>, v: seq<Label>, s: State)
    requires AllAddNoSeat(st, ls) && |v| <= 1
    requires v != [] ==> AddsNoSeat(st[|st| - 1], v[0])
    ensures AllAddNoSeat(st + (if v == [] then [] else [s]), ls + v)
  {
    if v == [] {
      assert ls + v == ls && st + [] == st;
    }
  }

  lemma {:induction false} StuttersAddNoSeat(dbs: seq<State>, shows: seq<seq<Label>>, i: nat)
    requires Stutters(dbs, shows) && Start(dbs[0]) && i <= |shows|
    requires forall j {:trigger shows[j]} :: 0 <= j < i && shows[j] != [] ==> AddsNoSeat(dbs[j], shows[j][0])
    ensures AllAddNoSeat(States(dbs, shows, i), Labels(shows, i))
  {
    if i > 0 {
      StuttersAddNoSeat(dbs, shows, i - 1);
      StatesEnd(dbs, shows, i - 1);
      var v := shows[i - 1];
      AllAddNoSeatExtends(States(dbs, shows, i - 1), Labels(shows, i - 1), v, dbs[i]);
    }
  }

  lemma RunAddsNoSeat(t: seq<Machine>, acts: seq<Action>, i: nat)
    requires StrictExecution(t, acts) && i <= |acts|
    requires forall k {:trigger acts[k]} :: 0 <= k < i ==> EditAddsNoSeat(t[k], acts[k])
    ensures AllAddNoSeat(States(Databases(t), Shows(t, acts), i), Labels(Shows(t, acts), i))
  {
    ExecutionStutters(t, acts);
    forall j: nat | j < i && Shown(t, acts, j) != [] ensures AddsNoSeat(t[j].db, Shown(t, acts, j)[0]) {
      RunStaysFresh(t, acts, j);
      ShownAddsNoSeat(t, acts, j);
    }
    StuttersAddNoSeat(Databases(t), Shows(t, acts), i);
  }

  /** So what whole calls guarantee, interleaved calls guarantee under the strict commit rule: unless an edit
      adds seats to an event somebody waits for or is booking, a drained queue leaves every event full or
      without a waitlist. */
  lemma InterleavedCallsStrandNoSeat(t: seq<Machine>, acts: seq<Action>, i: nat, e: EventId)
    requires StrictExecution(t, acts) && i <= |acts|
    requires forall k {:trigger acts[k]} :: 0 <= k < i ==> EditAddsNoSeat(t[k], acts[k])
    requires e in t[i].db.capacity
    ensures WithStatus(t[i].db.rows, e, Waitlisted) != {} ==>
              t[i].db.capacity[e] - Seats(t[i].db.rows, e) <= t[i].db.jobs[e]
    ensures e !in t[i].db.jobs ==>
              Seats(t[i].db.rows, e) >= t[i].db.capacity[e] || WithStatus(t[i].db.rows, e, Waitlisted) == {}
  {
    Simulation(t, acts, i);
    RunAddsNoSeat(t, acts, i);
    var st := States(Databases(t), Shows(t, acts), i);
    NoStrandedSeat(st, Labels(Shows(t, acts), i), |st| - 1, e);
  }
}
