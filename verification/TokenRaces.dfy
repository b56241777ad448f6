/** Rotation cut into its lookup and its commit, with anything between them. */
module TokenRaces {
  import opened Wrappers
  import opened TokenTable
  import opened TokenRuns

  type CallId = nat

  /** What a call holds between its steps: the row it looked up, or the rows its walk has collected. */
  datatype Pending = Exchanging(i: nat) | Revoking(ids: seq<nat>)

  datatype Machine = Machine(ledger: Ledger, pending: map<CallId, Pending>)

  datatype Action =
    | Open(op: Op)
    | Lookup(c: CallId, hash: string, now: int)
    | Commit(c: CallId, newHash: string, now: int)
    | Collect(c: CallId, ids: seq<nat>)
    | BulkRevoke(c: CallId, now: int)

  function Committed(l: Ledger, i: nat, newHash: string, now: int): Ledger
    requires i < |l.rows| == |l.family|
  {
    Ledger(Exchange(l.rows, i, newHash, now), l.family + [l.family[i]])
  }

  /** The commit looks at nothing but the new hash; the walk, over several reads, may collect any rows. */
  ghost predicate Next(m: Machine, a: Action, m': Machine)
    requires Shape(m.ledger)
  {
    match a
    case Open(op) =>
      op.SignIn? && m' == m.(ledger := Exec(m.ledger, op))
    case Lookup(c, hash, now) =>
      && c !in m.pending
      && var o := FindHash(m.ledger.rows, hash);
      && o.Some? && m.ledger.rows[o.value].revokedAt.None? && now <= m.ledger.rows[o.value].expiresAt
      && m' == m.(pending := m.pending[c := Exchanging(o.value)])
    case Commit(c, newHash, now) =>
      && c in m.pending && m.pending[c].Exchanging? && m.pending[c].i < |m.ledger.rows|
      && FindHash(m.ledger.rows, newHash).None?
      && m' == Machine(Committed(m.ledger, m.pending[c].i, newHash, now), m.pending - {c})
    case Collect(c, ids) =>
      c !in m.pending && m' == m.(pending := m.pending[c := Revoking(ids)])
    case BulkRevoke(c, now) =>
      && c in m.pending && m.pending[c].Revoking?
      && m' == Machine(m.ledger.(rows := Revoke(m.ledger.rows, m.pending[c].ids, now)), m.pending - {c})
  }

  ghost predicate Execution(t: seq<Machine>, acts: seq<Action>) {
    && |t| == |acts| + 1
    && t[0] == Machine(Ledger([], []), map[])
    && forall i {:trigger acts[i]} :: 0 <= i < |acts| ==> Shape(t[i].ledger) ==> Next(t[i], acts[i], t[i + 1])
  }

  /** Links stay acyclic, injective and within one user, and a row with a successor stays revoked, in
      every interleaving. */
  lemma {:induction false} ShapeSurvivesRaces(t: seq<Machine>, acts: seq<Action>, i: nat)
    requires Execution(t, acts) && i < |t|
    ensures Shape(t[i].ledger)
  {
    if i > 0 {
      ShapeSurvivesRaces(t, acts, i - 1);
      var m, a := t[i - 1], acts[i - 1];
      match a {
        case Open(op) => SignInKeepsShape(m.ledger, op);
        case Lookup(_, _, _) =>
        case Commit(c, newHash, now) => ExchangeKeepsShape(m.ledger, m.pending[c].i, newHash, now);
        case Collect(_, _) =>
        case BulkRevoke(c, now) => RevokeKeepsShape(m.ledger, m.pending[c].ids, now);
      }
    }
  }

  /** A commit is as good as a whole call: families stay chains, and dead families stay dead. */
  ghost predicate CommitIsSafe(l: Ledger, i: nat, newHash: string, now: int)
    requires i < |l.rows| == |l.family|
  {
    var l' := Committed(l, i, newHash, now);
    Good(l') && forall f :: 0 <= f < |l.rows| && Dead(l, f) ==> Dead(l', f)
  }

  lemma LiveCommitIsSafe(l: Ledger, i: nat, newHash: string, now: int)
    requires Good(l) && i < |l.rows| && FindHash(l.rows, newHash).None? && l.rows[i].revokedAt.None?
    ensures CommitIsSafe(l, i, newHash, now)
  {
    ExchangeKeepsGood(l, i, newHash, now);
    var l' := Committed(l, i, newHash, now);
    forall f | 0 <= f < |l.rows| && Dead(l, f) ensures Dead(l', f) {
      assert f != l.family[i];
    }
  }

  lemma KilledTailMeansDead(l: Ledger, i: nat)
    requires Good(l) && i < |l.rows| && l.rows[i].revokedAt.Some? && l.rows[i].replacedBy.None?
    ensures Dead(l, l.family[i])
  {
    forall k | 0 <= k < |l.rows| && l.family[k] == l.family[i] ensures l.rows[k].revokedAt.Some? {
      if k < i { assert l.rows[k].replacedBy.Some?; }
    }
  }

  /** Exchanged already, the row would leave its first successor outside the chain; killed, its dead
      family would have a live token again. */
  lemma LateCommitIsUnsafe(l: Ledger, i: nat, newHash: string, now: int)
    requires Good(l) && i < |l.rows| && l.rows[i].revokedAt.Some?
    ensures !CommitIsSafe(l, i, newHash, now)
  {
    var l', n := Committed(l, i, newHash, now), |l.rows|;
    assert l'.family[n] == l.family[i] && l'.rows[n].revokedAt.None?;
    if l.rows[i].replacedBy.Some? {
      var s := l.rows[i].replacedBy.value;
      assert l'.rows[i].replacedBy == Some(n) && l'.family[s] == l'.family[i] && i < s < n;
    } else {
      KilledTailMeansDead(l, i);
      assert !Dead(l', l.family[i]);
    }
  }

  /** A commit that comes after another call's is safe if and only if its row is still live then, which
      is what the update does not ask. */
  lemma CommitSafeIff(l: Ledger, i: nat, newHash: string, now: int)
    requires Good(l) && i < |l.rows| && FindHash(l.rows, newHash).None?
    ensures CommitIsSafe(l, i, newHash, now) <==> l.rows[i].revokedAt.None?
  {
    if l.rows[i].revokedAt.None? {
      LiveCommitIsSafe(l, i, newHash, now);
    } else {
      LateCommitIsUnsafe(l, i, newHash, now);
    }
  }

  ghost predicate OneLiveEach(l: Ledger)
    requires |l.rows| == |l.family|
  {
    forall i, j :: 0 <= i < j < |l.rows| && l.family[i] == l.family[j] ==>
      l.rows[i].revokedAt.Some? || l.rows[j].revokedAt.Some?
  }

  lemma LiveOrDeadKeepsOneLive(l: Ledger, i: nat, newHash: string, now: int, j: nat, k: nat)
    requires Good(l) && i < |l.rows| && j < k <= |l.rows|
    requires l.rows[i].revokedAt.None? || Dead(l, l.family[i])
    ensures var l' := Committed(l, i, newHash, now);
            l'.family[j] == l'.family[k] ==> l'.rows[j].revokedAt.Some? || l'.rows[k].revokedAt.Some?
  {
    if k < |l.rows| {
      EarlierMemberIsRevoked(l, j, k);
    } else if j < i {
      EarlierMemberIsRevoked(l, j, i);
    } else if i < j {
      EarlierMemberIsRevoked(l, i, j);
    }
  }

  /** A commit leaves every family with at most one live token if and only if its row is still live when it
      writes, or its whole family has been revoked. */
  lemma CommitKeepsOneLiveIff(l: Ledger, i: nat, newHash: string, now: int)
    requires Good(l) && i < |l.rows|
    ensures OneLiveEach(Committed(l, i, newHash, now)) <==> l.rows[i].revokedAt.None? || Dead(l, l.family[i])
  {
    var l', n := Committed(l, i, newHash, now), |l.rows|;
    if l.rows[i].revokedAt.None? || Dead(l, l.family[i]) {
      forall j: nat, k: nat | j < k < |l'.rows| && l'.family[j] == l'.family[k]
        ensures l'.rows[j].revokedAt.Some? || l'.rows[k].revokedAt.Some?
      {
        LiveOrDeadKeepsOneLive(l, i, newHash, now, j, k);
      }
    } else {
      var j :| 0 <= j < n && l.family[j] == l.family[i] && l.rows[j].revokedAt.None?;
      assert l'.rows[j].revokedAt.None? && l'.family[j] == l'.family[n] && l'.rows[n].revokedAt.None?;
    }
  }

  // Single use -------------------------------------------------------------------------------------

  /** The step exchanges the token of row `i`. */
  predicate Exchanges(m: Machine, a: Action, i: nat) {
    a.Commit? && a.c in m.pending && m.pending[a.c] == Exchanging(i)
  }

  predicate HasSuccessor(m: Machine, i: nat) {
    i < |m.ledger.rows| && m.ledger.rows[i].replacedBy.Some?
  }

  lemma StepGivesSuccessor(m: Machine, a: Action, m': Machine, i: nat)
    requires Shape(m.ledger) && Next(m, a, m')
    ensures HasSuccessor(m', i) <==> Exchanges(m, a, i) || HasSuccessor(m, i)
  {
  }

  lemma {:induction false} SuccessorWasExchanged(t: seq<Machine>, acts: seq<Action>, k: nat, i: nat) returns (j: nat)
    requires Execution(t, acts) && k < |t| && HasSuccessor(t[k], i)
    ensures j < k && Exchanges(t[j], acts[j], i)
  {
    j := k - 1;
    var m, a, m' := t[j], acts[j], t[k];
    ShapeSurvivesRaces(t, acts, j);
    StepGivesSuccessor(m, a, m', i);
    if !Exchanges(m, a, i) {
      j := SuccessorWasExchanged(t, acts, j, i);
    }
  }

  lemma {:induction false} ExchangedHasSuccessor(t: seq<Machine>, acts: seq<Action>, j: nat, k: nat, i: nat)
    requires Execution(t, acts) && j < k < |t| && Exchanges(t[j], acts[j], i)
    ensures HasSuccessor(t[k], i)
    decreases k
  {
    var m, a, m' := t[k - 1], acts[k - 1], t[k];
    ShapeSurvivesRaces(t, acts, k - 1);
    StepGivesSuccessor(m, a, m', i);
    if j < k - 1 {
      ExchangedHasSuccessor(t, acts, j, k - 1, i);
    }
  }

  /** A commit is a second exchange of its token if and only if its row already has a successor. */
  lemma SecondExchangeIff(t: seq<Machine>, acts: seq<Action>, k: nat, i: nat)
    requires Execution(t, acts) && k < |acts| && Exchanges(t[k], acts[k], i)
    ensures (exists j :: 0 <= j < k && Exchanges(t[j], acts[j], i))
            <==> i < |t[k].ledger.rows| && t[k].ledger.rows[i].replacedBy.Some?
  {
    if HasSuccessor(t[k], i) {
      var j := SuccessorWasExchanged(t, acts, k, i);
    }
    if j :| 0 <= j < k && Exchanges(t[j], acts[j], i) {
      ExchangedHasSuccessor(t, acts, j, k, i);
    }
  }

  // Split revocation -------------------------------------------------------------------------------

  function BulkRevoked(l: Ledger, ids: seq<nat>, now: int): Ledger {
    l.(rows := Revoke(l.rows, ids, now))
  }

  /** The bulk update kills a family if and only if the walk has collected every live row of it. */
  lemma BulkRevokeKillsIff(l: Ledger, ids: seq<nat>, now: int, f: nat)
    requires |l.rows| == |l.family|
    ensures Dead(BulkRevoked(l, ids, now), f) <==>
              forall i :: 0 <= i < |l.rows| && l.family[i] == f && l.rows[i].revokedAt.None? ==> i in ids
  {
  }

  /** Rows keep their family, and once revoked stay revoked. */
  ghost predicate Persists(l: Ledger, l': Ledger) {
    && |l.rows| == |l.family| && |l'.rows| == |l'.family| && |l.rows| <= |l'.rows|
    && forall i :: 0 <= i < |l.rows| ==>
         l'.family[i] == l.family[i] && (l.rows[i].revokedAt.Some? ==> l'.rows[i].revokedAt.Some?)
  }

  lemma StepPersists(m: Machine, a: Action, m': Machine)
    requires Shape(m.ledger) && Next(m, a, m')
    ensures Persists(m.ledger, m'.ledger)
  {
  }

  lemma {:induction false} RacesPersist(t: seq<Machine>, acts: seq<Action>, j: nat, k: nat)
    requires Execution(t, acts) && j <= k < |t|
    ensures Persists(t[j].ledger, t[k].ledger)
  {
    ShapeSurvivesRaces(t, acts, j);
    if j < k {
      RacesPersist(t, acts, j, k - 1);
      ShapeSurvivesRaces(t, acts, k - 1);
      var m, a, m' := t[k - 1], acts[k - 1], t[k];
      StepPersists(m, a, m');
    }
  }

  lemma WalkCoversKnownRow(l: Ledger, i: nat, r: nat)
    requires Good(l) && i < |l.rows| && l.rows[i].revokedAt.Some? && r < |l.rows| && l.family[r] == l.family[i]
    ensures l.rows[r].revokedAt.Some? || r in Descendants(l.rows, i)
  {
    LaterMemberIsDescendant(l, i, r);
    if r < i {
      EarlierMemberIsRevoked(l, r, i);
    }
  }

  /** A walk from a revoked row, made at step `j` and carried out at step `k`, leaves the family without a live
      token if and only if every token issued to the family in between has been revoked by then. */
  lemma OvertakenWalkIff(t: seq<Machine>, acts: seq<Action>, j: nat, k: nat, i: nat, now: int)
    requires Execution(t, acts) && j <= k < |t|
    requires Good(t[j].ledger) && i < |t[j].ledger.rows| && t[j].ledger.rows[i].revokedAt.Some?
    ensures var l, l', f := t[j].ledger, t[k].ledger, t[j].ledger.family[i];
            |l'.rows| == |l'.family| &&
            (Dead(BulkRevoked(l', Descendants(l.rows, i), now), f) <==>
              forall r :: |l.rows| <= r < |l'.rows| && l'.family[r] == f ==> l'.rows[r].revokedAt.Some?)
  {
    RacesPersist(t, acts, j, k);
    var l, l', f := t[j].ledger, t[k].ledger, t[j].ledger.family[i];
    BulkRevokeKillsIff(l', Descendants(l.rows, i), now, f);
    forall r: nat | r < |l.rows| && l.family[r] == f
      ensures l'.rows[r].revokedAt.Some? || r in Descendants(l.rows, i)
    {
      WalkCoversKnownRow(l, i, r);
    }
  }

  // Both happen ------------------------------------------------------------------------------------

  lemma ExecutionExtends(t: seq<Machine>, acts: seq<Action>, a: Action, m: Machine)
    requires Execution(t, acts) && Shape(t[|t| - 1].ledger) && Next(t[|t| - 1], a, m)
    ensures Execution(t + [m], acts + [a])
  {
    var t', acts' := t + [m], acts + [a];
    forall i {:trigger acts'[i]} | 0 <= i < |acts'| && Shape(t'[i].ledger) ensures Next(t'[i], acts'[i], t'[i + 1]) {
      if i < |acts| {
        assert acts'[i] == acts[i];
      }
    }
  }

  function OneLogin(hash: string, user: string): Ledger {
    Ledger([Token(hash, user, REFRESH_TOKEN_TTL_MS, None, None)], [0])
  }

  lemma OneLoginIsGood(hash: string, user: string)
    ensures Good(OneLogin(hash, user)) && Exec(EMPTY, SignIn(Some(user), hash, 0)) == OneLogin(hash, user)
  {
  }

  /** One login, and two calls that have looked its token up. */
  lemma BothLookUp(hash: string, user: string) returns (t: seq<Machine>, acts: seq<Action>)
    ensures Execution(t, acts)
    ensures t[|t| - 1] == Machine(OneLogin(hash, user), map[0 := Exchanging(0), 1 := Exchanging(0)])
  {
    OneLoginIsGood(hash, user);
    var l, signIn := OneLogin(hash, user), Open(SignIn(Some(user), hash, 0));
    var m1, m2 := Machine(l, map[]), Machine(l, map[0 := Exchanging(0)]);
    var m3 := Machine(l, map[0 := Exchanging(0), 1 := Exchanging(0)]);
    t, acts := [Machine(EMPTY, map[])], [];
    ExecutionExtends(t, acts, signIn, m1);
    t, acts := t + [m1], acts + [signIn];
    assert FindHash(l.rows, hash) == Some(0);
    ExecutionExtends(t, acts, Lookup(0, hash, 0), m2);
    t, acts := t + [m2], acts + [Lookup(0, hash, 0)];
    ExecutionExtends(t, acts, Lookup(1, hash, 0), m3);
    t, acts := t + [m3], acts + [Lookup(1, hash, 0)];
  }

  /** The first of the two has committed. */
  lemma OneCommits(hash: string, first: string, user: string) returns (t: seq<Machine>, acts: seq<Action>)
    requires hash != first
    ensures Execution(t, acts) && acts != [] && Exchanges(t[|acts| - 1], acts[|acts| - 1], 0)
    ensures t[|t| - 1] == Machine(Committed(OneLogin(hash, user), 0, first, 1), map[1 := Exchanging(0)])
    ensures Shape(t[|t| - 1].ledger)
  {
    t, acts := BothLookUp(hash, user);
    OneLoginIsGood(hash, user);
    var l := OneLogin(hash, user);
    ExchangeKeepsShape(l, 0, first, 1);
    var m := Machine(Committed(l, 0, first, 1), map[1 := Exchanging(0)]);
    assert t[|t| - 1].pending - {0} == m.pending;
    ExecutionExtends(t, acts, Commit(0, first, 1), m);
    t, acts := t + [m], acts + [Commit(0, first, 1)];
  }

  lemma TwoLive(hash: string, first: string, second: string, user: string)
    ensures var l := Committed(Committed(OneLogin(hash, user), 0, first, 1), 0, second, 2);
            Live(l.rows) == {1, 2} && l.family == [0, 0, 0]
  {
    var l := Committed(Committed(OneLogin(hash, user), 0, first, 1), 0, second, 2);
    assert l.rows[0].revokedAt == Some(2) && l.rows[1].revokedAt.None? && l.rows[2].revokedAt.None?;
  }

  /** An execution in which two calls look one token up before either commits, and both are honoured: one
      login is left with two live tokens. */
  lemma DoubleExchange(hash: string, first: string, second: string, user: string)
    returns (t: seq<Machine>, acts: seq<Action>)
    requires hash != first && hash != second && first != second
    ensures Execution(t, acts) && |acts| >= 2 && Exchanges(t[|acts| - 2], acts[|acts| - 2], 0)
    ensures Exchanges(t[|acts| - 1], acts[|acts| - 1], 0)
    ensures Live(t[|acts|].ledger.rows) == {1, 2} && t[|acts|].ledger.family == [0, 0, 0]
  {
    t, acts := OneCommits(hash, first, user);
    var l := t[|t| - 1].ledger;
    assert l.rows[0].hash == hash && l.rows[1].hash == first;
    var m := Machine(Committed(l, 0, second, 2), map[]);
    assert t[|t| - 1].pending - {1} == m.pending;
    ExecutionExtends(t, acts, Commit(1, second, 2), m);
    t, acts := t + [m], acts + [Commit(1, second, 2)];
    TwoLive(hash, first, second, user);
  }

  // The replay that comes too late -----------------------------------------------------------------

  /** One login, exchanged once. */
  function OnceRotated(hash: string, first: string, user: string): (l: Ledger)
    ensures |l.rows| == |l.family| == 2
  {
    Committed(OneLogin(hash, user), 0, first, 1)
  }

  lemma OnceRotatedIsGood(hash: string, first: string, user: string)
    requires hash != first
    ensures var l := OnceRotated(hash, first, user);
            && Good(l) && Descendants(l.rows, 0) == [1]
            && l.rows[0].revokedAt.Some? && l.rows[1].revokedAt.None? && FindHash(l.rows, first) == Some(1)
  {
    OneLoginIsGood(hash, user);
    ExchangeKeepsGood(OneLogin(hash, user), 0, first, 1);
    FindsOnly(OnceRotated(hash, first, user), 1);
  }

  /** The first token has been exchanged and its successor looked up; then the first is replayed, and the walk
      collects its descendants. */
  lemma WalkBeforeExchange(hash: string, first: string, user: string) returns (t: seq<Machine>, acts: seq<Action>)
    requires hash != first
    ensures Execution(t, acts) && acts != [] && acts[|acts| - 1] == Collect(3, [1])
    ensures t[|acts|] == Machine(OnceRotated(hash, first, user),
                                 map[1 := Exchanging(0), 2 := Exchanging(1), 3 := Revoking([1])])
  {
    t, acts := OneCommits(hash, first, user);
    OnceRotatedIsGood(hash, first, user);
    var m := t[|t| - 1];
    var m1 := m.(pending := map[1 := Exchanging(0), 2 := Exchanging(1)]);
    ExecutionExtends(t, acts, Lookup(2, first, 1), m1);
    t, acts := t + [m1], acts + [Lookup(2, first, 1)];
    var m2 := m.(pending := map[1 := Exchanging(0), 2 := Exchanging(1), 3 := Revoking([1])]);
    ExecutionExtends(t, acts, Collect(3, [1]), m2);
    t, acts := t + [m2], acts + [Collect(3, [1])];
  }

  lemma WalkOvertaken(hash: string, first: string, second: string, user: string)
    returns (t: seq<Machine>, acts: seq<Action>)
    requires hash != first && hash != second && first != second
    ensures Execution(t, acts) && |acts| >= 2
    ensures acts[|acts| - 2] == Collect(3, [1]) && acts[|acts| - 1] == Commit(2, second, 2)
    ensures t[|acts| - 1].ledger == OnceRotated(hash, first, user) && Exchanges(t[|acts| - 1], acts[|acts| - 1], 1)
    ensures t[|acts|] == Machine(Committed(OnceRotated(hash, first, user), 1, second, 2),
                                 map[1 := Exchanging(0), 3 := Revoking([1])])
  {
    t, acts := WalkBeforeExchange(hash, first, user);
    OnceRotatedIsGood(hash, first, user);
    var l := OnceRotated(hash, first, user);
    assert l.rows[0].hash == hash && l.rows[1].hash == first;
    var m := Machine(Committed(l, 1, second, 2), map[1 := Exchanging(0), 3 := Revoking([1])]);
    assert t[|t| - 1].pending - {2} == m.pending;
    ExecutionExtends(t, acts, Commit(2, second, 2), m);
    t, acts := t + [m], acts + [Commit(2, second, 2)];
  }

  /** An execution in which the replay of a revoked token is overtaken by the exchange of its live successor,
      a commit as good as a whole call: the bulk update finds the collected row revoked already, and the
      family keeps a live token. */
  lemma OvertakenReplay(hash: string, first: string, second: string, user: string)
    returns (t: seq<Machine>, acts: seq<Action>)
    requires hash != first && hash != second && first != second
    ensures var n, l := |acts|, OnceRotated(hash, first, user);
            && Execution(t, acts) && n >= 3
            && Good(l) && l.rows[0].revokedAt.Some? && l.rows[1].revokedAt.None?
            && t[n - 2].ledger == l && acts[n - 3] == Collect(3, Descendants(l.rows, 0))
            && Exchanges(t[n - 2], acts[n - 2], 1) && acts[n - 1] == BulkRevoke(3, 3)
            && t[n].ledger.family == [0, 0, 0] && !Dead(t[n].ledger, 0)
  {
    t, acts := WalkOvertaken(hash, first, second, user);
    OnceRotatedIsGood(hash, first, user);
    ExchangeKeepsGood(OnceRotated(hash, first, user), 1, second, 2);
    var m := t[|t| - 1];
    var m' := Machine(BulkRevoked(m.ledger, [1], 3), map[1 := Exchanging(0)]);
    assert m.pending - {3} == m'.pending;
    ExecutionExtends(t, acts, BulkRevoke(3, 3), m');
    t, acts := t + [m'], acts + [BulkRevoke(3, 3)];
    assert m'.ledger.rows[2].revokedAt.None?;
  }
}
