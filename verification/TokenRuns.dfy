/** Login families over every run of whole auth calls. */
module TokenRuns {
  import opened Wrappers
  import opened TokenTable
  import opened AuthService

  /** The table, and for each row the row of the login it descends from. */
  datatype Ledger = Ledger(rows: Table, family: seq<nat>)

  datatype Op =
    | SignIn(user: Option<string>, hash: string, now: int)
    | Refresh(hash: string, newHash: string, now: int, revoking: bool)

  predicate LogsIn(l: Ledger, op: Op) {
    op.SignIn? && op.user.Some? && FindHash(l.rows, op.hash).None?
  }

  predicate Accepts(l: Ledger, op: Op) {
    op.Refresh? && Honoured(l.rows, op.hash, op.newHash, op.now)
  }

  ghost predicate WellFormed(l: Ledger) {
    && |l.family| == |l.rows|
    && LinksForward(l.rows)
  }

  /** A login opens a family; an accepted refresh adds a row to the family of the presented token. */
  function Exec(l: Ledger, op: Op): Ledger
    requires WellFormed(l)
  {
    match op
    case SignIn(user, hash, now) =>
      Ledger(SignedIn(l.rows, user, hash, now), if LogsIn(l, op) then l.family + [|l.rows|] else l.family)
    case Refresh(hash, newHash, now, revoking) =>
      Ledger(Refreshed(l.rows, hash, newHash, now, revoking),
             if Accepts(l, op) then l.family + [l.family[FindHash(l.rows, hash).value]] else l.family)
  }

  // The chain invariant ----------------------------------------------------------------------------

  /** What even racing calls keep: links lead to later rows of the same family and user, no row is the
      successor of two, a row with a successor is revoked, hashes are unique. */
  ghost predicate Shape(l: Ledger) {
    && WellFormed(l) && FamiliesAgree(l) && LinksAgree(l) && HashesUnique(l.rows)
  }

  ghost predicate FamiliesAgree(l: Ledger)
    requires WellFormed(l)
  {
    && (forall i :: 0 <= i < |l.rows| ==> l.family[i] <= i)
    && (forall i, j :: 0 <= i < j < |l.rows| && l.family[i] == l.family[j] ==> l.rows[i].userId == l.rows[j].userId)
  }

  ghost predicate LinksAgree(l: Ledger)
    requires WellFormed(l)
  {
    && (forall i :: 0 <= i < |l.rows| && l.rows[i].replacedBy.Some? ==> l.rows[i].revokedAt.Some?)
    && (forall i, j :: 0 <= i < j < |l.rows| && l.rows[i].replacedBy == Some(j) ==> l.family[i] == l.family[j])
    && (forall i, j :: 0 <= i < j < |l.rows| && l.rows[i].replacedBy.Some? ==>
          l.rows[i].replacedBy != l.rows[j].replacedBy)
  }

  ghost predicate HashesUnique(rows: Table) {
    forall i, j :: 0 <= i < j < |rows| ==> rows[i].hash != rows[j].hash
  }

  /** Each family is one chain: the successor of a row is the next row of its family, and a row without
      a successor is the last of its family. */
  ghost predicate Chained(l: Ledger)
    requires WellFormed(l)
  {
    forall i, k :: 0 <= i < k < |l.rows| && l.family[k] == l.family[i] ==>
      l.rows[i].replacedBy.Some? && l.rows[i].replacedBy.value <= k
  }

  ghost predicate Good(l: Ledger) {
    Shape(l) && Chained(l)
  }

  lemma {:induction false} LaterMemberIsDescendant(l: Ledger, i: nat, j: nat)
    requires Good(l) && i < |l.rows| && j < |l.rows|
    ensures j in Descendants(l.rows, i) <==> i < j && l.family[j] == l.family[i]
    decreases |l.rows| - i
  {
    if l.rows[i].replacedBy.Some? {
      LaterMemberIsDescendant(l, l.rows[i].replacedBy.value, j);
    }
  }

  /** Only the last row of a family may be live. */
  lemma OneLiveRow(l: Ledger, i: nat, j: nat)
    requires Good(l) && i < |l.rows| && j < |l.rows| && l.family[i] == l.family[j]
    requires l.rows[i].revokedAt.None? && l.rows[j].revokedAt.None?
    ensures i == j
  {
  }

  // Append, exchange, revoke -----------------------------------------------------------------------

  lemma SignInKeepsFamilies(l: Ledger, op: Op)
    requires WellFormed(l) && FamiliesAgree(l) && op.SignIn?
    ensures WellFormed(Exec(l, op)) && FamiliesAgree(Exec(l, op))
  {
  }

  lemma SignInKeepsHashes(rows: Table, user: Option<string>, hash: string, now: int)
    requires HashesUnique(rows)
    ensures HashesUnique(SignedIn(rows, user, hash, now))
  {
  }

  lemma SignInKeepsShape(l: Ledger, op: Op)
    requires Shape(l) && op.SignIn?
    ensures Shape(Exec(l, op))
  {
    SignInKeepsFamilies(l, op);
    SignInKeepsHashes(l.rows, op.user, op.hash, op.now);
  }

  lemma SignInKeepsGood(l: Ledger, op: Op)
    requires Good(l) && op.SignIn?
    ensures Good(Exec(l, op))
  {
    SignInKeepsShape(l, op);
  }

  lemma ExchangeKeepsFamilies(l: Ledger, i: nat, newHash: string, now: int)
    requires WellFormed(l) && FamiliesAgree(l) && i < |l.rows|
    ensures var l' := Ledger(Exchange(l.rows, i, newHash, now), l.family + [l.family[i]]);
            WellFormed(l') && FamiliesAgree(l')
  {
  }

  lemma ExchangeKeepsHashes(rows: Table, i: nat, newHash: string, now: int)
    requires HashesUnique(rows) && i < |rows| && FindHash(rows, newHash).None?
    ensures HashesUnique(Exchange(rows, i, newHash, now))
  {
  }

  lemma ExchangeKeepsShape(l: Ledger, i: nat, newHash: string, now: int)
    requires Shape(l) && i < |l.rows| && FindHash(l.rows, newHash).None?
    ensures Shape(Ledger(Exchange(l.rows, i, newHash, now), l.family + [l.family[i]]))
  {
    ExchangeKeepsFamilies(l, i, newHash, now);
    ExchangeKeepsHashes(l.rows, i, newHash, now);
  }

  lemma ExchangeKeepsGood(l: Ledger, i: nat, newHash: string, now: int)
    requires Good(l) && i < |l.rows| && FindHash(l.rows, newHash).None?
    requires l.rows[i].replacedBy.None?
    ensures Good(Ledger(Exchange(l.rows, i, newHash, now), l.family + [l.family[i]]))
  {
    ExchangeKeepsShape(l, i, newHash, now);
  }

  lemma RevokeKeepsShape(l: Ledger, ids: seq<nat>, now: int)
    requires Shape(l)
    ensures Shape(l.(rows := Revoke(l.rows, ids, now)))
    ensures Chained(l) ==> Chained(l.(rows := Revoke(l.rows, ids, now)))
  {
  }

  lemma StepKeepsGood(l: Ledger, op: Op)
    requires Good(l)
    ensures Good(Exec(l, op))
  {
    if op.SignIn? {
      SignInKeepsGood(l, op);
    } else {
      var o := FindHash(l.rows, op.hash);
      if Accepts(l, op) {
        ExchangeKeepsGood(l, o.value, op.newHash, op.now);
      } else if o.Some? && l.rows[o.value].revokedAt.Some? && op.revoking {
        RevokeKeepsShape(l, Descendants(l.rows, o.value), op.now);
      }
    }
  }

  // Runs -------------------------------------------------------------------------------------------

  const EMPTY: Ledger := Ledger([], [])

  /** The ledger after a run of calls. Every login family is one acyclic chain of one user in it, every
      rotated row is revoked, and only the last row of a family may be live. */
  function Then(l: Ledger, ops: seq<Op>): (l': Ledger)
    requires Good(l)
    ensures Good(l')
    decreases |ops|
  {
    StepKeepsGood(l, if ops == [] then SignIn(None, "", 0) else ops[0]);
    if ops == [] then l else Then(Exec(l, ops[0]), ops[1..])
  }

  /** Rows keep their place, hash, user, expiry and family, and once revoked stay revoked at that time. */
  ghost predicate Extends(l: Ledger, l': Ledger) {
    && |l.rows| == |l.family| && |l'.rows| == |l'.family|
    && |l.rows| <= |l'.rows|
    && forall i :: 0 <= i < |l.rows| ==>
         && l'.rows[i].hash == l.rows[i].hash && l'.rows[i].userId == l.rows[i].userId
         && l'.rows[i].expiresAt == l.rows[i].expiresAt
         && l'.family[i] == l.family[i]
         && (l.rows[i].revokedAt.Some? ==> l'.rows[i].revokedAt == l.rows[i].revokedAt)
  }

  lemma StepExtends(l: Ledger, op: Op)
    requires Good(l)
    ensures Extends(l, Exec(l, op))
  {
  }

  lemma {:induction false} RunExtends(l: Ledger, ops: seq<Op>)
    requires Good(l)
    ensures Extends(l, Then(l, ops))
    decreases |ops|
  {
    if ops != [] {
      StepKeepsGood(l, ops[0]);
      StepExtends(l, ops[0]);
      RunExtends(Exec(l, ops[0]), ops[1..]);
    }
  }

  lemma FindsOnly(l: Ledger, i: nat)
    requires Shape(l) && i < |l.rows|
    ensures FindHash(l.rows, l.rows[i].hash) == Some(i)
  {
  }

  /** No token is exchanged twice: once accepted, it is refused after every continuation of the run. */
  lemma SingleUse(before: seq<Op>, op: Op, between: seq<Op>, again: Op)
    requires Accepts(Then(EMPTY, before), op)
    requires again.Refresh? && again.hash == op.hash
    ensures Good(Exec(Then(EMPTY, before), op))
    ensures !Accepts(Then(Exec(Then(EMPTY, before), op), between), again)
  {
    var l := Then(EMPTY, before);
    StepKeepsGood(l, op);
    var l1 := Exec(l, op);
    var l2 := Then(l1, between);
    var k := FindHash(l.rows, op.hash).value;
    RunExtends(l1, between);
    FindsOnly(l2, k);
  }

  predicate Issues(l: Ledger, op: Op, hash: string) {
    if op.SignIn? then LogsIn(l, op) && op.hash == hash else Accepts(l, op) && op.newHash == hash
  }

  lemma IssuedLast(l: Ledger, op: Op, hash: string)
    requires Good(l) && Issues(l, op, hash)
    ensures var l', n := Exec(l, op), |l.rows|;
            && n < |l'.rows| && l'.rows[n].hash == hash && l'.rows[n].revokedAt.None?
            && l'.rows[n].expiresAt == op.now + REFRESH_TOKEN_TTL_MS
  {
  }

  /** A token is worth nothing seven days after it was issued, rotated or not. */
  lemma LifeIsBounded(before: seq<Op>, op: Op, between: seq<Op>, later: Op)
    requires later.Refresh? && Issues(Then(EMPTY, before), op, later.hash)
    requires later.now > op.now + 7 * 24 * 60 * 60 * 1000
    ensures Good(Exec(Then(EMPTY, before), op))
    ensures !Accepts(Then(Exec(Then(EMPTY, before), op), between), later)
  {
    var l := Then(EMPTY, before);
    StepKeepsGood(l, op);
    IssuedLast(l, op, later.hash);
    var l1 := Exec(l, op);
    RunExtends(l1, between);
    FindsOnly(Then(l1, between), |l.rows|);
  }

  /** And until then it is worth something: as long as its row has not been revoked, a token is accepted up to
      seven days after it was issued, whatever else has happened. */
  lemma UsableForSevenDays(before: seq<Op>, op: Op, between: seq<Op>, later: Op)
    requires later.Refresh? && Issues(Then(EMPTY, before), op, later.hash)
    requires later.now <= op.now + 7 * 24 * 60 * 60 * 1000
    ensures Good(Exec(Then(EMPTY, before), op))
    ensures var l, l' := Then(EMPTY, before), Then(Exec(Then(EMPTY, before), op), between);
            && |l.rows| < |l'.rows|
            && (l'.rows[|l.rows|].revokedAt.None? && FindHash(l'.rows, later.newHash).None? ==> Accepts(l', later))
  {
    var l := Then(EMPTY, before);
    StepKeepsGood(l, op);
    IssuedLast(l, op, later.hash);
    var l1 := Exec(l, op);
    RunExtends(l1, between);
    FindsOnly(Then(l1, between), |l.rows|);
  }

  /** A call that presents no token of a family leaves the rows of the family as they are, and adds none. */
  lemma OthersLeaveFamily(l: Ledger, op: Op, f: nat)
    requires Good(l) && f < |l.rows|
    requires op.Refresh? ==> forall r :: 0 <= r < |l.rows| && l.family[r] == f ==> l.rows[r].hash != op.hash
    ensures Good(Exec(l, op)) && |l.rows| <= |Exec(l, op).rows|
    ensures forall r :: 0 <= r < |Exec(l, op).rows| && Exec(l, op).family[r] == f ==>
              r < |l.rows| && l.family[r] == f && Exec(l, op).rows[r] == l.rows[r]
    ensures forall r :: 0 <= r < |l.rows| && l.family[r] == f ==> Exec(l, op).family[r] == f
  {
    StepKeepsGood(l, op);
    StepExtends(l, op);
    if op.Refresh? && FindHash(l.rows, op.hash).Some? {
      var i := FindHash(l.rows, op.hash).value;
      forall r: nat | r < |l.rows| && l.family[r] == f ensures r != i && r !in Descendants(l.rows, i) {
        LaterMemberIsDescendant(l, i, r);
      }
    }
  }

  /** A live token stays live as long as nobody presents a token of its family, itself included. */
  lemma {:induction false} StaysLive(l: Ledger, ops: seq<Op>, i: nat)
    requires Good(l) && i < |l.rows| && l.rows[i].revokedAt.None?
    requires forall k, r :: 0 <= k < |ops| && ops[k].Refresh? && 0 <= r < |l.rows| && l.family[r] == l.family[i] ==>
               l.rows[r].hash != ops[k].hash
    ensures i < |Then(l, ops).rows| && Then(l, ops).rows[i] == l.rows[i]
    decreases |ops|
  {
    if ops != [] {
      OthersLeaveFamily(l, ops[0], l.family[i]);
      StaysLive(Exec(l, ops[0]), ops[1..], i);
    }
  }

  /** So a token that was issued is honoured for seven days, unless it or another token of its family is
      presented first. */
  lemma HonouredUntilPresented(before: seq<Op>, op: Op, between: seq<Op>, later: Op)
    requires later.Refresh? && Issues(Then(EMPTY, before), op, later.hash)
    requires later.now <= op.now + 7 * 24 * 60 * 60 * 1000
    ensures Good(Exec(Then(EMPTY, before), op)) && |Then(EMPTY, before).rows| < |Exec(Then(EMPTY, before), op).rows|
    ensures var n, l := |Then(EMPTY, before).rows|, Exec(Then(EMPTY, before), op);
            var l' := Then(l, between);
            (forall k, r :: 0 <= k < |between| && between[k].Refresh? && 0 <= r < |l.rows| ==>
               l.family[r] != l.family[n] || l.rows[r].hash != between[k].hash)
            && FindHash(l'.rows, later.newHash).None?
            ==> Accepts(l', later)
  {
    var l, n := Exec(Then(EMPTY, before), op), |Then(EMPTY, before).rows|;
    StepKeepsGood(Then(EMPTY, before), op);
    IssuedLast(Then(EMPTY, before), op, later.hash);
    if forall k, r :: 0 <= k < |between| && between[k].Refresh? && 0 <= r < |l.rows| ==>
         l.family[r] != l.family[n] || l.rows[r].hash != between[k].hash
    {
      StaysLive(l, between, n);
      UsableForSevenDays(before, op, between, later);
    }
  }

  // Replay kills a family --------------------------------------------------------------------------

  predicate Dead(l: Ledger, f: nat) {
    |l.rows| == |l.family| && forall i :: 0 <= i < |l.rows| && l.family[i] == f ==> l.rows[i].revokedAt.Some?
  }

  predicate Replays(l: Ledger, op: Op) {
    op.Refresh? && var o := FindHash(l.rows, op.hash); o.Some? && l.rows[o.value].revokedAt.Some?
  }

  function PresentedFamily(l: Ledger, op: Op): nat
    requires |l.family| == |l.rows| && Replays(l, op)
  {
    l.family[FindHash(l.rows, op.hash).value]
  }

  /** Every row of family `f` is revoked now, and the rows of every other family are as they were. */
  ghost predicate OnlyKilled(l: Ledger, f: nat, l': Ledger) {
    && |l.family| == |l.rows| == |l'.rows| && l'.family == l.family
    && Dead(l', f)
    && forall j :: 0 <= j < |l.rows| && l.family[j] != f ==> l'.rows[j] == l.rows[j]
  }

  lemma EarlierMemberIsRevoked(l: Ledger, j: nat, i: nat)
    requires Good(l) && j < i < |l.rows|
    ensures l.family[j] == l.family[i] ==> l.rows[j].revokedAt.Some?
  {
  }

  lemma RevokingOneRow(rows: Table, i: nat, now: int, j: nat, related: bool)
    requires LinksForward(rows) && i < |rows| && j < |rows| && rows[i].revokedAt.Some?
    requires j in Descendants(rows, i) <==> i < j && related
    requires related && j < i ==> rows[j].revokedAt.Some?
    requires i == j ==> related
    ensures var row := Revoke(rows, Descendants(rows, i), now)[j];
            if related then row.revokedAt.Some? else row == rows[j]
  {
  }

  lemma ReplayKillsRow(l: Ledger, op: Op, j: nat)
    requires Good(l) && Replays(l, op) && op.revoking && j < |l.rows|
    ensures var l' := Exec(l, op);
            && |l'.rows| == |l.rows| && l'.family == l.family
            && if l.family[j] == PresentedFamily(l, op) then l'.rows[j].revokedAt.Some? else l'.rows[j] == l.rows[j]
  {
    var i := FindHash(l.rows, op.hash).value;
    LaterMemberIsDescendant(l, i, j);
    if j < i {
      EarlierMemberIsRevoked(l, j, i);
    }
    RevokingOneRow(l.rows, i, op.now, j, l.family[j] == l.family[i]);
  }

  lemma ReplayKills(l: Ledger, op: Op)
    requires Good(l) && Replays(l, op) && op.revoking
    ensures OnlyKilled(l, PresentedFamily(l, op), Exec(l, op))
  {
    var l', f := Exec(l, op), PresentedFamily(l, op);
    forall j: nat | j < |l.rows|
      ensures |l'.rows| == |l.rows| && l'.family == l.family
      ensures if l.family[j] == f then l'.rows[j].revokedAt.Some? else l'.rows[j] == l.rows[j]
    {
      ReplayKillsRow(l, op, j);
    }
    ReplayKillsRow(l, op, FindHash(l.rows, op.hash).value);
  }

  lemma DeadStaysDead(l: Ledger, op: Op, f: nat)
    requires Good(l) && Dead(l, f) && f < |l.rows|
    ensures Dead(Exec(l, op), f)
  {
  }

  lemma {:induction false} DeadForever(l: Ledger, ops: seq<Op>, f: nat)
    requires Good(l) && Dead(l, f) && f < |l.rows|
    ensures Dead(Then(l, ops), f)
    decreases |ops|
  {
    if ops != [] {
      StepKeepsGood(l, ops[0]);
      StepExtends(l, ops[0]);
      DeadStaysDead(l, ops[0], f);
      DeadForever(Exec(l, ops[0]), ops[1..], f);
    }
  }

  predicate Presents(l: Ledger, op: Op, f: nat) {
    && |l.family| == |l.rows| && op.Refresh?
    && var o := FindHash(l.rows, op.hash); o.Some? && l.family[o.value] == f
  }

  /** Once a revoked token of a family has been replayed, that family has no live token after any
      continuation of the run, none of its tokens is accepted again, and no other family was touched. */
  lemma ReplayKillsForever(before: seq<Op>, op: Op, after: seq<Op>, again: Op)
    requires Replays(Then(EMPTY, before), op) && op.revoking
    ensures var l := Then(EMPTY, before);
            var f := PresentedFamily(l, op);
            && Good(Exec(l, op))
            && OnlyKilled(l, f, Exec(l, op))
            && var l' := Then(Exec(l, op), after);
            && Dead(l', f)
            && (Presents(l', again, f) ==> !Accepts(l', again))
  {
    var l := Then(EMPTY, before);
    StepKeepsGood(l, op);
    ReplayKills(l, op);
    DeadForever(Exec(l, op), after, PresentedFamily(l, op));
  }

  // Conservation -----------------------------------------------------------------------------------

  function Live(rows: Table): set<nat> {
    set i: nat | i < |rows| && rows[i].revokedAt.None?
  }

  /** The operation is a replay that finds a live token in the family. */
  predicate Kills(l: Ledger, op: Op) {
    |l.family| == |l.rows| && Replays(l, op) && op.revoking && !Dead(l, PresentedFamily(l, op))
  }

  function Logins(l: Ledger, ops: seq<Op>): nat
    requires Good(l)
    decreases |ops|
  {
    if ops == [] then 0
    else
      StepKeepsGood(l, ops[0]);
      (if LogsIn(l, ops[0]) then 1 else 0) + Logins(Exec(l, ops[0]), ops[1..])
  }

  /** The families that some replay of the run kills. */
  function FamiliesKilled(l: Ledger, ops: seq<Op>): set<nat>
    requires Good(l)
    decreases |ops|
  {
    if ops == [] then {}
    else
      StepKeepsGood(l, ops[0]);
      (if Kills(l, ops[0]) then {PresentedFamily(l, ops[0])} else {}) + FamiliesKilled(Exec(l, ops[0]), ops[1..])
  }

  /** A family is killed only once. */
  lemma {:induction false} DeadIsNotKilled(l: Ledger, ops: seq<Op>, f: nat)
    requires Good(l) && Dead(l, f) && f < |l.rows|
    ensures f !in FamiliesKilled(l, ops)
    decreases |ops|
  {
    if ops != [] {
      StepKeepsGood(l, ops[0]);
      StepExtends(l, ops[0]);
      DeadStaysDead(l, ops[0], f);
      DeadIsNotKilled(Exec(l, ops[0]), ops[1..], f);
    }
  }

  lemma KillingTheDead(l: Ledger, f: nat, l': Ledger)
    requires OnlyKilled(l, f, l') && Dead(l, f)
    ensures Live(l'.rows) == Live(l.rows)
  {
    forall j: nat | j < |l.rows| ensures l'.rows[j].revokedAt.None? == l.rows[j].revokedAt.None? {
    }
  }

  lemma KillingTheLive(l: Ledger, f: nat, l': Ledger, j: nat)
    requires Good(l) && OnlyKilled(l, f, l') && j < |l.rows| && l.family[j] == f && l.rows[j].revokedAt.None?
    ensures Live(l'.rows) == Live(l.rows) - {j}
  {
    forall k: nat | k < |l.rows| && k != j ensures l'.rows[k].revokedAt.None? == l.rows[k].revokedAt.None? {
      if l.family[k] == f && l.rows[k].revokedAt.None? { OneLiveRow(l, j, k); }
    }
  }

  lemma KillingRemovesOne(l: Ledger, f: nat, l': Ledger)
    requires Good(l) && OnlyKilled(l, f, l')
    ensures |Live(l'.rows)| == |Live(l.rows)| - (if Dead(l, f) then 0 else 1)
  {
    if Dead(l, f) {
      KillingTheDead(l, f, l');
    } else {
      var j: nat :| j < |l.rows| && l.family[j] == f && l.rows[j].revokedAt.None?;
      KillingTheLive(l, f, l', j);
    }
  }

  lemma ExchangeMovesLife(rows: Table, i: nat, newHash: string, now: int)
    requires i < |rows|
    ensures Live(Exchange(rows, i, newHash, now)) == Live(rows) - {i} + {|rows|}
  {
    var rows' := Exchange(rows, i, newHash, now);
    forall k: nat | k < |rows| ensures rows'[k].revokedAt.None? <==> k != i && rows[k].revokedAt.None? {
    }
  }

  lemma ExchangeKeepsLiveCount(rows: Table, i: nat, newHash: string, now: int)
    requires i < |rows| && rows[i].revokedAt.None?
    ensures |Live(Exchange(rows, i, newHash, now))| == |Live(rows)|
  {
    ExchangeMovesLife(rows, i, newHash, now);
    assert i in Live(rows) && |rows| !in Live(rows);
  }

  lemma SignInAddsLife(l: Ledger, op: Op)
    requires WellFormed(l) && LogsIn(l, op)
    ensures Live(Exec(l, op).rows) == Live(l.rows) + {|l.rows|}
  {
  }

  lemma StepChangesLive(l: Ledger, op: Op)
    requires Good(l)
    ensures |Live(Exec(l, op).rows)| ==
              |Live(l.rows)| + (if LogsIn(l, op) then 1 else 0) - (if Kills(l, op) then 1 else 0)
  {
    var rows' := Exec(l, op).rows;
    if LogsIn(l, op) {
      SignInAddsLife(l, op);
    } else if Accepts(l, op) {
      ExchangeKeepsLiveCount(l.rows, FindHash(l.rows, op.hash).value, op.newHash, op.now);
    } else if Replays(l, op) && op.revoking {
      ReplayKills(l, op);
      KillingRemovesOne(l, PresentedFamily(l, op), Exec(l, op));
    } else {
      assert rows' == l.rows;
    }
  }

  lemma {:induction false} LiveChanges(l: Ledger, ops: seq<Op>)
    requires Good(l)
    ensures |Live(Then(l, ops).rows)| == |Live(l.rows)| + Logins(l, ops) - |FamiliesKilled(l, ops)|
    decreases |ops|
  {
    if ops != [] {
      var l' := Exec(l, ops[0]);
      StepKeepsGood(l, ops[0]);
      StepChangesLive(l, ops[0]);
      LiveChanges(l', ops[1..]);
      if Kills(l, ops[0]) {
        ReplayKills(l, ops[0]);
        DeadIsNotKilled(l', ops[1..], PresentedFamily(l, ops[0]));
      }
    }
  }

  /** Live tokens are conserved: one for each login, less one for each family a replay has killed. */
  lemma LiveTokensConserved(ops: seq<Op>)
    ensures |Live(Then(EMPTY, ops).rows)| == Logins(EMPTY, ops) - |FamiliesKilled(EMPTY, ops)|
  {
    assert Live(EMPTY.rows) == {};
    LiveChanges(EMPTY, ops);
  }
}
