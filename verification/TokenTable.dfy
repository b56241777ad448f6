/** The refresh-token table. Rows are only ever appended, so a row's position stands for its id and
    for its place in the order of creation. Hashes stand for the tokens they are hashes of. */
module TokenTable {
  import opened Wrappers

  datatype Token = Token(hash: string, userId: string, expiresAt: int, revokedAt: Option<int>, replacedBy: Option<nat>)

  type Table = seq<Token>

  const REFRESH_TOKEN_TTL_MS: int := 7 * 24 * 60 * 60 * 1000

  predicate LinksForward(rows: Table) {
    forall i :: 0 <= i < |rows| && rows[i].replacedBy.Some? ==> i < rows[i].replacedBy.value < |rows|
  }

  function FindHash(rows: Table, hash: string): (o: Option<nat>)
    ensures o.Some? ==> o.value < |rows| && rows[o.value].hash == hash
    ensures o.None? ==> forall i :: 0 <= i < |rows| ==> rows[i].hash != hash
  {
    if rows == [] then None
    else if rows[|rows| - 1].hash == hash then Some(|rows| - 1)
    else FindHash(rows[..|rows| - 1], hash)
  }

  /** The rotation chain after row `i`, in order. */
  function Descendants(rows: Table, i: nat): (ids: seq<nat>)
    requires LinksForward(rows)
    ensures forall k :: 0 <= k < |ids| ==> i < ids[k] < |rows|
    decreases |rows| - i
  {
    if i < |rows| && rows[i].replacedBy.Some? then
      [rows[i].replacedBy.value] + Descendants(rows, rows[i].replacedBy.value)
    else []
  }

  /** `p` follows `replacedById` links, at least one. */
  predicate IsPath(rows: Table, p: seq<nat>) {
    && |p| >= 2
    && forall k :: 0 <= k < |p| - 1 ==> p[k] < |rows| && rows[p[k]].replacedBy == Some(p[k + 1])
  }

  ghost predicate Reaches(rows: Table, i: nat, j: nat) {
    exists p :: IsPath(rows, p) && p[0] == i && p[|p| - 1] == j
  }

  lemma {:induction false} DescendantIsReached(rows: Table, i: nat, j: nat) returns (p: seq<nat>)
    requires LinksForward(rows) && j in Descendants(rows, i)
    ensures IsPath(rows, p) && p[0] == i && p[|p| - 1] == j
    decreases |rows| - i
  {
    var next := rows[i].replacedBy.value;
    if j == next {
      p := [i, j];
    } else {
      var rest := DescendantIsReached(rows, next, j);
      p := [i] + rest;
    }
  }

  lemma {:induction false} ReachedIsDescendant(rows: Table, p: seq<nat>)
    requires LinksForward(rows) && IsPath(rows, p)
    ensures p[|p| - 1] in Descendants(rows, p[0])
    decreases |p|
  {
    assert rows[p[0]].replacedBy == Some(p[1]);
    if |p| > 2 {
      forall k | 0 <= k < |p| - 2 ensures p[1..][k] < |rows| && rows[p[1..][k]].replacedBy == Some(p[1..][k + 1]) {
        assert rows[p[k + 1]].replacedBy == Some(p[k + 1 + 1]);
      }
      ReachedIsDescendant(rows, p[1..]);
    }
  }

  /** The walk collects precisely the strict descendants. */
  lemma DescendantsAreReached(rows: Table, i: nat, j: nat)
    requires LinksForward(rows)
    ensures j in Descendants(rows, i) <==> Reaches(rows, i, j)
  {
    if j in Descendants(rows, i) {
      var p := DescendantIsReached(rows, i, j);
    }
    if Reaches(rows, i, j) {
      var p :| IsPath(rows, p) && p[0] == i && p[|p| - 1] == j;
      ReachedIsDescendant(rows, p);
    }
  }

  /** The bulk update: the rows of `ids` that are still live are revoked at `now`. */
  function Revoke(rows: Table, ids: seq<nat>, now: int): (rows': Table)
    ensures |rows'| == |rows|
    ensures forall i :: 0 <= i < |rows| ==>
              rows'[i] == if i in ids && rows[i].revokedAt.None? then rows[i].(revokedAt := Some(now)) else rows[i]
  {
    seq(|rows|, i requires 0 <= i < |rows| =>
      if i in ids && rows[i].revokedAt.None? then rows[i].(revokedAt := Some(now)) else rows[i])
  }

  /** It revokes exactly the live rows that the walk from `i` reaches, and overwrites no time of revocation. */
  lemma RevokingDescendants(rows: Table, i: nat, now: int)
    requires LinksForward(rows)
    ensures var rows' := Revoke(rows, Descendants(rows, i), now);
            && (forall j :: 0 <= j < |rows| && rows[j].revokedAt.None? && Reaches(rows, i, j) ==>
                  rows'[j] == rows[j].(revokedAt := Some(now)))
            && (forall j :: 0 <= j < |rows| && !(rows[j].revokedAt.None? && Reaches(rows, i, j)) ==>
                  rows'[j] == rows[j])
  {
    forall j | 0 <= j < |rows| ensures j in Descendants(rows, i) <==> Reaches(rows, i, j) {
      DescendantsAreReached(rows, i, j);
    }
  }

  /** The rotation transaction: a new row is created, then the old one is revoked and linked to it. */
  function Exchange(rows: Table, i: nat, newHash: string, now: int): (rows': Table)
    requires i < |rows|
    ensures |rows'| == |rows| + 1
    ensures rows'[i] == rows[i].(revokedAt := Some(now), replacedBy := Some(|rows|))
    ensures rows'[|rows|] == Token(newHash, rows[i].userId, now + REFRESH_TOKEN_TTL_MS, None, None)
    ensures forall k :: 0 <= k < |rows| && k != i ==> rows'[k] == rows[k]
  {
    rows[i := rows[i].(revokedAt := Some(now), replacedBy := Some(|rows|))]
      + [Token(newHash, rows[i].userId, now + REFRESH_TOKEN_TTL_MS, None, None)]
  }
}
