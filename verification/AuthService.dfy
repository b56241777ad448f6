/** Login, rotation and family revocation over a token table that is updated in place. */
module AuthService {
  import opened Wrappers
  import opened TokenTable

  datatype Reply = Unauthorized | StoreError | Issued(id: nat)

  /** What one refresh does to the table. `revoking` is whether the store lets the family be revoked;
      a failure there is swallowed. */
  function Refreshed(rows: Table, hash: string, newHash: string, now: int, revoking: bool): Table
    requires LinksForward(rows)
  {
    match FindHash(rows, hash)
    case None => rows
    case Some(i) =>
      if rows[i].revokedAt.Some? then (if revoking then Revoke(rows, Descendants(rows, i), now) else rows)
      else if rows[i].expiresAt < now || FindHash(rows, newHash).Some? then rows
      else Exchange(rows, i, newHash, now)
  }

  /** A token is honoured exactly when its row is live and unexpired (and the new hash is new). */
  predicate Honoured(rows: Table, hash: string, newHash: string, now: int) {
    var o := FindHash(rows, hash);
    o.Some? && rows[o.value].revokedAt.None? && now <= rows[o.value].expiresAt && FindHash(rows, newHash).None?
  }

  /** What a login does to the table: a new row for a known user, if the hash is new. */
  function SignedIn(rows: Table, user: Option<string>, hash: string, now: int): Table {
    if user.Some? && FindHash(rows, hash).None? then
      rows + [Token(hash, user.value, now + REFRESH_TOKEN_TTL_MS, None, None)]
    else rows
  }

  class TokenStore {
    var rows: Table

    constructor ()
      ensures rows == []
    {
      rows := [];
    }

    /** The unique constraint on `tokenHash` refuses a hash that is already there. */
    method Create(hash: string, userId: string, expiresAt: int) returns (id: Option<nat>)
      modifies this
      ensures id.None? <==> FindHash(old(rows), hash).Some?
      ensures id.None? ==> rows == old(rows)
      ensures id.Some? ==> id.value == |old(rows)| && rows == old(rows) + [Token(hash, userId, expiresAt, None, None)]
    {
      if FindHash(rows, hash).Some? {
        return None;
      }
      id := Some(|rows|);
      rows := rows + [Token(hash, userId, expiresAt, None, None)];
    }
  }

  method Login(store: TokenStore, user: Option<string>, hash: string, now: int) returns (reply: Reply)
    modifies store
    ensures store.rows == SignedIn(old(store.rows), user, hash, now)
    ensures user.None? ==> reply == Unauthorized && store.rows == old(store.rows)
    ensures user.Some? && FindHash(old(store.rows), hash).Some? ==> reply == StoreError && store.rows == old(store.rows)
    ensures user.Some? && FindHash(old(store.rows), hash).None? ==>
              && reply == Issued(|old(store.rows)|)
              && store.rows ==
                   old(store.rows) + [Token(hash, user.value, now + 7 * 24 * 60 * 60 * 1000, None, None)]
  {
    if user.None? {
      return Unauthorized;
    }
    var id := store.Create(hash, user.value, now + REFRESH_TOKEN_TTL_MS);
    if id.None? {
      return StoreError;
    }
    return Issued(id.value);
  }

  /** Walks the links from the presented row, then revokes what it found. The walk ends because every link
      leads to a later row, and collects the strict descendants: what revoking them does to each row is
      `RevokingDescendants`. */
  method RevokeFamily(store: TokenStore, presentedId: nat, now: int)
    requires LinksForward(store.rows)
    modifies store
    ensures store.rows == Revoke(old(store.rows), Descendants(old(store.rows), presentedId), now)
  {
    var idsToRevoke: seq<nat> := [];
    var currentId := Some(presentedId);
    ghost var rows := store.rows;
    while currentId.Some?
      invariant store.rows == rows
      invariant idsToRevoke + (if currentId.Some? then Descendants(rows, currentId.value) else [])
                == Descendants(rows, presentedId)
      decreases if currentId.Some? then |rows| - currentId.value else 0
    {
      var id := currentId.value;
      if id >= |store.rows| || store.rows[id].replacedBy.None? {
        break;
      }
      var next := store.rows[id].replacedBy.value;
      assert idsToRevoke + ([next] + Descendants(rows, next)) == (idsToRevoke + [next]) + Descendants(rows, next);
      idsToRevoke := idsToRevoke + [next];
      currentId := Some(next);
    }
    assert idsToRevoke == Descendants(rows, presentedId);
    if |idsToRevoke| == 0 {
      assert Revoke(rows, idsToRevoke, now) == rows;
      return;
    }
    store.rows := Revoke(store.rows, idsToRevoke, now);
  }

  method RotateRefresh(store: TokenStore, hash: string, newHash: string, now: int, revoking: bool)
    returns (reply: Reply)
    requires LinksForward(store.rows)
    modifies store
    ensures store.rows == Refreshed(old(store.rows), hash, newHash, now, revoking)
    ensures reply.Issued? <==> Honoured(old(store.rows), hash, newHash, now)
    ensures reply.Issued? ==>
              var i, rows := FindHash(old(store.rows), hash).value, old(store.rows);
              && reply.id == |rows| && |store.rows| == |rows| + 1
              && store.rows[|rows|] == Token(newHash, rows[i].userId, now + 7 * 24 * 60 * 60 * 1000, None, None)
              && store.rows[i] == rows[i].(revokedAt := Some(now), replacedBy := Some(|rows|))
              && forall k :: 0 <= k < |rows| && k != i ==> store.rows[k] == rows[k]
    ensures !reply.Issued? ==> |store.rows| == |old(store.rows)|
  {
    var stored := FindHash(store.rows, hash);
    if stored.Some? && store.rows[stored.value].revokedAt.Some? {
      if revoking {
        RevokeFamily(store, stored.value, now);
      }
      return Unauthorized;
    }
    if stored.None? || store.rows[stored.value].expiresAt < now {
      return Unauthorized;
    }
    var i := stored.value;
    var created := store.Create(newHash, store.rows[i].userId, now + REFRESH_TOKEN_TTL_MS);
    if created.None? {
      return StoreError;
    }
    store.rows := store.rows[i := store.rows[i].(revokedAt := Some(now), replacedBy := created)];
    return Issued(created.value);
  }
}
