/**
 * The session store kept in Redis. Two kinds of key are modelled:
 *   session:<id>              a hash holding Uid, Username, CreatedAt, ExpiresAt;
 *   user:<username>:sessions  the set of that user's session ids.
 * Note that the per-user index is keyed by the username, not by the uid.
 * TTL expiry is a key disappearing (ExpireSession, ExpireUserIndex). Each
 * call's Redis round trip either succeeds or reports an error; which one is
 * a parameter of the call, and so is the random session id.
 */
module SessionCache {
  import opened Types

  /** The hash fields stored under session:<id>. */
  datatype SessRecord = SessRecord(uid: nat, username: string, createdAt: nat, expiresAt: nat)

  datatype CacheError =
    | SessionNotFound                         // the "session not found" error
    | NoSessionsFound(username: string)       // the user's index is empty
    | NoActiveSessionsFound(username: string) // every indexed session was stale
    | IdGenerationFailed                      // no random bytes for the id
    | RedisFailure                            // the Redis client reported an error

  /** The context a stored record reads back as. */
  function ContextOf(sessId: SessId, rec: SessRecord): SessCtx
  {
    SessCtx(sessId, rec.uid, rec.username, rec.createdAt, rec.expiresAt)
  }

  class Cache {
    /** The session:<id> keys that exist. */
    var sessions: map<SessId, SessRecord>
    /** The user:<username>:sessions keys that exist; Redis keeps no empty set. */
    var userSessions: map<string, set<SessId>>

    /**
     * No index set is empty, and an id indexed under a username whose
     * record still exists belongs to that username.
     */
    ghost predicate Valid()
      reads this
    {
      && (forall u | u in userSessions :: userSessions[u] != {})
      && (forall u, id | u in userSessions && id in userSessions[u] && id in sessions ::
            sessions[id].username == u)
    }

    /** The members of user:<username>:sessions (an absent key reads as empty). */
    function SessionsOf(username: string): set<SessId>
      reads this
    {
      if username in userSessions then userSessions[username] else {}
    }

    /** An id that names no session record and sits in no index. */
    predicate IsUnusedId(sessId: SessId)
      reads this
    {
      sessId !in sessions && forall u | u in userSessions :: sessId !in userSessions[u]
    }

    constructor ()
      ensures Valid() && sessions == map[] && userSessions == map[]
    {
      sessions := map[];
      userSessions := map[];
    }

    /**
     * Creates a session for username/uid at time now: the record holds
     * CreatedAt = now and ExpiresAt = now + timeoutTsS, the id joins the
     * user's index, and both keys get the same TTL in one transaction.
     * A TTL of 0 makes Redis delete both keys at once. When the id cannot be
     * generated or the transaction fails, nothing changes and no id is
     * returned.
     */
    method CreateSess(username: string, uid: nat, timeoutTsS: nat, now: nat,
                      genOk: bool, newId: SessId, txOk: bool)
      returns (r: Result<SessId, CacheError>)
      requires Valid() && IsUnusedId(newId)
      modifies this
      ensures Valid()
      ensures !genOk ==> r == Err(IdGenerationFailed)
      ensures genOk && !txOk ==> r == Err(RedisFailure)
      ensures r.Err? ==> sessions == old(sessions) && userSessions == old(userSessions)
      ensures genOk && txOk ==> r == Ok(newId)
      ensures r.Ok? && timeoutTsS > 0 ==>
        && sessions == old(sessions)[newId := SessRecord(uid, username, now, now + timeoutTsS)]
        && userSessions == old(userSessions)[username := old(SessionsOf(username)) + {newId}]
      ensures r.Ok? && timeoutTsS == 0 ==>
        sessions == old(sessions) && userSessions == old(userSessions) - {username}
    {
      if !genOk {
        return Err(IdGenerationFailed);
      }
      var rec := SessRecord(uid, username, now, now + timeoutTsS);
      if !txOk {
        return Err(RedisFailure);
      }
      // HSET, SADD, EXPIRE session key, EXPIRE index key, applied together.
      sessions := sessions[newId := rec];
      userSessions := userSessions[username := SessionsOf(username) + {newId}];
      if timeoutTsS == 0 {
        sessions := sessions - {newId};
        userSessions := userSessions - {username};
      }
      r := Ok(newId);
    }

    /**
     * Reads session:<sessId>. A missing (or expired) record is the
     * "session not found" error; a present one reads back with SessId equal
     * to the queried id and the stored fields.
     */
    method GetSessCtx(sessId: SessId, transportOk: bool) returns (r: Result<SessCtx, CacheError>)
      ensures !transportOk ==> r == Err(RedisFailure)
      ensures transportOk && sessId !in sessions ==> r == Err(SessionNotFound)
      ensures transportOk && sessId in sessions ==>
        r.Ok? && r.value.sessId == sessId
        && r.value.uid == sessions[sessId].uid && r.value.username == sessions[sessId].username
        && r.value.createdAt == sessions[sessId].createdAt && r.value.expiresAt == sessions[sessId].expiresAt
    {
      if !transportOk {
        return Err(RedisFailure);
      }
      if sessId !in sessions {
        return Err(SessionNotFound);
      }
      r := Ok(ContextOf(sessId, sessions[sessId]));
    }

    /**
     * Finds a live session of username by walking its index in an arbitrary
     * order. Every id met whose record is gone is sent an SREM whose result
     * is not looked at: sremFails names the ids whose SREM the Redis client
     * fails, and those stay in the index while the walk goes on. The first
     * live record is returned. An empty index is an error, and so is an
     * index that was entirely stale, after which only the ids whose SREM
     * failed remain. A lookup failure other than "session not found" ends
     * the walk at once. lookupFails names the ids whose lookup the Redis
     * client fails.
     */
    method GetSessCtxByUsername(username: string, transportOk: bool, lookupFails: set<SessId>, sremFails: set<SessId>)
      returns (r: Result<SessCtx, CacheError>, ghost pruned: set<SessId>)
      requires Valid()
      modifies this
      ensures Valid()
      ensures sessions == old(sessions)
      ensures pruned <= old(SessionsOf(username))
      ensures forall id | id in pruned :: id !in sessions && id !in lookupFails && id !in sremFails
      ensures SessionsOf(username) == old(SessionsOf(username)) - pruned
      ensures forall u | u != username :: SessionsOf(u) == old(SessionsOf(u))
      ensures !transportOk ==> r == Err(RedisFailure) && pruned == {}
      ensures transportOk && old(SessionsOf(username)) == {} <==> r == Err(NoSessionsFound(username))
      ensures r.Ok? ==>
        && r.value.sessId in old(SessionsOf(username)) - pruned
        && r.value.sessId in sessions && r.value.sessId !in lookupFails
        && r.value == ContextOf(r.value.sessId, sessions[r.value.sessId])
        && r.value.username == username
      ensures r == Err(NoActiveSessionsFound(username)) ==>
        && (forall id | id in old(SessionsOf(username)) :: id !in sessions && id !in lookupFails)
        && pruned == old(SessionsOf(username)) - sremFails
        && SessionsOf(username) == old(SessionsOf(username)) * sremFails
      ensures r == Err(RedisFailure) && transportOk ==>
        exists id :: id in old(SessionsOf(username)) - pruned && id in lookupFails
      ensures r.Err? ==> r.error in {RedisFailure, NoSessionsFound(username), NoActiveSessionsFound(username)}
    {
      pruned := {};
      if !transportOk {
        return Err(RedisFailure), pruned;
      }
      var sessIds := SessionsOf(username);
      if sessIds == {} {
        return Err(NoSessionsFound(username)), pruned;
      }
      var rest := sessIds;
      while rest != {}
        invariant Valid()
        invariant sessions == old(sessions)
        invariant rest <= sessIds && pruned == (sessIds - rest) - sremFails
        invariant forall id | id in sessIds - rest :: id !in sessions && id !in lookupFails
        invariant SessionsOf(username) == sessIds - pruned
        invariant forall u | u != username :: SessionsOf(u) == old(SessionsOf(u))
        decreases rest
      {
        var sessId :| sessId in rest;
        var got := GetSessCtx(sessId, sessId !in lookupFails);
        if got.Ok? {
          return got, pruned;
        }
        if got.error != SessionNotFound {
          return got, pruned;
        }
        if sessId !in sremFails {
          // SREM; Redis drops the key once its set is empty.
          var left := SessionsOf(username) - {sessId};
          userSessions := if left == {} then userSessions - {username} else userSessions[username := left];
          pruned := pruned + {sessId};
        }
        rest := rest - {sessId};
      }
      r := Err(NoActiveSessionsFound(username));
    }

    /**
     * Deletes one session: its record and its id in its owner's index, in
     * one transaction. A missing record is "session not found" and changes
     * nothing; the user's other sessions survive.
     */
    method DeleteSess(sessId: SessId, readOk: bool, txOk: bool) returns (r: Outcome<CacheError>)
      requires Valid()
      modifies this
      ensures Valid()
      ensures !readOk ==> r == Fail(RedisFailure)
      ensures readOk && sessId !in old(sessions) ==> r == Fail(SessionNotFound)
      ensures readOk && sessId in old(sessions) && !txOk ==> r == Fail(RedisFailure)
      ensures readOk && sessId in old(sessions) && txOk ==> r == Pass
      ensures r.Fail? ==> sessions == old(sessions) && userSessions == old(userSessions)
      ensures r.Pass? ==>
        && sessions == old(sessions) - {sessId}
        && var owner := old(sessions)[sessId].username;
           && SessionsOf(owner) == old(SessionsOf(owner)) - {sessId}
           && forall u | u != owner :: SessionsOf(u) == old(SessionsOf(u))
    {
      if !readOk {
        return Fail(RedisFailure);
      }
      if sessId !in sessions {
        return Fail(SessionNotFound);
      }
      var owner := sessions[sessId].username;
      if !txOk {
        return Fail(RedisFailure);
      }
      // DEL session:<id>; SREM user:<owner>:sessions <id>.
      sessions := sessions - {sessId};
      var left := SessionsOf(owner) - {sessId};
      userSessions := if left == {} then userSessions - {owner} else userSessions[owner := left];
      r := Pass;
    }

    /** The TTL of session:<sessId> runs out. */
    method ExpireSession(sessId: SessId)
      requires Valid()
      modifies this
      ensures Valid()
      ensures sessions == old(sessions) - {sessId} && userSessions == old(userSessions)
    {
      sessions := sessions - {sessId};
    }

    /** The TTL of user:<username>:sessions runs out. */
    method ExpireUserIndex(username: string)
      requires Valid()
      modifies this
      ensures Valid()
      ensures sessions == old(sessions) && userSessions == old(userSessions) - {username}
    {
      userSessions := userSessions - {username};
    }
  }

  /**
   * With no deletion or expiry in between, a created session reads back
   * with the queried id and the uid, username and timestamps stored.
   */
  method CreateThenGet(cache: Cache, username: string, uid: nat, timeoutTsS: nat, now: nat, newId: SessId)
    returns (ctx: Result<SessCtx, CacheError>)
    requires cache.Valid() && cache.IsUnusedId(newId) && timeoutTsS > 0
    modifies cache
    ensures cache.Valid()
    ensures ctx == Ok(SessCtx(newId, uid, username, now, now + timeoutTsS))
  {
    var created := cache.CreateSess(username, uid, timeoutTsS, now, true, newId, true);
    ctx := cache.GetSessCtx(created.value, true);
  }

  /**
   * A session whose record has expired is "not found" by id, and a walk of
   * its owner's index afterwards no longer holds it.
   */
  method ExpiredThenLookedUp(cache: Cache, sessId: SessId, username: string)
    returns (byId: Result<SessCtx, CacheError>, byName: Result<SessCtx, CacheError>)
    requires cache.Valid()
    modifies cache
    ensures byId == Err(SessionNotFound)
    ensures sessId !in cache.SessionsOf(username) || byName.Ok?
  {
    cache.ExpireSession(sessId);
    byId := cache.GetSessCtx(sessId, true);
    ghost var pruned;
    byName, pruned := cache.GetSessCtxByUsername(username, true, {}, {});
  }
}
