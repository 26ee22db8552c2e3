/**
 The revocation denylist: one expiring entry per revoked token, and one
 expiring minimum issue time per user.
 */
module Sessions {
  import opened Basics
  import opened Redis

  const JTI_PREFIX := "auth:revoked:jti:"
  const USER_PREFIX := "auth:revoked:user:ms:"

  /** A stored string that does or does not parse as a decimal integer. */
  datatype Mark = Number(n: int) | Garbled(raw: string)

  datatype SessionError = EmptyJti | StoreUnreachable | MalformedCutoff

  function JtiKey(jti: string): string {
    JTI_PREFIX + jti
  }

  function UserKey(user: string): string {
    USER_PREFIX + user
  }

  /** The two families of keys never meet, and each is injective in its argument. */
  lemma KeysAreDistinct(jti: string, jti': string, user: string, user': string)
    ensures JtiKey(jti) != UserKey(user)
    ensures JtiKey(jti) == JtiKey(jti') ==> jti == jti'
    ensures UserKey(user) == UserKey(user') ==> user == user'
  {
    assert JtiKey(jti)[13] == 'j' && UserKey(user)[13] == 'u';
    assert JtiKey(jti)[|JTI_PREFIX|..] == jti && JtiKey(jti')[|JTI_PREFIX|..] == jti';
    assert UserKey(user)[|USER_PREFIX|..] == user && UserKey(user')[|USER_PREFIX|..] == user';
  }

  /** How long a denylist entry has to live; `expiresAt` is None for a token without an exp claim. */
  function TimeLeft(expiresAt: Option<int>, maxTokenTTL: int, now: int): int {
    if expiresAt.Some? then expiresAt.value - now else maxTokenTTL
  }

  /** The denylist after RevokeToken: a token already expired needs no entry. */
  function TokenRevoked(db: Db<Mark>, jti: string, expiresAt: Option<int>, maxTokenTTL: int, now: int): Db<Mark> {
    var ttl := TimeLeft(expiresAt, maxTokenTTL, now);
    if ttl <= 0 then db else Stored(db, JtiKey(jti), Number(1), ttl, now)
  }

  /** The denylist after RevokeAllUserSessions. */
  function UserRevoked(db: Db<Mark>, user: string, maxTokenTTL: int, now: int): Db<Mark> {
    Stored(db, UserKey(user), Number(now + 1), maxTokenTTL, now)
  }

  function Verdict(db: Db<Mark>, jti: string, user: string, issuedAt: int, now: int): Result<bool, SessionError> {
    if Live(db, JtiKey(jti), now) then Ok(true)
    else match Lookup<Mark>(db, UserKey(user), now)
      case None => Ok(false)
      case Some(Number(cutoff)) => Ok(issuedAt < cutoff)
      case Some(Garbled(_)) => Err(MalformedCutoff)
  }

  class SessionService {
    const redis: Server<Mark>
    const maxTokenTTL: int

    constructor (redis: Server<Mark>, maxTokenTTL: int)
      ensures this.redis == redis && this.maxTokenTTL == maxTokenTTL
    {
      this.redis, this.maxTokenTTL := redis, maxTokenTTL;
    }

    method RevokeToken(jti: string, expiresAt: Option<int>, now: int) returns (r: Result<(), SessionError>)
      modifies redis`db
      ensures r == if jti == "" then Err(EmptyJti)
                   else if redis.reachable || TimeLeft(expiresAt, maxTokenTTL, now) <= 0 then Ok(())
                   else Err(StoreUnreachable)
      ensures redis.db == if r.Ok? then TokenRevoked(old(redis.db), jti, expiresAt, maxTokenTTL, now) else old(redis.db)
    {
      if jti == "" {
        return Err(EmptyJti);
      }
      var ttl := maxTokenTTL;
      if expiresAt.Some? {
        ttl := expiresAt.value - now;
      }
      if ttl <= 0 {
        return Ok(());
      }
      var ok := redis.Set(JTI_PREFIX + jti, Number(1), ttl, now);
      r := if ok then Ok(()) else Err(StoreUnreachable);
    }

    method RevokeAllUserSessions(user: string, now: int) returns (r: Result<(), SessionError>)
      modifies redis`db
      ensures r == if redis.reachable then Ok(()) else Err(StoreUnreachable)
      ensures redis.db == if r.Ok? then UserRevoked(old(redis.db), user, maxTokenTTL, now) else old(redis.db)
    {
      var ok := redis.Set(USER_PREFIX + user, Number(now + 1), maxTokenTTL, now);
      r := if ok then Ok(()) else Err(StoreUnreachable);
    }

    method IsRevoked(jti: string, user: string, issuedAt: int, now: int) returns (r: Result<bool, SessionError>)
      ensures r == if redis.reachable then Verdict(redis.db, jti, user, issuedAt, now) else Err(StoreUnreachable)
    {
      var denied := redis.Get(JTI_PREFIX + jti, now);
      var minimum := redis.Get(USER_PREFIX + user, now);
      if denied.Err? || minimum.Err? {
        return Err(StoreUnreachable);
      }
      if denied.value.Some? {
        return Ok(true);
      }
      if minimum.value.Some? {
        if minimum.value.value.Garbled? {
          return Err(MalformedCutoff);
        }
        if issuedAt < minimum.value.value.n {
          return Ok(true);
        }
      }
      r := Ok(false);
    }
  }
}
