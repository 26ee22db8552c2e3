/**
 Login, refresh, logout and request authentication. Each operation is given
 first as a function of the whole authentication state, then as a method of the
 service that is proved to compute it.
 */
module AuthService {
  import opened Basics
  import Redis
  import opened Tokens
  import opened Users
  import opened Sessions

  /** `compare` tells whether a password belongs to a stored hash. */
  datatype Config = Config(
    accessTTL: int, refreshTTL: int, maxTokenTTL: int, issuer: string, failOpen: bool, compare: (string, string) -> bool)

  /** What the password of an unknown user is compared with, lest the time taken tell. */
  const DUMMY_HASH := "dummy"

  /** `minted` is the log of every token signed so far; it is what "signature checks out" means. */
  datatype World = World(now: int, redis: Redis.Db<Mark>, reachable: bool, users: Rows, minted: set<Mint>)

  datatype AuthError =
    | InvalidCredentials | UserBanned | InvalidToken | TokenRevoked | UnknownUser
    | Unauthorized | StoreFailure | RevocationUnavailable | BadInput | AlreadyExists

  datatype TokenPair = TokenPair(access: Claims, refresh: Claims)

  datatype Principal = Principal(userId: string, role: string)

  const ROLES := {"guest", "user", "premium", "moderator", "admin"}

  ghost predicate Signed(w: World, c: Claims) {
    exists m :: m in w.minted && m.claims == c
  }

  /** The token a caller presents, if it is one this service signed. */
  ghost function Checked(w: World, presented: Option<Claims>): Option<Claims> {
    if presented.Some? && Signed(w, presented.value) then presented else None
  }

  predicate Validates(cfg: Config, now: int, c: Option<Claims>) {
    c.Some? && TimelyAt(c.value, cfg.issuer, now)
  }

  function DenylistVerdict(w: World, c: Claims): Result<bool, SessionError> {
    if w.reachable then Verdict(w.redis, c.jti, c.userId, IssuedAtTime(c), w.now) else Err(StoreUnreachable)
  }

  function Issued(w: World, c: Claims): World {
    w.(minted := w.minted + {Mint(c, w.now)})
  }

  function AccessToken(cfg: Config, w: World, id: UserId, user: User, jti: string): Claims {
    Sign(id, user.role, Access, cfg.accessTTL, cfg.issuer, jti, w.now)
  }

  function RefreshToken(cfg: Config, w: World, id: UserId, user: User, jti: string): Claims {
    Sign(id, user.role, Refresh, cfg.refreshTTL, cfg.issuer, jti, w.now)
  }

  /** A refresh token first, then an access token beside it. */
  function TokensIssued(cfg: Config, w: World, id: UserId, user: User, refreshJti: string, accessJti: string): (World, TokenPair) {
    var refresh := RefreshToken(cfg, w, id, user, refreshJti);
    var access := AccessToken(cfg, w, id, user, accessJti);
    (Issued(Issued(w, refresh), access), TokenPair(access, refresh))
  }

  /** A row as sign-up makes it: the default role, nothing verified, nothing pending, no ban. */
  function NewUser(username: string, email: string, hash: string): User {
    User(username, email, hash, "user", false, None, None, None, None, false, None, false)
  }

  /** `hash` is None for a password, username or address that is refused; `id` is drawn at random. */
  function Registered(
    cfg: Config, w: World, id: UserId, username: string, email: string, hash: Option<string>, refreshJti: string, accessJti: string)
    : (World, Result<TokenPair, AuthError>)
  {
    if hash.None? then (w, Err(BadInput))
    else
      var row := NewUser(username, email, hash.value);
      if id in w.users || Taken(w.users, row) then (w, Err(AlreadyExists))
      else
        var (w', pair) := TokensIssued(cfg, w.(users := w.users[id := row]), id, row, refreshJti, accessJti);
        (w', Ok(pair))
  }

  /** `recorded` is whether the time of the login could be written; that it could not is no reason to deny access. */
  function LoggedIn(
    cfg: Config, w: World, who: Option<UserId>, password: string, recorded: bool, refreshJti: string, accessJti: string)
    : (World, Result<TokenPair, AuthError>)
  {
    var row := if who.Some? then Find(w.users, who.value) else None;
    if row.None? || !cfg.compare(row.value.passwordHash, password) then (w, Err(InvalidCredentials))
    else if IsCurrentlyBanned(row.value, w.now) then (w, Err(UserBanned))
    else
      var seen := row.value.(lastLogin := Some(w.now));
      var rows := if recorded then Written(w.users, who.value, seen) else w.users;
      var (w', pair) := TokensIssued(cfg, w.(users := rows), who.value, seen, refreshJti, accessJti);
      (w', Ok(pair))
  }

  /** Redeems a refresh token; `token` is None when its signature does not check out. */
  function Refreshed(cfg: Config, w: World, token: Option<Claims>, accessJti: string): (World, Result<TokenPair, AuthError>) {
    if !Validates(cfg, w.now, token) || !HasType(token.value, Refresh) then (w, Err(InvalidToken))
    else
      var c := token.value;
      var verdict := DenylistVerdict(w, c);
      var row := Find(w.users, c.userId);
      if verdict.Err? then (w, Err(StoreFailure))
      else if verdict.value then (w, Err(TokenRevoked))
      else if row.None? then (w, Err(UnknownUser))
      else if IsCurrentlyBanned(row.value, w.now) then (w, Err(UserBanned))
      else
        var access := AccessToken(cfg, w, c.userId, row.value, accessJti);
        (Issued(w, access), Ok(TokenPair(access, c)))
  }

  function Deadline(c: Claims): Option<int> {
    if c.exp.Some? then Some(c.exp.value * 1000) else None
  }

  /** Denylists one token by its jti; a token minted before jti existed cannot be. */
  function Denied(cfg: Config, w: World, c: Claims): (World, Result<(), AuthError>) {
    if c.jti == "" then (w, Ok(()))
    else if w.reachable || TimeLeft(Deadline(c), cfg.maxTokenTTL, w.now) <= 0 then
      (w.(redis := Sessions.TokenRevoked(w.redis, c.jti, Deadline(c), cfg.maxTokenTTL, w.now)), Ok(()))
    else (w, Err(StoreFailure))
  }

  function LoggedOut(cfg: Config, w: World, access: Option<Claims>, refresh: Option<Claims>): (World, Result<(), AuthError>) {
    if !Validates(cfg, w.now, access) then (w, Err(InvalidToken))
    else
      var (w', r) := Denied(cfg, w, access.value);
      if r.Err? || refresh == access || !Validates(cfg, w.now, refresh) then (w', r)
      else Denied(cfg, w', refresh.value)
  }

  function LoggedOutEverywhere(cfg: Config, w: World, user: UserId): (World, Result<(), AuthError>) {
    if w.reachable then (w.(redis := UserRevoked(w.redis, user, cfg.maxTokenTTL, w.now)), Ok(()))
    else (w, Err(StoreFailure))
  }

  /** The decision every authenticated request goes through. */
  function Authenticated(cfg: Config, w: World, token: Option<Claims>): Result<Principal, AuthError> {
    if token.None? then Err(Unauthorized)
    else if !Validates(cfg, w.now, token) || !HasType(token.value, Access) then Err(InvalidToken)
    else
      var c := token.value;
      var verdict := DenylistVerdict(w, c);
      if verdict.Err? && !cfg.failOpen then Err(RevocationUnavailable)
      else if verdict == Ok(true) then Err(TokenRevoked)
      else if c.role !in ROLES then Err(InvalidToken)
      else Ok(Principal(c.userId, c.role))
  }

  class Service {
    const users: UserRepository
    const sessions: SessionService
    const accessTTL: int
    const refreshTTL: int
    const issuer: string
    const failOpen: bool
    const compare: (string, string) -> bool
    ghost var minted: set<Mint>

    constructor (users: UserRepository, sessions: SessionService, accessTTL: int, refreshTTL: int, issuer: string, failOpen: bool,
                 compare: (string, string) -> bool)
      ensures this.users == users && this.sessions == sessions && minted == {}
      ensures Cfg() == Config(accessTTL, refreshTTL, sessions.maxTokenTTL, issuer, failOpen, compare)
    {
      this.users, this.sessions := users, sessions;
      this.accessTTL, this.refreshTTL, this.issuer, this.failOpen := accessTTL, refreshTTL, issuer, failOpen;
      this.compare := compare;
      minted := {};
    }

    ghost function Cfg(): Config {
      Config(accessTTL, refreshTTL, sessions.maxTokenTTL, issuer, failOpen, compare)
    }

    ghost function State(now: int): World
      reads this, users, sessions.redis
    {
      World(now, sessions.redis.db, sessions.redis.reachable, users.rows, minted)
    }

    method Register(id: UserId, username: string, email: string, hash: Option<string>, refreshJti: string, accessJti: string, now: int)
      returns (r: Result<TokenPair, AuthError>)
      modifies this, users
      ensures (State(now), r) == Registered(Cfg(), old(State(now)), id, username, email, hash, refreshJti, accessJti)
    {
      if hash.None? {
        return Err(BadInput);
      }
      var user := NewUser(username, email, hash.value);
      var created := users.Create(id, user);
      if created.Err? {
        return Err(AlreadyExists);
      }
      var refresh := Sign(id, user.role, TokenType.Refresh, refreshTTL, issuer, refreshJti, now);
      var access := Sign(id, user.role, Access, accessTTL, issuer, accessJti, now);
      minted := minted + {Mint(refresh, now)} + {Mint(access, now)};
      r := Ok(TokenPair(access, refresh));
    }

    /** `who` is the row the name or address belongs to, if any. */
    method Login(who: Option<UserId>, password: string, recorded: bool, refreshJti: string, accessJti: string, now: int)
      returns (r: Result<TokenPair, AuthError>)
      modifies this, users
      ensures (State(now), r) == LoggedIn(Cfg(), old(State(now)), who, password, recorded, refreshJti, accessJti)
    {
      var found: Result<User, UserError> := Err(UserNotFound);
      if who.Some? {
        found := users.GetByID(who.value);
      }
      var storedHash := DUMMY_HASH;
      if found.Ok? {
        storedHash := found.value.passwordHash;
      }
      var passwordMatches := compare(storedHash, password);
      if found.Err? || !passwordMatches {
        return Err(InvalidCredentials);
      }
      var user := found.value;
      if IsCurrentlyBanned(user, now) {
        return Err(UserBanned);
      }
      user := user.(lastLogin := Some(now));
      if recorded {
        var _ := users.Update(who.value, user);
      }
      var refresh := Sign(who.value, user.role, TokenType.Refresh, refreshTTL, issuer, refreshJti, now);
      var access := Sign(who.value, user.role, Access, accessTTL, issuer, accessJti, now);
      minted := minted + {Mint(refresh, now)} + {Mint(access, now)};
      r := Ok(TokenPair(access, refresh));
    }

    method Refresh(token: Option<Claims>, accessJti: string, now: int) returns (r: Result<TokenPair, AuthError>)
      modifies this
      ensures (State(now), r) == Refreshed(Cfg(), old(State(now)), token, accessJti)
    {
      if token.None? || !TimelyAt(token.value, issuer, now) || !HasType(token.value, TokenType.Refresh) {
        return Err(InvalidToken);
      }
      var c := token.value;
      var revoked := sessions.IsRevoked(c.jti, c.userId, IssuedAtTime(c), now);
      if revoked.Err? {
        return Err(StoreFailure);
      }
      if revoked.value {
        return Err(TokenRevoked);
      }
      var found := users.GetByID(c.userId);
      if found.Err? {
        return Err(UnknownUser);
      }
      if IsCurrentlyBanned(found.value, now) {
        return Err(UserBanned);
      }
      var access := Sign(c.userId, found.value.role, Access, accessTTL, issuer, accessJti, now);
      minted := minted + {Mint(access, now)};
      r := Ok(TokenPair(access, c));
    }

    method RevokeByClaims(c: Claims, now: int) returns (r: Result<(), AuthError>)
      modifies sessions.redis`db
      ensures (State(now), r) == Denied(Cfg(), old(State(now)), c)
    {
      if c.jti == "" {
        return Ok(());
      }
      var outcome := sessions.RevokeToken(c.jti, if c.exp.Some? then Some(c.exp.value * 1000) else None, now);
      r := if outcome.Ok? then Ok(()) else Err(StoreFailure);
    }

    method Logout(access: Option<Claims>, refresh: Option<Claims>, now: int) returns (r: Result<(), AuthError>)
      modifies sessions.redis`db
      ensures (State(now), r) == LoggedOut(Cfg(), old(State(now)), access, refresh)
    {
      if access.None? || !TimelyAt(access.value, issuer, now) {
        return Err(InvalidToken);
      }
      r := RevokeByClaims(access.value, now);
      if r.Err? {
        return;
      }
      if refresh.Some? && refresh != access && TimelyAt(refresh.value, issuer, now) {
        r := RevokeByClaims(refresh.value, now);
      }
    }

    method RevokeAllSessions(user: UserId, now: int) returns (r: Result<(), AuthError>)
      modifies sessions.redis`db
      ensures (State(now), r) == LoggedOutEverywhere(Cfg(), old(State(now)), user)
    {
      var outcome := sessions.RevokeAllUserSessions(user, now);
      r := if outcome.Ok? then Ok(()) else Err(StoreFailure);
    }

    method PrincipalFromRequest(token: Option<Claims>, now: int) returns (r: Result<Principal, AuthError>)
      ensures r == Authenticated(Cfg(), State(now), token)
    {
      if token.None? {
        return Err(Unauthorized);
      }
      var c := token.value;
      if !TimelyAt(c, issuer, now) || !HasType(c, Access) {
        return Err(InvalidToken);
      }
      var revoked := sessions.IsRevoked(c.jti, c.userId, IssuedAtTime(c), now);
      if revoked.Err? {
        if !failOpen {
          return Err(RevocationUnavailable);
        }
      } else if revoked.value {
        return Err(TokenRevoked);
      }
      if c.role !in ROLES {
        return Err(InvalidToken);
      }
      r := Ok(Principal(c.userId, c.role));
    }
  }
}
