/** Email verification, password reset and password change. */
module EmailService {
  import opened Basics
  import opened Users
  import opened MailTokens
  import AuthService
  import Sessions

  const DEFAULT_RESET_TTL := 3600000

  datatype MailError = NoSuchUser | AlreadyVerified | MailNotSent | InvalidToken | InvalidCredentials | WeakPassword

  /** The link stays stored even if the mail could not be handed over. */
  function VerificationSent(rows: Rows, user: UserId, digest: Digest, mailed: bool): (Rows, Result<(), MailError>) {
    var row := Find(rows, user);
    if row.None? then (rows, Err(NoSuchUser))
    else if row.value.emailVerified then (rows, Err(AlreadyVerified))
    else (Written(rows, user, row.value.(verificationToken := Some(digest))), if mailed then Ok(()) else Err(MailNotSent))
  }

  function Verified(rows: Rows, claim: Option<Claim>): (Rows, Result<(), MailError>) {
    var row := if claim.Some? then Find(rows, claim.value.user) else None;
    if row.None? || row.value.verificationToken != Some(claim.value.digest) then (rows, Err(InvalidToken))
    else (Written(rows, claim.value.user, row.value.(emailVerified := true, verificationToken := None)), Ok(()))
  }

  /** Answers the same whether or not the address is registered. */
  function ResetRequested(rows: Rows, user: Option<UserId>, digest: Digest, expiry: int): Rows {
    var row := if user.Some? then Find(rows, user.value) else None;
    if row.None? then rows
    else Written(rows, user.value, row.value.(resetToken := Some(digest), resetExpiry := Some(expiry)))
  }

  predicate ResetTokenValid(row: User, now: int) {
    row.resetToken.Some? && row.resetExpiry.Some? && now < row.resetExpiry.value
  }

  function WithPassword(row: User, hash: string): User {
    row.(passwordHash := hash, resetToken := None, resetExpiry := None)
  }

  /** `newHash` is None for a password the policy refuses; such an attempt leaves the token standing. */
  function PasswordReset(rows: Rows, claim: Option<Claim>, newHash: Option<string>, now: int): (Rows, Result<(), MailError>) {
    var row := if claim.Some? then Find(rows, claim.value.user) else None;
    if row.None? then (rows, Err(InvalidToken))
    else if !ResetTokenValid(row.value, now) || row.value.resetToken != Some(claim.value.digest) then (rows, Err(InvalidToken))
    else if newHash.None? then (rows, Err(WeakPassword))
    else (Written(rows, claim.value.user, WithPassword(row.value, newHash.value)), Ok(()))
  }

  function PasswordChanged(rows: Rows, user: UserId, currentMatches: bool, newHash: Option<string>): (Rows, Result<(), MailError>) {
    var row := Find(rows, user);
    if row.None? then (rows, Err(NoSuchUser))
    else if !currentMatches then (rows, Err(InvalidCredentials))
    else if newHash.None? then (rows, Err(WeakPassword))
    else (Written(rows, user, WithPassword(row.value, newHash.value)), Ok(()))
  }

  /** What a password reset does to the whole authentication state; the revoker has its own view of the same users. */
  function ResetEndingSessions(cfg: AuthService.Config, w: AuthService.World, claim: Option<Claim>, newHash: Option<string>): AuthService.World {
    var (rows, r) := PasswordReset(w.users, claim, newHash, w.now);
    if r.Err? then w else AuthService.LoggedOutEverywhere(cfg, w.(users := rows), claim.value.user).0
  }

  /** And a password change. */
  function ChangeEndingSessions(cfg: AuthService.Config, w: AuthService.World, user: UserId, currentMatches: bool, newHash: Option<string>)
    : AuthService.World
  {
    var (rows, r) := PasswordChanged(w.users, user, currentMatches, newHash);
    if r.Err? then w else AuthService.LoggedOutEverywhere(cfg, w.(users := rows), user).0
  }

  /** Whether every session of the user was cut off at `now`, as far as the store could be reached. */
  twostate predicate SessionsEnded(revoker: AuthService.Service?, user: UserId, now: int)
    reads if revoker == null then {} else {revoker.sessions.redis}
  {
    revoker != null ==>
      && revoker.sessions.redis.reachable == old(revoker.sessions.redis.reachable)
      && revoker.sessions.redis.db ==
           if revoker.sessions.redis.reachable
           then Sessions.UserRevoked(old(revoker.sessions.redis.db), user, revoker.sessions.maxTokenTTL, now)
           else old(revoker.sessions.redis.db)
  }

  class EmailService {
    const users: UserRepository
    const revoker: AuthService.Service?
    const resetTTL: int
    const hash: Hash

    constructor (users: UserRepository, revoker: AuthService.Service?, resetTTL: int, hash: Hash)
      ensures this.users == users && this.revoker == revoker && this.hash == hash
      ensures this.resetTTL == if 0 < resetTTL then resetTTL else 60 * 60 * 1000
    {
      this.users, this.revoker, this.hash := users, revoker, hash;
      this.resetTTL := if resetTTL <= 0 then DEFAULT_RESET_TTL else resetTTL;
    }

    ghost function Store(): set<object> {
      if revoker == null then {} else {revoker.sessions.redis}
    }

    method SendVerificationEmail(id: Id, secret: Secret, mailed: bool) returns (token: string, r: Result<(), MailError>)
      modifies users
      ensures (users.rows, r) == VerificationSent(old(users.rows), Name(id), NewEmailToken(id, secret, hash).1, mailed)
      ensures r.Ok? ==> token == NewEmailToken(id, secret, hash).0
    {
      token := "";
      var found := users.GetByID(Name(id));
      if found.Err? {
        return token, Err(NoSuchUser);
      }
      var user := found.value;
      if user.emailVerified {
        return token, Err(AlreadyVerified);
      }
      var (plaintext, digest) := NewEmailToken(id, secret, hash);
      token := plaintext;
      user := user.(verificationToken := Some(digest));
      var _ := users.Update(Name(id), user);
      r := if mailed then Ok(()) else Err(MailNotSent);
    }

    method LookupByToken(token: string) returns (r: Result<(User, Claim), MailError>)
      ensures var claim := ParseEmailToken(token, hash);
              var row := if claim.Some? then Find(users.rows, claim.value.user) else None;
              r == if row.Some? then Ok((row.value, claim.value)) else Err(InvalidToken)
    {
      var claim := ParseEmailToken(token, hash);
      if claim.None? {
        return Err(InvalidToken);
      }
      var found := users.GetByID(claim.value.user);
      if found.Err? {
        return Err(InvalidToken);
      }
      r := Ok((found.value, claim.value));
    }

    method VerifyEmail(token: string) returns (r: Result<(), MailError>)
      modifies users
      ensures (users.rows, r) == Verified(old(users.rows), ParseEmailToken(token, hash))
    {
      var found := LookupByToken(token);
      if found.Err? {
        return Err(found.error);
      }
      var (user, claim) := found.value;
      if user.verificationToken.None? || user.verificationToken.value != claim.digest {
        return Err(InvalidToken);
      }
      user := user.(emailVerified := true);
      user := user.(verificationToken := None);
      var _ := users.Update(claim.user, user);
      r := Ok(());
    }

    /** `who` is the row the address is registered to, if any; the token is minted either way. */
    method RequestPasswordReset(who: Option<Id>, secret: Secret, now: int) returns (token: Option<string>)
      modifies users
      ensures var user := if who.Some? then Some(Name(who.value)) else None;
              users.rows == ResetRequested(old(users.rows), user, hash(secret), now + resetTTL)
      ensures token == if who.Some? && Find(old(users.rows), Name(who.value)).Some?
                       then Some(NewEmailToken(who.value, secret, hash).0) else None
    {
      var tokenID: Id := seq(ID_BYTES, _ => 0);
      if who.Some? {
        tokenID := who.value;
      }
      var (plaintext, digest) := NewEmailToken(tokenID, secret, hash);
      if who.None? {
        return None;
      }
      var found := users.GetByID(Name(tokenID));
      if found.Err? {
        return None;
      }
      var user := found.value.(resetToken := Some(digest));
      user := user.(resetExpiry := Some(now + resetTTL));
      var _ := users.Update(Name(tokenID), user);
      token := Some(plaintext);
    }

    /** A revocation that fails does not undo the password change. */
    method RevokeSessions(user: UserId, now: int)
      modifies Store()
      ensures SessionsEnded(revoker, user, now)
    {
      if revoker != null {
        var _ := revoker.RevokeAllSessions(user, now);
      }
    }

    method ResetPassword(token: string, newHash: Option<string>, now: int) returns (r: Result<(), MailError>)
      modifies users, Store()
      ensures (users.rows, r) == PasswordReset(old(users.rows), ParseEmailToken(token, hash), newHash, now)
      ensures r.Ok? ==> SessionsEnded(revoker, ParseEmailToken(token, hash).value.user, now)
      ensures r.Err? && revoker != null ==> unchanged(revoker.sessions.redis)
      ensures revoker != null && revoker.users == users ==>
        revoker.State(now) == ResetEndingSessions(revoker.Cfg(), old(revoker.State(now)), ParseEmailToken(token, hash), newHash)
    {
      var found := LookupByToken(token);
      if found.Err? {
        return Err(found.error);
      }
      var (user, claim) := found.value;
      if !ResetTokenValid(user, now) || user.resetToken.value != claim.digest {
        return Err(InvalidToken);
      }
      if newHash.None? {
        return Err(WeakPassword);
      }
      user := user.(passwordHash := newHash.value);
      user := user.(resetToken := None, resetExpiry := None);
      var _ := users.Update(claim.user, user);
      RevokeSessions(claim.user, now);
      r := Ok(());
    }

    method ChangePassword(id: Id, currentMatches: bool, newHash: Option<string>, now: int) returns (r: Result<(), MailError>)
      modifies users, Store()
      ensures (users.rows, r) == PasswordChanged(old(users.rows), Name(id), currentMatches, newHash)
      ensures r.Ok? ==> SessionsEnded(revoker, Name(id), now)
      ensures r.Err? && revoker != null ==> unchanged(revoker.sessions.redis)
      ensures revoker != null && revoker.users == users ==>
        revoker.State(now) == ChangeEndingSessions(revoker.Cfg(), old(revoker.State(now)), Name(id), currentMatches, newHash)
    {
      var found := users.GetByID(Name(id));
      if found.Err? {
        return Err(NoSuchUser);
      }
      if !currentMatches {
        return Err(InvalidCredentials);
      }
      if newHash.None? {
        return Err(WeakPassword);
      }
      var user := found.value.(passwordHash := newHash.value);
      user := user.(resetToken := None, resetExpiry := None);
      var _ := users.Update(Name(id), user);
      RevokeSessions(Name(id), now);
      r := Ok(());
    }
  }
}
