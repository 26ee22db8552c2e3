/**
 Who gets signed in: exactly when a sign-in, a refresh and a request are let
 through, where every token ever minted came from, and which password works.
 */
module SignInRuns {
  import opened Basics
  import Redis
  import opened Tokens
  import opened Users
  import opened Sessions
  import opened AuthService
  import opened AuthRuns
  import EmailService

  predicate InForce(row: User, now: int) {
    row.isBanned && match row.banExpiry case None => true case Some(until) => now < until
  }

  predicate LiveRow(w: World, user: UserId) {
    user in w.users && !w.users[user].deleted
  }

  /** The right password for a live account, by whatever name it was looked up. */
  predicate KnowsPassword(cfg: Config, w: World, who: Option<UserId>, password: string) {
    who.Some? && LiveRow(w, who.value) && cfg.compare(w.users[who.value].passwordHash, password)
  }

  predicate BearerIs(cfg: Config, w: World, c: Claims, user: UserId, typ: TokenType, ttl: int)
    requires user in w.users
  {
    && c.userId == user && c.role == w.users[user].role && c.typ == typ && c.issuer == cfg.issuer
    && c.iatMs == w.now && c.exp == Some((w.now + ttl) / 1000)
  }

  ghost predicate SignedIn(cfg: Config, w: World, w': World, user: UserId, pair: TokenPair, recorded: bool) {
    && user in w.users
    && BearerIs(cfg, w, pair.access, user, Access, cfg.accessTTL)
    && BearerIs(cfg, w, pair.refresh, user, TokenType.Refresh, cfg.refreshTTL)
    && var rows := if recorded then w.users[user := w.users[user].(lastLogin := Some(w.now))] else w.users;
       w' == w.(minted := w.minted + {Mint(pair.access, w.now), Mint(pair.refresh, w.now)}, users := rows)
  }

  predicate FreeToRegister(w: World, id: UserId, username: string, email: string) {
    id !in w.users && forall u :: u in w.users ==> w.users[u].username != username && w.users[u].email != email
  }

  /**
   A sign-up goes through exactly with acceptable input and a username and address nobody has or had. It adds
   one row, in the default role, unverified and under no ban, and signs its user in; any other changes nothing.
   */
  lemma RegistrationSucceedsExactlyWhen(
    cfg: Config, w: World, id: UserId, username: string, email: string, hash: Option<string>, refreshJti: string, accessJti: string)
    ensures var (w', r) := Registered(cfg, w, id, username, email, hash, refreshJti, accessJti);
            && (r.Ok? <==> hash.Some? && FreeToRegister(w, id, username, email))
            && (r == Err(BadInput) <==> hash.None?)
            && (r.Err? ==> w' == w)
    ensures var (w', r) := Registered(cfg, w, id, username, email, hash, refreshJti, accessJti);
            r.Ok? ==>
              && (forall u :: u in w'.users <==> u == id || u in w.users) && (forall u :: u in w.users ==> w'.users[u] == w.users[u])
              && var row := w'.users[id];
                 && row.username == username && row.email == email && row.passwordHash == hash.value && row.role == "user"
                 && !row.emailVerified && !row.isBanned && !row.deleted && row.resetToken == row.verificationToken == None
    ensures var (w', r) := Registered(cfg, w, id, username, email, hash, refreshJti, accessJti);
            r.Ok? ==>
              && w' == w.(users := w'.users, minted := w.minted + {Mint(r.value.access, w.now), Mint(r.value.refresh, w.now)})
              && BearerIs(cfg, w', r.value.access, id, Access, cfg.accessTTL) && r.value.access.jti == accessJti
              && BearerIs(cfg, w', r.value.refresh, id, TokenType.Refresh, cfg.refreshTTL) && r.value.refresh.jti == refreshJti
  {
  }

  /**
   A sign-in succeeds exactly on the right password of a live user under no ban, and a ban shows
   only to those who know the password. A refused one changes nothing. One that succeeds mints an
   access and a refresh token for that user in the stored role, and touches no column but the last login.
   */
  lemma LoginSucceedsExactlyWhen(
    cfg: Config, w: World, who: Option<UserId>, password: string, recorded: bool, refreshJti: string, accessJti: string)
    ensures var (w', r) := LoggedIn(cfg, w, who, password, recorded, refreshJti, accessJti);
            && (r.Ok? <==> KnowsPassword(cfg, w, who, password) && !InForce(w.users[who.value], w.now))
            && (r == Err(UserBanned) <==> KnowsPassword(cfg, w, who, password) && InForce(w.users[who.value], w.now))
            && (r == Err(InvalidCredentials) <==> !KnowsPassword(cfg, w, who, password))
            && (r.Err? ==> w' == w)
            && (r.Ok? ==> SignedIn(cfg, w, w', who.value, r.value, recorded))
    ensures var (w', r) := LoggedIn(cfg, w, who, password, recorded, refreshJti, accessJti);
            r.Ok? ==> r.value.access.jti == accessJti && r.value.refresh.jti == refreshJti
  {
  }

  // ---- The denylist's verdict ----

  predicate Listed(db: Redis.Db<Mark>, c: Claims, now: int) {
    Redis.Live(db, "auth:revoked:jti:" + c.jti, now)
  }

  /** The user's minimum issue time, if one is in force. */
  function Cutoff(db: Redis.Db<Mark>, user: UserId, now: int): Option<Mark> {
    Redis.Lookup(db, "auth:revoked:user:ms:" + user, now)
  }

  /** Denied by name, or stamped before the user's cutoff. */
  predicate Revoked(db: Redis.Db<Mark>, c: Claims, now: int) {
    Listed(db, c, now) || match Cutoff(db, c.userId, now) case Some(Number(n)) => IssuedAtTime(c) < n case _ => false
  }

  /** Neither revoked nor in doubt. */
  predicate Cleared(db: Redis.Db<Mark>, c: Claims, now: int) {
    !Revoked(db, c, now) && match Cutoff(db, c.userId, now) case Some(Garbled(_)) => false case _ => true
  }

  lemma VerdictSays(db: Redis.Db<Mark>, c: Claims, now: int)
    ensures var v := Verdict(db, c.jti, c.userId, IssuedAtTime(c), now);
            && (v == Ok(true) <==> Revoked(db, c, now))
            && (v == Ok(false) <==> Cleared(db, c, now))
  {
  }

  /** The store answers and clears the token. */
  predicate KnownGood(w: World, c: Claims) {
    w.reachable && Cleared(w.redis, c, w.now)
  }

  /** What the store answers, if it does, is that the token is revoked. */
  predicate KnownBad(w: World, c: Claims) {
    w.reachable && Revoked(w.redis, c, w.now)
  }

  /** A presented token with a good signature, of this issuer, not expired and not early. */
  predicate Fresh(cfg: Config, w: World, token: Option<Claims>) {
    && token.Some? && token.value.issuer == cfg.issuer
    && (token.value.exp.Some? ==> w.now < 1000 * token.value.exp.value)
    && (token.value.nbf.Some? ==> 1000 * token.value.nbf.value <= w.now)
  }

  predicate Redeemable(cfg: Config, w: World, token: Option<Claims>) {
    Fresh(cfg, w, token) && token.value.typ == TokenType.Refresh
  }

  /** A live user under no ban. */
  predicate MayHold(w: World, user: UserId) {
    LiveRow(w, user) && !InForce(w.users[user], w.now)
  }

  /**
   A refresh token is redeemed exactly if it is one, is fresh and known to be good, and its
   bearer is a live user under no ban; in doubt it is not, whatever the fail-open switch says.
   It buys one access token in the stored role, and nothing else changes.
   */
  lemma RefreshSucceedsExactlyWhen(cfg: Config, w: World, token: Option<Claims>, jti: string)
    ensures var (w', r) := Refreshed(cfg, w, token, jti);
            && (r.Ok? <==> Redeemable(cfg, w, token) && KnownGood(w, token.value) && MayHold(w, token.value.userId))
            && (r == Err(TokenRevoked) <==> Redeemable(cfg, w, token) && KnownBad(w, token.value))
            && (r.Err? ==> w' == w)
    ensures var (w', r) := Refreshed(cfg, w, token, jti);
            r.Ok? ==>
              var c := r.value.access;
              && r.value.refresh == token.value && w' == w.(minted := w.minted + {Mint(c, w.now)})
              && token.value.userId in w.users && BearerIs(cfg, w, c, token.value.userId, Access, cfg.accessTTL) && c.jti == jti
  {
    if token.Some? {
      VerdictSays(w.redis, token.value, w.now);
    }
  }

  /**
   A request is authenticated exactly with a fresh token that is no refresh token, carries a
   role there is, and is known to be good, or not known to be bad where the switch fails open.
   */
  lemma AuthenticatedExactlyWhen(cfg: Config, w: World, token: Option<Claims>)
    ensures Authenticated(cfg, w, token).Ok? <==>
      && Fresh(cfg, w, token) && token.value.typ != TokenType.Refresh
      && token.value.role in {"guest", "user", "premium", "moderator", "admin"}
      && (KnownGood(w, token.value) || (cfg.failOpen && !KnownBad(w, token.value)))
    ensures Authenticated(cfg, w, token).Ok? ==>
      Authenticated(cfg, w, token).value == Principal(token.value.userId, token.value.role)
    ensures Authenticated(cfg, w, token) == Err(Unauthorized) <==> token.None?
    ensures Authenticated(cfg, w, token) == Err(TokenRevoked) <==>
      Fresh(cfg, w, token) && token.value.typ != TokenType.Refresh && KnownBad(w, token.value)
  {
    if token.Some? {
      VerdictSays(w.redis, token.value, w.now);
    }
  }

  /** A token that can be denied by name for as long as it needs to be. */
  predicate Deniable(cfg: Config, c: Claims) {
    c.jti != "" && (c.exp.Some? || 0 < cfg.maxTokenTTL)
  }

  lemma DenialTakes(cfg: Config, w: World, c: Claims)
    requires Fresh(cfg, w, Some(c))
    ensures var (w', r) := Denied(cfg, w, c);
            && (r.Err? ==> r == Err(StoreFailure) && !w.reachable && w' == w)
            && (r.Ok? && Deniable(cfg, c) ==> w.reachable && Listed(w'.redis, c, w.now))
            && w' == w.(redis := w'.redis)
  {
  }

  lemma DenialKeepsListed(cfg: Config, w: World, c: Claims, other: Claims)
    requires Fresh(cfg, w, Some(c)) && Deniable(cfg, c) && Listed(w.redis, other, w.now)
    ensures Listed(Denied(cfg, w, c).0.redis, other, w.now)
  {
    KeysAreDistinct(c.jti, other.jti, "", "");
  }

  lemma SecondDenialTakes(cfg: Config, w: World, c: Claims, other: Claims)
    requires Fresh(cfg, w, Some(c)) && Listed(w.redis, other, w.now)
    ensures Listed(Denied(cfg, w, c).0.redis, other, w.now)
  {
    KeysAreDistinct(c.jti, other.jti, "", "");
    if Deniable(cfg, c) {
      DenialKeepsListed(cfg, w, c, other);
    }
  }

  /** A logout that answers Ok has denied the access token, and a fresh refresh token beside it, from that moment on. */
  lemma LogoutTellsTheTruth(cfg: Config, w: World, access: Option<Claims>, refresh: Option<Claims>)
    ensures var (w', r) := LoggedOut(cfg, w, access, refresh);
            && (r == Err(InvalidToken) <==> !Fresh(cfg, w, access))
            && (r.Err? && Fresh(cfg, w, access) ==> r == Err(StoreFailure) && !w.reachable)
            && w' == w.(redis := w'.redis)
    ensures var (w', r) := LoggedOut(cfg, w, access, refresh);
            r.Ok? ==> forall c :: (Some(c) == access || Some(c) == refresh) && Fresh(cfg, w, Some(c)) && Deniable(cfg, c) ==>
              w.reachable && Revoked(w'.redis, c, w.now)
  {
    if Fresh(cfg, w, access) {
      var (w1, r1) := Denied(cfg, w, access.value);
      DenialTakes(cfg, w, access.value);
      if r1.Ok? && refresh != access && Fresh(cfg, w, refresh) {
        DenialTakes(cfg, w1, refresh.value);
        if Deniable(cfg, access.value) {
          SecondDenialTakes(cfg, w1, refresh.value, access.value);
        }
      }
    }
  }

  // ---- Where tokens come from ----

  /** The step mints the token for a new user, on a password, or on a refresh token of the same user. */
  ghost predicate Grants(cfg: Config, w: World, op: Op, c: Claims) {
    match op
    case Register(id, username, email, _, _, _) => c.userId == id && FreeToRegister(w, id, username, email) && c.role == "user"
    case Login(who, password, _, _, _) =>
      && KnowsPassword(cfg, w, who, password) && !InForce(w.users[who.value], w.now)
      && c.userId == who.value && c.role == w.users[who.value].role
    case Refresh(token, _) =>
      && Redeemable(cfg, w, token) && Signed(w, token.value) && KnownGood(w, token.value)
      && c.userId == token.value.userId && MayHold(w, c.userId) && c.typ == Access && c.role == w.users[c.userId].role
    case _ => false
  }

  lemma NewTokensHaveACause(cfg: Config, w: World, op: Op, m: Mint)
    requires m in Apply(cfg, w, op).minted && m !in w.minted
    ensures m.at == w.now && Grants(cfg, w, op, m.claims)
  {
    match op
    case Login(who, password, recorded, refreshJti, accessJti) =>
      LoginSucceedsExactlyWhen(cfg, w, who, password, recorded, refreshJti, accessJti);
    case Refresh(token, jti) => RefreshSucceedsExactlyWhen(cfg, w, Checked(w, token), jti);
    case Register(id, username, email, hash, refreshJti, accessJti) =>
      RegistrationSucceedsExactlyWhen(cfg, w, id, username, email, hash, refreshJti, accessJti);
    case _ =>
  }

  /** Every token in the log comes from a registration, a right password, or a good refresh token of its bearer. */
  lemma {:induction false} EveryTokenHasACause(cfg: Config, ws: seq<World>, ops: seq<Op>, j: nat, m: Mint) returns (p: nat)
    requires IsRun(cfg, ws, ops) && j < |ws| && ws[0].minted == {} && m in ws[j].minted
    ensures p < j && m.at == ws[p].now && Grants(cfg, ws[p], ops[p], m.claims)
  {
    assert 0 < j;
    assert ws[j] == Apply(cfg, ws[j - 1], ops[j - 1]);
    if m in ws[j - 1].minted {
      p := EveryTokenHasACause(cfg, ws, ops, j - 1, m);
    } else {
      NewTokensHaveACause(cfg, ws[j - 1], ops[j - 1], m);
      p := j - 1;
    }
  }

  /** The user registers, or signs in with the right password. */
  predicate ShowsUp(cfg: Config, w: World, op: Op, user: UserId) {
    match op
    case Register(id, _, _, _, _, _) => id == user
    case Login(who, password, _, _, _) => who == Some(user) && KnowsPassword(cfg, w, who, password)
    case _ => false
  }

  /** Until a user registers or gives the right password, no token of theirs exists, whatever is presented. */
  lemma {:induction false} NobodyElseGetsTokens(cfg: Config, ws: seq<World>, ops: seq<Op>, j: nat, user: UserId)
    requires IsRun(cfg, ws, ops) && j < |ws| && ws[0].minted == {}
    requires forall k :: 0 <= k < j ==> !ShowsUp(cfg, ws[k], ops[k], user)
    ensures forall m :: m in ws[j].minted ==> m.claims.userId != user
  {
    if 0 < j {
      NobodyElseGetsTokens(cfg, ws, ops, j - 1, user);
      forall m | m in ws[j].minted && m !in ws[j - 1].minted ensures m.claims.userId != user {
        NewTokensHaveACause(cfg, ws[j - 1], ops[j - 1], m);
      }
    }
  }

  // ---- Which password works ----

  predicate MayChangeHash(w: World, op: Op, user: UserId) {
    SetsPassword(w, op, user) || (op.Update? && op.user == user)
  }

  lemma StepKeepsHash(cfg: Config, w: World, op: Op, user: UserId)
    requires user in w.users
    ensures user in Apply(cfg, w, op).users
    ensures !MayChangeHash(w, op, user) ==> Apply(cfg, w, op).users[user].passwordHash == w.users[user].passwordHash
    ensures SetsPassword(w, op, user) ==> op.newHash.Some? && Apply(cfg, w, op).users[user].passwordHash == op.newHash.value
  {
  }

  lemma {:induction false} HashStands(cfg: Config, ws: seq<World>, ops: seq<Op>, i: nat, j: nat, user: UserId)
    requires IsRun(cfg, ws, ops) && i < j < |ws| && user in ws[i].users && SetsPassword(ws[i], ops[i], user)
    requires forall k :: i < k < j ==> !MayChangeHash(ws[k], ops[k], user)
    ensures user in ws[j].users && ops[i].newHash.Some? && ws[j].users[user].passwordHash == ops[i].newHash.value
  {
    if i + 1 < j {
      HashStands(cfg, ws, ops, i, j - 1, user);
    }
    StepKeepsHash(cfg, ws[j - 1], ops[j - 1], user);
  }

  /** After a reset or change, until the next one, a live user under no ban is signed in exactly by the new password. */
  lemma OnlyTheNewPasswordWorks(
    cfg: Config, ws: seq<World>, ops: seq<Op>, i: nat, j: nat, user: UserId,
    password: string, recorded: bool, refreshJti: string, accessJti: string)
    requires IsRun(cfg, ws, ops) && i < j < |ws| && SetsPassword(ws[i], ops[i], user)
    requires forall k :: i < k < j ==> !MayChangeHash(ws[k], ops[k], user)
    ensures ops[i].newHash.Some? && user in ws[j].users
    ensures LoggedIn(cfg, ws[j], Some(user), password, recorded, refreshJti, accessJti).1.Ok? <==>
      cfg.compare(ops[i].newHash.value, password) && LiveRow(ws[j], user) && !InForce(ws[j].users[user], ws[j].now)
  {
    HashStands(cfg, ws, ops, i, j, user);
    LoginSucceedsExactlyWhen(cfg, ws[j], Some(user), password, recorded, refreshJti, accessJti);
  }

  lemma WritingKeepsNames(rows: Rows, id: UserId, user: User)
    requires NamesAreUnique(rows) && (id in rows ==> !Conflicts(rows, id, user))
    ensures NamesAreUnique(Written(rows, id, user))
  {
  }

  lemma SameNamesStayUnique(rows: Rows, rows': Rows)
    requires NamesAreUnique(rows) && SameNames(rows, rows')
    ensures NamesAreUnique(rows')
  {
  }

  lemma AddingKeepsNames(rows: Rows, id: UserId, user: User)
    requires NamesAreUnique(rows) && !Taken(rows, user)
    ensures NamesAreUnique(rows[id := user])
  {
  }

  ghost predicate SameNames(rows: Rows, rows': Rows) {
    rows'.Keys == rows.Keys && forall u :: u in rows ==> rows'[u].username == rows[u].username && rows'[u].email == rows[u].email
  }

  lemma LoginKeepsNames(cfg: Config, w: World, op: Op)
    requires op.Login?
    ensures SameNames(w.users, Apply(cfg, w, op).users)
  {
    LoginSucceedsExactlyWhen(cfg, w, op.who, op.password, op.recorded, op.refreshJti, op.accessJti);
  }

  lemma PasswordsKeepNames(cfg: Config, w: World, op: Op)
    requires op.ResetPassword? || op.ChangePassword?
    ensures SameNames(w.users, Apply(cfg, w, op).users)
  {
  }

  lemma OtherStepsKeepNames(cfg: Config, w: World, op: Op)
    requires !op.Register? && !op.Update?
    ensures SameNames(w.users, Apply(cfg, w, op).users)
  {
    match op
    case Login(_, _, _, _, _) => LoginKeepsNames(cfg, w, op);
    case ResetPassword(_, _) => PasswordsKeepNames(cfg, w, op);
    case ChangePassword(_, _, _) => PasswordsKeepNames(cfg, w, op);
    case _ =>
  }

  lemma StepKeepsNames(cfg: Config, w: World, op: Op)
    requires NamesAreUnique(w.users)
    ensures NamesAreUnique(Apply(cfg, w, op).users)
  {
    if op.Register? {
      if op.hash.Some? && !Taken(w.users, NewUser(op.username, op.email, op.hash.value)) {
        AddingKeepsNames(w.users, op.id, NewUser(op.username, op.email, op.hash.value));
      }
    } else if op.Update? {
      if op.user !in w.users || !Conflicts(w.users, op.user, op.row) {
        WritingKeepsNames(w.users, op.user, op.row);
      }
    } else {
      OtherStepsKeepNames(cfg, w, op);
      SameNamesStayUnique(w.users, Apply(cfg, w, op).users);
    }
  }

  /** Usernames and addresses stay unique, deleted users included. */
  lemma {:induction false} NamesStayUnique(cfg: Config, ws: seq<World>, ops: seq<Op>, j: nat)
    requires IsRun(cfg, ws, ops) && j < |ws| && NamesAreUnique(ws[0].users)
    ensures NamesAreUnique(ws[j].users)
  {
    if 0 < j {
      NamesStayUnique(cfg, ws, ops, j - 1);
      StepKeepsNames(cfg, ws[j - 1], ops[j - 1]);
    }
  }

  /** A new role or password written to a row counts from the next refresh and the next login on. */
  lemma UpdatesTakeEffect(cfg: Config, w: World, user: UserId, row: User, token: Option<Claims>, jti: string, password: string)
    requires LiveRow(w, user) && !Conflicts(w.users, user, row) && token.Some? && token.value.userId == user
    ensures var w' := Apply(cfg, w, Update(user, row));
            var r := Refreshed(cfg, w', token, jti).1;
            && (r.Ok? ==> r.value.access.role == row.role)
            && (KnowsPassword(cfg, w', Some(user), password) <==> cfg.compare(row.passwordHash, password))
  {
  }

  // ---- Leaving and coming back ----

  lemma DeletedStays(cfg: Config, w: World, op: Op, user: UserId)
    requires user in w.users && w.users[user].deleted
    ensures user in Apply(cfg, w, op).users && Apply(cfg, w, op).users[user].deleted
    ensures forall m :: m in Apply(cfg, w, op).minted && m.claims.userId == user ==> m in w.minted
  {
    forall m | m in Apply(cfg, w, op).minted && m !in w.minted ensures m.claims.userId != user {
      NewTokensHaveACause(cfg, w, op, m);
    }
  }

  /** A deleted user gets no token ever again, by password or by refresh token. */
  lemma {:induction false} DeletedGetNoTokens(cfg: Config, ws: seq<World>, ops: seq<Op>, i: nat, j: nat, user: UserId)
    requires IsRun(cfg, ws, ops) && i < j < |ws| && ops[i] == Delete(user) && user in ws[i].users
    ensures user in ws[j].users && ws[j].users[user].deleted
    ensures forall m :: m in ws[j].minted && m.claims.userId == user ==> m in ws[i].minted
  {
    if i + 1 < j {
      DeletedGetNoTokens(cfg, ws, ops, i, j - 1, user);
      DeletedStays(cfg, ws[j - 1], ops[j - 1], user);
    } else {
      assert ws[j] == Apply(cfg, ws[i], ops[i]);
    }
  }

  /** And is shut out within one access-token lifetime. */
  lemma DeletionLocksOut(cfg: Config, ws: seq<World>, ops: seq<Op>, i: nat, j: nat, user: UserId, token: Option<Claims>)
    requires IsRun(cfg, ws, ops) && i < j < |ws| && ws[0].minted == {} && 0 <= cfg.accessTTL
    requires ops[i] == Delete(user) && user in ws[i].users
    requires ws[i].now + cfg.accessTTL <= ws[j].now
    ensures Authenticated(cfg, ws[j], Checked(ws[j], token)).Ok? ==> token.value.userId != user
  {
    if Authenticated(cfg, ws[j], Checked(ws[j], token)).Ok? && token.value.userId == user {
      var m :| m in ws[j].minted && m.claims == token.value;
      DeletedGetNoTokens(cfg, ws, ops, i, j, user);
      var p := EveryTokenWasGranted(cfg, ws, ops, i, m);
      ClockAndLogGrow(cfg, ws, ops, p, i);
    }
  }

  /** Lifting a ban lets the user in again at once, on the right password; a ban keeps them out until it ends by itself. */
  lemma UnbanningLetsBackIn(
    cfg: Config, w: World, user: UserId, until: Option<int>, password: string, recorded: bool, refreshJti: string, accessJti: string)
    requires KnowsPassword(cfg, w, Some(user), password)
    ensures LoggedIn(cfg, Apply(cfg, w, Unban(user)), Some(user), password, recorded, refreshJti, accessJti).1.Ok?
    ensures LoggedIn(cfg, Apply(cfg, w, Ban(user, until)), Some(user), password, recorded, refreshJti, accessJti).1.Ok?
       <==> until.Some? && until.value <= w.now
  {
    LoginSucceedsExactlyWhen(cfg, Apply(cfg, w, Unban(user)), Some(user), password, recorded, refreshJti, accessJti);
    LoginSucceedsExactlyWhen(cfg, Apply(cfg, w, Ban(user, until)), Some(user), password, recorded, refreshJti, accessJti);
  }
}
