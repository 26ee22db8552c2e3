/**
 What holds over whole runs of the authentication state: any interleaving of
 sign-ins, refreshes, logouts, password resets and changes, bans, row updates,
 outages and the passing of time.
 */
module AuthRuns {
  import opened Basics
  import Redis
  import opened Tokens
  import opened Users
  import opened Sessions
  import opened AuthService
  import MailTokens
  import EmailService

  datatype Op =
    | Wait(until: int)
    | Outage(up: bool)
    | Register(id: UserId, username: string, email: string, hash: Option<string>, refreshJti: string, accessJti: string)
    | Login(who: Option<UserId>, password: string, recorded: bool, refreshJti: string, accessJti: string)
    | Refresh(token: Option<Claims>, accessJti: string)
    | Logout(access: Option<Claims>, refresh: Option<Claims>)
    | LogoutAll(user: UserId)
    | ResetPassword(claim: Option<MailTokens.Claim>, newHash: Option<string>)
    | ChangePassword(user: UserId, currentMatches: bool, newHash: Option<string>)
    | Ban(user: UserId, expiry: Option<int>)
    | Unban(user: UserId)
    | Update(user: UserId, row: User)
    | Delete(user: UserId)

  ghost function Apply(cfg: Config, w: World, op: Op): World {
    match op
    case Wait(until) => w.(now := Max(w.now, until))
    case Outage(up) => w.(reachable := up)
    case Register(id, username, email, hash, refreshJti, accessJti) =>
      Registered(cfg, w, id, username, email, hash, refreshJti, accessJti).0
    case Login(who, password, recorded, refreshJti, accessJti) =>
      LoggedIn(cfg, w, who, password, recorded, refreshJti, accessJti).0
    case Refresh(token, accessJti) => Refreshed(cfg, w, Checked(w, token), accessJti).0
    case Logout(access, refresh) => LoggedOut(cfg, w, Checked(w, access), Checked(w, refresh)).0
    case LogoutAll(user) => LoggedOutEverywhere(cfg, w, user).0
    case ResetPassword(claim, newHash) => EmailService.ResetEndingSessions(cfg, w, claim, newHash)
    case ChangePassword(user, currentMatches, newHash) => EmailService.ChangeEndingSessions(cfg, w, user, currentMatches, newHash)
    case Ban(user, until) => w.(users := Banned(w.users, user, until))
    case Unban(user) => w.(users := Unbanned(w.users, user))
    case Update(user, row) =>
      if user in w.users && Conflicts(w.users, user, row) then w else w.(users := Written(w.users, user, row))
    case Delete(user) => w.(users := SoftDeleted(w.users, user))
  }

  ghost predicate IsRun(cfg: Config, ws: seq<World>, ops: seq<Op>) {
    && |ws| == |ops| + 1
    && forall i :: 0 <= i < |ops| ==> ws[i + 1] == Apply(cfg, ws[i], ops[i])
  }

  lemma StepGrows(cfg: Config, w: World, op: Op)
    ensures w.now <= Apply(cfg, w, op).now && w.minted <= Apply(cfg, w, op).minted
  {
  }

  lemma {:induction false} ClockAndLogGrow(cfg: Config, ws: seq<World>, ops: seq<Op>, i: nat, j: nat)
    requires IsRun(cfg, ws, ops) && i <= j < |ws|
    ensures ws[i].now <= ws[j].now && ws[i].minted <= ws[j].minted
  {
    if i < j {
      ClockAndLogGrow(cfg, ws, ops, i, j - 1);
      StepGrows(cfg, ws[j - 1], ops[j - 1]);
    }
  }

  // ---- Logout everywhere ----

  /** The stored cutoff is at least as late, and lives at least as long, as one written at `t`. */
  ghost predicate CutoffHeld(cfg: Config, w: World, user: UserId, t: int) {
    && t <= w.now
    && UserKey(user) in w.redis
    && var e := w.redis[UserKey(user)];
       && e.value.Number? && t < e.value.n
       && (e.deadline.None? || t + cfg.maxTokenTTL <= e.deadline.value)
  }

  lemma CutoffSurvivesDenial(cfg: Config, w: World, c: Claims, user: UserId, t: int)
    requires CutoffHeld(cfg, w, user, t)
    ensures CutoffHeld(cfg, Denied(cfg, w, c).0, user, t)
  {
    KeysAreDistinct(c.jti, c.jti, user, user);
  }

  lemma CutoffSurvivesStep(cfg: Config, w: World, op: Op, user: UserId, t: int)
    requires CutoffHeld(cfg, w, user, t)
    ensures CutoffHeld(cfg, Apply(cfg, w, op), user, t)
  {
    if op.Logout? {
      var access, refresh := Checked(w, op.access), Checked(w, op.refresh);
      if Validates(cfg, w.now, access) {
        CutoffSurvivesDenial(cfg, w, access.value, user, t);
        if Validates(cfg, w.now, refresh) {
          CutoffSurvivesDenial(cfg, Denied(cfg, w, access.value).0, refresh.value, user, t);
        }
      }
    }
  }

  lemma {:induction false} CutoffSurvives(cfg: Config, ws: seq<World>, ops: seq<Op>, i: nat, j: nat, user: UserId, t: int)
    requires IsRun(cfg, ws, ops) && i <= j < |ws|
    requires CutoffHeld(cfg, ws[i], user, t)
    ensures CutoffHeld(cfg, ws[j], user, t)
  {
    if i < j {
      CutoffSurvives(cfg, ws, ops, i, j - 1, user, t);
      CutoffSurvivesStep(cfg, ws[j - 1], ops[j - 1], user, t);
    }
  }

  /** What a denied token can no longer do: authenticate (unless failing open), or be redeemed. */
  ghost predicate Dead(cfg: Config, w: World, c: Claims) {
    && Verdict(w.redis, c.jti, c.userId, IssuedAtTime(c), w.now) == Ok(true)
    && (w.reachable || !cfg.failOpen ==> Authenticated(cfg, w, Some(c)).Err?)
    && (forall jti :: Refreshed(cfg, w, Some(c), jti).0 == w && Refreshed(cfg, w, Some(c), jti).1.Err?)
  }

  /**
   Once logout-all has run at ws[i], every token of the user minted up to and
   including that millisecond is dead for as long as it would still validate,
   whatever happens in between, provided it expires no later than the marker:
   any token that lives at most maxTokenTTL, and a longer-lived one near its end.
   */
  lemma LogoutAllIsPermanent(cfg: Config, ws: seq<World>, ops: seq<Op>, i: nat, j: nat, user: UserId, m: Mint)
    requires IsRun(cfg, ws, ops) && i < j < |ws|
    requires ops[i] == LogoutAll(user) && ws[i].reachable
    requires Genuine(m) && m.at <= ws[i].now && m.claims.userId == user
    requires m.claims.exp.Some? && m.claims.exp.value * 1000 <= ws[i].now + cfg.maxTokenTTL
    requires TimelyAt(m.claims, cfg.issuer, ws[j].now)
    ensures Dead(cfg, ws[j], m.claims)
  {
    assert ws[i + 1] == Apply(cfg, ws[i], ops[i]);
    CutoffSurvives(cfg, ws, ops, i + 1, j, user, ws[i].now);
  }

  /** A reset or change of the user's password that goes through. */
  predicate SetsPassword(w: World, op: Op, user: UserId) {
    match op
    case ResetPassword(claim, newHash) =>
      claim.Some? && claim.value.user == user && EmailService.PasswordReset(w.users, claim, newHash, w.now).1.Ok?
    case ChangePassword(who, currentMatches, newHash) =>
      who == user && EmailService.PasswordChanged(w.users, who, currentMatches, newHash).1.Ok?
    case _ => false
  }

  /** A new password ends every session the old one had opened, on the terms of logout-all. */
  lemma NewPasswordEndsSessions(cfg: Config, ws: seq<World>, ops: seq<Op>, i: nat, j: nat, user: UserId, m: Mint)
    requires IsRun(cfg, ws, ops) && i < j < |ws|
    requires SetsPassword(ws[i], ops[i], user) && ws[i].reachable
    requires Genuine(m) && m.at <= ws[i].now && m.claims.userId == user
    requires m.claims.exp.Some? && m.claims.exp.value * 1000 <= ws[i].now + cfg.maxTokenTTL
    requires TimelyAt(m.claims, cfg.issuer, ws[j].now)
    ensures Dead(cfg, ws[j], m.claims)
  {
    assert ws[i + 1] == Apply(cfg, ws[i], ops[i]);
    CutoffSurvives(cfg, ws, ops, i + 1, j, user, ws[i].now);
  }

  /** A token stamped after the cutoff's instant is not denied by that cutoff. */
  lemma LogoutAllSparesLaterTokens(cfg: Config, w: World, user: UserId, m: Mint, t: int)
    requires w.reachable && m.claims.userId == user
    requires m.claims.iatMs > w.now > 0
    requires !Redis.Live(w.redis, JtiKey(m.claims.jti), t)
    ensures Verdict(LoggedOutEverywhere(cfg, w, user).0.redis, m.claims.jti, user, IssuedAtTime(m.claims), t) == Ok(false)
  {
    KeysAreDistinct(m.claims.jti, m.claims.jti, user, user);
  }

  /** A marker set now never lapses before the token; one without a lifetime never lapses at all. */
  predicate MarkerOutlives(cfg: Config, now: int, c: Claims) {
    cfg.maxTokenTTL <= 0 || (c.exp.Some? && c.exp.value * 1000 <= now + cfg.maxTokenTTL)
  }

  /**
   The guarantee holds for a token, at every later instant at which it validates
   and with nothing else happening, exactly when the token cannot outlive the marker.
   */
  lemma LogoutAllHoldsExactlyWhen(cfg: Config, w: World, user: UserId, m: Mint)
    requires w.reachable && Genuine(m) && m.at <= w.now && m.claims.userId == user
    requires m.claims.issuer == cfg.issuer
    requires JtiKey(m.claims.jti) !in w.redis
    ensures (forall t :: w.now <= t && TimelyAt(m.claims, cfg.issuer, t) ==>
              Verdict(LoggedOutEverywhere(cfg, w, user).0.redis, m.claims.jti, user, IssuedAtTime(m.claims), t) == Ok(true))
            <==> MarkerOutlives(cfg, w.now, m.claims)
  {
    KeysAreDistinct(m.claims.jti, m.claims.jti, user, user);
    var t := w.now + cfg.maxTokenTTL;
    if cfg.maxTokenTTL > 0 && !(m.claims.exp.Some? && m.claims.exp.value * 1000 <= t) {
      assert TimelyAt(m.claims, cfg.issuer, t);
      assert Verdict(LoggedOutEverywhere(cfg, w, user).0.redis, m.claims.jti, user, IssuedAtTime(m.claims), t) == Ok(false);
    }
  }

  /** The same goes for a new password, except that it goes through, and ends nothing, while the store is unreachable. */
  lemma NewPasswordHoldsExactlyWhen(cfg: Config, w: World, op: Op, user: UserId, m: Mint)
    requires SetsPassword(w, op, user)
    requires Genuine(m) && m.at <= w.now && m.claims.userId == user && TimelyAt(m.claims, cfg.issuer, w.now)
    requires JtiKey(m.claims.jti) !in w.redis && !Redis.Live(w.redis, UserKey(user), w.now)
    ensures (forall t :: w.now <= t && TimelyAt(m.claims, cfg.issuer, t) ==>
              Verdict(Apply(cfg, w, op).redis, m.claims.jti, user, IssuedAtTime(m.claims), t) == Ok(true))
            <==> w.reachable && MarkerOutlives(cfg, w.now, m.claims)
  {
    var db := Apply(cfg, w, op).redis;
    if w.reachable {
      LogoutAllHoldsExactlyWhen(cfg, w, user, m);
      assert db == LoggedOutEverywhere(cfg, w, user).0.redis;
    } else {
      assert Verdict(db, m.claims.jti, user, IssuedAtTime(m.claims), w.now) == Ok(false);
    }
  }

  /**
   The wiring gives the marker the lifetime of an access token. With a longer
   refresh lifetime, a refresh token issued before logout-all becomes redeemable
   again once the marker lapses, and what it is redeemed for authenticates.
   */
  lemma RefreshTokenOutlivesLogoutAll(cfg: Config, w: World, user: UserId, password: string, jti: string, jti': string, jti'': string)
    requires cfg.maxTokenTTL == cfg.accessTTL && 1000 <= cfg.accessTTL && cfg.accessTTL + 1000 <= cfg.refreshTTL
    requires w.reachable && 0 < w.now && w.redis == map[]
    requires user in w.users && !w.users[user].deleted && !w.users[user].isBanned && w.users[user].role in ROLES
    requires cfg.compare(w.users[user].passwordHash, password)
    ensures var (w1, r) := LoggedIn(cfg, w, Some(user), password, true, jti, jti');
            r.Ok? &&
            var (w2, all) := LoggedOutEverywhere(cfg, w1, user);
            all.Ok? &&
            var w3 := w2.(now := w2.now + cfg.maxTokenTTL);
            var (w4, again) := Refreshed(cfg, w3, Some(r.value.refresh), jti'');
            Checked(w3, Some(r.value.refresh)) == Some(r.value.refresh) &&
            again.Ok? && Authenticated(cfg, w4, Some(again.value.access)).Ok?
  {
    KeysAreDistinct(jti, jti'', user, user);
    KeysAreDistinct(jti'', jti'', user, user);
    var (w1, r) := LoggedIn(cfg, w, Some(user), password, true, jti, jti');
    assert Mint(r.value.refresh, w.now) in w1.minted;
  }

  // ---- Logout of one token ----

  ghost predicate JtisIdentify(minted: set<Mint>) {
    forall m, m' :: m in minted && m' in minted && m.claims.jti == m'.claims.jti != "" ==> m.claims == m'.claims
  }

  /** Only tokens with these very claims carry their jti. */
  ghost predicate Named(minted: set<Mint>, c: Claims) {
    forall m :: m in minted && m.claims.jti == c.jti ==> m.claims == c
  }

  lemma SignedAreNamed(w: World, minted: set<Mint>, c: Claims)
    requires Signed(w, c) && w.minted <= minted && JtisIdentify(minted) && c.jti != ""
    ensures Named(minted, c)
  {
    var m :| m in w.minted && m.claims == c;
    assert m in minted;
  }

  /** A denylist entry that lives as long as the token it denies. */
  ghost predicate JtiHeld(w: World, c: Claims)
    requires c.exp.Some?
  {
    && JtiKey(c.jti) in w.redis
    && var e := w.redis[JtiKey(c.jti)];
       e.deadline.None? || c.exp.value * 1000 <= e.deadline.value
  }

  lemma JtiSurvivesDenial(cfg: Config, w: World, c: Claims, c': Claims)
    requires c.exp.Some? && JtiHeld(w, c)
    requires c'.jti == c.jti != "" ==> c' == c
    ensures JtiHeld(Denied(cfg, w, c').0, c)
  {
    KeysAreDistinct(c.jti, c'.jti, "", "");
  }

  lemma JtiSurvivesStep(cfg: Config, w: World, op: Op, c: Claims)
    requires c.exp.Some? && c.jti != "" && JtiHeld(w, c)
    requires Named(w.minted, c)
    ensures JtiHeld(Apply(cfg, w, op), c)
  {
    forall user ensures UserKey(user) != JtiKey(c.jti) {
      KeysAreDistinct(c.jti, c.jti, user, user);
    }
    if op.Logout? {
      var access, refresh := Checked(w, op.access), Checked(w, op.refresh);
      if Validates(cfg, w.now, access) {
        JtiSurvivesDenial(cfg, w, c, access.value);
        if Validates(cfg, w.now, refresh) {
          JtiSurvivesDenial(cfg, Denied(cfg, w, access.value).0, c, refresh.value);
        }
      }
    }
  }

  lemma LogBefore(cfg: Config, ws: seq<World>, ops: seq<Op>, i: nat, j: nat, all: set<Mint>)
    requires IsRun(cfg, ws, ops) && i <= j < |ws| && ws[j].minted <= all
    ensures ws[i].minted <= all
  {
    ClockAndLogGrow(cfg, ws, ops, i, j);
  }

  lemma FewerAreNamed(fewer: set<Mint>, all: set<Mint>, c: Claims)
    requires fewer <= all && Named(all, c)
    ensures Named(fewer, c)
  {
  }

  lemma {:induction false} JtiSurvives(cfg: Config, ws: seq<World>, ops: seq<Op>, i: nat, j: nat, c: Claims, all: set<Mint>)
    requires IsRun(cfg, ws, ops) && i <= j < |ws|
    requires c.exp.Some? && c.jti != "" && JtiHeld(ws[i], c)
    requires Named(all, c) && ws[j].minted <= all
    ensures JtiHeld(ws[j], c)
  {
    if i < j {
      LogBefore(cfg, ws, ops, j - 1, j, all);
      FewerAreNamed(ws[j - 1].minted, all, c);
      JtiSurvives(cfg, ws, ops, i, j - 1, c, all);
      JtiSurvivesStep(cfg, ws[j - 1], ops[j - 1], c);
    }
  }

  lemma LogoutDenies(cfg: Config, w: World, access: Option<Claims>, refresh: Option<Claims>, c: Claims)
    requires w.reachable && JtisIdentify(w.minted)
    requires Validates(cfg, w.now, Checked(w, access))
    requires Some(c) == Checked(w, access) || (Some(c) == Checked(w, refresh) && Validates(cfg, w.now, Some(c)))
    requires c.exp.Some? && c.jti != ""
    ensures JtiHeld(Apply(cfg, w, Logout(access, refresh)), c)
  {
    var a, r := Checked(w, access), Checked(w, refresh);
    var w1 := Denied(cfg, w, a.value).0;
    if Some(c) == a {
      assert JtiHeld(w1, c);
      if Validates(cfg, w.now, r) {
        JtiSurvivesDenial(cfg, w1, c, r.value);
      }
    } else {
      assert JtiHeld(Denied(cfg, w1, c).0, c);
    }
  }

  /**
   Logging out is for good: a token handed to Logout at ws[i], access or refresh,
   is dead at every later instant at which it would still validate.
   */
  lemma LogoutIsPermanent(cfg: Config, ws: seq<World>, ops: seq<Op>, i: nat, j: nat, c: Claims)
    requires IsRun(cfg, ws, ops) && i < j < |ws| && JtisIdentify(ws[j].minted)
    requires ops[i].Logout? && ws[i].reachable
    requires Validates(cfg, ws[i].now, Checked(ws[i], ops[i].access))
    requires Some(c) == Checked(ws[i], ops[i].access)
      || (Some(c) == Checked(ws[i], ops[i].refresh) && Validates(cfg, ws[i].now, Some(c)))
    requires c.jti != "" && c.exp.Some?
    requires TimelyAt(c, cfg.issuer, ws[j].now)
    ensures Dead(cfg, ws[j], c)
  {
    ClockAndLogGrow(cfg, ws, ops, i, j);
    ClockAndLogGrow(cfg, ws, ops, i, i + 1);
    LogoutDenies(cfg, ws[i], ops[i].access, ops[i].refresh, c);
    assert ws[i + 1] == Apply(cfg, ws[i], ops[i]);
    SignedAreNamed(ws[i], ws[j].minted, c);
    JtiSurvives(cfg, ws, ops, i + 1, j, c, ws[j].minted);
  }

  /**
   For one token the guarantee needs the two claims the current mint always
   sets: without a jti it cannot be named, and without an exp it outlives its entry.
   */
  lemma LogoutHoldsExactlyWhen(cfg: Config, w: World, c: Claims)
    requires w.reachable && w.redis == map[] && 0 < cfg.maxTokenTTL
    requires TimelyAt(c, cfg.issuer, w.now)
    ensures (forall t :: w.now <= t && TimelyAt(c, cfg.issuer, t) ==>
              Verdict(LoggedOut(cfg, w, Some(c), None).0.redis, c.jti, c.userId, IssuedAtTime(c), t) == Ok(true))
            <==> c.jti != "" && c.exp.Some?
  {
    KeysAreDistinct(c.jti, c.jti, c.userId, c.userId);
    var t := w.now + cfg.maxTokenTTL;
    var db := LoggedOut(cfg, w, Some(c), None).0.redis;
    if c.jti == "" {
      assert Verdict(db, c.jti, c.userId, IssuedAtTime(c), w.now) == Ok(false);
    } else if c.exp.None? {
      assert TimelyAt(c, cfg.issuer, t);
      assert Verdict(db, c.jti, c.userId, IssuedAtTime(c), t) == Ok(false);
    }
  }

  // ---- The denylist never outgrows the live tokens ----

  predicate Unexpired(c: Claims, now: int) {
    c.exp.Some? ==> now < c.exp.value * 1000
  }

  /** The minted token an entry was written for, with the entry's deadline at the token's expiry. */
  ghost predicate WrittenFor(key: string, deadline: Option<int>, m: Mint) {
    && key == JtiKey(m.claims.jti)
    && (m.claims.exp.Some? ==> deadline == Some(m.claims.exp.value * 1000))
  }

  ghost predicate Accounted(w: World, key: string)
    requires key in w.redis
  {
    exists m :: m in w.minted && WrittenFor(key, w.redis[key].deadline, m)
  }

  ghost predicate DenylistAccounted(w: World) {
    forall key :: key in w.redis && JTI_PREFIX <= key ==> Accounted(w, key)
  }

  lemma UserKeyIsNoJtiKey(user: string)
    ensures !(JTI_PREFIX <= UserKey(user))
  {
    assert UserKey(user)[13] == 'u';
  }

  lemma DenialIsAccounted(cfg: Config, w: World, c: Claims)
    requires DenylistAccounted(w) && Signed(w, c)
    ensures DenylistAccounted(Denied(cfg, w, c).0)
  {
    var w' := Denied(cfg, w, c).0;
    var own :| own in w.minted && own.claims == c;
    forall key | key in w'.redis && JTI_PREFIX <= key ensures Accounted(w', key) {
      if w' != w && key == JtiKey(c.jti) {
        assert WrittenFor(key, w'.redis[key].deadline, own);
      } else {
        assert key in w.redis && w.redis[key] == w'.redis[key] && Accounted(w, key);
      }
    }
  }

  lemma SameEntriesAccounted(w: World, w': World)
    requires DenylistAccounted(w) && w.minted <= w'.minted
    requires forall key :: key in w'.redis && JTI_PREFIX <= key ==> key in w.redis && w'.redis[key] == w.redis[key]
    ensures DenylistAccounted(w')
  {
    forall key | key in w'.redis && JTI_PREFIX <= key ensures Accounted(w', key) {
      assert Accounted(w, key);
      var m :| m in w.minted && WrittenFor(key, w.redis[key].deadline, m);
      assert m in w'.minted;
    }
  }

  lemma StepIsAccounted(cfg: Config, w: World, op: Op)
    requires DenylistAccounted(w)
    ensures DenylistAccounted(Apply(cfg, w, op))
  {
    if op.Logout? {
      var access, refresh := Checked(w, op.access), Checked(w, op.refresh);
      if Validates(cfg, w.now, access) {
        DenialIsAccounted(cfg, w, access.value);
        if Validates(cfg, w.now, refresh) {
          DenialIsAccounted(cfg, Denied(cfg, w, access.value).0, refresh.value);
        }
      }
    } else {
      forall user ensures !(JTI_PREFIX <= UserKey(user)) {
        UserKeyIsNoJtiKey(user);
      }
      SameEntriesAccounted(w, Apply(cfg, w, op));
    }
  }

  lemma {:induction false} RunIsAccounted(cfg: Config, ws: seq<World>, ops: seq<Op>, j: nat)
    requires IsRun(cfg, ws, ops) && j < |ws| && ws[0].redis == map[]
    ensures DenylistAccounted(ws[j])
  {
    if 0 < j {
      RunIsAccounted(cfg, ws, ops, j - 1);
      StepIsAccounted(cfg, ws[j - 1], ops[j - 1]);
    }
  }

  /** At every moment there are at most as many live per-token entries as unexpired tokens. */
  lemma DenylistNeverOutgrowsTokens(cfg: Config, ws: seq<World>, ops: seq<Op>, j: nat)
    requires IsRun(cfg, ws, ops) && j < |ws| && ws[0].redis == map[]
    ensures |set key | key in ws[j].redis && JTI_PREFIX <= key && Redis.Live(ws[j].redis, key, ws[j].now)|
         <= |set m | m in ws[j].minted && Unexpired(m.claims, ws[j].now)|
  {
    RunIsAccounted(cfg, ws, ops, j);
    var w := ws[j];
    var entries := set key | key in w.redis && JTI_PREFIX <= key && Redis.Live(w.redis, key, w.now);
    var live := set m | m in w.minted && Unexpired(m.claims, w.now);
    var f := (m: Mint) => JtiKey(m.claims.jti);
    forall key | key in entries ensures exists m :: m in live && f(m) == key {
      assert Accounted(w, key);
      var m :| m in w.minted && WrittenFor(key, w.redis[key].deadline, m);
      assert m in live && f(m) == key;
    }
    ImageIsNoLarger(live, f, entries);
  }

  // ---- Bans and roles ----

  /** At ws[p] the token was minted for a stored user who was not banned and held the role it carries. */
  ghost predicate GrantedAt(cfg: Config, w: World, m: Mint) {
    && 0 <= cfg.accessTTL
    && w.now == m.at
    && m.claims.userId in w.users
    && !IsCurrentlyBanned(w.users[m.claims.userId], w.now)
    && m.claims.role == w.users[m.claims.userId].role
    && m.claims.typ != Untyped
    && (m.claims.typ == Access ==> m.claims.exp == Some(Seconds(m.at + cfg.accessTTL)))
  }

  lemma NewTokensAreGranted(cfg: Config, w: World, op: Op, m: Mint)
    requires 0 <= cfg.accessTTL
    requires m in Apply(cfg, w, op).minted && m !in w.minted
    ensures GrantedAt(cfg, Apply(cfg, w, op), m)
  {
  }

  lemma {:induction false} EveryTokenWasGranted(cfg: Config, ws: seq<World>, ops: seq<Op>, j: nat, m: Mint) returns (p: nat)
    requires IsRun(cfg, ws, ops) && j < |ws| && ws[0].minted == {} && 0 <= cfg.accessTTL
    requires m in ws[j].minted
    ensures p <= j && GrantedAt(cfg, ws[p], m)
  {
    assert 0 < j;
    assert ws[j] == Apply(cfg, ws[j - 1], ops[j - 1]);
    if m in ws[j - 1].minted {
      p := EveryTokenWasGranted(cfg, ws, ops, j - 1, m);
    } else {
      NewTokensAreGranted(cfg, ws[j - 1], ops[j - 1], m);
      p := j;
    }
  }

  /** Every request that authenticates carries a token granted less than accessTTL ago. */
  lemma AuthenticationIsRecent(cfg: Config, ws: seq<World>, ops: seq<Op>, j: nat, token: Option<Claims>) returns (p: nat)
    requires IsRun(cfg, ws, ops) && j < |ws| && ws[0].minted == {} && 0 <= cfg.accessTTL
    requires Authenticated(cfg, ws[j], Checked(ws[j], token)).Ok?
    ensures p <= j && ws[j].now < ws[p].now + cfg.accessTTL
    ensures var who := Authenticated(cfg, ws[j], Checked(ws[j], token)).value;
            who.userId in ws[p].users
            && ws[p].users[who.userId].role == who.role
            && !IsCurrentlyBanned(ws[p].users[who.userId], ws[p].now)
  {
    var m :| m in ws[j].minted && m.claims == token.value;
    p := EveryTokenWasGranted(cfg, ws, ops, j, m);
  }

  /** A user whose ban has been in force since ws[i] is never authenticated accessTTL later. */
  lemma BanTakesHold(cfg: Config, ws: seq<World>, ops: seq<Op>, i: nat, j: nat, token: Option<Claims>)
    requires IsRun(cfg, ws, ops) && i <= j < |ws| && ws[0].minted == {} && 0 <= cfg.accessTTL
    requires Authenticated(cfg, ws[j], Checked(ws[j], token)).Ok?
    requires var user := Authenticated(cfg, ws[j], Checked(ws[j], token)).value.userId;
             forall k :: i <= k <= j ==> user in ws[k].users && IsCurrentlyBanned(ws[k].users[user], ws[k].now)
    ensures ws[j].now < ws[i].now + cfg.accessTTL
  {
    var p := AuthenticationIsRecent(cfg, ws, ops, j, token);
    assert p < i;
    ClockAndLogGrow(cfg, ws, ops, p, i);
  }

  /** The role a request carries was the stored role at some moment in the last accessTTL. */
  lemma RoleIsRecent(cfg: Config, ws: seq<World>, ops: seq<Op>, j: nat, token: Option<Claims>)
    requires IsRun(cfg, ws, ops) && j < |ws| && ws[0].minted == {} && 0 <= cfg.accessTTL
    requires Authenticated(cfg, ws[j], Checked(ws[j], token)).Ok?
    ensures var who := Authenticated(cfg, ws[j], Checked(ws[j], token)).value;
            exists p :: 0 <= p <= j && ws[j].now - cfg.accessTTL < ws[p].now
              && who.userId in ws[p].users && ws[p].users[who.userId].role == who.role
  {
    var p := AuthenticationIsRecent(cfg, ws, ops, j, token);
  }

  /** Only an unban, or a new ban, ends a permanent ban: no row update does. */
  lemma {:induction false} PermanentBanStands(cfg: Config, ws: seq<World>, ops: seq<Op>, i: nat, j: nat, user: UserId)
    requires IsRun(cfg, ws, ops) && i < j < |ws|
    requires ops[i] == Ban(user, None) && Find(ws[i].users, user).Some?
    requires forall k :: i < k < j ==> ops[k] != Unban(user) && !(ops[k].Ban? && ops[k].user == user)
    ensures user in ws[j].users && ws[j].users[user].isBanned && ws[j].users[user].banExpiry == None
  {
    assert ws[j] == Apply(cfg, ws[j - 1], ops[j - 1]);
    if i + 1 < j {
      PermanentBanStands(cfg, ws, ops, i, j - 1, user);
    }
  }

  /** A permanently banned user is locked out for good within one access-token lifetime. */
  lemma PermanentBanLocksOut(cfg: Config, ws: seq<World>, ops: seq<Op>, i: nat, j: nat, user: UserId, token: Option<Claims>)
    requires IsRun(cfg, ws, ops) && i < j < |ws| && ws[0].minted == {} && 0 <= cfg.accessTTL
    requires ops[i] == Ban(user, None) && Find(ws[i].users, user).Some?
    requires forall k :: i < k < j ==> ops[k] != Unban(user) && !(ops[k].Ban? && ops[k].user == user)
    requires ws[i].now + cfg.accessTTL <= ws[j].now
    ensures forall who :: Authenticated(cfg, ws[j], Checked(ws[j], token)) == Ok(who) ==> who.userId != user
  {
    if Authenticated(cfg, ws[j], Checked(ws[j], token)).Ok?
      && Authenticated(cfg, ws[j], Checked(ws[j], token)).value.userId == user {
      forall k | i + 1 <= k <= j
        ensures user in ws[k].users && IsCurrentlyBanned(ws[k].users[user], ws[k].now)
      {
        PermanentBanStands(cfg, ws, ops, i, k, user);
      }
      assert ws[i + 1] == Apply(cfg, ws[i], ops[i]);
      BanTakesHold(cfg, ws, ops, i + 1, j, token);
    }
  }
}
