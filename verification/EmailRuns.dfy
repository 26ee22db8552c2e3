/**
 Mailed tokens over whole runs: which of the tokens a user was ever sent still
 works. Each operation is one atomic step; other services write user rows too,
 keeping the columns that belong to mailed tokens.
 */
module EmailRuns {
  import opened Basics
  import opened Users
  import opened MailTokens
  import opened EmailService

  datatype Kind = Verification | Reset

  datatype Event =
    | Issued(kind: Kind, user: UserId, digest: Digest, expiry: Option<int>)
    | Spent(kind: Kind, user: UserId)

  /** `log` records every token stored and every time stored tokens were voided, oldest first. */
  datatype World = World(now: int, rows: Rows, log: seq<Event>)

  datatype Op =
    | Wait(until: int)
    | Register(user: UserId, row: User)
    | SendVerification(id: Id, secret: Secret, mailed: bool)
    | VerifyEmail(token: string)
    | RequestReset(who: Option<Id>, secret: Secret)
    | ResetPassword(token: string, newHash: Option<string>)
    | ChangePassword(id: Id, currentMatches: bool, newHash: Option<string>)
    | Update(user: UserId, row: User)
    | Ban(user: UserId, expiry: Option<int>)
    | Unban(user: UserId)
    | Delete(user: UserId)

  function Logged(w: World, rows: Rows, e: Event): World {
    w.(rows := rows, log := w.log + [e])
  }

  function Apply(hash: Hash, resetTTL: int, w: World, op: Op): World {
    match op
    case Wait(until) => w.(now := Max(w.now, until))
    case Register(user, row) =>
      if user in w.rows || row.verificationToken.Some? || row.resetToken.Some? then w
      else w.(rows := w.rows[user := row])
    case SendVerification(id, secret, mailed) =>
      var (rows, r) := VerificationSent(w.rows, Name(id), hash(secret), mailed);
      if r == Err(NoSuchUser) || r == Err(AlreadyVerified) then w
      else Logged(w, rows, Issued(Verification, Name(id), hash(secret), None))
    case VerifyEmail(token) =>
      var (rows, r) := Verified(w.rows, ParseEmailToken(token, hash));
      if r.Err? then w else Logged(w, rows, Spent(Verification, ParseEmailToken(token, hash).value.user))
    case RequestReset(who, secret) =>
      if who.None? || Find(w.rows, Name(who.value)).None? then w
      else
        var expiry := w.now + resetTTL;
        Logged(w, ResetRequested(w.rows, Some(Name(who.value)), hash(secret), expiry),
               Issued(Reset, Name(who.value), hash(secret), Some(expiry)))
    case ResetPassword(token, newHash) =>
      var (rows, r) := PasswordReset(w.rows, ParseEmailToken(token, hash), newHash, w.now);
      if r.Err? then w else Logged(w, rows, Spent(Reset, ParseEmailToken(token, hash).value.user))
    case ChangePassword(id, currentMatches, newHash) =>
      var (rows, r) := PasswordChanged(w.rows, Name(id), currentMatches, newHash);
      if r.Err? then w else Logged(w, rows, Spent(Reset, Name(id)))
    case Update(user, row) =>
      if user in w.rows && TokenColumns(row) == TokenColumns(w.rows[user]) then w.(rows := Written(w.rows, user, row)) else w
    case Ban(user, expiry) => w.(rows := Banned(w.rows, user, expiry))
    case Unban(user) => w.(rows := Unbanned(w.rows, user))
    case Delete(user) => w.(rows := SoftDeleted(w.rows, user))
  }

  function TokenColumns(row: User): (Option<Digest>, Option<Digest>, Option<int>) {
    (row.verificationToken, row.resetToken, row.resetExpiry)
  }

  ghost predicate IsRun(hash: Hash, resetTTL: int, ws: seq<World>, ops: seq<Op>) {
    && |ws| == |ops| + 1
    && ws[0].rows == map[] && ws[0].log == []
    && forall i :: 0 <= i < |ops| ==> ws[i + 1] == Apply(hash, resetTTL, ws[i], ops[i])
  }

  // ---- What the rows remember of the log ----

  datatype Letter = Letter(digest: Digest, expiry: Option<int>)

  /** The newest token of a kind sent to a user, unless something has voided it since. */
  function Outstanding(log: seq<Event>, kind: Kind, user: UserId): Option<Letter> {
    if log == [] then None
    else
      var last := log[|log| - 1];
      if last.kind != kind || last.user != user then Outstanding(log[..|log| - 1], kind, user)
      else if last.Issued? then Some(Letter(last.digest, last.expiry))
      else None
  }

  /** What the columns of a kind say of one row. */
  function Columns(row: User, kind: Kind): Option<Letter> {
    match kind
    case Verification => if row.verificationToken.None? then None else Some(Letter(row.verificationToken.value, None))
    case Reset => if row.resetToken.None? then None else Some(Letter(row.resetToken.value, row.resetExpiry))
  }

  function Remembered(rows: Rows, kind: Kind, user: UserId): Option<Letter> {
    if user in rows then Columns(rows[user], kind) else None
  }

  ghost predicate Agrees(w: World, kind: Kind, user: UserId) {
    Remembered(w.rows, kind, user) == Outstanding(w.log, kind, user)
  }

  /** Rows and log agree on every user's tokens. */
  ghost predicate Recorded(w: World) {
    forall kind, user :: Agrees(w, kind, user)
  }

  lemma LoggedEvent(log: seq<Event>, e: Event, kind: Kind, user: UserId)
    ensures Outstanding(log + [e], kind, user) ==
      if e.kind != kind || e.user != user then Outstanding(log, kind, user)
      else if e.Issued? then Some(Letter(e.digest, e.expiry)) else None
  {
    assert (log + [e])[..|log|] == log;
  }

  lemma WritingOneRow(rows: Rows, writer: UserId, row: User, kind: Kind, user: UserId)
    requires Find(rows, writer).Some?
    ensures Remembered(Written(rows, writer, row), kind, user)
         == if user == writer then Columns(row, kind) else Remembered(rows, kind, user)
  {
  }

  /** A write and the event logged for it keep rows and log in agreement, if the row's columns say the same as the event. */
  lemma LoggedWriteAgrees(w: World, writer: UserId, row: User, e: Event, kind: Kind, user: UserId)
    requires Find(w.rows, writer).Some? && e.user == writer && Agrees(w, kind, user)
    requires Columns(row, kind) ==
      if e.kind != kind then Columns(w.rows[writer], kind)
      else if e.Issued? then Some(Letter(e.digest, e.expiry)) else None
    ensures Agrees(Logged(w, Written(w.rows, writer, row), e), kind, user)
  {
    WritingOneRow(w.rows, writer, row, kind, user);
    LoggedEvent(w.log, e, kind, user);
  }

  lemma SendingIsRecorded(hash: Hash, resetTTL: int, w: World, op: Op, kind: Kind, user: UserId)
    requires (op.SendVerification? || op.RequestReset?) && Agrees(w, kind, user)
    ensures Agrees(Apply(hash, resetTTL, w, op), kind, user)
  {
    if op.SendVerification? {
      var id := Name(op.id);
      if Find(w.rows, id).Some? && !w.rows[id].emailVerified {
        var row := w.rows[id].(verificationToken := Some(hash(op.secret)));
        LoggedWriteAgrees(w, id, row, Issued(Verification, id, hash(op.secret), None), kind, user);
      }
    } else if op.who.Some? && Find(w.rows, Name(op.who.value)).Some? {
      var id, expiry := Name(op.who.value), Some(w.now + resetTTL);
      var row := w.rows[id].(resetToken := Some(hash(op.secret)), resetExpiry := expiry);
      LoggedWriteAgrees(w, id, row, Issued(Reset, id, hash(op.secret), expiry), kind, user);
    }
  }

  lemma VerifyingIsRecorded(hash: Hash, resetTTL: int, w: World, op: Op, kind: Kind, user: UserId)
    requires op.VerifyEmail? && Agrees(w, kind, user)
    ensures Agrees(Apply(hash, resetTTL, w, op), kind, user)
  {
    var claim := ParseEmailToken(op.token, hash);
    if Verified(w.rows, claim).1.Ok? {
      var id := claim.value.user;
      var row := w.rows[id].(emailVerified := true, verificationToken := None);
      LoggedWriteAgrees(w, id, row, Spent(Verification, id), kind, user);
    }
  }

  lemma PasswordsAreRecorded(hash: Hash, resetTTL: int, w: World, op: Op, kind: Kind, user: UserId)
    requires (op.ResetPassword? || op.ChangePassword?) && Agrees(w, kind, user)
    ensures Agrees(Apply(hash, resetTTL, w, op), kind, user)
  {
    var w' := Apply(hash, resetTTL, w, op);
    if w' != w {
      var id := if op.ChangePassword? then Name(op.id) else ParseEmailToken(op.token, hash).value.user;
      LoggedWriteAgrees(w, id, WithPassword(w.rows[id], op.newHash.value), Spent(Reset, id), kind, user);
    }
  }

  lemma OthersAreRecorded(hash: Hash, resetTTL: int, w: World, op: Op, kind: Kind, user: UserId)
    requires !op.SendVerification? && !op.RequestReset? && !op.VerifyEmail? && !op.ResetPassword? && !op.ChangePassword?
    requires Agrees(w, kind, user)
    ensures Agrees(Apply(hash, resetTTL, w, op), kind, user)
  {
  }

  lemma StepIsRecorded(hash: Hash, resetTTL: int, w: World, op: Op)
    requires Recorded(w)
    ensures Recorded(Apply(hash, resetTTL, w, op))
  {
    forall kind, user ensures Agrees(Apply(hash, resetTTL, w, op), kind, user) {
      assert Agrees(w, kind, user);
      match op
      case SendVerification(_, _, _) => SendingIsRecorded(hash, resetTTL, w, op, kind, user);
      case RequestReset(_, _) => SendingIsRecorded(hash, resetTTL, w, op, kind, user);
      case VerifyEmail(_) => VerifyingIsRecorded(hash, resetTTL, w, op, kind, user);
      case ResetPassword(_, _) => PasswordsAreRecorded(hash, resetTTL, w, op, kind, user);
      case ChangePassword(_, _, _) => PasswordsAreRecorded(hash, resetTTL, w, op, kind, user);
      case _ => OthersAreRecorded(hash, resetTTL, w, op, kind, user);
    }
  }

  lemma {:induction false} RunIsRecorded(hash: Hash, resetTTL: int, ws: seq<World>, ops: seq<Op>, j: nat)
    requires IsRun(hash, resetTTL, ws, ops) && j < |ws|
    ensures Recorded(ws[j])
  {
    if 0 < j {
      RunIsRecorded(hash, resetTTL, ws, ops, j - 1);
      StepIsRecorded(hash, resetTTL, ws[j - 1], ops[j - 1]);
    }
  }

  /** The claim is the newest unvoided one sent to a live account, and a reset claim is not past its expiry. */
  ghost predicate Opens(w: World, kind: Kind, claim: Claim) {
    var letter := Outstanding(w.log, kind, claim.user);
    && Find(w.rows, claim.user).Some?
    && letter.Some? && letter.value.digest == claim.digest
    && (kind == Reset ==> letter.value.expiry.Some? && w.now < letter.value.expiry.value)
  }

  /**
   A reset goes through exactly for the newest token sent to a live account, before its
   expiry, with nothing having voided it since, and an acceptable password.
   */
  lemma ResetSucceedsExactlyWhen(
    hash: Hash, resetTTL: int, ws: seq<World>, ops: seq<Op>, j: nat, token: string, newHash: Option<string>)
    requires IsRun(hash, resetTTL, ws, ops) && j < |ws|
    ensures var claim := ParseEmailToken(token, hash);
            PasswordReset(ws[j].rows, claim, newHash, ws[j].now).1.Ok?
            <==> claim.Some? && Opens(ws[j], Reset, claim.value) && newHash.Some?
  {
    RunIsRecorded(hash, resetTTL, ws, ops, j);
    if claim: Claim :| ParseEmailToken(token, hash) == Some(claim) {
      assert Agrees(ws[j], Reset, claim.user);
    }
  }

  /** Likewise for verification, which has no expiry. */
  lemma VerificationSucceedsExactlyWhen(hash: Hash, resetTTL: int, ws: seq<World>, ops: seq<Op>, j: nat, token: string)
    requires IsRun(hash, resetTTL, ws, ops) && j < |ws|
    ensures var claim := ParseEmailToken(token, hash);
            Verified(ws[j].rows, claim).1.Ok? <==> claim.Some? && Opens(ws[j], Verification, claim.value)
  {
    RunIsRecorded(hash, resetTTL, ws, ops, j);
    if claim: Claim :| ParseEmailToken(token, hash) == Some(claim) {
      assert Agrees(ws[j], Verification, claim.user);
    }
  }

  // ---- Single use ----

  ghost predicate DistinctDigests(log: seq<Event>) {
    forall p, q :: 0 <= p < q < |log| && log[p].Issued? && log[q].Issued? ==> log[p].digest != log[q].digest
  }

  ghost predicate Works(hash: Hash, w: World, kind: Kind, token: string) {
    match kind
    case Verification => Verified(w.rows, ParseEmailToken(token, hash)).1.Ok?
    case Reset => exists h: string :: PasswordReset(w.rows, ParseEmailToken(token, hash), Some(h), w.now).1.Ok?
  }

  lemma {:induction false} OutstandingIsLast(log: seq<Event>, kind: Kind, user: UserId) returns (p: nat)
    requires Outstanding(log, kind, user).Some?
    ensures p < |log| && log[p].Issued? && log[p].kind == kind && log[p].user == user
    ensures log[p].digest == Outstanding(log, kind, user).value.digest
    ensures forall q :: p < q < |log| ==> log[q].kind != kind || log[q].user != user
  {
    var last := log[|log| - 1];
    if last.kind == kind && last.user == user {
      p := |log| - 1;
    } else {
      p := OutstandingIsLast(log[..|log| - 1], kind, user);
    }
  }

  lemma {:induction false} LogGrows(hash: Hash, resetTTL: int, ws: seq<World>, ops: seq<Op>, i: nat, j: nat)
    requires IsRun(hash, resetTTL, ws, ops) && i <= j < |ws|
    ensures ws[i].log <= ws[j].log
  {
    if i < j {
      LogGrows(hash, resetTTL, ws, ops, i, j - 1);
      assert ws[j] == Apply(hash, resetTTL, ws[j - 1], ops[j - 1]);
    }
  }

  /** A token followed in the log by anything of its kind for its user is dead. */
  lemma SupersededTokenIsDead(
    hash: Hash, resetTTL: int, ws: seq<World>, ops: seq<Op>, j: nat, kind: Kind, p: nat, q: nat, token: string)
    requires IsRun(hash, resetTTL, ws, ops) && j < |ws| && DistinctDigests(ws[j].log)
    requires p < q < |ws[j].log|
    requires var log := ws[j].log;
             log[p].Issued? && log[p].kind == log[q].kind == kind && log[q].user == log[p].user
             && ParseEmailToken(token, hash) == Some(Claim(log[p].user, log[p].digest))
    ensures !Works(hash, ws[j], kind, token)
  {
    var log := ws[j].log;
    RunIsRecorded(hash, resetTTL, ws, ops, j);
    assert Agrees(ws[j], kind, log[p].user);
    if Outstanding(log, kind, log[p].user).Some? {
      var r := OutstandingIsLast(log, kind, log[p].user);
      assert log[r].digest != log[p].digest;
    }
  }

  /** Whoever gets a token accepted holds one that was issued for that user. */
  lemma WorkingTokenWasIssued(hash: Hash, resetTTL: int, ws: seq<World>, ops: seq<Op>, j: nat, kind: Kind, token: string)
    returns (p: nat)
    requires IsRun(hash, resetTTL, ws, ops) && j < |ws| && Works(hash, ws[j], kind, token)
    ensures ParseEmailToken(token, hash).Some?
    ensures var claim := ParseEmailToken(token, hash).value;
            p < |ws[j].log| && ws[j].log[p].Issued? && ws[j].log[p].kind == kind
            && ws[j].log[p].user == claim.user && ws[j].log[p].digest == claim.digest
  {
    RunIsRecorded(hash, resetTTL, ws, ops, j);
    var claim := ParseEmailToken(token, hash).value;
    assert Agrees(ws[j], kind, claim.user);
    p := OutstandingIsLast(ws[j].log, kind, claim.user);
  }

  predicate Redeems(op: Op, kind: Kind, token: string) {
    match kind
    case Verification => op == VerifyEmail(token)
    case Reset => op.ResetPassword? && op.token == token && op.newHash.Some?
  }

  lemma RedeemingIsLogged(hash: Hash, resetTTL: int, w: World, op: Op, kind: Kind, token: string)
    requires Redeems(op, kind, token) && Works(hash, w, kind, token)
    ensures ParseEmailToken(token, hash).Some?
    ensures Apply(hash, resetTTL, w, op).log == w.log + [Spent(kind, ParseEmailToken(token, hash).value.user)]
  {
  }

  /** Once a mailed token has done its work, no spelling of it ever works again. */
  lemma TokensWorkOnce(
    hash: Hash, resetTTL: int, ws: seq<World>, ops: seq<Op>, i: nat, j: nat, kind: Kind, token: string, token': string)
    requires IsRun(hash, resetTTL, ws, ops) && i < j < |ws| && DistinctDigests(ws[j].log)
    requires Redeems(ops[i], kind, token)
    requires Works(hash, ws[i], kind, token)
    requires ParseEmailToken(token', hash) == ParseEmailToken(token, hash)
    ensures !Works(hash, ws[j], kind, token')
  {
    var p := WorkingTokenWasIssued(hash, resetTTL, ws, ops, i, kind, token);
    RedeemingIsLogged(hash, resetTTL, ws[i], ops[i], kind, token);
    LogGrows(hash, resetTTL, ws, ops, i + 1, j);
    SupersededTokenIsDead(hash, resetTTL, ws, ops, j, kind, p, |ws[i].log|, token');
  }

  /** A reset link mailed before a deliberate password change never works after it. */
  lemma PasswordChangeVoidsResetTokens(
    hash: Hash, resetTTL: int, ws: seq<World>, ops: seq<Op>, i: nat, j: nat, p: nat, token: string)
    requires IsRun(hash, resetTTL, ws, ops) && i < j < |ws| && DistinctDigests(ws[j].log)
    requires ops[i].ChangePassword?
    requires PasswordChanged(ws[i].rows, Name(ops[i].id), ops[i].currentMatches, ops[i].newHash).1.Ok?
    requires p < |ws[i].log| && ws[i].log[p].Issued? && ws[i].log[p].kind == Reset && ws[i].log[p].user == Name(ops[i].id)
    requires ParseEmailToken(token, hash) == Some(Claim(ws[i].log[p].user, ws[i].log[p].digest))
    ensures !Works(hash, ws[j], Reset, token)
  {
    assert ws[i + 1] == Apply(hash, resetTTL, ws[i], ops[i]);
    LogGrows(hash, resetTTL, ws, ops, i + 1, j);
    SupersededTokenIsDead(hash, resetTTL, ws, ops, j, Reset, p, |ws[i].log|, token);
  }

  /** A newer link of the same kind voids the older ones. */
  lemma OnlyTheNewestWorks(
    hash: Hash, resetTTL: int, ws: seq<World>, ops: seq<Op>, j: nat, kind: Kind, p: nat, token: string)
    requires IsRun(hash, resetTTL, ws, ops) && j < |ws| && DistinctDigests(ws[j].log)
    requires p < |ws[j].log| && ws[j].log[p].Issued? && ws[j].log[p].kind == kind
    requires ParseEmailToken(token, hash) == Some(Claim(ws[j].log[p].user, ws[j].log[p].digest))
    requires Works(hash, ws[j], kind, token)
    ensures forall q :: p < q < |ws[j].log| ==> ws[j].log[q].kind != kind || ws[j].log[q].user != ws[j].log[p].user
  {
    forall q | p < q < |ws[j].log| && ws[j].log[q].kind == kind
      ensures ws[j].log[q].user != ws[j].log[p].user
    {
      if ws[j].log[q].user == ws[j].log[p].user {
        SupersededTokenIsDead(hash, resetTTL, ws, ops, j, kind, p, q, token);
      }
    }
  }

  // ---- What a link or a change does ----

  /** A reset or change that goes through for this user, with this hash. */
  predicate SetsHash(hash: Hash, w: World, op: Op, user: UserId, newHash: string) {
    match op
    case ResetPassword(token, h) =>
      var claim := ParseEmailToken(token, hash);
      claim.Some? && claim.value.user == user && h == Some(newHash) && PasswordReset(w.rows, claim, h, w.now).1.Ok?
    case ChangePassword(id, currentMatches, h) =>
      Name(id) == user && h == Some(newHash) && PasswordChanged(w.rows, Name(id), currentMatches, h).1.Ok?
    case _ => false
  }

  predicate Verifies(hash: Hash, w: World, op: Op, user: UserId) {
    op.VerifyEmail? && Verified(w.rows, ParseEmailToken(op.token, hash)).1.Ok? && ParseEmailToken(op.token, hash).value.user == user
  }

  predicate UpdatesUser(op: Op, user: UserId) {
    op.Update? && op.user == user
  }

  function HashIn(w: World, user: UserId): Option<string> {
    if user in w.rows then Some(w.rows[user].passwordHash) else None
  }

  predicate VerifiedIn(w: World, user: UserId) {
    user in w.rows && w.rows[user].emailVerified
  }

  /** A new password goes into the row, and no other step but an update of that row touches the password in it. */
  lemma PasswordsChangeExactlyWhen(hash: Hash, resetTTL: int, w: World, op: Op, user: UserId, newHash: string)
    requires user in w.rows
    ensures SetsHash(hash, w, op, user, newHash) ==> HashIn(Apply(hash, resetTTL, w, op), user) == Some(newHash)
    ensures HashIn(Apply(hash, resetTTL, w, op), user) == HashIn(w, user)
      || UpdatesUser(op, user) || exists h :: SetsHash(hash, w, op, user, h)
  {
    var w' := Apply(hash, resetTTL, w, op);
    if (op.ResetPassword? || op.ChangePassword?) && op.newHash.Some? && w' != w {
      assert SetsHash(hash, w, op, user, op.newHash.value) || HashIn(w', user) == HashIn(w, user);
    }
  }

  ghost predicate NoNewHash(hash: Hash, ws: seq<World>, ops: seq<Op>, user: UserId, i: nat, j: nat)
    requires |ws| == |ops| + 1 && j < |ws|
  {
    forall k :: i < k < j ==> !UpdatesUser(ops[k], user) && forall h :: !SetsHash(hash, ws[k], ops[k], user, h)
  }

  /** After a reset or change that went through, the stored hash is the new one until the next reset, change or update of that user. */
  lemma {:induction false} NewPasswordStands(
    hash: Hash, resetTTL: int, ws: seq<World>, ops: seq<Op>, i: nat, j: nat, user: UserId, newHash: string)
    requires IsRun(hash, resetTTL, ws, ops) && i < j < |ws| && SetsHash(hash, ws[i], ops[i], user, newHash)
    requires NoNewHash(hash, ws, ops, user, i, j)
    ensures HashIn(ws[j], user) == Some(newHash)
  {
    if i + 1 < j {
      NewPasswordStands(hash, resetTTL, ws, ops, i, j - 1, user, newHash);
      PasswordsChangeExactlyWhen(hash, resetTTL, ws[j - 1], ops[j - 1], user, newHash);
    } else {
      PasswordsChangeExactlyWhen(hash, resetTTL, ws[i], ops[i], user, newHash);
    }
  }

  /** An address becomes verified by a verification that goes through, a registration or an update, and by nothing else. */
  lemma AddressesAreVerifiedExactlyWhen(hash: Hash, resetTTL: int, w: World, op: Op, user: UserId)
    requires !UpdatesUser(op, user) && !(op.Register? && op.user == user)
    ensures VerifiedIn(Apply(hash, resetTTL, w, op), user) <==> VerifiedIn(w, user) || Verifies(hash, w, op, user)
  {
  }

  ghost predicate NotOtherwiseWritten(ops: seq<Op>, user: UserId, i: nat, j: nat)
    requires j <= |ops|
  {
    forall k :: i <= k < j ==> !UpdatesUser(ops[k], user) && !(ops[k].Register? && ops[k].user == user)
  }

  /** Over a stretch of a run without those two, an address is verified at its end exactly if it was or some link in it worked. */
  lemma {:induction false} VerifiedExactlyWhen(
    hash: Hash, resetTTL: int, ws: seq<World>, ops: seq<Op>, i: nat, j: nat, user: UserId)
    requires IsRun(hash, resetTTL, ws, ops) && i <= j < |ws| && NotOtherwiseWritten(ops, user, i, j)
    ensures VerifiedIn(ws[j], user) <==>
      VerifiedIn(ws[i], user) || exists k :: i <= k < j && Verifies(hash, ws[k], ops[k], user)
  {
    if i < j {
      VerifiedExactlyWhen(hash, resetTTL, ws, ops, i, j - 1, user);
      AddressesAreVerifiedExactlyWhen(hash, resetTTL, ws[j - 1], ops[j - 1], user);
    }
  }

  predicate OnlyPasswordSet(rows: Rows, rows': Rows, user: UserId, newHash: string) {
    user in rows && rows' == rows[user := rows[user].(passwordHash := newHash, resetToken := None, resetExpiry := None)]
  }

  predicate OnlyAddressVerified(rows: Rows, rows': Rows, user: UserId) {
    user in rows && rows' == rows[user := rows[user].(emailVerified := true, verificationToken := None)]
  }

  /**
   A change goes through exactly on the current password of a live user and an acceptable new one; what
   else is wrong is told in that order. A refused change or reset leaves every row as it was.
   */
  lemma ChangeSucceedsExactlyWhen(rows: Rows, user: UserId, currentMatches: bool, newHash: Option<string>)
    ensures var (rows', r) := PasswordChanged(rows, user, currentMatches, newHash);
            var live := user in rows && !rows[user].deleted;
            && (r.Ok? <==> live && currentMatches && newHash.Some?)
            && (r == Err(NoSuchUser) <==> !live)
            && (r == Err(InvalidCredentials) <==> live && !currentMatches)
            && (r.Err? ==> rows' == rows)
            && (r.Ok? ==> OnlyPasswordSet(rows, rows', user, newHash.value))
  {
  }

  /** The policy is told only to those whose token would do; a refusal changes nothing, a reset only the password and the token. */
  lemma ResetRefusals(rows: Rows, claim: Option<Claim>, newHash: Option<string>, now: int)
    ensures var (rows', r) := PasswordReset(rows, claim, newHash, now);
            && (r == Err(WeakPassword) <==> newHash.None? && PasswordReset(rows, claim, Some(""), now).1.Ok?)
            && (r.Err? ==> rows' == rows && (r == Err(WeakPassword) || r == Err(InvalidToken)))
            && (r.Ok? ==> claim.Some? && newHash.Some? && OnlyPasswordSet(rows, rows', claim.value.user, newHash.value))
  {
  }

  /** A verification link goes to live users not yet verified; it replaces the one before, and stays if the mail is lost. */
  lemma SendingSucceedsExactlyWhen(rows: Rows, user: UserId, digest: Digest, mailed: bool)
    ensures var (rows', r) := VerificationSent(rows, user, digest, mailed);
            var live := user in rows && !rows[user].deleted;
            && (r.Ok? <==> live && !rows[user].emailVerified && mailed)
            && (r == Err(NoSuchUser) <==> !live)
            && (r == Err(AlreadyVerified) <==> live && rows[user].emailVerified)
            && rows' == if live && !rows[user].emailVerified
                        then rows[user := rows[user].(verificationToken := Some(digest))] else rows
  {
  }

  /** A verification that fails changes nothing; one that works changes the flag and the token only. */
  lemma VerifyingChanges(rows: Rows, claim: Option<Claim>)
    ensures var (rows', r) := Verified(rows, claim);
            && (r.Err? ==> rows' == rows && r == Err(InvalidToken))
            && (r.Ok? ==> claim.Some? && OnlyAddressVerified(rows, rows', claim.value.user))
  {
  }

  /** Asking for a reset replaces the token and its expiry of a live user's row; for anybody else it does nothing. */
  lemma RequestingChanges(rows: Rows, user: Option<UserId>, digest: Digest, expiry: int)
    ensures ResetRequested(rows, user, digest, expiry) ==
      if user.Some? && user.value in rows && !rows[user.value].deleted
      then rows[user.value := rows[user.value].(resetToken := Some(digest), resetExpiry := Some(expiry))] else rows
  {
  }
}
