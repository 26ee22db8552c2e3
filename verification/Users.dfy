/** User rows and the statements that change them. */
module Users {
  import opened Basics

  type UserId = string
  type Digest = seq<int>

  datatype User = User(
    username: string,
    email: string,
    passwordHash: string,
    role: string,
    emailVerified: bool,
    verificationToken: Option<Digest>,
    resetToken: Option<Digest>,
    resetExpiry: Option<int>,
    lastLogin: Option<int>,
    isBanned: bool,
    banExpiry: Option<int>,
    deleted: bool)

  type Rows = map<UserId, User>

  datatype UserError = UserNotFound | UserAlreadyExists

  /** A ban without an expiry is permanent; one with an expiry lapses by itself. */
  predicate IsCurrentlyBanned(u: User, now: int) {
    u.isBanned && (u.banExpiry.None? || now < u.banExpiry.value)
  }

  function Find(rows: Rows, id: UserId): Option<User> {
    if id in rows && !rows[id].deleted then Some(rows[id]) else None
  }

  /** UPDATE users SET ...: the ban columns and deleted_at keep what the row held. */
  function Written(rows: Rows, id: UserId, user: User): Rows {
    if Find(rows, id).None? then rows
    else rows[id := user.(isBanned := rows[id].isBanned, banExpiry := rows[id].banExpiry, deleted := false)]
  }

  /** A changed username or email that another row, deleted ones included, already holds. */
  predicate Conflicts(rows: Rows, id: UserId, user: User)
    requires id in rows
  {
    exists other :: other in rows && other != id &&
      (  (user.username != rows[id].username && user.username == rows[other].username)
      || (user.email != rows[id].email && user.email == rows[other].email))
  }

  /** A username or email that some row, a deleted one included, already holds. */
  predicate Taken(rows: Rows, user: User) {
    exists other :: other in rows && (user.username == rows[other].username || user.email == rows[other].email)
  }

  /** UNIQUE on users.username and on users.email. */
  ghost predicate NamesAreUnique(rows: Rows) {
    forall a, b :: a in rows && b in rows && a != b ==> rows[a].username != rows[b].username && rows[a].email != rows[b].email
  }

  function Banned(rows: Rows, id: UserId, until: Option<int>): Rows {
    if Find(rows, id).None? then rows else rows[id := rows[id].(isBanned := true, banExpiry := until)]
  }

  function Unbanned(rows: Rows, id: UserId): Rows {
    if Find(rows, id).None? then rows else rows[id := rows[id].(isBanned := false, banExpiry := None)]
  }

  function SoftDeleted(rows: Rows, id: UserId): Rows {
    if Find(rows, id).None? then rows else rows[id := rows[id].(deleted := true)]
  }

  ghost predicate OthersStay(id: UserId, rows: Rows, rows': Rows) {
    rows'.Keys == rows.Keys && forall other :: other in rows && other != id ==> rows'[other] == rows[other]
  }

  /** Nothing in the row but its ban has changed, and the ban is in force at exactly these times. */
  ghost predicate BannedDuring(row: User, row': User, during: int -> bool) {
    && row'.(isBanned := row.isBanned, banExpiry := row.banExpiry) == row
    && forall t :: IsCurrentlyBanned(row', t) <==> during(t)
  }

  class UserRepository {
    var rows: Rows

    constructor ()
      ensures rows == map[]
    {
      rows := map[];
    }

    method Create(id: UserId, user: User) returns (r: Result<(), UserError>)
      modifies this
      ensures r.Ok? <==> id !in old(rows) && !Taken(old(rows), user)
      ensures rows == if r.Ok? then old(rows)[id := user] else old(rows)
      ensures NamesAreUnique(old(rows)) ==> NamesAreUnique(rows)
    {
      if id in rows || Taken(rows, user) {
        return Err(UserAlreadyExists);
      }
      rows := rows[id := user];
      r := Ok(());
    }

    method GetByID(id: UserId) returns (r: Result<User, UserError>)
      ensures r == match Find(rows, id) case Some(u) => Ok(u) case None => Err(UserNotFound)
    {
      if id in rows && !rows[id].deleted {
        return Ok(rows[id]);
      }
      r := Err(UserNotFound);
    }

    /** Writes back a row read earlier, possibly by a caller whose copy is stale. */
    method Update(id: UserId, user: User) returns (r: Result<(), UserError>)
      modifies this
      ensures r == if Find(old(rows), id).None? then Err(UserNotFound)
                   else if Conflicts(old(rows), id, user) then Err(UserAlreadyExists) else Ok(())
      ensures rows == if r.Ok? then Written(old(rows), id, user) else old(rows)
      ensures forall u, t :: u in old(rows) ==>
        u in rows && (IsCurrentlyBanned(rows[u], t) <==> IsCurrentlyBanned(old(rows)[u], t))
      ensures OthersStay(id, old(rows), rows)
      ensures r.Ok? ==>
        rows[id].(isBanned := user.isBanned, banExpiry := user.banExpiry, deleted := user.deleted) == user && !rows[id].deleted
      ensures NamesAreUnique(old(rows)) ==> NamesAreUnique(rows)
    {
      if id !in rows || rows[id].deleted {
        return Err(UserNotFound);
      }
      if Conflicts(rows, id, user) {
        return Err(UserAlreadyExists);
      }
      var current := rows[id];
      rows := rows[id := User(
        user.username, user.email, user.passwordHash, user.role, user.emailVerified,
        user.verificationToken, user.resetToken, user.resetExpiry, user.lastLogin,
        current.isBanned, current.banExpiry, false)];
      r := Ok(());
    }

    method BanUser(id: UserId, until: Option<int>) returns (r: Result<(), UserError>)
      modifies this
      ensures rows == Banned(old(rows), id, until)
      ensures r.Ok? <==> Find(old(rows), id).Some?
      ensures OthersStay(id, old(rows), rows)
      ensures r.Ok? ==> BannedDuring(old(rows)[id], rows[id], t => until.Some? ==> t < until.value)
      ensures r.Err? ==> rows == old(rows)
    {
      if id !in rows || rows[id].deleted {
        return Err(UserNotFound);
      }
      rows := rows[id := rows[id].(isBanned := true, banExpiry := until)];
      r := Ok(());
    }

    method UnbanUser(id: UserId) returns (r: Result<(), UserError>)
      modifies this
      ensures rows == Unbanned(old(rows), id)
      ensures r.Ok? <==> Find(old(rows), id).Some?
      ensures OthersStay(id, old(rows), rows)
      ensures r.Ok? ==> BannedDuring(old(rows)[id], rows[id], t => false)
      ensures r.Err? ==> rows == old(rows)
    {
      if id !in rows || rows[id].deleted {
        return Err(UserNotFound);
      }
      rows := rows[id := rows[id].(isBanned := false, banExpiry := None)];
      r := Ok(());
    }

    method Delete(id: UserId) returns (r: Result<(), UserError>)
      modifies this
      ensures rows == SoftDeleted(old(rows), id)
      ensures r.Ok? <==> Find(old(rows), id).Some?
      ensures OthersStay(id, old(rows), rows) && Find(rows, id).None?
    {
      if id !in rows || rows[id].deleted {
        return Err(UserNotFound);
      }
      rows := rows[id := rows[id].(deleted := true)];
      r := Ok(());
    }
  }
}
