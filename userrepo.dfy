/**
 * internal/storage/postgres/userRepo: the users table behind the UserRepo
 * interface. Every statement goes through GetQuerier, so it joins the
 * transaction bound to the context when there is one. Database errors are
 * translated: a unique violation becomes ErrUserExists, an empty result
 * ErrUserNotFound, anything else is wrapped with the operation's name.
 */
module UserRepo {
  import opened Wrappers
  import opened Errors
  import opened Uuid
  import opened Models
  import opened Postgres
  import opened TxManager

  const SaveExistsPrefix: string := "postgres.userRepo.Save: email already exists: "
  const SaveFailedPrefix: string := "postgres.userRepo.Save: failed to save user: "
  const GetNotFoundPrefix: string := "postgres.userRepo.GetByEmail: user not found: "
  const GetFailedPrefix: string := "postgres.userRepo.GetByEmail: failed to get user by email: "
  const IsAdminNotFoundPrefix: string := "postgres.userRepo.IsAdmin: user not found: "
  const IsAdminFailedPrefix: string := "postgres.userRepo.IsAdmin: failed to get user by ID: "

  predicate EmailTaken(users: seq<User>, email: string) {
    exists i | 0 <= i < |users| :: users[i].email == email
  }

  predicate IdTaken(users: seq<User>, id: Uuid) {
    exists i | 0 <= i < |users| :: users[i].id == id
  }

  /** The first row with the given email (the one QueryRow scans), or -1. */
  function FindByEmail(users: seq<User>, email: string): (i: int)
    ensures -1 <= i < |users|
    ensures i >= 0 ==> users[i].email == email && forall k | 0 <= k < i :: users[k].email != email
    ensures i == -1 <==> !EmailTaken(users, email)
  {
    if users == [] then -1
    else if users[0].email == email then 0
    else
      var j := FindByEmail(users[1..], email);
      if j == -1 then -1 else j + 1
  }

  /** The first row with the given id, or -1. */
  function FindById(users: seq<User>, id: Uuid): (i: int)
    ensures -1 <= i < |users|
    ensures i >= 0 ==> users[i].id == id && forall k | 0 <= k < i :: users[k].id != id
    ensures i == -1 <==> !IdTaken(users, id)
  {
    if users == [] then -1
    else if users[0].id == id then 0
    else
      var j := FindById(users[1..], id);
      if j == -1 then -1 else j + 1
  }

  /** The row INSERT INTO users (email, hashed_password) creates: a generated id and is_admin's default. */
  function NewRow(user: User, id: Uuid): User {
    User(id, user.email, user.hashedPassword, false)
  }

  /**
   * INSERT INTO users (email, hashed_password) VALUES ($1, $2) RETURNING id, sent to q.
   * The insert fails with a unique violation when the email or the generated id is taken.
   */
  function Insert(db: Db, q: Querier, user: User, gen: InsertEnv): (r: (Db, Result<Uuid, Error>))
    ensures r.1.Failure? ==> r.0 == db && FromDriver(r.1.error)
    ensures r.1.Success? ==>
      && Snapshot(db, q).Success?
      && r.1.value == gen.id
      && r.0 == Store(db, q, Snapshot(db, q).value.(users := Snapshot(db, q).value.users + [NewRow(user, gen.id)]))
  {
    match Snapshot(db, q)
    case Failure(e) => (db, Failure(e))
    case Success(t) =>
      if gen.fault.Some? then (db, Failure(FaultError(gen.fault.value)))
      else if EmailTaken(t.users, user.email) || IdTaken(t.users, gen.id) then
        (db, Failure(DuplicateKey))
      else (Store(db, q, t.(users := t.users + [NewRow(user, gen.id)])), Success(gen.id))
  }

  /** What Save returns and leaves behind: uuid.Nil with the error, or the generated id. */
  datatype Saved = Saved(db: Db, id: Uuid, err: Option<Error>)

  /** The error translation of Save. */
  function SaveError(e: Error): (r: Error)
    requires FromDriver(e)
    ensures Is(r, ErrUserExists) <==> PgCode(e) == Some(UniqueViolation)
    ensures !Is(r, ErrUserExists) ==> r == Wrap(SaveFailedPrefix, e) && FromDriver(r)
  {
    if PgCode(e) == Some(UniqueViolation) then Wrap(SaveExistsPrefix, Sentinel(ErrUserExists))
    else Wrap(SaveFailedPrefix, e)
  }

  /**
   * userRepo.Save(ctx, user) as a transition of the database: the single statement
   * goes to GetQuerier(ctx). Only email and hashed password are written; the caller's
   * id and admin flag are ignored.
   */
  function SaveOn(db: Db, ctx: Context, user: User, gen: InsertEnv): (r: Saved)
    ensures r.err.Some? ==> r.id == Nil && r.db == db
    ensures r.err.None? ==>
      var q := GetQuerier(ctx);
      && r.id == gen.id
      && Snapshot(db, q).Success?
      && !EmailTaken(Snapshot(db, q).value.users, user.email)
      && r.db == Store(db, q, Snapshot(db, q).value.(users := Snapshot(db, q).value.users + [NewRow(user, gen.id)]))
    ensures r.err.None? <==> gen.fault.None? && Snapshot(db, GetQuerier(ctx)).Success?
                              && !EmailTaken(Snapshot(db, GetQuerier(ctx)).value.users, user.email)
                              && !IdTaken(Snapshot(db, GetQuerier(ctx)).value.users, gen.id)
    ensures r.err.Some? ==> (Is(r.err.value, ErrUserExists) <==>
      && Snapshot(db, GetQuerier(ctx)).Success?
      && (if gen.fault.Some? then gen.fault.value.ServerError? && gen.fault.value.code == UniqueViolation
          else EmailTaken(Snapshot(db, GetQuerier(ctx)).value.users, user.email)
               || IdTaken(Snapshot(db, GetQuerier(ctx)).value.users, gen.id)))
    ensures r.err.Some? && Snapshot(db, GetQuerier(ctx)).Success? ==>
      r.err == Some(SaveError(if gen.fault.Some? then FaultError(gen.fault.value) else DuplicateKey))
  {
    var (after, res) := Insert(db, GetQuerier(ctx), user, gen);
    match res
    case Success(id) => Saved(after, id, None)
    case Failure(e) => Saved(db, Nil, Some(SaveError(e)))
  }

  /** A duplicate email yields ErrUserExists and uuid.Nil, and nothing is written. */
  lemma SaveDuplicateEmail(db: Db, ctx: Context, user: User, gen: InsertEnv)
    requires gen.fault.None? && Snapshot(db, GetQuerier(ctx)).Success?
    requires EmailTaken(Snapshot(db, GetQuerier(ctx)).value.users, user.email)
    ensures var r := SaveOn(db, ctx, user, gen);
      r.err.Some? && Is(r.err.value, ErrUserExists) && r.id == Nil && r.db == db
  {
  }

  /** Any other failure is a wrapped "failed to save user" error, never ErrUserExists. */
  lemma SaveOtherFailure(db: Db, ctx: Context, user: User, gen: InsertEnv)
    requires gen.fault.Some? && gen.fault.value.ConnectionError?
    requires Snapshot(db, GetQuerier(ctx)).Success?
    ensures var r := SaveOn(db, ctx, user, gen);
      && r.err == Some(Wrap(SaveFailedPrefix, FaultError(gen.fault.value)))
      && !Is(r.err.value, ErrUserExists) && r.id == Nil
  {
  }

  lemma AppendUnique(users: seq<User>, row: User)
    requires UsersUnique(users) && !EmailTaken(users, row.email) && !IdTaken(users, row.id)
    ensures UsersUnique(users + [row])
  {
    var s := users + [row];
    forall i, j | 0 <= i < j < |s| ensures s[i].email != s[j].email && s[i].id != s[j].id {
      if j == |users| {
        assert s[i] == users[i] && s[j] == row;
      } else {
        assert s[i] == users[i] && s[j] == users[j];
      }
    }
  }

  /** Save keeps the unique constraints of every copy of the tables. */
  lemma SaveKeepsValid(db: Db, ctx: Context, user: User, gen: InsertEnv)
    requires DbValid(db)
    ensures DbValid(SaveOn(db, ctx, user, gen).db)
  {
    var r := SaveOn(db, ctx, user, gen);
    if r.err.None? {
      var q := GetQuerier(ctx);
      var t := Snapshot(db, q).value;
      assert TablesValid(t);
      AppendUnique(t.users, NewRow(user, gen.id));
    }
  }

  /** A Save issued through a context that carries h changes only that transaction's copy. */
  lemma SaveInTxIsConfined(db: Db, ctx: Context, user: User, gen: InsertEnv, h: TxHandle)
    requires GetQuerier(ctx) == TxQuerier(h)
    ensures Confined(db, SaveOn(db, ctx, user, gen).db, h)
  {
  }

  class UserRepo {
    const pool: Pool

    constructor (pool: Pool)
      ensures this.pool == pool
    {
      this.pool := pool;
    }

    /** u.Save(ctx, user) */
    method Save(ctx: Context, user: User, gen: InsertEnv) returns (id: Uuid, err: Option<Error>)
      modifies pool
      ensures Saved(pool.state, id, err) == SaveOn(old(pool.state), ctx, user, gen)
    {
      var querier := GetQuerier(ctx);
      var (after, res) := Insert(pool.state, querier, user, gen);
      if res.Failure? {
        return Nil, Some(SaveError(res.error));
      }
      pool.state := after;
      id, err := res.value, None;
    }

    /**
     * u.GetByEmail(ctx, email): SELECT email, hashed_password, is_admin. The id column is
     * not selected, so the returned user's ID is the zero uuid.Nil.
     */
    function GetByEmail(ctx: Context, email: string, fault: Option<DbFault>): (r: Result<User, Error>)
      reads pool
      ensures r.Success? ==> Snapshot(pool.state, GetQuerier(ctx)).Success?
      ensures r.Success? ==>
        var t := Snapshot(pool.state, GetQuerier(ctx)).value;
        && r.value.id == Nil && r.value.email == email
        && exists i | 0 <= i < |t.users| ::
             t.users[i].email == email && t.users[i].hashedPassword == r.value.hashedPassword
             && t.users[i].isAdmin == r.value.isAdmin
      ensures (r.Failure? && Is(r.error, ErrUserNotFound)) <==>
        fault.None? && Snapshot(pool.state, GetQuerier(ctx)).Success?
        && !EmailTaken(Snapshot(pool.state, GetQuerier(ctx)).value.users, email)
      ensures r.Failure? && !Is(r.error, ErrUserNotFound) ==> exists e :: FromDriver(e) && r.error == Wrap(GetFailedPrefix, e)
      ensures (fault.None? && Snapshot(pool.state, GetQuerier(ctx)).Success?
               && EmailTaken(Snapshot(pool.state, GetQuerier(ctx)).value.users, email)) ==> r.Success?
      ensures fault.Some? && Snapshot(pool.state, GetQuerier(ctx)).Success? ==>
        r == Failure(Wrap(GetFailedPrefix, FaultError(fault.value)))
      ensures Snapshot(pool.state, GetQuerier(ctx)).Failure? ==>
        r == Failure(Wrap(GetFailedPrefix, Sentinel(ErrTxClosed)))
    {
      match Snapshot(pool.state, GetQuerier(ctx))
      case Failure(e) => Failure(Wrap(GetFailedPrefix, e))
      case Success(t) =>
        if fault.Some? then Failure(Wrap(GetFailedPrefix, FaultError(fault.value)))
        else
          var i := FindByEmail(t.users, email);
          if i == -1 then Failure(Wrap(GetNotFoundPrefix, Sentinel(ErrUserNotFound)))
          else Success(User(Nil, t.users[i].email, t.users[i].hashedPassword, t.users[i].isAdmin))
    }

    /** u.IsAdmin(ctx, userID): SELECT is_admin FROM users WHERE id = $1. */
    function IsAdmin(ctx: Context, userID: Uuid, fault: Option<DbFault>): (r: Result<bool, Error>)
      reads pool
      ensures r.Success? ==> Snapshot(pool.state, GetQuerier(ctx)).Success?
      ensures r.Success? ==>
        var t := Snapshot(pool.state, GetQuerier(ctx)).value;
        exists i | 0 <= i < |t.users| :: t.users[i].id == userID && t.users[i].isAdmin == r.value
      ensures (r.Failure? && Is(r.error, ErrUserNotFound)) <==>
        fault.None? && Snapshot(pool.state, GetQuerier(ctx)).Success?
        && !IdTaken(Snapshot(pool.state, GetQuerier(ctx)).value.users, userID)
      ensures r.Failure? && !Is(r.error, ErrUserNotFound) ==> exists e :: FromDriver(e) && r.error == Wrap(IsAdminFailedPrefix, e)
      ensures (fault.None? && Snapshot(pool.state, GetQuerier(ctx)).Success?
               && IdTaken(Snapshot(pool.state, GetQuerier(ctx)).value.users, userID)) ==> r.Success?
      ensures fault.Some? && Snapshot(pool.state, GetQuerier(ctx)).Success? ==>
        r == Failure(Wrap(IsAdminFailedPrefix, FaultError(fault.value)))
      ensures Snapshot(pool.state, GetQuerier(ctx)).Failure? ==>
        r == Failure(Wrap(IsAdminFailedPrefix, Sentinel(ErrTxClosed)))
    {
      match Snapshot(pool.state, GetQuerier(ctx))
      case Failure(e) => Failure(Wrap(IsAdminFailedPrefix, e))
      case Success(t) =>
        if fault.Some? then Failure(Wrap(IsAdminFailedPrefix, FaultError(fault.value)))
        else
          var i := FindById(t.users, userID);
          if i == -1 then Failure(Wrap(IsAdminNotFoundPrefix, Sentinel(ErrUserNotFound)))
          else Success(t.users[i].isAdmin)
    }
  }
}
