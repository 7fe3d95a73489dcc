/**
 * internal/services/auth/auth.go: the service behind the gRPC handler.
 * Register hashes the password and, in one transaction, stores the user and a
 * pending outbox event. Login checks the credentials, serves a cached token or
 * issues a new one, records a login event and caches the token for an hour.
 * IsAdmin answers from the cache when it holds "true" or "false" and otherwise
 * from the users table, caching the answer for an hour.
 *
 * Everything the service cannot decide itself is supplied per call in an
 * environment: the clock, the bcrypt salt, the ids the database generates and
 * the failure, if any, of each call into the database, Redis, bcrypt or jwt.
 */
module AuthService {
  import opened Wrappers
  import opened Errors
  import opened Uuid
  import opened Models
  import opened Postgres
  import opened TxManager
  import UserRepo
  import EventRepo
  import CacheRepo
  import Bcrypt
  import Jwt

  const RegisterPrefix: string := "AuthService.Register: "
  const HashPrefix: string := "AuthService.Register: generate password hash:"
  const LoginPrefix: string := "AuthService.Login: "
  const IsAdminPrefix: string := "AuthService.IsAdmin: "

  /** Both caches keep their entries for 1*time.Hour. */
  const CacheTtl: int := CacheRepo.Hour

  datatype RegisterEnv = RegisterEnv(
    now: int,                          // time.Now(), in nanoseconds
    salt: Bcrypt.Salt,
    hashFault: Option<string>,         // bcrypt.GenerateFromPassword
    beginFault: Option<DbFault>,       // BeginTx
    userInsert: InsertEnv,             // INSERT INTO users
    eventInsert: InsertEnv,            // INSERT INTO events
    commitFault: Option<DbFault>)      // COMMIT

  datatype LoginEnv = LoginEnv(
    now: int,
    lookupFault: Option<DbFault>,      // SELECT ... FROM users WHERE email
    cacheGetFault: Option<string>,     // GET email, other than a miss
    tokenFault: Option<string>,        // jwt.NewToken
    eventInsert: InsertEnv,            // INSERT INTO events
    cacheSetFault: Option<string>)     // SET email token

  datatype IsAdminEnv = IsAdminEnv(
    now: int,
    cacheGetFault: Option<string>,     // GET userID, other than a miss
    storeFault: Option<DbFault>,       // SELECT is_admin FROM users WHERE id
    cacheSetFault: Option<string>)     // SET userID "true"/"false"

  /**
   * The outbox event of an action: the marshalled payload {email, action, timestamp}
   * and status PENDING. Its id, aggregate id and event type are left at their zero values.
   */
  function ActionEvent(email: string, action: string, now: int): (e: Event)
    ensures e.payload.email == email && e.payload.action == action && e.status == PENDING
    ensures e.eventType == "" && e.id == Nil && e.aggregateId == Nil
  {
    Event(Nil, Nil, "", Payload(email, action, now / Jwt.Second), PENDING)
  }

  /**
   * The closure Register hands to WithTransaction: save the user, then the event,
   * returning the first error. It captures the id userRepo.Save returned.
   */
  function RegisterBody(ctx: Context, db: Db, user: User, event: Event, userGen: InsertEnv, eventGen: InsertEnv): (r: TxStep<Uuid>)
    ensures UserRepo.SaveOn(db, ctx, user, userGen).err.Some? ==>
      r == TxStep(db, Nil, UserRepo.SaveOn(db, ctx, user, userGen).err)
    ensures r.err.None? ==> r.captured == userGen.id
  {
    var saved := UserRepo.SaveOn(db, ctx, user, userGen);
    if saved.err.Some? then TxStep(saved.db, saved.id, saved.err)
    else
      var logged := EventRepo.SaveOn(saved.db, ctx, event, eventGen);
      TxStep(logged.db, saved.id, logged.err)
  }

  /** The tables a registration leaves behind: the new user and its pending "registration" event. */
  function Registered(t: Tables, email: string, password: string, env: RegisterEnv): Tables {
    Tables(t.users + [User(env.userInsert.id, email, Bcrypt.Hash(env.salt, password), false)],
           t.events + [EventRow(env.eventInsert.id, "", Payload(email, "registration", env.now / Jwt.Second), PENDING)])
  }

  /** The user INSERT succeeds: no failure, and the email and generated id are free. */
  predicate UserInsertOk(users: seq<User>, email: string, gen: InsertEnv) {
    gen.fault.None? && !UserRepo.EmailTaken(users, email) && !UserRepo.IdTaken(users, gen.id)
  }

  /** The user INSERT reports a unique violation: a taken email or id, or an injected 23505. */
  predicate UserInsertConflicts(users: seq<User>, email: string, gen: InsertEnv) {
    if gen.fault.Some? then gen.fault.value.ServerError? && gen.fault.value.code == UniqueViolation
    else UserRepo.EmailTaken(users, email) || UserRepo.IdTaken(users, gen.id)
  }

  /** The event INSERT succeeds: no failure, and the generated id is free. */
  predicate EventInsertOk(events: seq<EventRow>, gen: InsertEnv) {
    gen.fault.None? && !EventRepo.IdTaken(events, gen.id)
  }

  /** When registration against the committed tables t succeeds. */
  predicate RegisterSucceeds(t: Tables, email: string, env: RegisterEnv) {
    && env.hashFault.None?
    && env.beginFault.None?
    && UserInsertOk(t.users, email, env.userInsert)
    && EventInsertOk(t.events, env.eventInsert)
    && env.commitFault.None?
  }

  /**
   * The body run in transaction h: it touches only h's working copy, succeeds exactly
   * when both inserts do, appends both rows, and otherwise returns the error of the
   * first insert that failed, ErrUserExists exactly when the user insert conflicts.
   */
  lemma RegisterBodyInTx(db: Db, ctx: Context, h: TxHandle, user: User, event: Event, userGen: InsertEnv, eventGen: InsertEnv)
    requires DbValid(db) && h in db.open && GetQuerier(ctx) == TxQuerier(h)
    ensures var r := RegisterBody(ctx, db, user, event, userGen, eventGen);
      var t := db.open[h];
      && Confined(db, r.db, h)
      && DbValid(r.db)
      && (r.err.None? <==> UserInsertOk(t.users, user.email, userGen) && EventInsertOk(t.events, eventGen))
      && (r.err.None? ==>
            r.db.open[h] == Tables(t.users + [UserRepo.NewRow(user, userGen.id)], t.events + [EventRepo.NewRow(event, eventGen.id)]))
      && (userGen.fault.Some? ==> r.err == Some(UserRepo.SaveError(FaultError(userGen.fault.value))))
      && (userGen.fault.None? && !UserInsertOk(t.users, user.email, userGen) ==>
            r.err == Some(Wrap(UserRepo.SaveExistsPrefix, Sentinel(ErrUserExists))))
      && (UserInsertOk(t.users, user.email, userGen) && eventGen.fault.Some? ==>
            r.err == Some(EventRepo.SaveError(FaultError(eventGen.fault.value))))
      && (UserInsertOk(t.users, user.email, userGen) && eventGen.fault.None? && !EventInsertOk(t.events, eventGen) ==>
            r.err == Some(Wrap(EventRepo.SaveExistsPrefix, Sentinel(ErrEventExists))))
      && (r.err.Some? && Is(r.err.value, ErrUserExists) <==> UserInsertConflicts(t.users, user.email, userGen))
  {
    var saved := UserRepo.SaveOn(db, ctx, user, userGen);
    UserRepo.SaveKeepsValid(db, ctx, user, userGen);
    UserRepo.SaveInTxIsConfined(db, ctx, user, userGen, h);
    if saved.err.None? {
      EventRepo.SaveKeepsValid(saved.db, ctx, event, eventGen);
      assert saved.db.open[h] == db.open[h].(users := db.open[h].users + [UserRepo.NewRow(user, userGen.id)]);
    }
  }

  /** "true" and "false" are the cache values IsAdmin trusts; anything else is ignored. */
  function CachedFlag(v: string): (r: Option<bool>)
    ensures r.Some? <==> v == "true" || v == "false"
    ensures r == Some(true) <==> v == "true"
  {
    if v == "true" then Some(true) else if v == "false" then Some(false) else None
  }

  /** The value IsAdmin caches, which reads back as the flag it came from. */
  function FlagText(b: bool): (v: string)
    ensures CachedFlag(v) == Some(b)
  {
    if b then "true" else "false"
  }

  /**
   * An admin status cached at t0 is served from the cache until an hour has passed,
   * and at that instant, and is gone a millisecond later.
   */
  lemma AdminStatusCachedForAnHour(entries: map<string, CacheRepo.Entry>, key: string, b: bool, t0: int, t1: int)
    requires t0 <= t1
    ensures var after := CacheRepo.SetEntries(entries, key, CacheRepo.Render(CacheRepo.StrArg(FlagText(b))), CacheTtl, t0);
      && (t1 <= t0 + CacheTtl ==> CacheRepo.Read(after, key, t1) == Some(FlagText(b)))
      && (t1 >= t0 + CacheTtl + CacheRepo.Millisecond ==> CacheRepo.Read(after, key, t1).None?)
  {
    CacheRepo.WholeSecondsAreExact(3600);
    if t1 <= t0 + CacheTtl {
      CacheRepo.GetAfterSet(entries, key, CacheRepo.StrArg(FlagText(b)), CacheTtl, t0, t1);
    } else if t1 >= t0 + CacheTtl + CacheRepo.Millisecond {
      CacheRepo.ExpiredAfterTtl(entries, key, FlagText(b), CacheTtl, t0, t1);
    }
  }

  class AuthService {
    const txManager: TxManager
    const userRepo: UserRepo.UserRepo
    const eventRepo: EventRepo.EventRepo
    const cacheRepo: CacheRepo.CacheRepo
    const tokenTTL: int
    const secretKey: string

    /** The wiring of internal/app/app.go: one pool behind the transaction manager and both repositories. */
    predicate Valid()
      reads txManager.pool
    {
      && userRepo.pool == txManager.pool
      && eventRepo.pool == txManager.pool
      && DbValid(txManager.pool.state)
    }

    /**
     * NewAuthService; the logger is not modelled. Wired as internal/app/app.go wires it,
     * with one pool behind the manager and both repositories, the service is valid.
     */
    constructor (txManager: TxManager, userRepo: UserRepo.UserRepo, eventRepo: EventRepo.EventRepo,
                 cacheRepo: CacheRepo.CacheRepo, tokenTTL: int, secretKey: string)
      ensures this.txManager == txManager && this.userRepo == userRepo && this.eventRepo == eventRepo
      ensures this.cacheRepo == cacheRepo && this.tokenTTL == tokenTTL && this.secretKey == secretKey
      ensures userRepo.pool == txManager.pool && eventRepo.pool == txManager.pool && DbValid(txManager.pool.state) ==> Valid()
    {
      this.txManager := txManager;
      this.userRepo := userRepo;
      this.eventRepo := eventRepo;
      this.cacheRepo := cacheRepo;
      this.tokenTTL := tokenTTL;
      this.secretKey := secretKey;
    }

    /**
     * au.Register(ctx, email, password). Registration is atomic: either the user and
     * its event are both committed and the generated id is returned, or uuid.Nil and an
     * error wrapping the cause are returned and no committed table changes. As the
     * manager never rolls back, a registration whose inserts fail leaves its transaction
     * (handle old nextTx) open; every other transaction is as it was.
     */
    method Register(ctx: Context, email: string, password: string, env: RegisterEnv) returns (id: Uuid, err: Option<Error>)
      requires Valid()
      modifies txManager.pool
      ensures Valid()
      ensures env.hashFault.Some? ==>
        id == Nil && err == Some(Wrap(HashPrefix, Text(env.hashFault.value))) && txManager.pool.state == old(txManager.pool.state)
      ensures env.hashFault.None? && env.beginFault.Some? ==>
        id == Nil && err == Some(Wrap(RegisterPrefix, Wrap(BeginPrefix, FaultError(env.beginFault.value))))
      ensures err.None? <==> RegisterSucceeds(old(txManager.pool.state).committed, email, env)
      ensures err.None? ==>
        && id == env.userInsert.id
        && txManager.pool.state.committed == Registered(old(txManager.pool.state).committed, email, password, env)
        && Bcrypt.CompareHashAndPassword(Registered(old(txManager.pool.state).committed, email, password, env).users[|old(txManager.pool.state).committed.users|].hashedPassword, password)
      ensures err.Some? ==>
        && id == Nil
        && txManager.pool.state.committed == old(txManager.pool.state).committed
      ensures var t := old(txManager.pool.state).committed;
        var reached := env.hashFault.None? && env.beginFault.None?;
        && (reached && env.userInsert.fault.Some? ==>
              err == Some(Wrap(RegisterPrefix, UserRepo.SaveError(FaultError(env.userInsert.fault.value)))))
        && (reached && env.userInsert.fault.None? && !UserInsertOk(t.users, email, env.userInsert) ==>
              err == Some(Wrap(RegisterPrefix, Wrap(UserRepo.SaveExistsPrefix, Sentinel(ErrUserExists)))))
        && (reached && UserInsertOk(t.users, email, env.userInsert) && env.eventInsert.fault.Some? ==>
              err == Some(Wrap(RegisterPrefix, EventRepo.SaveError(FaultError(env.eventInsert.fault.value)))))
        && (reached && UserInsertOk(t.users, email, env.userInsert) && env.eventInsert.fault.None?
            && !EventInsertOk(t.events, env.eventInsert) ==>
              err == Some(Wrap(RegisterPrefix, Wrap(EventRepo.SaveExistsPrefix, Sentinel(ErrEventExists)))))
        && (reached && UserInsertOk(t.users, email, env.userInsert) && EventInsertOk(t.events, env.eventInsert)
            && env.commitFault.Some? ==>
              err == Some(Wrap(RegisterPrefix, FaultError(env.commitFault.value))))
        && (err.Some? && Is(err.value, ErrUserExists) <==> reached && UserInsertConflicts(t.users, email, env.userInsert))
      ensures var h := old(txManager.pool.state).nextTx;
        && txManager.pool.state.open - {h} == old(txManager.pool.state).open
        && (h in txManager.pool.state.open <==>
              && env.hashFault.None? && env.beginFault.None?
              && !(UserInsertOk(old(txManager.pool.state).committed.users, email, env.userInsert)
                   && EventInsertOk(old(txManager.pool.state).committed.events, env.eventInsert)))
      ensures env.hashFault.None? && err.Some? ==> err.value.Wrapped? && err.value.prefix == RegisterPrefix
      ensures err.Some? ==> IsSuffix(Message(Root(err.value)), Message(err.value))
    {
      var hashed := Bcrypt.GenerateFromPassword(password, env.salt, env.hashFault);
      if hashed.Failure? {
        err := Some(Wrap(HashPrefix, hashed.error));
        RootMessageIsSuffix(err.value);
        return Nil, err;
      }
      Bcrypt.CompareHash(env.salt, password, password);
      var user := User(Nil, email, hashed.value, false);
      var event := ActionEvent(email, "registration", env.now);
      ghost var db0 := txManager.pool.state;
      ghost var h := db0.nextTx;
      var body := (c: Context, d: Db) => RegisterBody(c, d, user, event, env.userInsert, env.eventInsert);
      var txErr, userID := txManager.WithTransaction(ctx, body, Nil, env.beginFault, env.commitFault);
      if env.beginFault.None? {
        BoundContextSeesTx(ctx, h);
        RegisterBodyInTx(Begin(db0), Bind(ctx, h), h, user, event, env.userInsert, env.eventInsert);
        var step := RegisterBody(Bind(ctx, h), Begin(db0), user, event, env.userInsert, env.eventInsert);
        TransactionIsAtomic(db0, step, env.commitFault);
        RollbackOnlyClosesTheTransaction(step.db, h, step.err, env.commitFault);
        FinishAsWrittenKeepsValid(step.db, h, step.err, env.commitFault);
      }
      if txErr.Some? {
        err := Some(Wrap(RegisterPrefix, txErr.value));
        RootMessageIsSuffix(err.value);
        return Nil, err;
      }
      return userID, None;
    }

    /** The state Login and IsAdmin leave alone when they return early. */
    twostate predicate Untouched()
      reads txManager.pool, cacheRepo.client
    {
      txManager.pool.state == old(txManager.pool.state) && cacheRepo.client.entries == old(cacheRepo.client.entries)
    }

    /**
     * au.Login(ctx, email, password). An unknown email and a wrong password give the very
     * same error. A cached token is returned as it is; otherwise a new token is issued for
     * the user GetByEmail returned (whose id is uuid.Nil, as that query does not select
     * it), then a login event is saved and the token cached for an hour, each best-effort.
     */
    method Login(ctx: Context, email: string, password: string, env: LoginEnv) returns (token: string, err: Option<Error>)
      requires Valid()
      modifies txManager.pool, cacheRepo.client
      ensures Valid()
      ensures var found := old(userRepo.GetByEmail(ctx, email, env.lookupFault));
        var accepted := found.Success? && Bcrypt.CompareHashAndPassword(found.value.hashedPassword, password);
        var cached := old(cacheRepo.Get(email, env.now, env.cacheGetFault));
        && (found.Failure? ==>
              && token == ""
              && err == Some(Wrap(LoginPrefix, if Is(found.error, ErrUserNotFound) then Sentinel(ErrInvalidCredentials) else found.error))
              && Untouched())
        && (found.Success? && !accepted ==>
              token == "" && err == Some(Wrap(LoginPrefix, Sentinel(ErrInvalidCredentials))) && Untouched())
        && (accepted && cached.Success? ==> token == cached.value && err.None? && Untouched())
        && (accepted && cached.Failure? && env.tokenFault.Some? ==>
              token == "" && err == Some(Wrap(LoginPrefix, Text(env.tokenFault.value))) && Untouched())
        && (accepted && cached.Failure? && env.tokenFault.None? ==>
              && err.None?
              && Jwt.NewToken(found.value, tokenTTL, secretKey, env.now, None) == Success(token)
              && txManager.pool.state == EventRepo.SaveOn(old(txManager.pool.state), ctx, ActionEvent(email, "login", env.now), env.eventInsert).db
              && cacheRepo.client.entries == if env.cacheSetFault.Some? then old(cacheRepo.client.entries)
                                             else CacheRepo.SetEntries(old(cacheRepo.client.entries), email, token, CacheTtl, env.now))
    {
      var found := userRepo.GetByEmail(ctx, email, env.lookupFault);
      if found.Failure? {
        if Is(found.error, ErrUserNotFound) {
          return "", Some(Wrap(LoginPrefix, Sentinel(ErrInvalidCredentials)));
        }
        return "", Some(Wrap(LoginPrefix, found.error));
      }
      var user := found.value;
      if !Bcrypt.CompareHashAndPassword(user.hashedPassword, password) {
        return "", Some(Wrap(LoginPrefix, Sentinel(ErrInvalidCredentials)));
      }
      var cached := cacheRepo.Get(email, env.now, env.cacheGetFault);
      if cached.Success? {
        return cached.value, None;
      }
      var issued := Jwt.NewToken(user, tokenTTL, secretKey, env.now, env.tokenFault);
      if issued.Failure? {
        return "", Some(Wrap(LoginPrefix, issued.error));
      }
      token := issued.value;
      EventRepo.SaveKeepsValid(txManager.pool.state, ctx, ActionEvent(email, "login", env.now), env.eventInsert);
      var _, saveErr := eventRepo.Save(ctx, ActionEvent(email, "login", env.now), env.eventInsert);
      var setErr := cacheRepo.Set(email, CacheRepo.StrArg(token), CacheTtl, env.now, env.cacheSetFault);
      err := None;
    }

    /**
     * au.IsAdmin(ctx, userID). The cache is consulted under userID.String(); a cached
     * "true" or "false" is the answer, any other outcome falls through to the users
     * table. An unknown id is reported as invalid credentials; a stored answer is
     * cached for an hour, best-effort.
     */
    method IsAdmin(ctx: Context, userID: Uuid, env: IsAdminEnv) returns (isAdmin: bool, err: Option<Error>)
      requires Valid()
      modifies cacheRepo.client
      ensures Valid()
      ensures var key := ToString(userID);
        var cached := old(cacheRepo.Get(key, env.now, env.cacheGetFault));
        var hit := cached.Success? && CachedFlag(cached.value).Some?;
        var stored := userRepo.IsAdmin(ctx, userID, env.storeFault);
        && (hit ==> isAdmin == CachedFlag(cached.value).value && err.None? && Untouched())
        && (!hit && stored.Failure? ==>
              && !isAdmin
              && err == Some(Wrap(IsAdminPrefix, if Is(stored.error, ErrUserNotFound) then Sentinel(ErrInvalidCredentials) else stored.error))
              && Untouched())
        && (!hit && stored.Success? ==>
              && isAdmin == stored.value
              && err.None?
              && txManager.pool.state == old(txManager.pool.state)
              && cacheRepo.client.entries == if env.cacheSetFault.Some? then old(cacheRepo.client.entries)
                                             else CacheRepo.SetEntries(old(cacheRepo.client.entries), key, FlagText(isAdmin), CacheTtl, env.now))
    {
      var key := ToString(userID);
      var cached := cacheRepo.Get(key, env.now, env.cacheGetFault);
      if cached.Success? && CachedFlag(cached.value).Some? {
        return CachedFlag(cached.value).value, None;
      }
      var stored := userRepo.IsAdmin(ctx, userID, env.storeFault);
      if stored.Failure? {
        if Is(stored.error, ErrUserNotFound) {
          return false, Some(Wrap(IsAdminPrefix, Sentinel(ErrInvalidCredentials)));
        }
        return false, Some(Wrap(IsAdminPrefix, stored.error));
      }
      isAdmin := stored.value;
      var setErr := cacheRepo.Set(key, CacheRepo.StrArg(FlagText(isAdmin)), CacheTtl, env.now, env.cacheSetFault);
      err := None;
    }

    /**
     * The round trip of the two calls: once Register has committed a user, Login with the
     * same email and password is accepted, whatever the cache holds: a cached token is
     * returned as it is, and on a miss a fresh, non-empty token is issued for the
     * registered user as the lookup reads it back (id uuid.Nil, not an admin).
     */
    method RegisterThenLogin(ctx: Context, email: string, password: string, renv: RegisterEnv, lenv: LoginEnv)
      returns (id: Uuid, token: string, err: Option<Error>)
      requires Valid() && GetQuerier(ctx) == PoolQuerier
      requires RegisterSucceeds(txManager.pool.state.committed, email, renv)
      requires lenv.lookupFault.None? && lenv.tokenFault.None?
      modifies txManager.pool, cacheRepo.client
      ensures Valid()
      ensures id == renv.userInsert.id && err.None?
      ensures var cached := old(cacheRepo.Get(email, lenv.now, lenv.cacheGetFault));
        && (cached.Success? ==> token == cached.value)
        && (cached.Failure? ==>
              && token != ""
              && Jwt.NewToken(User(Nil, email, Bcrypt.Hash(renv.salt, password), false), tokenTTL, secretKey, lenv.now, None) == Success(token))
    {
      var registerErr;
      id, registerErr := Register(ctx, email, password, renv);
      ghost var t := txManager.pool.state.committed;
      ghost var n := |t.users| - 1;
      assert t.users[n] == User(id, email, Bcrypt.Hash(renv.salt, password), false);
      ghost var found := userRepo.GetByEmail(ctx, email, lenv.lookupFault);
      assert UserRepo.EmailTaken(t.users, email) by {
        assert t.users[n].email == email;
      }
      assert found.Success?;
      assert found.value.hashedPassword == Bcrypt.Hash(renv.salt, password) by {
        var i := UserRepo.FindByEmail(t.users, email);
        assert t.users[i].email == email;
        assert i == n;
      }
      assert found.value == User(Nil, email, Bcrypt.Hash(renv.salt, password), false) by {
        var i := UserRepo.FindByEmail(t.users, email);
        assert t.users[i].email == email;
        assert i == n;
      }
      Bcrypt.CompareHash(renv.salt, password, password);
      token, err := Login(ctx, email, password, lenv);
    }
  }
}
