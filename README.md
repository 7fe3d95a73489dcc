# Tbits007/auth identity service — a Dafny model

This project models the core of the `auth` identity service: the gRPC handlers,
the `AuthService` (Register, Login, IsAdmin), the transaction manager, and the
Postgres and Redis repositories the service depends on. It also proves what they
promise. Module by module:

- `Errors` — Go error values: sentinels, pgx server errors, text errors and
  `fmt.Errorf("…%w")` wrapping. `Is` walks the chain as `errors.Is`, `PgCode` as
  `errors.As(&pgErr)`.
- `Uuid` — google/uuid's `String` and `Parse`, in all four accepted forms.
- `Models` — the domain records.
- `Strconv` — decimal rendering of integers, used when go-redis writes a value.
- `Bcrypt`, `Jwt` — stand-ins for the hashing and token libraries. They keep
  which password a digest accepts and what the claims contain, not the
  cryptography.
- `Postgres` — the database server seen through the pool:
  - the users and events tables with their unique constraints;
  - the open transactions, each with its own working copy;
  - BeginTx, COMMIT and ROLLBACK.
- `TxManager` — `GetTx`, `GetQuerier` and `WithTransaction`. The context is a
  chain of `context.WithValue` bindings. The transaction body is a function
  from the bound context and the database to the database it leaves, the value
  it captured and its error.
- `UserRepo`, `EventRepo`, `CacheRepo` — the repositories, with their error
  translation:
  - a unique violation (SQLSTATE 23505) becomes ErrUserExists or ErrEventExists;
  - no rows becomes ErrUserNotFound;
  - a Redis miss becomes ErrKeyNotFound.
- `AuthService` — the service as a class over the shared pool and the Redis
  keyspace.
- `GrpcAuth` — the handlers as a decision table over the service's results.

Anything the code cannot decide itself is an explicit parameter of each call:
- the clock (nanoseconds) and the bcrypt salt;
- the ids the database generates;
- whether, and how, each call into Postgres, Redis, bcrypt or jwt fails.

Every error branch of the source can therefore be stated and proved.

Where the code and its tests or design notes disagree, the model follows the code:

- Login looks the user up and checks the password before it reads the token
  cache (`internal/services/auth/auth.go:174-195`). The Login unit tests
  expect the cache first.
- `GetByEmail` does not select the `id` column
  (`internal/storage/postgres/userRepo/userRepo.go:69`). So the user Login
  signs a token for has the id `uuid.Nil`, and every token carries the nil
  uuid. `UserRepo.UserRepo.GetByEmail` and `AuthService.AuthService.Login`
  state this.
- The events Register and Login save never set `EventType`. The stored
  event_type is empty and the action is only in the payload.
- `eventRepo.go` calls an unqualified `GetQuerier`, which is not declared in
  its package. It is taken to be the transaction manager's.
- The event repository's test counts rows of an `outbox` table, but `Save`
  inserts into `events`. The model follows `Save`.
- `storage.go` does not declare the `ErrKeyNotFound` the cache repository
  wraps, and `event.go` does not declare `PENDING`. The model has both, with
  the status value `"pending"` the tests use.
- The transaction manager's test calls `GetTx` as a free function. It is a
  method with an unused receiver, and is modelled as a function of the context.
- IsAdmin tests a cache error for `redis.Nil`, but the repository wraps
  `ErrKeyNotFound` instead. This only affects logging, since both paths fall
  through to the users table.

The deferred rollback in `WithTransaction` never runs (see "## Findings").
`TxManager.TxManager.WithTransaction` models the manager as written.
`TxManager.TxManager.WithRollback` models the manager as evidently intended.
`AuthService.AuthService.Register` calls the manager as written, as the service
does. `TxManager.RollbackOnlyClosesTheTransaction` proves the two managers
return the same error and leave the same committed tables, and differ only in
whether the failed transaction is left open. Register's contract therefore
states that a registration whose inserts fail leaves its transaction open, and
that every other transaction is as it was.

## Model

| member | source | states |
|---|---|---|
| Errors.Wrap | internal/services/auth/auth.go:157 | `%w` wrapping keeps every `errors.Is` answer and the SQLSTATE `errors.As` finds; the message is the prefix followed by the cause's message |
| Errors.RootMessageIsSuffix | internal/storage/postgres/userRepo/userRepo.go:86 | a wrapped error's message ends with its innermost cause's message |
| Errors.DriverFaultIsNotDomain | internal/storage/postgres/userRepo/userRepo.go:85-86 | an error reported by the driver is none of the repository's sentinel errors |
| Uuid.ToString | internal/services/auth/auth.go:243 | the string form of an id has 36 characters with dashes at positions 8, 13, 18 and 23 |
| Uuid.ParseToString | internal/handlers/grpc/auth/auth.go:108 | `uuid.Parse` of an id's string form gives back that id |
| Uuid.Parse | internal/handlers/grpc/auth/auth.go:108 | only strings of 32, 36, 38 or 45 characters parse, and a 36-character one only with dashes at positions 8, 13, 18 and 23 |
| Uuid.ToStringInjective | internal/services/auth/auth.go:243 | distinct ids have distinct string forms, so distinct users have distinct admin cache keys |
| Strconv.ParseNatToString | internal/storage/redis_/cacheRepo_test.go:89-106 | the decimal rendering of a number reads back as that number |
| Bcrypt.CompareHash | internal/services/auth/auth.go:184-187 | a digest accepts exactly the password it was generated from |
| Bcrypt.GenerateFromPassword | internal/services/auth/auth.go:113-117 | succeeds exactly when the library does not fail, and the digest accepts the password |
| Jwt.ClaimsFor | internal/lib/jwt/jwt.go:18-21 | the claims carry the user's id and email, and exp is the Unix second in which now + duration falls |
| Jwt.NewToken | internal/lib/jwt/jwt.go:11-29 | a token is issued exactly when signing does not fail; it begins with the HS256 header; a signing failure is returned as it is |
| Postgres.Snapshot | internal/storage/postgres/txManager/txManager.go:20-26 | a statement sent to the pool sees the committed tables, one sent to an open transaction sees its working copy, and one sent to a finished transaction fails with ErrTxClosed |
| Postgres.Store | internal/storage/postgres/userRepo/userRepo.go:44-47 | a write through a querier changes only the tables that querier sees |
| Postgres.Begin | internal/storage/postgres/txManager/txManager.go:36 | BeginTx opens a new transaction whose working copy is the committed tables, leaving the others alone |
| Postgres.Commit | internal/storage/postgres/txManager/txManager.go:53 | COMMIT publishes the working copy exactly when it succeeds; it closes the transaction either way; a finished transaction reports ErrTxClosed |
| Postgres.Rollback | internal/storage/postgres/txManager/txManager.go:41-45 | ROLLBACK closes the transaction and publishes nothing |
| Postgres.CommitKeepsValid | internal/storage/postgres/txManager/txManager.go:53 | COMMIT keeps the unique constraints of every copy of the tables |
| TxManager.GetTx | internal/storage/postgres/txManager/txManager.go:56-59 | a transaction is found exactly when the nearest binding of the transaction key holds one |
| TxManager.GetQuerier | internal/storage/postgres/txManager/txManager.go:20-26 | statements go to the bound transaction when there is one, and to the pool otherwise |
| TxManager.BoundContextSeesTx | internal/storage/postgres/txManager/txManager.go:47 | inside the body, GetTx and GetQuerier return the transaction WithTransaction began |
| TxManager.UnboundContextUsesPool | internal/storage/postgres/txManager/txManager.go:20-26 | with no transaction bound, GetTx reports false and GetQuerier returns the pool |
| TxManager.OtherBindingsAreTransparent | internal/storage/postgres/txManager/txManager.go:21 | values under other keys neither hide nor reveal a transaction |
| TxManager.InnerBindingShadows | internal/storage/postgres/txManager/txManager.go:47 | a transaction bound later shadows one bound earlier |
| TxManager.Finish | internal/storage/postgres/txManager/txManager.go:41-53 | the intended end of a transaction: a failing body's error is returned and its transaction rolled back; otherwise the result is COMMIT's |
| TxManager.FailedBodyLeavesTxOpen | internal/storage/postgres/txManager/txManager.go:41-51 | as written, a body that fails leaves its transaction open |
| TxManager.RollbackOnlyClosesTheTransaction | internal/storage/postgres/txManager/txManager.go:41-53 | with or without the rollback, the returned error and the committed tables are the same |
| TxManager.TransactionIsAtomic | internal/storage/postgres/txManager/txManager.go:35-54 | for the corrected manager (`Finish`): for a body confined to its transaction, the tables become its working copy exactly when body and COMMIT both succeed, nothing becomes visible otherwise, a body error is returned unchanged, and no transaction is left open |
| TxManager.FinishAsWritten | internal/storage/postgres/txManager/txManager.go:41-53 | the end of a transaction as written: a failing body's error is returned and the database is left exactly as the body left it, transaction still open; otherwise the transaction is closed and either its working copy is committed or COMMIT's error is returned with the committed tables unchanged |
| TxManager.FinishAsWrittenKeepsValid | internal/storage/postgres/txManager/txManager.go:41-53 | finishing a transaction as written keeps the unique constraints |
| TxManager.FinishKeepsValid | internal/storage/postgres/txManager/txManager.go:41-53 | finishing a transaction keeps the unique constraints |
| TxManager.TxManager.constructor | internal/storage/postgres/txManager/txManager.go:31-33 | the manager uses the pool it is given |
| TxManager.TxManager.WithTransaction | internal/storage/postgres/txManager/txManager.go:35-54 | as written: a BeginTx failure is returned wrapped in "begin transaction: " and the body never runs; otherwise the body runs with the transaction bound to a new context (the caller's context is a value and is unchanged); a body error is returned unchanged with the transaction left open; on body success the result is COMMIT's |
| TxManager.TxManager.WithRollback | internal/storage/postgres/txManager/txManager.go:35-54 | the same, with the failing body's transaction rolled back |
| UserRepo.FindByEmail | internal/storage/postgres/userRepo/userRepo.go:68-80 | the first row with the email, or none exactly when no row has it |
| UserRepo.FindById | internal/storage/postgres/userRepo/userRepo.go:99-109 | the first row with the id, or none exactly when no row has it |
| UserRepo.Insert | internal/storage/postgres/userRepo/userRepo.go:33-47 | INSERT of email and hash returning the generated id; a failure changes nothing and is a driver error |
| UserRepo.SaveError | internal/storage/postgres/userRepo/userRepo.go:50-56 | the error is ErrUserExists exactly when the failure is a unique violation; otherwise it is wrapped as "failed to save user" |
| UserRepo.SaveOn | internal/storage/postgres/userRepo/userRepo.go:27-59 | Save succeeds exactly when the querier is usable, the insert does not fail, and the email and id are free; it then appends the row (caller's id and admin flag ignored) and returns the generated id; on failure it returns uuid.Nil and changes nothing; ErrUserExists is reported exactly for a unique violation |
| UserRepo.SaveDuplicateEmail | internal/storage/postgres/userRepo/userRepo.go:50-53 | a taken email yields ErrUserExists and uuid.Nil, and nothing is written |
| UserRepo.SaveOtherFailure | internal/storage/postgres/userRepo/userRepo.go:55 | a lost connection yields the wrapped "failed to save user" error, never ErrUserExists |
| UserRepo.AppendUnique | internal/storage/postgres/userRepo/userRepo.go:33-37 | appending a row with a free email and id keeps the table's unique constraints |
| UserRepo.SaveKeepsValid | internal/storage/postgres/userRepo/userRepo.go:33-58 | Save keeps the unique constraints of every copy of the tables |
| UserRepo.SaveInTxIsConfined | internal/storage/postgres/userRepo/userRepo.go:42 | a Save through a context bound to a transaction changes only that transaction's working copy |
| UserRepo.UserRepo.constructor | internal/storage/postgres/userRepo/userRepo.go:21-25 | the repository uses the pool it is given |
| UserRepo.UserRepo.Save | internal/storage/postgres/userRepo/userRepo.go:27-59 | returns and leaves exactly what SaveOn states |
| UserRepo.UserRepo.GetByEmail | internal/storage/postgres/userRepo/userRepo.go:62-91 | a found user has the stored email, hash and admin flag and the id uuid.Nil; a stored email with no fault is found; ErrUserNotFound is reported exactly when the query runs and no row has the email; an injected fault is returned wrapped in the method's prefix, and a closed transaction as ErrTxClosed wrapped the same way |
| UserRepo.UserRepo.IsAdmin | internal/storage/postgres/userRepo/userRepo.go:93-120 | the stored flag of the row with the id; a stored id with no fault is found; ErrUserNotFound exactly when the query runs and no row has it; an injected fault is returned wrapped in the method's prefix, and a closed transaction as ErrTxClosed wrapped the same way |
| EventRepo.Insert | internal/storage/postgres/eventRepo.go:31-46 | INSERT of event type, payload and status returning the generated id; a failure changes nothing |
| EventRepo.SaveError | internal/storage/postgres/eventRepo.go:49-55 | ErrEventExists exactly for a unique violation; otherwise wrapped as "failed to save event" |
| EventRepo.SaveOn | internal/storage/postgres/eventRepo.go:25-58 | Save succeeds exactly when the querier is usable, the insert does not fail and the id is free; it then appends the row and returns the id; on failure it returns uuid.Nil and changes nothing |
| EventRepo.AppendUnique | internal/storage/postgres/eventRepo.go:31-35 | appending a row with a free id keeps the primary key unique |
| EventRepo.SaveKeepsValid | internal/storage/postgres/eventRepo.go:31-57 | Save keeps the unique constraints |
| EventRepo.SaveOnPoolCommits | internal/storage/postgres/eventRepo.go:40 | with no transaction bound, a saved event is appended to the committed events at once |
| EventRepo.EventRepo.constructor | internal/storage/postgres/eventRepo.go:19-23 | the repository uses the pool it is given |
| EventRepo.EventRepo.Save | internal/storage/postgres/eventRepo.go:25-58 | returns and leaves exactly what SaveOn states |
| CacheRepo.Read | internal/storage/redis_/cacheRepo.go:41 | GET sees a key's value exactly while the key exists and has not expired; as in Redis, expiry instants are whole milliseconds and a key expires only once the server's millisecond clock is past its instant |
| CacheRepo.TtlSentMs | internal/storage/redis_/cacheRepo.go:29 | the number of milliseconds the server receives for a positive TTL is at least one |
| CacheRepo.TtlSent | internal/storage/redis_/cacheRepo.go:29 | the TTL the client sends is positive; under a millisecond it becomes one millisecond; otherwise it is rounded down by less than a millisecond; a whole number of seconds is sent exactly |
| CacheRepo.GetAfterSet | internal/storage/redis_/cacheRepo_test.go:28-45 | a value set with a TTL is read back until the TTL elapses, and still at that instant |
| CacheRepo.ExpiredAfterTtl | internal/storage/redis_/cacheRepo_test.go:64-87 | one millisecond after the TTL has elapsed the key reads as absent |
| CacheRepo.WholeSecondsAreExact | internal/services/auth/auth.go:225 | a TTL of whole seconds, such as one hour, is kept exactly |
| CacheRepo.SetLeavesOtherKeys | internal/storage/redis_/cacheRepo.go:29 | setting one key leaves every other key as it was |
| CacheRepo.IntegerIsRenderedInDecimal | internal/storage/redis_/cacheRepo_test.go:89-106 | the integer 42 is stored and read back as "42" |
| CacheRepo.CacheRepo.constructor | internal/storage/redis_/cacheRepo.go:17-19 | the repository uses the client it is given |
| CacheRepo.CacheRepo.Set | internal/storage/redis_/cacheRepo.go:21-34 | on success the keyspace is SET with the rendered value and TTL; a client error is returned wrapped and changes nothing |
| CacheRepo.CacheRepo.Get | internal/storage/redis_/cacheRepo.go:36-51 | returns the live value; a missing or expired key gives an error wrapping ErrKeyNotFound; any other client error is returned wrapped, never as ErrKeyNotFound |
| AuthService.ActionEvent | internal/services/auth/auth.go:124-139 | the event carries the email and action in its payload, has status PENDING, and leaves id, aggregate id and event type empty |
| AuthService.RegisterBody | internal/services/auth/auth.go:143-153 | a failed user save is returned with the database untouched, uuid.Nil captured and no event attempted; on success the captured id is the generated user id |
| AuthService.RegisterBodyInTx | internal/services/auth/auth.go:143-153 | the closure touches only its transaction; it succeeds exactly when both inserts do; it then appends the user and the event and captures the user's id; each failure returns the error of the first insert that failed (the user save's, else the event save's); the error is ErrUserExists exactly when the user INSERT reports a unique violation |
| AuthService.CachedFlag | internal/services/auth/auth.go:246-253 | only "true" and "false" are trusted cache values |
| AuthService.FlagText | internal/services/auth/auth.go:268-271 | the cached value reads back as the flag it came from |
| AuthService.AdminStatusCachedForAnHour | internal/services/auth/auth.go:273 | an admin status cached at t0 is read back up to and including t0 plus one hour, and is absent from one millisecond later on |
| AuthService.AuthService.constructor | internal/services/auth/auth.go:81-99 | the service keeps the collaborators, token TTL and secret it is given; wired with one pool behind the manager and both repositories, as internal/app/app.go does, it is valid |
| AuthService.AuthService.Register | internal/services/auth/auth.go:102-161 | a hash failure is returned before anything else happens; registration is atomic: success exactly when every step succeeds against the committed tables, which then gain the user (email, a digest accepting the password, not admin) and its pending "registration" event, with the generated id returned; otherwise uuid.Nil and an error prefixed "AuthService.Register: " are returned and the committed tables are unchanged; the wrapped cause is exactly the first failure: the user save's error (ErrUserExists for a taken email or id), else the event save's, else COMMIT's; ErrUserExists is reported exactly when the user INSERT reports 23505; the message ends with the innermost cause's message; as the manager never rolls back, the registration's transaction is left open exactly when an insert fails, and no other transaction changes |
| AuthService.AuthService.Login | internal/services/auth/auth.go:163-231 | an unknown email and a wrong password both return "" and the same ErrInvalidCredentials error; other lookup errors are wrapped; nothing changes then; after a verified password, a cached token is returned with nothing written; otherwise a token is issued for the looked-up user, the login event is saved and the token cached for one hour, both best-effort, and the token is returned |
| AuthService.AuthService.IsAdmin | internal/services/auth/auth.go:233-278 | a cached "true"/"false" is the answer with nothing else done; otherwise the users table decides: not found gives false and ErrInvalidCredentials, other errors are wrapped, and a stored flag is cached for one hour (best-effort) and returned |
| AuthService.AuthService.RegisterThenLogin | internal/services/auth/auth.go:102-187 | after a successful Register, Login with the same email and password succeeds; a cached token is returned as it is, and on a cache miss the token is a non-empty one issued for the registered email (id uuid.Nil, as the lookup reads it back, not an admin) |
| GrpcAuth.CheckCredentials | internal/handlers/grpc/auth/auth.go:56-62 | an empty email and then an empty password are rejected with InvalidArgument and the messages "email is required" and "password is required", in that order; both present passes |
| GrpcAuth.RegisterReply | internal/handlers/grpc/auth/auth.go:64-73 | success exactly when the service succeeds, with the id's string form, which parses back to the id; AlreadyExists exactly for ErrUserExists; the message never carries the cause |
| GrpcAuth.Register | internal/handlers/grpc/auth/auth.go:52-74 | a reply with a 36-character id exactly when the request is valid and the service succeeds; AlreadyExists exactly when the service reports ErrUserExists |
| GrpcAuth.LoginReply | internal/handlers/grpc/auth/auth.go:88-97 | the token unchanged on success; InvalidArgument exactly for ErrInvalidCredentials; Internal otherwise |
| GrpcAuth.Login | internal/handlers/grpc/auth/auth.go:76-98 | the service's token exactly when the request is valid and the service succeeds; "invalid email or password" exactly for ErrInvalidCredentials |
| GrpcAuth.AdminReply | internal/handlers/grpc/auth/auth.go:113-122 | the flag on success; NotFound exactly for ErrInvalidCredentials; Internal otherwise |
| GrpcAuth.IsAdmin | internal/handlers/grpc/auth/auth.go:100-123 | an empty or unparseable user_id gets InvalidArgument; otherwise the reply maps the service's answer for the parsed id |
| GrpcAuth.InvalidRequestsSkipTheService | internal/handlers/grpc/auth/auth.go:104-111 | a request that fails validation gets the same reply whatever the service would do, so the service is not consulted |
| GrpcAuth.IsAdminOfReturnedId | internal/handlers/grpc/auth/auth.go:108-113 | an IsAdmin request for the id string Register returned asks the service about exactly that id |
| GrpcAuth.InvalidCredentialsLookAlike | internal/handlers/grpc/auth/auth.go:90-92 | any two service errors wrapping ErrInvalidCredentials give the same reply |

## Left out

- Logging (`slog`): it has no effect on results.
- `json.Marshal` of the event payload and RFC 3339 timestamps. The payload is the record {email, action, timestamp}, with the timestamp as a Unix second. The marshal-failure branches cannot be taken for these string maps, so they are omitted.
- AuthService.ActionEvent: the payload timestamp is the Unix second, not its RFC 3339 text.
- Bcrypt.Hash: the digest is the header, the salt and the password itself, not the bcrypt hash. The 72-byte password limit is not modelled.
- Jwt.NewToken: the signature is a deterministic tag of the signing input and key, standing in for HS256. The claims are only in the abstract encoding. A signing failure is a parameter.
- Read-committed isolation is approximated by snapshots: a transaction's working copy starts from the committed tables at BeginTx. Commits by other transactions while it is open are not merged in, which is exact here because the model is single-threaded.
- Concurrency, context cancellation and deadlines: every call runs alone to completion.
- Postgres aborts a transaction after a failed statement, and a later COMMIT reports ROLLBACK. The service never commits after a failed statement, so this is not modelled.
- A connection lost during COMMIT is modelled as not committed.
- CacheRepo.CacheRepo.Set: a failed SET is modelled as not applied. A timeout after the server applied it is not distinguished.
- Uuid.Parse: lengths are counted in characters, not UTF-8 bytes, so non-ASCII input of the same character count is not distinguished.
- Process wiring, the gRPC server lifecycle, metrics, configuration, the rate limiter, and the superseded `internal/storage/postgres/userRepo.go`: none of them is part of the service's logic.
- The Redis client's other commands, and the keyspace's lazy eviction: an expired key is kept but reads as absent.
- CacheRepo.Read: the server's clock is the `now` the caller passes; a Redis clock that drifts from the service's is not modelled.

## Findings

| source | as written | input that shows it | evidently intended | confidence | as-written member | corrected member |
|---|---|---|---|---|---|---|
| internal/storage/postgres/txManager/txManager.go:41-53 | the deferred rollback tests the outer `err`, which is nil once BeginTx succeeds; the body's error is bound by `if err := fn(ctx)` and Commit's result is returned directly, so Rollback is never called | any failing body, e.g. Register with an email that is already taken: the transaction stays open and holds its pooled connection | roll the transaction back whenever the body fails | high; not executed | TxManager.TxManager.WithTransaction, TxManager.FailedBodyLeavesTxOpen | TxManager.TxManager.WithRollback, TxManager.TransactionIsAtomic |
