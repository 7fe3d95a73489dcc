/**
 * Go error values as the core builds and inspects them: sentinel errors compared
 * by identity, errors reported by the database driver, plain text errors, and
 * `fmt.Errorf("...%w", cause)` wrapping. `Is` follows the wrap chain like
 * `errors.Is`; `PgCode` follows it like `errors.As(err, &pgErr)`.
 */
module Errors {
  import opened Wrappers

  /** Sentinel error values of the repository and of the libraries it relies on. */
  datatype Sentinel =
    | ErrUserNotFound        // internal/storage/storage.go
    | ErrUserExists
    | ErrEventNotFound
    | ErrEventExists
    | ErrKeyNotFound         // used by the cache repository, not declared in storage.go
    | ErrInvalidCredentials  // internal/services/auth/auth.go
    | RedisNil               // go-redis: the key does not exist
    | ErrNoRows              // pgx: the query selected no row
    | ErrTxClosed            // pgx: statement on a finished transaction

  datatype Error =
    | Sentinel(s: Sentinel)
    | PgError(code: string, detail: string)  // *pgconn.PgError: SQLSTATE code and message
    | Text(message: string)                  // errors.New, connection and library failures
    | Wrapped(prefix: string, cause: Error)  // fmt.Errorf(prefix + "%w", cause)

  /** A failure injected at the database boundary: a server error or a lost connection. */
  datatype DbFault = ServerError(code: string, detail: string) | ConnectionError(message: string)

  function FaultError(f: DbFault): (e: Error)
    ensures !e.Wrapped? && !e.Sentinel?
    ensures FromDriver(e)
  {
    match f
    case ServerError(code, detail) => PgError(code, detail)
    case ConnectionError(msg) => Text(msg)
  }

  function SentinelText(s: Sentinel): string {
    match s
    case ErrUserNotFound => "user not found"
    case ErrUserExists => "user already exists"
    case ErrEventNotFound => "event not found"
    case ErrEventExists => "event already exists"
    case ErrKeyNotFound => "key not found"
    case ErrInvalidCredentials => "invalid credentials"
    case RedisNil => "redis: nil"
    case ErrNoRows => "no rows in result set"
    case ErrTxClosed => "tx is closed"
  }

  /** errors.Is(e, s) */
  predicate Is(e: Error, s: Sentinel) {
    match e
    case Sentinel(t) => t == s
    case Wrapped(_, c) => Is(c, s)
    case _ => false
  }

  /** The SQLSTATE code of the first *pgconn.PgError in the chain, as errors.As finds it. */
  function PgCode(e: Error): Option<string> {
    match e
    case PgError(code, _) => Some(code)
    case Wrapped(_, c) => PgCode(c)
    case _ => None
  }

  /** e.Error() */
  function Message(e: Error): string {
    match e
    case Sentinel(s) => SentinelText(s)
    case PgError(code, detail) => "ERROR: " + detail + " (SQLSTATE " + code + ")"
    case Text(m) => m
    case Wrapped(p, c) => p + Message(c)
  }

  /** The sentinels the repository itself declares (as opposed to library ones). */
  predicate IsDomain(s: Sentinel) {
    !(s.RedisNil? || s.ErrNoRows? || s.ErrTxClosed?)
  }

  /** An error that can come out of the database driver: it carries no domain sentinel. */
  predicate FromDriver(e: Error) {
    forall s: Sentinel :: IsDomain(s) ==> !Is(e, s)
  }

  /** fmt.Errorf(prefix + "%w", e): the cause stays detectable and its text is kept. */
  function Wrap(prefix: string, e: Error): (r: Error)
    ensures forall s: Sentinel :: Is(r, s) <==> Is(e, s)
    ensures PgCode(r) == PgCode(e)
    ensures Message(r) == prefix + Message(e)
  {
    Wrapped(prefix, e)
  }

  predicate IsSuffix(suffix: string, s: string) {
    |suffix| <= |s| && s[|s| - |suffix|..] == suffix
  }

  /** Every message along a wrap chain ends with the message of the innermost cause. */
  function Root(e: Error): Error {
    match e
    case Wrapped(_, c) => Root(c)
    case _ => e
  }

  lemma {:induction false} RootMessageIsSuffix(e: Error)
    ensures IsSuffix(Message(Root(e)), Message(e))
    ensures !Root(e).Wrapped?
  {
    match e
    case Wrapped(p, c) =>
      RootMessageIsSuffix(c);
      assert Message(e) == p + Message(c);
      var m, mc := Message(Root(e)), Message(c);
      assert mc[|mc| - |m|..] == m;
      assert (p + mc)[|p + mc| - |m|..] == mc[|mc| - |m|..];
    case _ =>
  }

  /** A driver error is never mistaken for a domain sentinel, whatever is wrapped around it. */
  lemma DriverFaultIsNotDomain(f: DbFault, s: Sentinel)
    ensures !Is(FaultError(f), s)
    ensures FromDriver(FaultError(f))
  {
  }
}
