/**
 * The PostgreSQL database as the repositories reach it through a *pgxpool.Pool:
 * the committed contents of the users and events tables and the transactions
 * that are open on it. A transaction works on its own copy of the tables, taken
 * when it begins; COMMIT publishes the copy.
 */
module Postgres {
  import opened Wrappers
  import opened Errors
  import opened Uuid
  import opened Models

  /** A row of the events table: the generated id and the three columns the repository writes. */
  datatype EventRow = EventRow(id: Uuid, eventType: string, payload: Payload, status: string)

  datatype Tables = Tables(users: seq<User>, events: seq<EventRow>)

  /** The unique constraints of the users table: email and the primary key id. */
  predicate UsersUnique(users: seq<User>) {
    forall i, j | 0 <= i < j < |users| :: users[i].email != users[j].email && users[i].id != users[j].id
  }

  /** The primary key of the events table. */
  predicate EventsUnique(events: seq<EventRow>) {
    forall i, j | 0 <= i < j < |events| :: events[i].id != events[j].id
  }

  predicate TablesValid(t: Tables) {
    UsersUnique(t.users) && EventsUnique(t.events)
  }

  type TxHandle = nat

  /** What a statement is sent to: the pool (an implicit single-statement transaction) or an open pgx.Tx. */
  datatype Querier = PoolQuerier | TxQuerier(tx: TxHandle)

  datatype Db = Db(committed: Tables, open: map<TxHandle, Tables>, nextTx: TxHandle)

  predicate DbValid(db: Db) {
    && TablesValid(db.committed)
    && forall h | h in db.open :: h < db.nextTx && TablesValid(db.open[h])
  }

  /** The failure of the database to create a row, or the id it generated for it. */
  datatype InsertEnv = InsertEnv(id: Uuid, fault: Option<DbFault>)

  /** SQLSTATE unique_violation */
  const UniqueViolation: string := "23505"

  /** The error the server reports when an INSERT would break a unique constraint. */
  const DuplicateKey: Error := PgError(UniqueViolation, "duplicate key value violates unique constraint")

  /** The tables a statement sent to q reads and writes. */
  function Snapshot(db: Db, q: Querier): (r: Result<Tables, Error>)
    ensures r.Failure? <==> q.TxQuerier? && q.tx !in db.open
    ensures r.Failure? ==> r.error == Sentinel(ErrTxClosed)
    ensures q.PoolQuerier? ==> r == Success(db.committed)
  {
    match q
    case PoolQuerier => Success(db.committed)
    case TxQuerier(h) => if h in db.open then Success(db.open[h]) else Failure(Sentinel(ErrTxClosed))
  }

  /** The database after a statement sent to q has changed the tables it sees to t. */
  function Store(db: Db, q: Querier, t: Tables): (r: Db)
    requires Snapshot(db, q).Success?
    ensures Snapshot(r, q) == Success(t)
    ensures r.nextTx == db.nextTx && r.open.Keys == db.open.Keys
    ensures q.TxQuerier? ==> r.committed == db.committed
    ensures forall h | h in db.open && q != TxQuerier(h) :: r.open[h] == db.open[h]
  {
    match q
    case PoolQuerier => db.(committed := t)
    case TxQuerier(h) => db.(open := db.open[h := t])
  }

  /** pool.BeginTx: a new transaction whose working copy starts from the committed tables. */
  function Begin(db: Db): (r: Db)
    requires DbValid(db)
    ensures DbValid(r)
    ensures db.nextTx !in db.open && r.open.Keys == db.open.Keys + {db.nextTx}
    ensures Snapshot(r, TxQuerier(db.nextTx)) == Success(db.committed)
    ensures r.committed == db.committed && r.nextTx == db.nextTx + 1
    ensures forall h | h in db.open :: r.open[h] == db.open[h]
  {
    Db(db.committed, db.open[db.nextTx := db.committed], db.nextTx + 1)
  }

  /**
   * tx.Commit. A finished transaction reports ErrTxClosed; a failed COMMIT closes the
   * transaction without publishing it; a successful one makes its tables the committed ones.
   */
  function Commit(db: Db, h: TxHandle, fault: Option<DbFault>): (r: (Db, Option<Error>))
    ensures h !in db.open ==> r == (db, Some(Sentinel(ErrTxClosed)))
    ensures h in db.open ==> h !in r.0.open && r.0.open == db.open - {h} && r.0.nextTx == db.nextTx
    ensures h in db.open && fault.Some? ==> r.0.committed == db.committed && r.1 == Some(FaultError(fault.value))
    ensures h in db.open && fault.None? ==> r.0.committed == db.open[h] && r.1.None?
    ensures r.1.Some? ==> r.0.committed == db.committed
  {
    if h !in db.open then (db, Some(Sentinel(ErrTxClosed)))
    else if fault.Some? then (db.(open := db.open - {h}), Some(FaultError(fault.value)))
    else (Db(db.open[h], db.open - {h}, db.nextTx), None)
  }

  /**
   * tx.Rollback with its error ignored: the transaction ends and its working copy is
   * discarded (a connection lost during ROLLBACK ends it on the server as well).
   */
  function Rollback(db: Db, h: TxHandle): (r: Db)
    ensures r.open == db.open - {h} && r.committed == db.committed && r.nextTx == db.nextTx
  {
    db.(open := db.open - {h})
  }

  lemma CommitKeepsValid(db: Db, h: TxHandle, fault: Option<DbFault>)
    requires DbValid(db)
    ensures DbValid(Commit(db, h, fault).0)
  {
  }

  /** The database server behind a connection pool. */
  class Pool {
    var state: Db

    constructor (initial: Tables)
      requires TablesValid(initial)
      ensures DbValid(state) && state == Db(initial, map[], 0)
    {
      state := Db(initial, map[], 0);
    }
  }
}
