/**
 * internal/storage/postgres/txManager: the ambient transaction. WithTransaction
 * begins a transaction, binds it into the context it hands to the body, and
 * commits only when the body succeeds. Repositories find the bound transaction
 * with GetQuerier and otherwise fall back to the pool.
 */
module TxManager {
  import opened Wrappers
  import opened Errors
  import opened Postgres

  /** Context keys: the package's unexported ctxTxKey{} and keys of other packages. */
  datatype Key = TxKey | OtherKey(name: string)

  datatype Value = TxValue(tx: TxHandle) | OtherValue(text: string)

  /** context.Context as a chain of context.WithValue bindings. */
  datatype Context = Background | WithValue(parent: Context, key: Key, val: Value)

  /** ctx.Value(key): the nearest binding of key. */
  function Lookup(ctx: Context, key: Key): Option<Value> {
    match ctx
    case Background => None
    case WithValue(parent, k, v) => if k == key then Some(v) else Lookup(parent, key)
  }

  /** The context the body of WithTransaction runs in. */
  function Bind(ctx: Context, h: TxHandle): Context {
    WithValue(ctx, TxKey, TxValue(h))
  }

  /** tm.GetTx(ctx): the type assertion ctx.Value(ctxTxKey{}).(pgx.Tx). */
  function GetTx(ctx: Context): (r: Option<TxHandle>)
    ensures r.Some? <==> Lookup(ctx, TxKey).Some? && Lookup(ctx, TxKey).value.TxValue?
    ensures r.Some? ==> Lookup(ctx, TxKey) == Some(TxValue(r.value))
  {
    match Lookup(ctx, TxKey)
    case Some(TxValue(h)) => Some(h)
    case _ => None
  }

  /** GetQuerier(ctx, db): the bound transaction if there is one, otherwise the pool. */
  function GetQuerier(ctx: Context): (q: Querier)
    ensures q.TxQuerier? <==> GetTx(ctx).Some?
    ensures q.TxQuerier? ==> GetTx(ctx) == Some(q.tx)
  {
    match GetTx(ctx)
    case Some(h) => TxQuerier(h)
    case None => PoolQuerier
  }

  /** Inside the body, the context carries the transaction that WithTransaction began. */
  lemma BoundContextSeesTx(ctx: Context, h: TxHandle)
    ensures GetTx(Bind(ctx, h)) == Some(h)
    ensures GetQuerier(Bind(ctx, h)) == TxQuerier(h)
  {
  }

  /** A context with no transaction bound anywhere on its chain sends statements to the pool. */
  lemma {:induction false} UnboundContextUsesPool(ctx: Context)
    requires Lookup(ctx, TxKey).None?
    ensures GetTx(ctx).None?
    ensures GetQuerier(ctx) == PoolQuerier
  {
  }

  /** Bindings under other keys neither hide nor reveal a transaction. */
  lemma OtherBindingsAreTransparent(ctx: Context, name: string, v: Value)
    ensures GetTx(WithValue(ctx, OtherKey(name), v)) == GetTx(ctx)
    ensures GetQuerier(WithValue(ctx, OtherKey(name), v)) == GetQuerier(ctx)
  {
  }

  /** The nearest binding wins: a transaction bound later shadows one bound earlier. */
  lemma InnerBindingShadows(ctx: Context, outer: TxHandle, inner: TxHandle)
    ensures GetQuerier(Bind(Bind(ctx, outer), inner)) == TxQuerier(inner)
  {
  }

  /**
   * What the body closure leaves behind: the database after its statements, the value
   * it assigned to the variables it captured, and the error it returned.
   */
  datatype TxStep<T> = TxStep(db: Db, captured: T, err: Option<Error>)

  const BeginPrefix: string := "begin transaction: "

  /**
   * The body may only change the working copy of its own transaction: the committed
   * tables, the other transactions and the handle counter are left alone.
   */
  predicate Confined(before: Db, after: Db, h: TxHandle) {
    && after.committed == before.committed
    && after.nextTx == before.nextTx
    && after.open.Keys == before.open.Keys
    && forall g | g in before.open && g != h :: after.open[g] == before.open[g]
  }

  /**
   * The end of WithTransaction as written, after the body has run in transaction h. The
   * deferred rollback tests the outer err, which is nil once BeginTx has succeeded (the
   * body's error lands in a variable scoped to the if statement, Commit's result is
   * returned directly), so no Rollback is ever sent: a failing body's error is returned
   * and its transaction is left open, holding its pooled connection.
   */
  function FinishAsWritten(db: Db, h: TxHandle, bodyErr: Option<Error>, commitFault: Option<DbFault>): (r: (Db, Option<Error>))
    ensures bodyErr.Some? ==> r.1 == bodyErr && r.0 == db
    ensures bodyErr.None? && h in db.open ==>
      && r.0.open == db.open - {h} && r.0.nextTx == db.nextTx
      && (r.1.None? <==> commitFault.None?)
      && (r.1.None? ==> r.0.committed == db.open[h])
      && (r.1.Some? ==> r.0.committed == db.committed && r.1 == Some(FaultError(commitFault.value)))
  {
    if bodyErr.Some? then (db, bodyErr) else Commit(db, h, commitFault)
  }

  /** The end WithTransaction evidently intends: a failing body's transaction is rolled back. */
  function Finish(db: Db, h: TxHandle, bodyErr: Option<Error>, commitFault: Option<DbFault>): (r: (Db, Option<Error>))
    ensures bodyErr.Some? ==> r.1 == bodyErr && r.0.committed == db.committed
    ensures h in db.open ==> r.0.open == db.open - {h} && r.0.nextTx == db.nextTx
    ensures bodyErr.None? && h in db.open ==>
      && (r.1.None? <==> commitFault.None?)
      && (r.1.None? ==> r.0.committed == db.open[h])
      && (r.1.Some? ==> r.0.committed == db.committed && r.1 == Some(FaultError(commitFault.value)))
  {
    if bodyErr.Some? then (Rollback(db, h), bodyErr) else Commit(db, h, commitFault)
  }

  /** As written, a body that fails leaves its transaction among the open ones. */
  lemma FailedBodyLeavesTxOpen(db: Db, h: TxHandle, e: Error, commitFault: Option<DbFault>)
    requires h in db.open
    ensures h in FinishAsWritten(db, h, Some(e), commitFault).0.open
    ensures FinishAsWritten(db, h, Some(e), commitFault).0.open == db.open
  {
  }

  /**
   * The rollback changes nothing a caller can observe through the committed tables or the
   * returned error: only the set of open transactions differs.
   */
  lemma RollbackOnlyClosesTheTransaction(db: Db, h: TxHandle, bodyErr: Option<Error>, commitFault: Option<DbFault>)
    ensures Finish(db, h, bodyErr, commitFault).1 == FinishAsWritten(db, h, bodyErr, commitFault).1
    ensures Finish(db, h, bodyErr, commitFault).0.committed == FinishAsWritten(db, h, bodyErr, commitFault).0.committed
    ensures Finish(db, h, bodyErr, commitFault).0.open == FinishAsWritten(db, h, bodyErr, commitFault).0.open - {h}
  {
  }

  /**
   * The transaction contract, for a body confined to its transaction: the transaction is
   * finished whatever happens, the tables become the working copy exactly when body and
   * COMMIT both succeed, and otherwise nothing becomes visible.
   */
  lemma TransactionIsAtomic<T>(db: Db, step: TxStep<T>, commitFault: Option<DbFault>)
    requires DbValid(db)
    requires Confined(Begin(db), step.db, db.nextTx)
    ensures var (after, err) := Finish(step.db, db.nextTx, step.err, commitFault);
      && after.open == db.open
      && after.nextTx == db.nextTx + 1
      && (err.None? <==> step.err.None? && commitFault.None?)
      && (err.None? ==> after.committed == step.db.open[db.nextTx])
      && (err.Some? ==> after.committed == db.committed)
      && (step.err.Some? ==> err == step.err)
  {
    var h := db.nextTx;
    assert step.db.open.Keys == db.open.Keys + {h};
    var after := Finish(step.db, h, step.err, commitFault).0;
    assert after.open.Keys == db.open.Keys;
    forall g | g in db.open ensures after.open[g] == db.open[g] {
      assert g != h;
      assert step.db.open[g] == Begin(db).open[g];
    }
  }

  /** As written, finishing a transaction keeps the unique constraints as well. */
  lemma FinishAsWrittenKeepsValid(db: Db, h: TxHandle, bodyErr: Option<Error>, commitFault: Option<DbFault>)
    requires DbValid(db)
    ensures DbValid(FinishAsWritten(db, h, bodyErr, commitFault).0)
  {
    CommitKeepsValid(db, h, commitFault);
  }

  /** Finishing a transaction keeps the tables' unique constraints. */
  lemma FinishKeepsValid(db: Db, h: TxHandle, bodyErr: Option<Error>, commitFault: Option<DbFault>)
    requires DbValid(db)
    ensures DbValid(Finish(db, h, bodyErr, commitFault).0)
  {
    CommitKeepsValid(db, h, commitFault);
  }

  class TxManager {
    const pool: Pool

    constructor (pool: Pool)
      ensures this.pool == pool
    {
      this.pool := pool;
    }

    /**
     * tm.WithTransaction(ctx, fn), as written. BeginTx may fail with the injected fault,
     * in which case the body never runs. `zero` is the value the captured variables hold
     * when the body does not run.
     */
    method WithTransaction<T>(ctx: Context, fn: (Context, Db) -> TxStep<T>, zero: T,
                              beginFault: Option<DbFault>, commitFault: Option<DbFault>)
      returns (err: Option<Error>, captured: T)
      requires DbValid(pool.state)
      modifies pool
      ensures beginFault.Some? ==>
        && err == Some(Wrap(BeginPrefix, FaultError(beginFault.value)))
        && captured == zero
        && pool.state == old(pool.state)
      ensures beginFault.None? ==>
        var h := old(pool.state).nextTx;
        var step := fn(Bind(ctx, h), Begin(old(pool.state)));
        && captured == step.captured
        && (pool.state, err) == FinishAsWritten(step.db, h, step.err, commitFault)
    {
      if beginFault.Some? {
        return Some(Wrap(BeginPrefix, FaultError(beginFault.value))), zero;
      }
      var h := pool.state.nextTx;
      pool.state := Begin(pool.state);
      var txCtx := Bind(ctx, h);
      var step := fn(txCtx, pool.state);
      pool.state := step.db;
      captured := step.captured;
      if step.err.Some? {
        return step.err, captured;
      }
      var commit := Commit(pool.state, h, commitFault);
      pool.state := commit.0;
      err := commit.1;
    }

    /** WithTransaction with the rollback it evidently intends: a failing body's transaction is rolled back. */
    method WithRollback<T>(ctx: Context, fn: (Context, Db) -> TxStep<T>, zero: T,
                           beginFault: Option<DbFault>, commitFault: Option<DbFault>)
      returns (err: Option<Error>, captured: T)
      requires DbValid(pool.state)
      modifies pool
      ensures beginFault.Some? ==>
        && err == Some(Wrap(BeginPrefix, FaultError(beginFault.value)))
        && captured == zero
        && pool.state == old(pool.state)
      ensures beginFault.None? ==>
        var h := old(pool.state).nextTx;
        var step := fn(Bind(ctx, h), Begin(old(pool.state)));
        && captured == step.captured
        && (pool.state, err) == Finish(step.db, h, step.err, commitFault)
    {
      if beginFault.Some? {
        return Some(Wrap(BeginPrefix, FaultError(beginFault.value))), zero;
      }
      var h := pool.state.nextTx;
      pool.state := Begin(pool.state);
      var txCtx := Bind(ctx, h);
      var step := fn(txCtx, pool.state);
      pool.state := step.db;
      captured := step.captured;
      if step.err.Some? {
        pool.state := Rollback(pool.state, h);
        return step.err, captured;
      }
      var commit := Commit(pool.state, h, commitFault);
      pool.state := commit.0;
      err := commit.1;
    }
  }
}
