/**
 * internal/storage/postgres/eventRepo.go: the append-only events table (the
 * outbox). Save inserts event_type, payload and status through GetQuerier, so
 * inside a transaction it shares the transaction of the user insert.
 */
module EventRepo {
  import opened Wrappers
  import opened Errors
  import opened Uuid
  import opened Models
  import opened Postgres
  import opened TxManager

  const SaveExistsPrefix: string := "postgres.eventRepo.Save: event already exists: "
  const SaveFailedPrefix: string := "postgres.eventRepo.Save: failed to save event: "

  predicate IdTaken(events: seq<EventRow>, id: Uuid) {
    exists i | 0 <= i < |events| :: events[i].id == id
  }

  /** The row INSERT INTO events (event_type, payload, status) creates; the event's own id is ignored. */
  function NewRow(event: Event, id: Uuid): EventRow {
    EventRow(id, event.eventType, event.payload, event.status)
  }

  /** INSERT INTO events (event_type, payload, status) VALUES ($1, $2, $3) RETURNING id, sent to q. */
  function Insert(db: Db, q: Querier, event: Event, gen: InsertEnv): (r: (Db, Result<Uuid, Error>))
    ensures r.1.Failure? ==> r.0 == db && FromDriver(r.1.error)
    ensures r.1.Success? ==>
      && Snapshot(db, q).Success?
      && r.1.value == gen.id
      && r.0 == Store(db, q, Snapshot(db, q).value.(events := Snapshot(db, q).value.events + [NewRow(event, gen.id)]))
  {
    match Snapshot(db, q)
    case Failure(e) => (db, Failure(e))
    case Success(t) =>
      if gen.fault.Some? then (db, Failure(FaultError(gen.fault.value)))
      else if IdTaken(t.events, gen.id) then
        (db, Failure(DuplicateKey))
      else (Store(db, q, t.(events := t.events + [NewRow(event, gen.id)])), Success(gen.id))
  }

  datatype Saved = Saved(db: Db, id: Uuid, err: Option<Error>)

  /** The error translation of Save. */
  function SaveError(e: Error): (r: Error)
    requires FromDriver(e)
    ensures Is(r, ErrEventExists) <==> PgCode(e) == Some(UniqueViolation)
    ensures !Is(r, ErrEventExists) ==> r == Wrap(SaveFailedPrefix, e) && FromDriver(r)
  {
    if PgCode(e) == Some(UniqueViolation) then Wrap(SaveExistsPrefix, Sentinel(ErrEventExists))
    else Wrap(SaveFailedPrefix, e)
  }

  /** eventRepo.Save(ctx, event) as a transition of the database. */
  function SaveOn(db: Db, ctx: Context, event: Event, gen: InsertEnv): (r: Saved)
    ensures r.err.Some? ==> r.id == Nil && r.db == db
    ensures r.err.None? ==>
      var q := GetQuerier(ctx);
      && r.id == gen.id
      && Snapshot(db, q).Success?
      && r.db == Store(db, q, Snapshot(db, q).value.(events := Snapshot(db, q).value.events + [NewRow(event, gen.id)]))
    ensures r.err.None? <==> gen.fault.None? && Snapshot(db, GetQuerier(ctx)).Success?
                              && !IdTaken(Snapshot(db, GetQuerier(ctx)).value.events, gen.id)
    ensures r.err.Some? ==> (Is(r.err.value, ErrEventExists) <==>
      && Snapshot(db, GetQuerier(ctx)).Success?
      && (if gen.fault.Some? then gen.fault.value.ServerError? && gen.fault.value.code == UniqueViolation
          else IdTaken(Snapshot(db, GetQuerier(ctx)).value.events, gen.id)))
    ensures r.err.Some? && Snapshot(db, GetQuerier(ctx)).Success? ==>
      r.err == Some(SaveError(if gen.fault.Some? then FaultError(gen.fault.value) else DuplicateKey))
  {
    var (after, res) := Insert(db, GetQuerier(ctx), event, gen);
    match res
    case Success(id) => Saved(after, id, None)
    case Failure(e) => Saved(db, Nil, Some(SaveError(e)))
  }

  lemma AppendUnique(events: seq<EventRow>, row: EventRow)
    requires EventsUnique(events) && !IdTaken(events, row.id)
    ensures EventsUnique(events + [row])
  {
    var s := events + [row];
    forall i, j | 0 <= i < j < |s| ensures s[i].id != s[j].id {
      if j == |events| {
        assert s[i] == events[i] && s[j] == row;
      } else {
        assert s[i] == events[i] && s[j] == events[j];
      }
    }
  }

  lemma SaveKeepsValid(db: Db, ctx: Context, event: Event, gen: InsertEnv)
    requires DbValid(db)
    ensures DbValid(SaveOn(db, ctx, event, gen).db)
  {
    var r := SaveOn(db, ctx, event, gen);
    if r.err.None? {
      var t := Snapshot(db, GetQuerier(ctx)).value;
      assert TablesValid(t);
      AppendUnique(t.events, NewRow(event, gen.id));
    }
  }

  /** Outside a transaction the event is appended to the committed table at once. */
  lemma SaveOnPoolCommits(db: Db, ctx: Context, event: Event, gen: InsertEnv)
    requires GetQuerier(ctx) == PoolQuerier
    ensures var r := SaveOn(db, ctx, event, gen);
      && r.db.open == db.open
      && r.db.committed.users == db.committed.users
      && r.db.committed.events == if r.err.None? then db.committed.events + [NewRow(event, gen.id)] else db.committed.events
  {
  }

  class EventRepo {
    const pool: Pool

    constructor (pool: Pool)
      ensures this.pool == pool
    {
      this.pool := pool;
    }

    /** u.Save(ctx, event) */
    method Save(ctx: Context, event: Event, gen: InsertEnv) returns (id: Uuid, err: Option<Error>)
      modifies pool
      ensures Saved(pool.state, id, err) == SaveOn(old(pool.state), ctx, event, gen)
    {
      var querier := GetQuerier(ctx);
      var (after, res) := Insert(pool.state, querier, event, gen);
      if res.Failure? {
        return Nil, Some(SaveError(res.error));
      }
      pool.state := after;
      id, err := res.value, None;
    }
  }
}
