/**
 * internal/storage/redis_/cacheRepo.go: a key/value cache with expiry. The Redis
 * keyspace maps keys to string values and expiry instants. The server's clock is
 * passed in as `now`, in nanoseconds; Redis keeps expiry instants in whole
 * milliseconds of that clock. Get reports a missing or expired key as
 * an error wrapping ErrKeyNotFound and any other client error wrapped with the
 * operation's name.
 */
module CacheRepo {
  import opened Wrappers
  import opened Errors
  import Strconv

  const Millisecond: int := 1_000_000
  const Second: int := 1_000_000_000
  const Hour: int := 3600 * Second

  /** redis.KeepTTL */
  const KeepTTL: int := -1

  const SetPrefix: string := "redis.cacheRepo.Set: "
  const GetPrefix: string := "redis.cacheRepo.Get: "

  /** The values Set is given (its parameter is `any`), as the client writes them on the wire. */
  datatype Arg = StrArg(s: string) | IntArg(i: int) | BoolArg(b: bool)

  function Render(v: Arg): string {
    match v
    case StrArg(s) => s
    case IntArg(i) => Strconv.FormatInt(i)
    case BoolArg(b) => if b then "1" else "0"
  }

  /**
   * A key of the keyspace: its value and, if it has a time to live, the millisecond
   * it expires after.
   */
  datatype Entry = Entry(value: string, expiresAt: Option<int>)

  /** Redis reads the clock in whole milliseconds and expires a key only once that clock is past its instant. */
  predicate Live(e: Entry, now: int) {
    e.expiresAt.None? || now / Millisecond <= e.expiresAt.value
  }

  /** What GET key sees at `now`: an expired key reads as absent. */
  function Read(entries: map<string, Entry>, key: string, now: int): (r: Option<string>)
    ensures r.Some? <==> key in entries && Live(entries[key], now)
    ensures r.Some? ==> r.value == entries[key].value
  {
    if key in entries && Live(entries[key], now) then Some(entries[key].value) else None
  }

  /** usePrecise: a duration under a second or not a whole number of seconds is sent as PX. */
  predicate UsePrecise(d: int) {
    d < Second || d % Second != 0
  }

  /**
   * The time to live the SET command carries, in milliseconds as the server counts it:
   * PX rounds down to whole milliseconds and EX to whole seconds, and a positive
   * duration is never sent as 0.
   */
  function TtlSentMs(d: int): (n: int)
    requires d > 0
    ensures n >= 1
  {
    if UsePrecise(d) then (if d < Millisecond then 1 else d / Millisecond)
    else (d / Second) * 1000
  }

  /** The same time to live in nanoseconds. */
  function TtlSent(d: int): (r: int)
    requires d > 0
    ensures r > 0
    ensures d >= Millisecond ==> r <= d && d - r < Millisecond
    ensures d < Millisecond ==> r == Millisecond
    ensures !UsePrecise(d) ==> r == d
  {
    TtlSentMs(d) * Millisecond
  }

  /**
   * The expiry SET key value gives the key: for a positive duration, the server's
   * current millisecond plus the TTL sent, in milliseconds; KEEPTTL keeps a live key's.
   */
  function ExpiryAfterSet(entries: map<string, Entry>, key: string, expiration: int, now: int): Option<int> {
    if expiration > 0 then Some(now / Millisecond + TtlSentMs(expiration))
    else if expiration == KeepTTL && key in entries && Live(entries[key], now) then entries[key].expiresAt
    else None
  }

  /** The keyspace after SET key value at `now`. */
  function SetEntries(entries: map<string, Entry>, key: string, value: string, expiration: int, now: int): map<string, Entry> {
    entries[key := Entry(value, ExpiryAfterSet(entries, key, expiration, now))]
  }

  /**
   * A value set with a positive time to live is read back until that time has elapsed,
   * and still at the very instant it elapses.
   */
  lemma GetAfterSet(entries: map<string, Entry>, key: string, value: Arg, expiration: int, t0: int, t1: int)
    requires expiration > 0 && t0 <= t1 <= t0 + TtlSent(expiration)
    ensures Read(SetEntries(entries, key, Render(value), expiration, t0), key, t1) == Some(Render(value))
  {
    var k := TtlSentMs(expiration);
    assert t1 / Millisecond <= (t0 + k * Millisecond) / Millisecond == t0 / Millisecond + k;
  }

  /**
   * A millisecond after the time to live has elapsed the key reads as absent; within
   * that millisecond it depends on where t0 fell in its own millisecond.
   */
  lemma ExpiredAfterTtl(entries: map<string, Entry>, key: string, value: string, expiration: int, t0: int, t1: int)
    requires expiration > 0 && t1 >= t0 + TtlSent(expiration) + Millisecond
    ensures Read(SetEntries(entries, key, value, expiration, t0), key, t1).None?
  {
    var k := TtlSentMs(expiration);
    assert t1 / Millisecond >= (t0 + (k + 1) * Millisecond) / Millisecond == t0 / Millisecond + k + 1;
  }

  /** A whole number of seconds, such as the service's one hour, is kept exactly. */
  lemma WholeSecondsAreExact(n: int)
    requires n >= 1
    ensures TtlSent(n * Second) == n * Second
  {
    assert (n * Second) % Second == 0;
  }

  /** Setting one key leaves every other key as it was. */
  lemma SetLeavesOtherKeys(entries: map<string, Entry>, key: string, other: string, value: string, expiration: int, t0: int, t1: int)
    requires other != key
    ensures Read(SetEntries(entries, key, value, expiration, t0), other, t1) == Read(entries, other, t1)
  {
  }

  /** A non-string value is read back as its rendering: 42 reads as "42". */
  lemma IntegerIsRenderedInDecimal()
    ensures Render(IntArg(42)) == "42"
  {
    assert Strconv.NatToString(4) == "4";
    assert Strconv.NatToString(42) == Strconv.NatToString(4) + [Strconv.Digit(2)];
  }

  /** The Redis server's keyspace behind a *redis.Client. */
  class RedisClient {
    var entries: map<string, Entry>

    constructor ()
      ensures entries == map[]
    {
      entries := map[];
    }
  }

  class CacheRepo {
    const client: RedisClient

    constructor (client: RedisClient)
      ensures this.client == client
    {
      this.client := client;
    }

    /** ca.Set(ctx, key, value, expiration); `fault` is the client's error, if SET fails. */
    method Set(key: string, value: Arg, expiration: int, now: int, fault: Option<string>) returns (err: Option<Error>)
      modifies client
      ensures fault.Some? ==> err == Some(Wrap(SetPrefix, Text(fault.value))) && client.entries == old(client.entries)
      ensures fault.None? ==> err.None? && client.entries == SetEntries(old(client.entries), key, Render(value), expiration, now)
    {
      if fault.Some? {
        return Some(Wrap(SetPrefix, Text(fault.value)));
      }
      client.entries := SetEntries(client.entries, key, Render(value), expiration, now);
      return None;
    }

    /** ca.Get(ctx, key); `fault` is the client's error other than a miss, if GET fails. */
    function Get(key: string, now: int, fault: Option<string>): (r: Result<string, Error>)
      reads client
      ensures r.Success? <==> fault.None? && Read(client.entries, key, now).Some?
      ensures r.Success? ==> r.value == client.entries[key].value
      ensures r.Failure? ==> (Is(r.error, ErrKeyNotFound) <==> fault.None?)
      ensures r.Failure? && fault.Some? ==> r.error == Wrap(GetPrefix, Text(fault.value))
    {
      if fault.Some? then Failure(Wrap(GetPrefix, Text(fault.value)))
      else
        match Read(client.entries, key, now)
        case Some(v) => Success(v)
        case None => Failure(Wrap(GetPrefix + "key " + key + ": ", Sentinel(ErrKeyNotFound)))
    }
  }
}
