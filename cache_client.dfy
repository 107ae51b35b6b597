/**
 * CacheClient: a read-through cache over Redis strings with two defences.
 * Pass-through queries cache a blank string as "known absent" so that a
 * missing id does not reach the database every time. Logical-expiry queries
 * keep an embedded expiry instead of a Redis TTL and, once it has passed,
 * serve the stale value while one caller holding a short mutex key queues a
 * rebuild.
 *
 * JSON is abstract: a `Codec` says how values become text and back, and no
 * round trip is assumed of it. The rebuild executor is the `tasks` queue; a
 * separate `RunRebuild` step runs one queued task.
 */
module Cache {
  import opened Common
  import opened Text
  import opened Store
  import opened Constants

  /** RedisData: a value wrapped with its logical expiry, in seconds. */
  datatype RedisData<R> = RedisData(data: Option<R>, expireTime: int)

  /**
   * JSONUtil as the client uses it. `toBean` and `unwrap` give None where
   * the real call throws (text that is not the expected JSON, or a RedisData
   * without an expiry time).
   */
  datatype Codec<!R> = Codec(
    toJson: R -> string,
    toBean: string -> Option<R>,
    wrap: RedisData<R> -> string,
    unwrap: string -> Option<RedisData<R>>)

  /** What a query hands back: a value or null, or an exception it lets escape. */
  datatype Reply<R> = Value(value: Option<R>) | Exception

  /** What the database callback did: returned a row or null, or threw. */
  datatype Fetch<R> = Fetched(row: Option<R>) | Failed

  /** A rebuild submitted to the executor: what `dbFallback`, `setWithLogicalExpire` and `unLock` will act on. */
  datatype RebuildTask = RebuildTask(key: string, lockKey: string, id: int, time: int, unit: TimeUnit)

  /** What the re-read under the rebuild mutex finds. */
  datatype Recheck<R> = Unreadable | Fresh(data: Option<R>) | Stale(data: Option<R>)

  /** Seconds a rebuild mutex lives if nobody deletes it. */
  const REBUILD_LOCK_TTL: int := 10

  /** The mutex key of a logical-expiry rebuild: always under LOCK_SHOP_KEY. */
  function LockKey(id: int): string
  {
    LOCK_SHOP_KEY + LongToString(id)
  }

  function CacheKey(keyPrefix: string, id: int): string
  {
    keyPrefix + LongToString(id)
  }

  /** A pass-through hit: the decoded value, or the exception decoding throws. */
  function Decoded<R>(bean: Option<R>): (r: Reply<R>)
    ensures r.Exception? <==> bean.None?
    ensures bean.Some? ==> r == Value(Some(bean.value))
  {
    if bean.Some? then Value(Some(bean.value)) else Exception
  }

  /** Distinct ids never share a rebuild mutex, and equal ids always do. */
  lemma LockKeyInjective(a: int, b: int)
    requires IsLong(a) && IsLong(b)
    ensures LockKey(a) == LockKey(b) <==> a == b
  {
    if LockKey(a) == LockKey(b) {
      assert LockKey(a)[|LOCK_SHOP_KEY|..] == LongToString(a);
      assert LockKey(b)[|LOCK_SHOP_KEY|..] == LongToString(b);
      LongToStringInjective(a, b);
    }
  }

  class CacheClient<R> {
    const redis: Redis
    const codec: Codec<R>
    /** Rebuilds submitted and not yet run. */
    var tasks: seq<RebuildTask>

    constructor (redis: Redis, codec: Codec<R>)
      ensures this.redis == redis && this.codec == codec && tasks == []
    {
      this.redis := redis;
      this.codec := codec;
      tasks := [];
    }

    /** The logical-expiry reading of a stored text at time `now`. */
    function Classify(json: Option<string>, now: int): (c: Recheck<R>)
      ensures c.Unreadable? <==> json.None? || codec.unwrap(json.value).None?
      ensures c.Fresh? <==> json.Some? && codec.unwrap(json.value).Some? && codec.unwrap(json.value).value.expireTime > now
      ensures !c.Unreadable? ==> c.data == codec.unwrap(json.value).value.data
    {
      if json.None? then Unreadable
      else
        match codec.unwrap(json.value)
        case None => Unreadable
        case Some(d) => if d.expireTime > now then Fresh(d.data) else Stale(d.data)
    }

    /** set(key, value, time, unit): the JSON text with a Redis TTL. */
    method Set(key: string, value: R, time: Pos, unit: TimeUnit)
      modifies redis`strings
      ensures redis.strings == old(redis.strings)[key := Entry(codec.toJson(value), Some(redis.now + ToSeconds(time, unit)))]
    {
      redis.SetEx(key, codec.toJson(value), ToSeconds(time, unit));
    }

    /** setWithLogicalExpire(key, value, time, unit): the wrapped value, with no Redis TTL. */
    method SetWithLogicalExpire(key: string, value: Option<R>, time: int, unit: TimeUnit)
      modifies redis`strings
      ensures redis.strings == old(redis.strings)[key := Entry(codec.wrap(RedisData(value, redis.now + ToSeconds(time, unit))), None)]
    {
      redis.Set(key, codec.wrap(RedisData(value, redis.now + ToSeconds(time, unit))));
    }

    /**
     * queryWithPassThrough. `loaderCalls` counts the calls of `loader`
     * (the source's dbFallback) this query made.
     */
    method QueryWithPassThrough(keyPrefix: string, id: int, loader: int -> Fetch<R>, time: Pos, unit: TimeUnit)
      returns (reply: Reply<R>, ghost loaderCalls: nat)
      modifies redis`strings
      ensures var cached := old(redis.Get(CacheKey(keyPrefix, id)));
        cached.Some? && !IsBlank(cached.value) ==>
          reply == Decoded(codec.toBean(cached.value)) && loaderCalls == 0 && redis.strings == old(redis.strings)
      ensures var cached := old(redis.Get(CacheKey(keyPrefix, id)));
        cached.Some? && IsBlank(cached.value) ==>
          reply == Value(None) && loaderCalls == 0 && redis.strings == old(redis.strings)
      ensures old(redis.Get(CacheKey(keyPrefix, id))).None? ==> loaderCalls == 1
      ensures old(redis.Get(CacheKey(keyPrefix, id))).None? && loader(id).Failed? ==>
        reply == Exception && redis.strings == old(redis.strings)
      ensures old(redis.Get(CacheKey(keyPrefix, id))).None? && loader(id) == Fetched(None) ==>
        reply == Value(None)
        && redis.strings == old(redis.strings)[CacheKey(keyPrefix, id) := Entry("", Some(redis.now + ToSeconds(time, unit)))]
      ensures old(redis.Get(CacheKey(keyPrefix, id))).None? && loader(id).Fetched? && loader(id).row.Some? ==>
        reply == Value(loader(id).row)
        && redis.strings == old(redis.strings)[CacheKey(keyPrefix, id) :=
                                                 Entry(codec.toJson(loader(id).row.value), Some(redis.now + ToSeconds(time, unit)))]
    {
      var key := CacheKey(keyPrefix, id);
      var json := redis.Get(key);
      if json.Some? && !IsBlank(json.value) {
        return Decoded(codec.toBean(json.value)), 0;
      }
      if json.Some? {
        return Value(None), 0;
      }
      loaderCalls := 1;
      var fetched := loader(id);
      match fetched {
        case Failed =>
          reply := Exception;
        case Fetched(None) =>
          redis.SetEx(key, "", ToSeconds(time, unit));
          reply := Value(None);
        case Fetched(Some(r)) =>
          Set(key, r, time, unit);
          reply := Value(Some(r));
      }
    }

    /**
     * A miss for an id the database does not have, followed at once by a
     * second query for it: the second answers null from the blank marker and
     * does not reach the database.
     */
    method MissThenMarker(keyPrefix: string, id: int, loader: int -> Fetch<R>, time: Pos, unit: TimeUnit)
      returns (first: Reply<R>, second: Reply<R>, ghost calls1: nat, ghost calls2: nat)
      requires redis.Get(CacheKey(keyPrefix, id)).None? && loader(id) == Fetched(None)
      modifies redis`strings
      ensures first == Value(None) && second == Value(None)
      ensures calls1 == 1 && calls2 == 0
      ensures redis.Get(CacheKey(keyPrefix, id)) == Some("")
    {
      first, calls1 := QueryWithPassThrough(keyPrefix, id, loader, time, unit);
      assert redis.Get(CacheKey(keyPrefix, id)) == Some("");
      second, calls2 := QueryWithPassThrough(keyPrefix, id, loader, time, unit);
    }

    /** tryLock: SET key "1" EX 10 NX. */
    method TryLock(key: string) returns (ok: bool)
      modifies redis`strings
      ensures ok <==> old(redis.Get(key)).None?
      ensures redis.strings == if ok then old(redis.strings)[key := Entry("1", Some(redis.now + REBUILD_LOCK_TTL))] else old(redis.strings)
    {
      ok := redis.SetNx(key, "1", REBUILD_LOCK_TTL);
    }

    /** unLock: DEL key, whoever set it. */
    method UnLock(key: string)
      modifies redis`strings
      ensures redis.strings == old(redis.strings) - {key}
    {
      redis.Del(key);
    }

    /**
     * The double check under the rebuild mutex: re-read the key; a fresh entry
     * is returned as it is, a stale one gets a rebuild queued and is returned
     * too. A key that is gone or unreadable makes the call throw, and the
     * mutex stays until its TTL ends.
     */
    method DoubleCheck(key: string, lockKey: string, id: int, time: int, unit: TimeUnit) returns (reply: Reply<R>)
      modifies this`tasks
      ensures Classify(redis.Get(key), redis.now).Unreadable? ==> reply == Exception && tasks == old(tasks)
      ensures Classify(redis.Get(key), redis.now).Fresh? ==>
        reply == Value(Classify(redis.Get(key), redis.now).data) && tasks == old(tasks)
      ensures Classify(redis.Get(key), redis.now).Stale? ==>
        reply == Value(Classify(redis.Get(key), redis.now).data)
        && tasks == old(tasks) + [RebuildTask(key, lockKey, id, time, unit)]
    {
      var json := redis.Get(key);
      match Classify(json, redis.now) {
        case Unreadable =>
          reply := Exception;
        case Fresh(data) =>
          reply := Value(data);
        case Stale(data) =>
          tasks := tasks + [RebuildTask(key, lockKey, id, time, unit)];
          reply := Value(data);
      }
    }

    /** queryWithLogicalExpire. */
    method QueryWithLogicalExpire(keyPrefix: string, id: int, time: int, unit: TimeUnit) returns (reply: Reply<R>)
      modifies redis`strings, this`tasks
      // absent or blank: null, and nothing else happens
      ensures var json := old(redis.Get(CacheKey(keyPrefix, id)));
        json.None? || IsBlank(json.value) ==>
          reply == Value(None) && redis.strings == old(redis.strings) && tasks == old(tasks)
      // present but not a RedisData: the call throws
      ensures var json := old(redis.Get(CacheKey(keyPrefix, id)));
        json.Some? && !IsBlank(json.value) && Classify(json, redis.now).Unreadable? ==>
          reply == Exception && redis.strings == old(redis.strings) && tasks == old(tasks)
      // logically fresh: the cached value, no mutex taken
      ensures var json := old(redis.Get(CacheKey(keyPrefix, id)));
        json.Some? && !IsBlank(json.value) && Classify(json, redis.now).Fresh? ==>
          reply == Value(Classify(json, redis.now).data) && redis.strings == old(redis.strings) && tasks == old(tasks)
      // stale and the mutex is taken by someone else: the stale value, nothing queued
      ensures var json := old(redis.Get(CacheKey(keyPrefix, id)));
        json.Some? && !IsBlank(json.value) && Classify(json, redis.now).Stale? && old(redis.Get(LockKey(id))).Some? ==>
          reply == Value(Classify(json, redis.now).data) && redis.strings == old(redis.strings) && tasks == old(tasks)
      // stale and the mutex is free: it is taken with a 10 s TTL and the double check decides
      ensures var json := old(redis.Get(CacheKey(keyPrefix, id)));
        json.Some? && !IsBlank(json.value) && Classify(json, redis.now).Stale? && old(redis.Get(LockKey(id))).None? ==>
          redis.strings == old(redis.strings)[LockKey(id) := Entry("1", Some(redis.now + REBUILD_LOCK_TTL))]
          && (CacheKey(keyPrefix, id) != LockKey(id) ==>
                reply == Value(Classify(json, redis.now).data)
                && tasks == old(tasks) + [RebuildTask(CacheKey(keyPrefix, id), LockKey(id), id, time, unit)])
    {
      var key := CacheKey(keyPrefix, id);
      var json := redis.Get(key);
      if json.None? || IsBlank(json.value) {
        return Value(None);
      }
      var first := Classify(json, redis.now);
      if first.Unreadable? {
        return Exception;
      }
      if first.Fresh? {
        return Value(first.data);
      }
      reply := RebuildIfFree(key, LockKey(id), id, time, unit, first.data);
    }

    /**
     * The stale branch of queryWithLogicalExpire: a mutex held by someone
     * else leaves the stale value as the answer; a free one is taken and
     * the double check decides.
     */
    method RebuildIfFree(key: string, lockKey: string, id: int, time: int, unit: TimeUnit, stale: Option<R>)
      returns (reply: Reply<R>)
      requires Classify(redis.Get(key), redis.now) == Stale(stale)
      modifies redis`strings, this`tasks
      ensures old(redis.Get(lockKey)).Some? ==>
        reply == Value(stale) && redis.strings == old(redis.strings) && tasks == old(tasks)
      ensures old(redis.Get(lockKey)).None? ==>
        redis.strings == old(redis.strings)[lockKey := Entry("1", Some(redis.now + REBUILD_LOCK_TTL))]
        && (key != lockKey ==>
              reply == Value(stale)
              && tasks == old(tasks) + [RebuildTask(key, lockKey, id, time, unit)])
    {
      var isLock := TryLock(lockKey);
      if isLock {
        assert key != lockKey ==> redis.Get(key) == old(redis.Get(key));
        reply := DoubleCheck(key, lockKey, id, time, unit);
      } else {
        reply := Value(stale);
      }
    }

    /**
     * Runs the queued rebuild `i`: writes what the database returned (null
     * included) with a fresh logical expiry, then deletes the mutex whether
     * or not the load threw.
     */
    method RunRebuild(i: nat, fetch: Fetch<R>)
      requires i < |tasks|
      modifies redis`strings, this`tasks
      ensures tasks == old(tasks[..i] + tasks[i + 1..])
      ensures fetch.Fetched? ==>
        redis.strings == old(redis.strings)[old(tasks[i].key) :=
          Entry(codec.wrap(RedisData(fetch.row, redis.now + ToSeconds(old(tasks[i].time), old(tasks[i].unit)))), None)]
          - {old(tasks[i].lockKey)}
      ensures fetch.Failed? ==> redis.strings == old(redis.strings) - {old(tasks[i].lockKey)}
    {
      var t := tasks[i];
      tasks := tasks[..i] + tasks[i + 1..];
      if fetch.Fetched? {
        SetWithLogicalExpire(t.key, fetch.row, t.time, t.unit);
      }
      UnLock(t.lockKey);
    }
  }
}
