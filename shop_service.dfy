/**
 * ShopServiceImpl: shops by type, a page at a time, either straight from
 * tb_shop or, given the caller's coordinates, nearest first from the
 * "shop:geo:"+typeId geo index; a shop by id through the logical-expiry
 * cache; and an update that writes the row and then deletes the cache key.
 *
 * The page arithmetic of the geo path is Java `int` arithmetic and wraps;
 * it is written out with Int32.
 */
module Shops {
  import opened Common
  import opened Text
  import opened Store
  import opened Tables
  import opened Constants
  import opened Cache

  const SHOP_NOT_FOUND_MSG: string := "店铺不存在"
  const SHOP_ID_REQUIRED_MSG: string := "店铺id不能为空"

  const TWO31: int := 0x8000_0000
  const TWO32: int := 0x1_0000_0000

  /** The geo search radius, in metres. */
  const NEARBY_RADIUS: int := 5000

  /** The largest page number whose `current * DEFAULT_PAGE_SIZE` fits an int. */
  const MAX_PLAIN_PAGE: int := 429496729

  predicate IsInt(x: int)
  {
    -TWO31 <= x < TWO31
  }

  /** The Java int a 32-bit multiplication or addition leaves: `x` modulo 2^32, signed. */
  function Int32(x: int): (r: int)
    ensures IsInt(r)
    ensures IsInt(x) ==> r == x
  {
    var v := x % TWO32;
    if v >= TWO31 then v - TWO32 else v
  }

  function Min(a: int, b: int): int
  {
    if a <= b then a else b
  }

  // ---- the database path ----

  /**
   * Page `current` of size DEFAULT_PAGE_SIZE of `all`, as MyBatis-Plus cuts
   * it: a page number below 1 reads as page 1, and a page past the end is
   * empty.
   */
  function Page<T>(all: seq<T>, current: int): (r: seq<T>)
    ensures |r| <= DEFAULT_PAGE_SIZE
    ensures forall x :: x in r ==> x in all
  {
    var offset := if current > 1 then (current - 1) * DEFAULT_PAGE_SIZE else 0;
    if offset >= |all| then [] else all[offset..Min(offset + DEFAULT_PAGE_SIZE, |all|)]
  }

  /** Every item is on exactly the page its position says: the j-th is item j % 5 of page j / 5 + 1. */
  lemma PageHolds<T>(all: seq<T>, j: int)
    requires 0 <= j < |all|
    ensures |Page(all, j / DEFAULT_PAGE_SIZE + 1)| > j % DEFAULT_PAGE_SIZE
    ensures Page(all, j / DEFAULT_PAGE_SIZE + 1)[j % DEFAULT_PAGE_SIZE] == all[j]
  {
    var p := j / DEFAULT_PAGE_SIZE;
    var k := j % DEFAULT_PAGE_SIZE;
    assert j == p * DEFAULT_PAGE_SIZE + k;
    var offset := p * DEFAULT_PAGE_SIZE;
    assert offset <= j;
    assert Page(all, p + 1) == all[offset..Min(offset + DEFAULT_PAGE_SIZE, |all|)];
  }

  /** `query().eq("type_id", typeId).page(new Page<>(current, 5))`: the shops of the type in table order, page `current`. */
  function DbPage(rows: seq<Shop>, typeId: int, current: int): (r: seq<Shop>)
    ensures |r| <= DEFAULT_PAGE_SIZE
    ensures forall s :: s in r ==> s in rows && s.typeId == typeId
  {
    Page(ShopsOfType(rows, typeId), current)
  }

  // ---- the geo path ----

  /** int from = (current - 1) * DEFAULT_PAGE_SIZE */
  function GeoFrom(current: int): int
  {
    Int32((current - 1) * DEFAULT_PAGE_SIZE)
  }

  /** int end = current * DEFAULT_PAGE_SIZE */
  function GeoEnd(current: int): int
  {
    Int32(current * DEFAULT_PAGE_SIZE)
  }

  /** The first `n` names: what `.limit(n)` lets the geo search return. */
  function Take(names: seq<string>, n: int): (r: seq<string>)
    requires n > 0
    ensures |r| == Min(|names|, n)
    ensures r == names[..|r|]
  {
    if |names| <= n then names else names[..n]
  }

  /**
   * `in("id", ids).last("order by field(id, ...)")`: the rows whose id is
   * among `ids`, in the order of each id's first place in `ids`.
   */
  function ShopsByIds(rows: seq<Shop>, ids: seq<int>): (r: seq<Shop>)
    ensures |r| <= |ids|
    ensures forall s :: s in r ==> s in rows && s.id.Some? && s.id.value in ids
    ensures forall i :: 0 <= i < |ids| && ShopIn(rows, ids[i]).Some? ==> ShopIn(rows, ids[i]).value in r
    decreases |ids|
  {
    if ids == [] then []
    else
      var init := ids[..|ids| - 1];
      var last := ids[|ids| - 1];
      var found := ShopIn(rows, last);
      assert forall i :: 0 <= i < |init| ==> init[i] == ids[i];
      ShopsByIds(rows, init) + (if found.None? || last in init then [] else [found.value])
  }

  /** With distinct ids that all have a row, the result is exactly those rows, in the order of `ids`. */
  lemma {:induction false} ShopsByIdsInOrder(rows: seq<Shop>, ids: seq<int>)
    requires forall i, j :: 0 <= i < j < |ids| ==> ids[i] != ids[j]
    requires forall i :: 0 <= i < |ids| ==> ShopIn(rows, ids[i]).Some?
    ensures |ShopsByIds(rows, ids)| == |ids|
    ensures forall k :: 0 <= k < |ids| ==> ShopsByIds(rows, ids)[k] == ShopIn(rows, ids[k]).value
    decreases |ids|
  {
    if ids != [] {
      var init := ids[..|ids| - 1];
      var last := ids[|ids| - 1];
      ShopsByIdsInOrder(rows, init);
      assert last !in init by {
        forall j | 0 <= j < |init| ensures init[j] != last {
          assert init[j] == ids[j];
        }
      }
      var prev := ShopsByIds(rows, init);
      assert ShopsByIds(rows, ids) == prev + [ShopIn(rows, last).value];
      forall k | 0 <= k < |ids|
        ensures ShopsByIds(rows, ids)[k] == ShopIn(rows, ids[k]).value
      {
        if k < |init| {
          assert ids[k] == init[k];
        }
      }
    }
  }

  /** The reply of the geo path, given what the geo search found (None: a null result). */
  function GeoPage(rows: seq<Shop>, current: int, nearby: Option<seq<string>>): (r: Response<seq<Shop>>)
    ensures r.OkData? || r == Thrown
    ensures r.OkData? ==> forall s :: s in r.data ==> s in rows && s.id.Some?
  {
    var from, end := GeoFrom(current), GeoEnd(current);
    if end <= 0 then Thrown
    else if nearby.None? then OkData([])
    else
      var list := Take(nearby.value, end);
      if |list| <= from then OkData([])
      else if from < 0 then Thrown
      else
        match ParseAll(list[from..])
        case None => Thrown
        case Some(ids) => OkData(ShopsByIds(rows, ids))
  }

  /** When neither bound has wrapped below zero, `end` is `from` plus one page. */
  lemma PageWindow(current: int)
    requires IsInt(current)
    ensures GeoEnd(current) > 0 && GeoFrom(current) >= 0 ==> GeoEnd(current) == GeoFrom(current) + DEFAULT_PAGE_SIZE
    ensures 1 <= current <= MAX_PLAIN_PAGE ==>
      GeoFrom(current) == (current - 1) * DEFAULT_PAGE_SIZE && GeoEnd(current) == current * DEFAULT_PAGE_SIZE
  {
    var x := (current - 1) * DEFAULT_PAGE_SIZE;
    var f := GeoFrom(current);
    var e := GeoEnd(current);
    var q := x / TWO32;
    assert x == q * TWO32 + x % TWO32;
    assert current * DEFAULT_PAGE_SIZE == x + DEFAULT_PAGE_SIZE;
    if e > 0 && f >= 0 {
      assert f == x % TWO32;
      var y := x + DEFAULT_PAGE_SIZE;
      assert y == q * TWO32 + (f + DEFAULT_PAGE_SIZE);
      assert y % TWO32 == f + DEFAULT_PAGE_SIZE;
    }
  }

  /** A page of the geo path never holds more than DEFAULT_PAGE_SIZE shops. */
  lemma GeoPageBound(rows: seq<Shop>, current: int, nearby: Option<seq<string>>)
    requires IsInt(current)
    ensures GeoPage(rows, current, nearby).OkData? ==> |GeoPage(rows, current, nearby).data| <= DEFAULT_PAGE_SIZE
  {
    PageWindow(current);
  }

  /**
   * For page numbers whose bounds do not wrap, page `current` holds the
   * shops named at positions (current-1)*5 up to current*5 of the nearest-
   * first answer, in that order.
   */
  lemma GeoPageSlice(rows: seq<Shop>, current: int, names: seq<string>)
    requires 1 <= current <= MAX_PLAIN_PAGE
    ensures var from := (current - 1) * DEFAULT_PAGE_SIZE;
      GeoPage(rows, current, Some(names)) ==
        if |names| <= from then OkData([])
        else match ParseAll(names[from..Min(|names|, current * DEFAULT_PAGE_SIZE)])
             case None => Thrown
             case Some(ids) => OkData(ShopsByIds(rows, ids))
  {
    PageWindow(current);
    var from, end := (current - 1) * DEFAULT_PAGE_SIZE, current * DEFAULT_PAGE_SIZE;
    var list := Take(names, end);
    if |names| > from {
      assert |list| > from;
      assert list[from..] == names[from..Min(|names|, end)];
    }
  }

  // ---- queryById ----

  /** How queryById answers what the cache client returned. */
  function Answer(reply: Reply<Shop>): (resp: Response<Shop>)
    ensures resp.OkData? <==> reply.Value? && reply.value.Some?
    ensures resp.OkData? ==> resp.data == reply.value.value
    ensures resp == Fail(SHOP_NOT_FOUND_MSG) <==> reply == Value(None)
    ensures resp == Thrown <==> reply.Exception?
  {
    match reply
    case Exception => Thrown
    case Value(None) => Fail(SHOP_NOT_FOUND_MSG)
    case Value(Some(s)) => OkData(s)
  }

  /** The shop cache key never coincides with a rebuild mutex key. */
  lemma ShopKeyIsNotLockKey(id: int)
    ensures CacheKey(CACHE_SHOP_KEY, id) != LockKey(id)
  {
    assert CacheKey(CACHE_SHOP_KEY, id)[0] == 'c';
    assert LockKey(id)[0] == 'l';
  }

  /** updateById(s): UPDATE tb_shop SET ... WHERE id = s.id; other rows are untouched. */
  function UpdateById(rows: seq<Shop>, s: Shop): (r: seq<Shop>)
    ensures |r| == |rows|
    ensures forall i :: 0 <= i < |rows| ==> r[i].id == rows[i].id
  {
    if rows == [] then []
    else [if rows[0].id == s.id then s else rows[0]] + UpdateById(rows[1..], s)
  }

  /**
   * After `updateById(s)` the row with s's id reads back as `s` when that
   * row existed, and stays missing otherwise.
   */
  lemma {:induction false} UpdateByIdFinds(rows: seq<Shop>, s: Shop, id: int)
    requires s.id == Some(id)
    ensures ShopIn(UpdateById(rows, s), id) == if ShopIn(rows, id).Some? then Some(s) else None
    decreases |rows|
  {
    if rows != [] {
      UpdateByIdFinds(rows[1..], s, id);
    }
  }

  /** Every other id reads back the row it had. */
  lemma {:induction false} UpdateByIdLeavesOthers(rows: seq<Shop>, s: Shop, other: int)
    requires s.id != Some(other)
    ensures ShopIn(UpdateById(rows, s), other) == ShopIn(rows, other)
    decreases |rows|
  {
    if rows != [] {
      UpdateByIdLeavesOthers(rows[1..], s, other);
    }
  }

  class ShopService {
    const redis: Redis
    const db: Database
    const cache: CacheClient<Shop>

    /** The cache client talks to the service's Redis. */
    predicate Valid()
    {
      cache.redis == redis
    }

    constructor (redis: Redis, db: Database, codec: Codec<Shop>)
      ensures Valid() && this.redis == redis && this.db == db && cache.codec == codec
      ensures fresh(cache) && cache.tasks == []
    {
      this.redis := redis;
      this.db := db;
      cache := new CacheClient(redis, codec);
    }

    /**
     * queryShopByType(typeId, current, x, y). `located` says whether both
     * coordinates were given; `nearby` is what the geo search of
     * "shop:geo:"+typeId within NEARBY_RADIUS metres returned, nearest first
     * (None for a null result). The method reads and changes nothing else.
     */
    method QueryShopByType(typeId: int, current: int, located: bool, nearby: Option<seq<string>>)
      returns (resp: Response<seq<Shop>>)
      requires IsInt(current)
      ensures !located ==> resp == OkData(DbPage(db.shops, typeId, current))
      ensures located ==> resp == GeoPage(db.shops, current, nearby)
    {
      if !located {
        return OkData(DbPage(db.shops, typeId, current));
      }
      var from := Int32((current - 1) * DEFAULT_PAGE_SIZE);
      var end := Int32(current * DEFAULT_PAGE_SIZE);
      if end <= 0 {
        // GeoSearchCommandArgs.limit refuses a count below 1
        return Thrown;
      }
      if nearby.None? {
        return OkData([]);
      }
      var list := Take(nearby.value, end);
      if |list| <= from {
        return OkData([]);
      }
      if from < 0 {
        // Stream.skip refuses a negative count
        return Thrown;
      }
      var ids := ParseEach(list[from..]);
      if ids.None? {
        return Thrown;
      }
      resp := OkData(ShopsByIds(db.shops, ids.value));
    }

    /**
     * What queryWithLogicalExpire answers for the shop, judged from the
     * cache entry alone: null for an absent or blank entry, an exception
     * for one that is not a RedisData, and otherwise the wrapped value,
     * logically expired or not.
     */
    function CachedReply(id: int): Reply<Shop>
      reads redis
    {
      var json := redis.Get(CacheKey(CACHE_SHOP_KEY, id));
      if json.None? || IsBlank(json.value) then Value(None)
      else
        match cache.Classify(json, redis.now)
        case Unreadable => Exception
        case Fresh(data) => Value(data)
        case Stale(data) => Value(data)
    }

    /** The entry is logically expired and nobody holds the rebuild mutex: this query will queue the rebuild. */
    predicate RebuildDue(id: int)
      reads redis
    {
      var json := redis.Get(CacheKey(CACHE_SHOP_KEY, id));
      json.Some? && !IsBlank(json.value) && cache.Classify(json, redis.now).Stale? && redis.Get(LockKey(id)).None?
    }

    /**
     * queryById(id) through queryWithLogicalExpire: an absent or blank cache
     * entry is "店铺不存在", an unreadable one throws, and a readable one
     * answers with its value, null reading as "店铺不存在". A logically
     * expired entry whose mutex is free also takes the mutex and queues a
     * rebuild.
     */
    method QueryById(id: int) returns (resp: Response<Shop>)
      requires Valid()
      modifies redis`strings, cache`tasks
      ensures resp == Answer(old(CachedReply(id)))
      ensures old(RebuildDue(id)) ==>
        redis.strings == old(redis.strings)[LockKey(id) := Entry("1", Some(redis.now + REBUILD_LOCK_TTL))]
        && cache.tasks == old(cache.tasks) + [RebuildTask(CacheKey(CACHE_SHOP_KEY, id), LockKey(id), id, CACHE_SHOP_TTL, Minutes)]
      ensures !old(RebuildDue(id)) ==> redis.strings == old(redis.strings) && cache.tasks == old(cache.tasks)
    {
      ShopKeyIsNotLockKey(id);
      var shop := cache.QueryWithLogicalExpire(CACHE_SHOP_KEY, id, CACHE_SHOP_TTL, Minutes);
      resp := Answer(shop);
    }

    /** Runs queued rebuild `i` with `getById` as the loader; `dbFails` says whether the SELECT threw. */
    method RunCacheRebuild(i: nat, dbFails: bool)
      requires Valid() && i < |cache.tasks|
      modifies redis`strings, cache`tasks
      ensures cache.tasks == old(cache.tasks[..i] + cache.tasks[i + 1..])
      ensures !dbFails ==>
        redis.strings == old(redis.strings)[old(cache.tasks[i].key) :=
          Entry(cache.codec.wrap(RedisData(db.ShopById(old(cache.tasks[i].id)),
                                           redis.now + ToSeconds(old(cache.tasks[i].time), old(cache.tasks[i].unit)))), None)]
          - {old(cache.tasks[i].lockKey)}
      ensures dbFails ==> redis.strings == old(redis.strings) - {old(cache.tasks[i].lockKey)}
    {
      var fetch := if dbFails then Failed else Fetched(db.ShopById(cache.tasks[i].id));
      cache.RunRebuild(i, fetch);
    }

    /**
     * update(shop): without an id, "店铺id不能为空" and no write; otherwise
     * the row is updated, the cache key deleted, and the method returns null.
     */
    method Update(shop: Shop) returns (resp: Response<Shop>)
      modifies db`shops, redis`strings
      ensures shop.id.None? ==>
        resp == Fail(SHOP_ID_REQUIRED_MSG) && db.shops == old(db.shops) && redis.strings == old(redis.strings)
      ensures shop.id.Some? ==>
        resp == Null
        && db.shops == UpdateById(old(db.shops), shop)
        && redis.strings == old(redis.strings) - {CacheKey(CACHE_SHOP_KEY, shop.id.value)}
      ensures old(db.Valid()) ==> db.Valid()
    {
      if shop.id.None? {
        return Fail(SHOP_ID_REQUIRED_MSG);
      }
      UpdateRow(shop);
      redis.Del(CacheKey(CACHE_SHOP_KEY, shop.id.value));
      resp := Null;
    }

    /** this.updateById(shop), the database half of update. */
    method UpdateRow(shop: Shop)
      requires shop.id.Some?
      modifies db`shops
      ensures db.shops == UpdateById(old(db.shops), shop)
      ensures old(db.Valid()) ==> db.Valid()
    {
      db.shops := UpdateById(db.shops, shop);
    }

    /**
     * An update of an existing shop followed by a query for it: the row now
     * holds the new shop, yet the query answers "店铺不存在", because the
     * update deleted the logical-expiry entry and that path never reloads a
     * missing key.
     */
    method UpdateThenQuery(shop: Shop) returns (updated: Response<Shop>, queried: Response<Shop>)
      requires Valid() && shop.id.Some? && db.ShopById(shop.id.value).Some?
      modifies db`shops, redis`strings, cache`tasks
      ensures updated == Null && db.ShopById(shop.id.value) == Some(shop)
      ensures queried == Fail(SHOP_NOT_FOUND_MSG)
    {
      updated := Update(shop);
      UpdateByIdFinds(old(db.shops), shop, shop.id.value);
      queried := QueryById(shop.id.value);
    }

    /**
     * update(shop) that keeps a hot shop served: the row is updated and the
     * logical-expiry entry is rewritten from the updated row with a fresh
     * expiry, as the cache was warmed in the first place.
     */
    method UpdateRewarming(shop: Shop) returns (resp: Response<Shop>)
      requires Valid()
      modifies db`shops, redis`strings
      ensures shop.id.None? ==>
        resp == Fail(SHOP_ID_REQUIRED_MSG) && db.shops == old(db.shops) && redis.strings == old(redis.strings)
      ensures shop.id.Some? ==> resp == Null && db.shops == UpdateById(old(db.shops), shop)
      ensures shop.id.Some? ==>
        redis.strings == old(redis.strings)[CacheKey(CACHE_SHOP_KEY, shop.id.value) := Warmed(db.ShopById(shop.id.value))]
      ensures old(db.Valid()) ==> db.Valid()
    {
      if shop.id.None? {
        return Fail(SHOP_ID_REQUIRED_MSG);
      }
      UpdateRow(shop);
      Rewarm(shop.id.value);
      resp := Null;
    }

    /** The logical-expiry entry written for a row now: the wrapped row, expiring CACHE_SHOP_TTL minutes on. */
    function Warmed(row: Option<Shop>): Entry<string>
      reads redis
    {
      Entry(cache.codec.wrap(RedisData(row, redis.now + ToSeconds(CACHE_SHOP_TTL, Minutes))), None)
    }

    /** Rewrites the shop's cache entry from its current row. */
    method Rewarm(id: int)
      requires Valid()
      modifies redis`strings
      ensures redis.strings == old(redis.strings)[CacheKey(CACHE_SHOP_KEY, id) := Warmed(db.ShopById(id))]
    {
      var row := db.ShopById(id);
      cache.SetWithLogicalExpire(CacheKey(CACHE_SHOP_KEY, id), row, CACHE_SHOP_TTL, Minutes);
    }

    /**
     * With the rewarming update, the same sequence answers with the updated
     * shop, provided JSON reads back what it wrote and never writes a blank
     * text.
     */
    method UpdateRewarmingThenQuery(shop: Shop) returns (updated: Response<Shop>, queried: Response<Shop>)
      requires Valid() && shop.id.Some? && db.ShopById(shop.id.value).Some?
      requires forall d :: cache.codec.unwrap(cache.codec.wrap(d)) == Some(d)
      requires forall d :: !IsBlank(cache.codec.wrap(d))
      modifies db`shops, redis`strings, cache`tasks
      ensures updated == Null && db.ShopById(shop.id.value) == Some(shop)
      ensures queried == OkData(shop)
    {
      UpdateByIdFinds(db.shops, shop, shop.id.value);
      updated := UpdateRewarming(shop);
      var key := CacheKey(CACHE_SHOP_KEY, shop.id.value);
      var d := RedisData(Some(shop), redis.now + ToSeconds(CACHE_SHOP_TTL, Minutes));
      assert redis.Get(key) == Some(cache.codec.wrap(d));
      assert cache.Classify(redis.Get(key), redis.now) == Fresh(Some(shop));
      queried := QueryById(shop.id.value);
    }
  }
}
