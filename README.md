# hm-dianping core in Dafny

A model of the Redis-backed business core of the `hm-dianping` review site, with proofs about it:

- the read-through cache client: pass-through with an empty-string marker for known-absent rows, and logical expiry with a rebuild mutex, a double check and a queued rebuild;
- the ownership-tagged distributed lock;
- the Redis-based 64-bit id generator;
- the flash-sale order pipeline: the admission verdict, the one-order-per-user stock decrement, and the stream consumer with its pending-list replay;
- the user service (verification codes, login sessions, sign-in bitmaps and the sign-in streak);
- the blog service (like toggling, the like list, fan-out to followers' inboxes and the feed scroll cursor);
- the shop service (type pages, geo pages, the cached lookup and update-then-invalidate).

The Redis key space is a class, `Store.Redis`. It keeps one map per kind of value: strings, hashes, sorted sets, bitmaps, counters and Redisson lock hashes. It also holds the order stream with its consumer-group cursor and pending list, and one integer clock in seconds that every TTL and logical expiry reads. The database is a class, `Tables.Database`, with one table per entity. Each service is a class holding references to both, and its methods change only the fields their `modifies` clauses name. Sorted sets are sequences ordered by score and then member, as Redis orders them. Java `int` and `long` arithmetic is written out where it wraps (`Shops.Int32`, `Orders.IntValue`, `Ids.ToLong`).

Files and modules: `common.dfy` (Common), `constants.dfy` (Constants), `store.dfy` (Store), `sorted_set.dfy` (SortedSet), `tables.dfy` (Tables), `text.dfy` (Text), `cache_client.dfy` (Cache), `simple_lock.dfy` (Lock), `id_worker.dfy` (Ids), `voucher_order.dfy` (Orders), `user_service.dfy` (Users), `blog_service.dfy` (Blogs) and `shop_service.dfy` (Shops).

RedisConstants.java and SystemConstants.java are not part of this model, so every value in `Constants` is assumed rather than read from the source. The modelled files use these constants only by name. The lifetimes follow the call sites' comments: a 2-minute code, and a 30-minute session and shop entry. The key prefixes ("login:code:", "login:token:", "cache:shop:", "lock:shop:", "blog:liked:", "feed:", "shop:geo:", "sign:"), `DEFAULT_PAGE_SIZE = 5` and `USER_NICK_NAME_PREFIX = "user_"` are the values the project is published with, and none of them occurs in the modelled files. The only prefixes written out literally there are "lock:order:" (VoucherOrderServiceImpl.java:120), "lock:" (SimpleRedisLock.java:19) and "icr:" (RedisIdWorker.java:41).

## Model

| member | source | states |
|---|---|---|
| Common.ToSeconds | hm-dianping/src/main/java/com/hmdp/utils/CacheClient.java:59 | TimeUnit.toSeconds: a positive time gives at least as many seconds, and zero exactly when the time is zero |
| Text.ParseLongRoundTrip | hm-dianping/src/main/java/com/hmdp/service/impl/BlogServiceImpl.java:131 | Long.valueOf(String.valueOf(n)) == n for every long n, so ids written as zset members parse back to themselves |
| Text.LongToStringInjective | hm-dianping/src/main/java/com/hmdp/utils/CacheClient.java:135 | distinct longs render as distinct decimal strings (keys built as prefix + String.valueOf(id) never collide) |
| Text.ParseAll | hm-dianping/src/main/java/com/hmdp/service/impl/BlogServiceImpl.java:131 | the ids of a list of names: None exactly when some name does not parse; otherwise one id per name, each the parse of its name |
| Text.ParseAllRoundTrip | hm-dianping/src/main/java/com/hmdp/service/impl/BlogServiceImpl.java:131 | names written from long ids parse back to exactly those ids, in order |
| Text.ParseEach | hm-dianping/src/main/java/com/hmdp/service/impl/ShopServiceImpl.java:89-98 | the Long.valueOf loop over the names yields ParseAll of them: the ids in order, or the exception at a name that does not parse |
| Text.ParseLong | hm-dianping/src/main/java/com/hmdp/service/impl/BlogServiceImpl.java:193 | Long.valueOf: a parsed value fits in a Java long and comes from a non-empty string |
| Store.Field | hm-dianping/src/main/java/com/hmdp/service/impl/UserServiceImpl.java:137-141 | BITFIELD GET u<w> 0 reads a number below 2^w |
| Store.Redis.SetBit | hm-dianping/src/main/java/com/hmdp/service/impl/UserServiceImpl.java:121 | SETBIT adds the offset to the bitmap and leaves every other key alone |
| Store.Redis.BitFieldGet | hm-dianping/src/main/java/com/hmdp/service/impl/UserServiceImpl.java:137-141 | the reply is the first w bits read as an unsigned number, or empty |
| Store.Redis.Incr | hm-dianping/src/main/java/com/hmdp/utils/RedisIdWorker.java:41 | INCR returns the old counter plus one (a missing counter reads 0) and stores it |
| Store.Redis.RTryLock | hm-dianping/src/main/java/com/hmdp/service/impl/VoucherOrderServiceImpl.java:120-122 | Redisson tryLock succeeds iff the lock is free or already the caller's, taking or re-entering it with a 30 s lease; a refusal changes nothing |
| Store.Redis.RUnlock | hm-dianping/src/main/java/com/hmdp/service/impl/VoucherOrderServiceImpl.java:131-134 | unlock by the holder drops one hold and deletes the lock with the last; by anyone else, or on a lock that is gone, it throws (IllegalMonitorStateException) and changes nothing |
| Store.Redis.XReadNew | hm-dianping/src/main/java/com/hmdp/service/impl/VoucherOrderServiceImpl.java:87-91 | XREADGROUP ... >: the next undelivered entry, which also joins the pending list; nothing when the stream is exhausted |
| Store.Redis.PendingFirst | hm-dianping/src/main/java/com/hmdp/service/impl/VoucherOrderServiceImpl.java:143-147 | XREADGROUP ... 0: the smallest pending entry, or nothing exactly when the pending list is empty |
| Store.Redis.XAck | hm-dianping/src/main/java/com/hmdp/service/impl/VoucherOrderServiceImpl.java:159-160 | XACK removes the id from the pending list and keeps the stream state valid |
| Store.Redis.Get | hm-dianping/src/main/java/com/hmdp/utils/CacheClient.java:137 | GET answers a value exactly when the key holds a live (unexpired) string, and that value is the stored one |
| Store.Redis.SetEx | hm-dianping/src/main/java/com/hmdp/service/impl/UserServiceImpl.java:60 | SET key value EX ttl stores the value with expiry now + ttl and leaves every other key alone |
| Store.Redis.SetNx | hm-dianping/src/main/java/com/hmdp/utils/CacheClient.java:194 | SET NX EX succeeds iff the key is not live; on success it stores the value with expiry now + ttl, on refusal nothing changes |
| Store.Redis.Del | hm-dianping/src/main/java/com/hmdp/utils/CacheClient.java:199 | DEL removes the key and leaves every other key alone |
| Store.Redis.HPutAll | hm-dianping/src/main/java/com/hmdp/service/impl/UserServiceImpl.java:102 | HMSET merges the fields over the live hash (a missing or expired hash counts as empty), new fields winning, and keeps a live hash's expiry |
| Store.Redis.Expire | hm-dianping/src/main/java/com/hmdp/service/impl/UserServiceImpl.java:104 | EXPIRE succeeds iff the hash is live, then sets its expiry to now + ttl keeping its fields; otherwise nothing changes |
| Store.Redis.ZScore | hm-dianping/src/main/java/com/hmdp/service/impl/BlogServiceImpl.java:89 | ZSCORE answers iff the member is in the sorted set, and the answer is that member's score in it |
| Store.Redis.ZAdd | hm-dianping/src/main/java/com/hmdp/service/impl/BlogServiceImpl.java:106 | ZADD keeps every sorted set well formed and replaces the key's set with it plus the member at the new score |
| Store.Redis.ZRem | hm-dianping/src/main/java/com/hmdp/service/impl/BlogServiceImpl.java:114 | ZREM keeps every sorted set well formed and removes the member; a set left empty is deleted |
| Tables.ShopIn | hm-dianping/src/main/java/com/hmdp/service/impl/ShopServiceImpl.java:118 | getById: a row with the id when one exists, and none only when no row has it |
| Tables.UsersWithPhone | hm-dianping/src/main/java/com/hmdp/service/impl/UserServiceImpl.java:84 | the rows whose phone equals the given one, and no others |
| Tables.UsersIn | hm-dianping/src/main/java/com/hmdp/service/impl/BlogServiceImpl.java:133 | selectBatchIds: exactly the rows whose id is in the list |
| Tables.DTOs | hm-dianping/src/main/java/com/hmdp/service/impl/BlogServiceImpl.java:135 | copyProperties to UserDTO: one DTO per row, in row order, carrying its id, nickName and icon |
| Tables.FollowersOf | hm-dianping/src/main/java/com/hmdp/service/impl/BlogServiceImpl.java:152 | exactly the follow rows whose followed user is the author |
| Tables.CountOrders | hm-dianping/src/main/java/com/hmdp/service/impl/VoucherOrderServiceImpl.java:220 | zero exactly when no order row has that user and voucher |
| Tables.ShopsOfType | hm-dianping/src/main/java/com/hmdp/service/impl/ShopServiceImpl.java:64-66 | exactly the shops of the type, in table order |
| SortedSet.Score | hm-dianping/src/main/java/com/hmdp/service/impl/BlogServiceImpl.java:89 | ZSCORE answers a score exactly when the member is in the set, and that (member, score) entry is in it |
| SortedSet.Remove | hm-dianping/src/main/java/com/hmdp/service/impl/BlogServiceImpl.java:114 | ZREM keeps exactly the entries of other members |
| SortedSet.Insert | hm-dianping/src/main/java/com/hmdp/service/impl/BlogServiceImpl.java:106 | the set gains exactly the new entry |
| SortedSet.Range | hm-dianping/src/main/java/com/hmdp/service/impl/BlogServiceImpl.java:125 | ZRANGE start stop: empty when start is past the end or stop < start, otherwise exactly the ranks start..min(stop, size-1), the k-th being the member at rank start+k |
| SortedSet.RevRangeByScore | hm-dianping/src/main/java/com/hmdp/service/impl/BlogServiceImpl.java:178-180 | ZREVRANGEBYSCORE ... LIMIT offset count: the entries within [min, max], highest first, from position offset on, exactly min(count, n - offset) of them (none for a negative offset or one past the n matches) |
| SortedSet.RevRangeComplete | hm-dianping/src/main/java/com/hmdp/service/impl/BlogServiceImpl.java:178-180 | a window from offset 0 at least as wide as the set returns every entry whose score is within [min, max] |
| SortedSet.RevRangePages | hm-dianping/src/main/java/com/hmdp/service/impl/BlogServiceImpl.java:178-180 | the page at offset o of width c followed by the page at o + c of width c' is the page at o of width c + c', so paging by offset neither skips nor repeats |
| SortedSet.InsertValid | hm-dianping/src/main/java/com/hmdp/service/impl/BlogServiceImpl.java:106 | inserting a new member keeps the set sorted by (score, member) and free of duplicates |
| SortedSet.RemoveValid | hm-dianping/src/main/java/com/hmdp/service/impl/BlogServiceImpl.java:114 | ZREM keeps the set sorted and free of duplicates |
| SortedSet.AddValid | hm-dianping/src/main/java/com/hmdp/service/impl/BlogServiceImpl.java:106 | ZADD keeps the set sorted and free of duplicates |
| SortedSet.RemoveInsert | hm-dianping/src/main/java/com/hmdp/service/impl/BlogServiceImpl.java:106-114 | ZREM undoes a ZADD of a member that was not in the set |
| SortedSet.AddScore | hm-dianping/src/main/java/com/hmdp/service/impl/BlogServiceImpl.java:106 | after ZADD the member carries the new score and every other member keeps its own |
| SortedSet.RemoveScore | hm-dianping/src/main/java/com/hmdp/service/impl/BlogServiceImpl.java:114 | after ZREM the member has no score and every other member keeps its own |
| SortedSet.RemovePresentLength | hm-dianping/src/main/java/com/hmdp/service/impl/BlogServiceImpl.java:111-114 | ZREM of a present member shrinks the set by exactly one |
| SortedSet.AddAbsentLength | hm-dianping/src/main/java/com/hmdp/service/impl/BlogServiceImpl.java:103-106 | ZADD of an absent member grows the set by exactly one |
| SortedSet.RevRangeDescending | hm-dianping/src/main/java/com/hmdp/service/impl/BlogServiceImpl.java:178-180 | ZREVRANGEBYSCORE answers highest score first: scores never increase along the reply |
| SortedSet.Add | hm-dianping/src/main/java/com/hmdp/service/impl/BlogServiceImpl.java:106 | the set after ZADD holds exactly the old entries of other members plus the member at its new score |
| Cache.Decoded | hm-dianping/src/main/java/com/hmdp/utils/CacheClient.java:84-88 | a non-blank hit answers its decoding, or the exception decoding throws |
| Cache.LockKeyInjective | hm-dianping/src/main/java/com/hmdp/utils/CacheClient.java:156 | two long ids share a rebuild mutex key iff they are equal |
| Cache.CacheClient.Classify | hm-dianping/src/main/java/com/hmdp/utils/CacheClient.java:145-152 | an entry is unreadable iff absent or not a RedisData, fresh iff its expiry is strictly after now (equal counts as expired), and otherwise stale; a readable entry carries the wrapped value |
| Cache.CacheClient.Set | hm-dianping/src/main/java/com/hmdp/utils/CacheClient.java:42-45 | the key holds the JSON of the value with a TTL of unit.toSeconds(time); no other key changes |
| Cache.CacheClient.SetWithLogicalExpire | hm-dianping/src/main/java/com/hmdp/utils/CacheClient.java:54-62 | the key holds the value wrapped with expireTime = now + unit.toSeconds(time) and no Redis TTL; no other key changes |
| Cache.CacheClient.QueryWithPassThrough | hm-dianping/src/main/java/com/hmdp/utils/CacheClient.java:77-111 | a non-blank hit is decoded with no loader call and no write; a blank marker answers null with no loader call and no write; a miss calls the loader once, caches "" for a null row and the JSON of a found row (both with the caller's time/unit), and returns the row; a loader exception escapes with nothing written |
| Cache.CacheClient.MissThenMarker | hm-dianping/src/main/java/com/hmdp/utils/CacheClient.java:96-105 | a miss for an id the database lacks, then a second query: both answer null, the loader runs only on the first, and the key is left holding "" |
| Cache.CacheClient.TryLock | hm-dianping/src/main/java/com/hmdp/utils/CacheClient.java:192-196 | succeeds iff the key was absent, in which case it then holds "1" with a 10 s TTL; a refusal writes nothing |
| Cache.CacheClient.UnLock | hm-dianping/src/main/java/com/hmdp/utils/CacheClient.java:198-200 | the key is deleted whoever set it; nothing else changes |
| Cache.CacheClient.DoubleCheck | hm-dianping/src/main/java/com/hmdp/utils/CacheClient.java:161-184 | the re-read under the mutex: an unreadable entry throws, a fresh one is returned with nothing queued, a stale one is returned with exactly one rebuild queued |
| Cache.CacheClient.QueryWithLogicalExpire | hm-dianping/src/main/java/com/hmdp/utils/CacheClient.java:132-188 | absent or blank: null, nothing written; not a RedisData: throws; fresh: its value, no mutex; stale and the mutex held: the stale value, nothing queued; stale and the mutex free: LOCK_SHOP_KEY+id holds "1" for 10 s and the double check decides |
| Cache.CacheClient.RunRebuild | hm-dianping/src/main/java/com/hmdp/utils/CacheClient.java:172-184 | the rebuild leaves the queue; a load that returns writes its row (null included) with a fresh logical expiry; the mutex is deleted whether or not the load threw |
| Cache.CacheClient.RebuildIfFree | hm-dianping/src/main/java/com/hmdp/utils/CacheClient.java:156-186 | stale entry: a mutex held by someone else gives the stale value with nothing written or queued; a free one is taken with a 10 s TTL, the stale value returned and one rebuild queued |
| Lock.TokenOwnership | hm-dianping/src/main/java/com/hmdp/utils/SimpleRedisLock.java:41-63 | between prefixes of one length, two owner tokens are equal iff they come from the same process prefix and the same thread |
| Lock.SimpleRedisLock.TryLock | hm-dianping/src/main/java/com/hmdp/utils/SimpleRedisLock.java:41-48 | true iff "lock:"+name was absent, in which case it then holds ID_PREFIX+threadId for timeoutSec seconds; a held lock refuses every caller, its holder included, and a refusal writes nothing |
| Lock.SimpleRedisLock.Unlock | hm-dianping/src/main/java/com/hmdp/utils/SimpleRedisLock.java:52-77 | the key is deleted iff it holds the caller's token; under any other token key and value stay as they were |
| Lock.SimpleRedisLock.UnlockThenTryLock | hm-dianping/src/main/java/com/hmdp/utils/SimpleRedisLock.java:41-77 | after the holder's unlock the next tryLock, from any thread, succeeds |
| Ids.OrIntoLowBits | hm-dianping/src/main/java/com/hmdp/utils/RedisIdWorker.java:43 | OR-ing a number below 2^k into a multiple of 2^k adds it |
| Ids.IdRoundTrip | hm-dianping/src/main/java/com/hmdp/utils/RedisIdWorker.java:43 | for 0 <= timestamp < 2^31 and 0 <= count < 2^32 the id is timestamp*2^32 + count: shifting right 32 gives the timestamp, the low 32 bits the count |
| Ids.IdIncreasesWithCount | hm-dianping/src/main/java/com/hmdp/utils/RedisIdWorker.java:41-43 | within one second a larger count gives a larger id |
| Ids.IdIncreasesWithTime | hm-dianping/src/main/java/com/hmdp/utils/RedisIdWorker.java:43 | a later second gives a larger id whatever the two counts below 2^32 are |
| Ids.CounterKeyInjective | hm-dianping/src/main/java/com/hmdp/utils/RedisIdWorker.java:39-41 | two calls share a counter iff they use the same key prefix on the same day |
| Ids.RedisIdWorker.NextId | hm-dianping/src/main/java/com/hmdp/utils/RedisIdWorker.java:31-44 | the prefix's counter for today goes up by one (the first call of a day reads 1) and the id is composed from now - 1691284026 and that count; the id is a long |
| Ids.RedisIdWorker.NextIdTwice | hm-dianping/src/main/java/com/hmdp/utils/RedisIdWorker.java:41-43 | two ids drawn for one prefix within one second increase |
| Ids.ComposeId | hm-dianping/src/main/java/com/hmdp/utils/RedisIdWorker.java:43 | timestamp << 32 | count is always a Java long, whatever the operands |
| Orders.IntValue | hm-dianping/src/main/java/com/hmdp/service/impl/VoucherOrderServiceImpl.java:202 | Long.intValue: the signed 32-bit value congruent to x modulo 2^32, x itself when it fits |
| Orders.Verdict | hm-dianping/src/main/java/com/hmdp/service/impl/VoucherOrderServiceImpl.java:202-208 | a null reply throws; intValue 0 gives ok(orderId); 1 gives "库存不足"; any other value "不能重复下单" (each an iff) |
| Orders.CreateOrderSound | hm-dianping/src/main/java/com/hmdp/service/impl/VoucherOrderServiceImpl.java:218-239 | serialised calls keep at most one order per (user, voucher) and stock never below zero |
| Orders.CreateOrderConserves | hm-dianping/src/main/java/com/hmdp/service/impl/VoucherOrderServiceImpl.java:227-238 | for every voucher, stock plus orders placed stays constant |
| Orders.CreateOrderAllOrNothing | hm-dianping/src/main/java/com/hmdp/service/impl/VoucherOrderServiceImpl.java:220-238 | either nothing changes, or the stock was positive, the user had no order, the stock drops by one and exactly that order is appended |
| Orders.Replay | hm-dianping/src/main/java/com/hmdp/service/impl/VoucherOrderServiceImpl.java:138-172 | the replay never moves the delivery cursor, only removes pending entries, and ends drained only with nothing pending |
| Orders.Settle | hm-dianping/src/main/java/com/hmdp/service/impl/VoucherOrderServiceImpl.java:102-104 | handling and acknowledging an intent never moves the delivery cursor; what it does to ledger, locks and pending list is stated by `HandleEffect` and `ConsumeEffect` |
| Orders.HandleEffect | hm-dianping/src/main/java/com/hmdp/service/impl/VoucherOrderServiceImpl.java:115-135 | a user lock held by another consumer leaves everything as it was and throws nothing; a free lock throws exactly when there is no proxy or the transaction fails; an order is placed (CreateOrder) exactly when neither; the lock is gone afterwards unless it was held before |
| Orders.ConsumeEffect | hm-dianping/src/main/java/com/hmdp/service/impl/VoucherOrderServiceImpl.java:84-111 | a failed read changes nothing and fails; an exhausted stream changes nothing; a delivered entry advances the cursor and stays pending exactly when the ack fails or the free lock's transaction throws; a refused lock leaves ledger and locks unchanged; a free lock with a proxy and no fault places the order |
| Orders.ConsumeSound | hm-dianping/src/main/java/com/hmdp/service/impl/VoucherOrderServiceImpl.java:84-111 | a consumer pass keeps at most one order per (user, voucher) and stock never below zero |
| Orders.ReplaySound | hm-dianping/src/main/java/com/hmdp/service/impl/VoucherOrderServiceImpl.java:138-172 | the replay keeps at most one order per (user, voucher) and stock never below zero |
| Orders.ReplayConserves | hm-dianping/src/main/java/com/hmdp/service/impl/VoucherOrderServiceImpl.java:138-172 | replaying, however often an intent is retried, keeps stock plus orders placed constant for every voucher |
| Orders.ReplayDrains | hm-dianping/src/main/java/com/hmdp/service/impl/VoucherOrderServiceImpl.java:138-172 | with a captured proxy and no faults, more passes than pending entries end the replay drained |
| Orders.ReplayFailedAcksKeepPending | hm-dianping/src/main/java/com/hmdp/service/impl/VoucherOrderServiceImpl.java:149-170 | when every pass fails to read or to ack, the pending list is unchanged: nothing is lost |
| Orders.VoucherOrderService.SeckillVoucher | hm-dianping/src/main/java/com/hmdp/service/impl/VoucherOrderServiceImpl.java:186-209 | the proxy is captured, the "order" counter advances by one whatever the script answers, and the response is the verdict on its reply with the drawn id |
| Orders.VoucherOrderService.CreateVoucherOrder | hm-dianping/src/main/java/com/hmdp/service/impl/VoucherOrderServiceImpl.java:217-239 | the transaction commits exactly the all-or-nothing effect, or throws and rolls back |
| Orders.VoucherOrderService.HandleVoucherOrder | hm-dianping/src/main/java/com/hmdp/service/impl/VoucherOrderServiceImpl.java:115-135 | the new ledger and locks and whether it threw are those of `Handle`: a refused user lock changes nothing; with the lock the order transaction runs (a null proxy throws) and the lock is released in finally, also when it threw |
| Orders.VoucherOrderService.ReadAndHandle | hm-dianping/src/main/java/com/hmdp/service/impl/VoucherOrderServiceImpl.java:84-105 | the new ledger, locks, cursor and pending list and whether the pass failed are those of `Consume` on the state before |
| Orders.VoucherOrderService.HandleAndAck | hm-dianping/src/main/java/com/hmdp/service/impl/VoucherOrderServiceImpl.java:102-104 | handleVoucherOrder then XACK on an intent just read: the new ledger, locks and pending list and whether it threw are those of `Settle` |
| Orders.VoucherOrderService.HandlePendingList | hm-dianping/src/main/java/com/hmdp/service/impl/VoucherOrderServiceImpl.java:138-172 | the new ledger, locks and pending list and whether it ended drained are those of `Replay` over the given faults |
| Orders.VoucherOrderService.ReplayOnce | hm-dianping/src/main/java/com/hmdp/service/impl/VoucherOrderServiceImpl.java:139-170 | one pass of the replay loop: an empty pending read ends it and changes nothing, a failed read changes nothing, otherwise the state becomes `ReplayStep` of the first pending intent |
| Orders.VoucherOrderService.ConsumerPass | hm-dianping/src/main/java/com/hmdp/service/impl/VoucherOrderServiceImpl.java:84-111 | a pass is `Consume`; when it did not fail nothing more happens, and when it failed the state and drained flag are `Replay` of the recovery faults from the state `Consume` left; soundness of the ledger is kept |
| Orders.WithoutAppended | hm-dianping/src/main/java/com/hmdp/service/impl/VoucherOrderServiceImpl.java:102-104 | acking the entry just delivered leaves the pending list as it was before the read |
| Orders.CreateOrder | hm-dianping/src/main/java/com/hmdp/service/impl/VoucherOrderServiceImpl.java:217-239 | createVoucherOrder never adds or removes a voucher's stock row and at most appends one order, leaving the earlier orders as they were |
| Orders.Handle | hm-dianping/src/main/java/com/hmdp/service/impl/VoucherOrderServiceImpl.java:115-135 | handleVoucherOrder leaves the stream cursor and pending list alone, and the ledger either unchanged or exactly as createVoucherOrder leaves it |
| Orders.Consume | hm-dianping/src/main/java/com/hmdp/service/impl/VoucherOrderServiceImpl.java:84-111 | one pass of the consumer loop keeps every pending id inside the stream and advances the delivery cursor by at most one, never past the stream end |
| Orders.ReplayStep | hm-dianping/src/main/java/com/hmdp/service/impl/VoucherOrderServiceImpl.java:141-160 | one pass of the pending-list loop keeps the pending ids inside the stream, leaves the cursor alone and never lengthens the pending list |
| Users.SignKeyInjective | hm-dianping/src/main/java/com/hmdp/service/impl/UserServiceImpl.java:116-117 | two sign-ins share a bitmap iff same user, same year and month |
| Users.LoginRow | hm-dianping/src/main/java/com/hmdp/service/impl/UserServiceImpl.java:84-89 | login's user has the phone: the existing row when there is one, otherwise a new user "user_"+suffix |
| Users.SessionFields | hm-dianping/src/main/java/com/hmdp/service/impl/UserServiceImpl.java:95-99 | the session hash holds id and nickName, icon iff it is not null, and nothing else |
| Users.SessionIdRoundTrip | hm-dianping/src/main/java/com/hmdp/service/impl/UserServiceImpl.java:95-102 | the id field stored in the session parses back to the user id |
| Users.PhonesUniqueAtMostOne | hm-dianping/src/main/java/com/hmdp/service/impl/UserServiceImpl.java:84 | with unique phones the lookup by phone finds at most one row, so one() does not throw |
| Users.RegisterKeepsIdsUnique | hm-dianping/src/main/java/com/hmdp/service/impl/UserServiceImpl.java:168-176 | saving a user under an id no row has keeps primary keys unique |
| Users.RegisterKeepsPhonesUnique | hm-dianping/src/main/java/com/hmdp/service/impl/UserServiceImpl.java:168-176 | registering a phone nobody has keeps phones unique |
| Users.Streak | hm-dianping/src/main/java/com/hmdp/service/impl/UserServiceImpl.java:151-163 | the streak ending on day w: that many days before w are signed and the one before them is not |
| Users.TrailingOnesOfField | hm-dianping/src/main/java/com/hmdp/service/impl/UserServiceImpl.java:151-163 | the trailing 1 bits of BITFIELD GET u<day> 0 are exactly the streak ending today |
| Users.SignExtendsStreak | hm-dianping/src/main/java/com/hmdp/service/impl/UserServiceImpl.java:121 | signing today makes the streak one longer than yesterday's, and 1 after a missed day |
| Users.UserService.SendCode | hm-dianping/src/main/java/com/hmdp/service/impl/UserServiceImpl.java:51-65 | an invalid phone fails with "手机格式错误" and writes nothing; otherwise the code is stored under "login:code:"+phone for 120 s and ok is returned |
| Users.UserService.SaveSession | hm-dianping/src/main/java/com/hmdp/service/impl/UserServiceImpl.java:101-104 | the session fields are merged into the hash under the token key, which then expires in 30 minutes |
| Users.UserService.Login | hm-dianping/src/main/java/com/hmdp/service/impl/UserServiceImpl.java:68-107 | an invalid phone, or a code that is absent or different, fails and writes nothing; more than one row with the phone throws; otherwise the user is found or created and the session stored under "login:token:"+token for 30 minutes, answering the token; unique phones stay unique and then nothing throws; with a fresh id for a new user, unique primary keys stay unique |
| Users.UserService.SignIn | hm-dianping/src/main/java/com/hmdp/service/impl/UserServiceImpl.java:83-106 | the admitted half of login: more than one row with the phone throws and writes nothing; otherwise the found or registered user's session is stored for 30 minutes and the token answered; primary keys and phones stay unique |
| Users.UserService.FindOrCreate | hm-dianping/src/main/java/com/hmdp/service/impl/UserServiceImpl.java:84-89 | more than one row throws and writes nothing; none appends the new user; one returns it unchanged; the new user's id is one no row has, as the database's generated key is, so unique primary keys stay unique |
| Users.UserService.Sign | hm-dianping/src/main/java/com/hmdp/service/impl/UserServiceImpl.java:110-123 | bit day-1 of "sign:"+userId+":yyyyMM" is set; no other bitmap changes |
| Users.UserService.SignCount | hm-dianping/src/main/java/com/hmdp/service/impl/UserServiceImpl.java:126-166 | the answer is the number of days signed in a row ending today (the loop over the trailing 1 bits of the month's field), or plain ok when the reply is empty |
| Blogs.LikedKeyInjective | hm-dianping/src/main/java/com/hmdp/service/impl/BlogServiceImpl.java:98 | each blog id has its own like set |
| Blogs.LikeUnlikeRestores | hm-dianping/src/main/java/com/hmdp/service/impl/BlogServiceImpl.java:99-116 | a like then an unlike gives the like set back exactly |
| Blogs.UnlikeLikeRestoresMembers | hm-dianping/src/main/java/com/hmdp/service/impl/BlogServiceImpl.java:99-116 | an unlike then a like gives the same likers and the same size back |
| Blogs.ToggleLikes | hm-dianping/src/main/java/com/hmdp/service/impl/BlogServiceImpl.java:100-107 | for a blog the user has not liked: liked + 1 and the user added with the current score |
| Blogs.ToggleUnlikes | hm-dianping/src/main/java/com/hmdp/service/impl/BlogServiceImpl.java:108-116 | for a blog the user has liked: liked - 1 and the user removed (the key gone with the last liker) |
| Blogs.ToggleKeepsLikesMatch | hm-dianping/src/main/java/com/hmdp/service/impl/BlogServiceImpl.java:99-116 | a toggle keeps every blog's liked column equal to the size of its like set |
| Blogs.ToggleKeepsValid | hm-dianping/src/main/java/com/hmdp/service/impl/BlogServiceImpl.java:99-116 | a toggle keeps every sorted set well formed and non-empty |
| Blogs.LikeThenUnlike | hm-dianping/src/main/java/com/hmdp/service/impl/BlogServiceImpl.java:99-116 | like then unlike restores the blogs and the like sets exactly |
| Blogs.UnlikeThenLike | hm-dianping/src/main/java/com/hmdp/service/impl/BlogServiceImpl.java:99-116 | unlike then like restores the blogs and the likers |
| Blogs.ToggleTwice | hm-dianping/src/main/java/com/hmdp/service/impl/BlogServiceImpl.java:99-116 | two toggles by one user restore every counter and the likers, and everything when the first one liked |
| Blogs.ToggleFlipsLike | hm-dianping/src/main/java/com/hmdp/service/impl/BlogServiceImpl.java:89-116 | a toggle on an existing blog flips whether isBlogLiked sees the user's like |
| Blogs.FanoutReachesFollowers | hm-dianping/src/main/java/com/hmdp/service/impl/BlogServiceImpl.java:152-160 | after the push every follower's inbox holds the new blog |
| Blogs.FanoutOnlyFollowers | hm-dianping/src/main/java/com/hmdp/service/impl/BlogServiceImpl.java:152-160 | no inbox but a follower's changes |
| Blogs.BlogsByIds | hm-dianping/src/main/java/com/hmdp/service/impl/BlogServiceImpl.java:206 | `in("id", ids)` ordered by FIELD(id, ...): no more blogs than ids, each an existing row, and the row of every id that has one is listed |
| Blogs.BlogsByIdsInOrder | hm-dianping/src/main/java/com/hmdp/service/impl/BlogServiceImpl.java:206 | when every id names a blog, the k-th blog listed is the k-th id's row |
| Blogs.CursorOffsetOfPair | hm-dianping/src/main/java/com/hmdp/service/impl/BlogServiceImpl.java:180-203 | for pages of at most two positive descending scores the computed offset is the number of entries sharing the last score |
| Blogs.FeedPageOffset | hm-dianping/src/main/java/com/hmdp/service/impl/BlogServiceImpl.java:178-203 | on the page ZREVRANGEBYSCORE ... LIMIT offset 2 returns, with positive scores, the offset the loop counts is the number of entries sharing the last score |
| Blogs.CursorOffsetOfLongerPage | hm-dianping/src/main/java/com/hmdp/service/impl/BlogServiceImpl.java:197-201 | on a longer page the offset is not reset when the score changes: scores 5,5,3 give offset 2 where one entry shares the last score |
| Blogs.UsersInOrder | hm-dianping/src/main/java/com/hmdp/service/impl/BlogServiceImpl.java:133-136 | the users for the ids in id order: at most one per id, each a row whose id is listed |
| Blogs.UsersInOrderFollowsIds | hm-dianping/src/main/java/com/hmdp/service/impl/BlogServiceImpl.java:133-136 | when every id has a row, the k-th user listed has the k-th id |
| Blogs.LikersInTableOrder | hm-dianping/src/main/java/com/hmdp/service/impl/BlogServiceImpl.java:133-136 | users 1 and 2 where user 2 liked first: selectBatchIds lists user 1 first, the like order lists user 2 first |
| Blogs.DistinctIdsBound | hm-dianping/src/main/java/com/hmdp/service/impl/BlogServiceImpl.java:125-133 | with unique user ids, the rows found are no more than the ids asked for |
| Blogs.BlogService.IsBlogLiked | hm-dianping/src/main/java/com/hmdp/service/impl/BlogServiceImpl.java:80-91 | a guest leaves the blog untouched; a user sets isLike to whether the user has a score in the blog's like set |
| Blogs.BlogService.LikeBlog | hm-dianping/src/main/java/com/hmdp/service/impl/BlogServiceImpl.java:94-120 | the state after the call is the toggle of the state before: nothing for a missing blog, otherwise like or unlike; the answer is ok |
| Blogs.BlogService.AddLike | hm-dianping/src/main/java/com/hmdp/service/impl/BlogServiceImpl.java:100-107 | liked + 1 and ZADD of the user with the current time, as the toggle says |
| Blogs.BlogService.RemoveLike | hm-dianping/src/main/java/com/hmdp/service/impl/BlogServiceImpl.java:108-116 | liked - 1 and ZREM of the user, as the toggle says |
| Blogs.BlogService.LikeTwice | hm-dianping/src/main/java/com/hmdp/service/impl/BlogServiceImpl.java:94-120 | two likes by one user restore the counters and the likers, and the like set exactly when the first one liked |
| Blogs.BlogService.QueryBlogLikes | hm-dianping/src/main/java/com/hmdp/service/impl/BlogServiceImpl.java:123-139 | an empty like set gives an empty list; a member that does not parse throws; otherwise the rows of the first five likers, in table order, copied to UserDTO (id, nickName, icon; no phone); every such liker with a row is listed and nobody else; at most five with unique ids |
| Blogs.BlogService.QueryBlogLikesInLikeOrder | hm-dianping/src/main/java/com/hmdp/service/impl/BlogServiceImpl.java:123-139 | the same query as UserDTOs in the order the users liked: when each liker has a row, the k-th listed is the k-th liker |
| Blogs.BlogService.SaveBlog | hm-dianping/src/main/java/com/hmdp/service/impl/BlogServiceImpl.java:142-163 | a failed save answers "新增笔记失败!" and pushes nothing; otherwise the blog is stored under its id with the author as user, pushed to every follower's inbox and the id returned; the new id is one no blog has, so no existing blog is overwritten |
| Blogs.BlogService.PushToFollowers | hm-dianping/src/main/java/com/hmdp/service/impl/BlogServiceImpl.java:154-160 | the push loop leaves the key space as the fan-out over the follow rows |
| Blogs.BlogService.Cursor | hm-dianping/src/main/java/com/hmdp/service/impl/BlogServiceImpl.java:186-203 | minTime ends at the last score (0 for none) and os is 1 plus the entries whose score equals the one before |
| Blogs.BlogService.MarkLiked | hm-dianping/src/main/java/com/hmdp/service/impl/BlogServiceImpl.java:207-212 | each blog of the page marked by isBlogLiked, in order |
| Blogs.BlogService.FeedPage | hm-dianping/src/main/java/com/hmdp/service/impl/BlogServiceImpl.java:176-180 | the inbox read is at most two entries |
| Blogs.BlogService.Scroll | hm-dianping/src/main/java/com/hmdp/service/impl/BlogServiceImpl.java:204-218 | the reply lists no more blogs than entries and its minTime is the last entry's score |
| Blogs.BlogService.ScrollPage | hm-dianping/src/main/java/com/hmdp/service/impl/BlogServiceImpl.java:185-218 | a non-empty page is answered iff every member parses, with its blogs marked, the last score and the counted offset |
| Blogs.BlogService.QueryBlogOfFollow | hm-dianping/src/main/java/com/hmdp/service/impl/BlogServiceImpl.java:173-219 | an empty read answers ok without data; a member that does not parse throws; otherwise the scroll result of the page, at most two blogs, whose offset for positive scores is the number of entries sharing the last score |
| Blogs.Toggle | hm-dianping/src/main/java/com/hmdp/service/impl/BlogServiceImpl.java:94-120 | likeBlog on a missing blog changes nothing; otherwise it touches only that blog's row and its own liked set, every other blog and key staying as it was |
| Blogs.Fanout | hm-dianping/src/main/java/com/hmdp/service/impl/BlogServiceImpl.java:153-160 | pushing to followers' feeds never removes a key |
| Blogs.Repeats | hm-dianping/src/main/java/com/hmdp/service/impl/BlogServiceImpl.java:186-203 | the loop's count of entries whose score equals the one before it (0 before the first) never exceeds the page length |
| Blogs.TailRun | hm-dianping/src/main/java/com/hmdp/service/impl/BlogServiceImpl.java:186-203 | the run of entries sharing the last score, the offset the next page must skip, is between 1 and the page length for a non-empty page |
| Shops.Int32 | hm-dianping/src/main/java/com/hmdp/service/impl/ShopServiceImpl.java:71-72 | the Java int a computation leaves: always an int, the value itself when it fits |
| Shops.Page | hm-dianping/src/main/java/com/hmdp/service/impl/ShopServiceImpl.java:64-66 | MyBatis-Plus page `current` of size 5: at most five items, all from the list |
| Shops.PageHolds | hm-dianping/src/main/java/com/hmdp/service/impl/ShopServiceImpl.java:64-66 | the j-th item is item j % 5 of page j / 5 + 1 |
| Shops.DbPage | hm-dianping/src/main/java/com/hmdp/service/impl/ShopServiceImpl.java:64-68 | the database path answers at most five shops, all of the requested type |
| Shops.Take | hm-dianping/src/main/java/com/hmdp/service/impl/ShopServiceImpl.java:79 | limit(n) keeps the first min(size, n) names |
| Shops.ShopsByIds | hm-dianping/src/main/java/com/hmdp/service/impl/ShopServiceImpl.java:101 | in(id, ids) with order by field: no more than the ids, each a row with a listed id, and every listed id that has a row appears |
| Shops.ShopsByIdsInOrder | hm-dianping/src/main/java/com/hmdp/service/impl/ShopServiceImpl.java:101 | with distinct ids that all have rows, the k-th shop is the row of the k-th id |
| Shops.PageWindow | hm-dianping/src/main/java/com/hmdp/service/impl/ShopServiceImpl.java:71-72 | when neither bound wraps below zero end = from + 5, and for pages 1..429496729 from = (current-1)*5 and end = current*5 |
| Shops.GeoPageBound | hm-dianping/src/main/java/com/hmdp/service/impl/ShopServiceImpl.java:71-98 | the geo path never answers more than five shops |
| Shops.GeoPageSlice | hm-dianping/src/main/java/com/hmdp/service/impl/ShopServiceImpl.java:71-101 | for pages without wrap the answer is the shops named at positions from..end of the nearest-first names, in that order; empty when there are no more than `from` names |
| Shops.Answer | hm-dianping/src/main/java/com/hmdp/service/impl/ShopServiceImpl.java:121-125 | a null shop answers "店铺不存在", a shop answers ok(shop), an exception escapes (each an iff) |
| Shops.ShopKeyIsNotLockKey | hm-dianping/src/main/java/com/hmdp/service/impl/ShopServiceImpl.java:118 | the shop cache key never coincides with its rebuild mutex key |
| Shops.UpdateById | hm-dianping/src/main/java/com/hmdp/service/impl/ShopServiceImpl.java:321 | updateById keeps the number of rows and every row's id |
| Shops.UpdateByIdFinds | hm-dianping/src/main/java/com/hmdp/service/impl/ShopServiceImpl.java:321 | the row with the shop's id reads back as the shop when it existed and stays missing otherwise |
| Shops.UpdateByIdLeavesOthers | hm-dianping/src/main/java/com/hmdp/service/impl/ShopServiceImpl.java:321 | every other id reads back the row it had |
| Shops.ShopService.QueryShopByType | hm-dianping/src/main/java/com/hmdp/service/impl/ShopServiceImpl.java:60-107 | without coordinates, the database page of the type; with them, the geo page over the nearest-first names (whose bound and slice GeoPageBound and GeoPageSlice state) |
| Shops.ShopService.QueryById | hm-dianping/src/main/java/com/hmdp/service/impl/ShopServiceImpl.java:110-126 | the answer is the cache entry's reply mapped to a response, and a rebuild is queued (with the mutex taken) exactly when the entry is stale and the mutex free; otherwise nothing is written |
| Shops.ShopService.RunCacheRebuild | hm-dianping/src/main/java/com/hmdp/service/impl/ShopServiceImpl.java:118 | the queued rebuild writes getById's row with a fresh 30-minute logical expiry, and the mutex is deleted whether or not the select threw |
| Shops.ShopService.Update | hm-dianping/src/main/java/com/hmdp/service/impl/ShopServiceImpl.java:315-325 | a shop without id fails with "店铺id不能为空" and changes nothing; otherwise the row is updated, the cache key deleted and null returned; unique ids stay unique |
| Shops.ShopService.UpdateRow | hm-dianping/src/main/java/com/hmdp/service/impl/ShopServiceImpl.java:321 | the shop table becomes updateById of the old one, keeping ids unique |
| Shops.ShopService.UpdateThenQuery | hm-dianping/src/main/java/com/hmdp/service/impl/ShopServiceImpl.java:315-325 | an update of an existing shop followed by queryById: the row holds the new shop, yet the query answers "店铺不存在" |
| Shops.ShopService.UpdateRewarming | hm-dianping/src/main/java/com/hmdp/service/impl/ShopServiceImpl.java:315-325 | the update that rewrites the logical-expiry entry from the updated row instead of deleting it |
| Shops.ShopService.Rewarm | hm-dianping/src/main/java/com/hmdp/service/impl/ShopServiceImpl.java:323 | the shop's cache entry is rewritten from its current row with a 30-minute logical expiry instead of being deleted |
| Shops.ShopService.UpdateRewarmingThenQuery | hm-dianping/src/main/java/com/hmdp/service/impl/ShopServiceImpl.java:110-126 | with the rewarming update, and a codec whose wrapped entries read back, the same sequence answers ok with the updated shop |
| Shops.GeoPage | hm-dianping/src/main/java/com/hmdp/service/impl/ShopServiceImpl.java:70-106 | queryShopByType with coordinates either throws or answers shops taken from the database rows, each with an id |

## Left out

- Constants: the prefixes, `DEFAULT_PAGE_SIZE` and `USER_NICK_NAME_PREFIX` are assumed values (see above). These results depend on them:
- Shops.ShopKeyIsNotLockKey: it rests on the assumed first letters of "cache:shop:" and "lock:shop:", and `Shops.ShopService.QueryById` uses it.
- Shops.Page: its bound of five per page, and those of `Shops.DbPage`, `Shops.GeoPageBound`, `Shops.PageWindow` and `Shops.GeoPageSlice`, together with `MAX_PLAIN_PAGE`, use the assumed page size 5.
- Users.LoginRow: the nickname of a new user starts with the assumed "user_".
- Cache.CacheClient.Set: the TTL is a positive number (`Pos`). The source takes any `Long time`, and Redis refuses a TTL of zero or less with an exception, an error path the model does not have. Every call site passes a positive constant.
- Cache.CacheClient.QueryWithPassThrough: its TTL is positive for the same reason, so the exception a non-positive TTL raises on the write is not modelled.
- Cache.CacheClient.MissThenMarker: its TTL is positive, like `QueryWithPassThrough`'s.
- Lock.SimpleRedisLock.TryLock: `timeoutSec` is positive. The source takes any `long`, and a non-positive value makes Redis refuse the SET.
- Lock.SimpleRedisLock.UnlockThenTryLock: `timeoutSec` is positive, like `TryLock`'s.
- Store.Redis.SetEx: the TTL is positive, as are those of `Store.Redis.SetNx` and `Store.Redis.Expire`. Redis refuses the others.
- Shops.UpdateById: the whole row is replaced. MyBatis-Plus `updateById` writes only the non-null fields of its argument, and `Tables.Shop` has no nullable column besides the id, so a partial update cannot be expressed.
- Shops.UpdateByIdFinds: "the row reads back as the argument" holds for complete shops only, which is all the model can express.
- Text.ParseLong: only ASCII digits 0-9 (with an optional sign) are read; Long.valueOf also accepts other Unicode decimal digits (Arabic-Indic, full-width and others), which the model rejects.
- Lua scripts: the seckill admission script is an external reply passed to `SeckillVoucher`, and only the mapping of that reply is modelled. The unlock script is modelled from the documented release rule and the commented-out Java version of `unlock`.
- Threads and executors: the rebuild executor is a queue of `RebuildTask` records that `RunRebuild` runs one at a time. The consumer's `while(true)` loop is one pass (`ConsumerPass`) plus a pending replay bounded by the list of faults it meets. `Thread.sleep`, `@PostConstruct` and the liveness of both loops are not modelled.
- Redisson, MyBatis-Plus and the `@Transactional` proxy: Redisson locks are a map of (owner, hold count, lease), and queries are functions over the tables. A transaction is one atomic step that either commits or, on an injected fault, rolls back.
- JSON and bean mapping: the codec (`toJson`, `toBean`, `wrap`, `unwrap`) is an abstract parameter with no round trip assumed. The one place that needs a round trip, `UpdateRewarmingThenQuery`, states it as a precondition.
- Time: one integer clock in seconds stands for Redis TTLs and `LocalDateTime.now()`. The sub-second precision of `isAfter` is left out.
- Ids.CounterKeyInjective: the date part of the counter key is the day number rather than the `yyyy:MM:dd` text, so the lemma is about days since the epoch.
- Users.SignKeyInjective: the `yyyyMM` suffix is modelled for dates whose year has four digits (`ValidDate`).
- Randomness: the login code, the UUID token, the nickname suffix, the thread ids and the lock's process prefix are parameters.
- Users.UserService.Login: the id that `save` generates for a new user is a parameter, and it is required to differ from every existing user's id, as an auto-increment key does. The same holds for `Users.UserService.SignIn` and `Users.UserService.FindOrCreate`.
- RegexUtils and UserHolder: phone validity and the logged-in user are parameters.
- Geo search: the Redis geo index, the distances and `setDistance`/`distanceMap` are left out. The search reply is a parameter (`nearby`), and zset scores are integers.
- Shops.ShopService.QueryShopByType: negative page numbers whose `from`/`end` wrap around in 32-bit arithmetic are modelled exactly by `GeoPage`, but `GeoPageSlice` is stated only for pages without wrap.
- queryBlogUser (filling in the author's name and icon) is left out.
- Blogs.BlogService.SaveBlog: whether the insert succeeded and the new id are parameters; the new id is required to be one no blog has, as a generated key is.
- Blogs.BlogService.LikeBlog: the result of the `liked` column update is taken to be whether the blog row exists.
- WRONGTYPE errors are left out: the key prefixes keep the value kinds apart.
- Lock.SimpleRedisLock.TryLock: the null reply of `setIfAbsent`, which the source treats as failure, is not modelled.
- Users.UserService.SignCount: stated as "plain ok, or the streak". A null element of the `BITFIELD` reply is not modelled.
- Blogs.BlogsByIds: an id repeated in the list gives its row twice, where the `in` query returns it once; the inbox members are ids the service wrote, each once, so the page never repeats an id.
- Blogs.BlogService.QueryBlogLikes: the bound of five users is proved only when user ids are unique.
- Blogs.BlogService.QueryBlogOfFollow: the offset equals the number of entries sharing the last score only for positive scores. For longer pages the loop does not reset its count (`CursorOffsetOfLongerPage`), but the service never reads more than two entries.
- Ids.IdRoundTrip: stated for timestamps below 2^31 and counts below 2^32, where the shift cannot overflow.
- The service interfaces, the login interceptors, the MVC configuration, the demo projects and the tests are not modelled.
- The commented-out code in `ShopServiceImpl.java` and `VoucherOrderServiceImpl.java` is not modelled, apart from the unlock version mentioned above.

## Findings

| source | as written | input that shows it | evidently intended | confidence | as-written member | corrected member |
|---|---|---|---|---|---|---|
| hm-dianping/src/main/java/com/hmdp/service/impl/ShopServiceImpl.java:315-325 | `update` deletes `cache:shop:`+id, but `queryById` reads through the logical-expiry path, which answers null on a missing entry and never reloads it | an existing shop is updated, then queried by id: the row holds the new shop, yet the reply is "店铺不存在" | the entry is rewritten from the updated row, so the next query answers the new shop | medium, not executed | Shops.ShopService.UpdateThenQuery | Shops.ShopService.UpdateRewarming |
| hm-dianping/src/main/java/com/hmdp/service/impl/BlogServiceImpl.java:133-136 | `queryBlogLikes` fetches the first five likers with `selectBatchIds`, which returns rows in table order and drops the like order that `ZRANGE` produced | users 1 and 2 where user 2 liked first: `ZRANGE` gives ["2", "1"], the reply lists user 1 first | the likers in like order, as `queryBlogOfFollow` keeps its order with `order by field` at line 206 | medium, not executed | Blogs.LikersInTableOrder | Blogs.BlogService.QueryBlogLikesInLikeOrder |
