/**
 * VoucherOrderServiceImpl: flash-sale orders. `seckillVoucher` draws an order
 * id and lets the admission script (seckill.lua, which checks stock and the
 * one-order-per-user rule in Redis and appends an intent to stream.orders)
 * decide. A single consumer thread reads intents from the stream as member
 * c1 of group g1, creates each order under a per-user Redisson lock and
 * acknowledges it; after an exception it replays its pending list.
 */
module Orders {
  import opened Common
  import opened Text
  import opened Store
  import opened Tables
  import opened Ids

  const STOCK_OUT_MSG: string := "库存不足"
  const REPEAT_ORDER_MSG: string := "不能重复下单"
  const ORDER_LOCK_PREFIX: string := "lock:order:"

  /** What goes wrong in one pass of a consumer loop, besides the modelled logic. */
  datatype Fault =
    | Healthy
    | ReadError    // the stream read throws
    | CreateError  // the order transaction throws and rolls back
    | AckError     // the XACK throws

  /** Long.intValue(): the low 32 bits, as a signed int. */
  function IntValue(x: int): (r: int)
    ensures -TWO32 / 2 <= r < TWO32 / 2
    ensures -TWO32 / 2 <= x < TWO32 / 2 ==> r == x
    ensures (r - x) % TWO32 == 0
  {
    var v := x % TWO32;
    if v >= TWO32 / 2 then v - TWO32 else v
  }

  /**
   * The response for the script's reply: 0 admits the order, 1 is sold out,
   * any other value a repeated order; a null reply fails on unboxing.
   */
  function Verdict(reply: Option<int>, orderId: int): (r: Response<int>)
    ensures r == Thrown <==> reply.None?
    ensures r == OkData(orderId) <==> reply.Some? && IntValue(reply.value) == 0
    ensures r == Fail(STOCK_OUT_MSG) <==> reply.Some? && IntValue(reply.value) == 1
    ensures r == Fail(REPEAT_ORDER_MSG) <==> reply.Some? && IntValue(reply.value) != 0 && IntValue(reply.value) != 1
  {
    if reply.None? then Thrown
    else
      var code := IntValue(reply.value);
      if code != 0 then Fail(if code == 1 then STOCK_OUT_MSG else REPEAT_ORDER_MSG)
      else OkData(orderId)
  }

  /** The stock and order tables that createVoucherOrder touches. */
  datatype Ledger = Ledger(stock: map<int, int>, orders: seq<VoucherOrder>)

  /** At most one order per (user, voucher). */
  predicate OnePerUser(orders: seq<VoucherOrder>)
  {
    forall i, j :: 0 <= i < j < |orders| ==>
      !(orders[i].userId == orders[j].userId && orders[i].voucherId == orders[j].voucherId)
  }

  predicate StockNonNegative(stock: map<int, int>)
  {
    forall v :: v in stock ==> stock[v] >= 0
  }

  predicate Sound(l: Ledger)
  {
    OnePerUser(l.orders) && StockNonNegative(l.stock)
  }

  /** How many orders were placed for voucher `v`. */
  function Sold(orders: seq<VoucherOrder>, v: int): nat
  {
    if orders == [] then 0
    else Sold(orders[..|orders| - 1], v) + (if orders[|orders| - 1].voucherId == v then 1 else 0)
  }

  /**
   * The committed effect of createVoucherOrder(order, userId): nothing when
   * the user already has an order for the voucher or its stock is not
   * positive; otherwise one unit of stock less and the order saved.
   */
  function CreateOrder(l: Ledger, order: VoucherOrder, userId: int): (r: Ledger)
    ensures r.stock.Keys == l.stock.Keys
    ensures |l.orders| <= |r.orders| <= |l.orders| + 1 && r.orders[..|l.orders|] == l.orders
  {
    var v := order.voucherId;
    if CountOrders(l.orders, userId, v) > 0 then l
    else if !(v in l.stock && l.stock[v] > 0) then l
    else Ledger(l.stock[v := l.stock[v] - 1], l.orders + [order])
  }

  /**
   * Serialised calls keep at most one order per (user, voucher) and never
   * take stock below zero.
   */
  lemma CreateOrderSound(l: Ledger, order: VoucherOrder, userId: int)
    requires Sound(l) && order.userId == userId
    ensures Sound(CreateOrder(l, order, userId))
  {
    var r := CreateOrder(l, order, userId);
    if r != l {
      forall i, j | 0 <= i < j < |r.orders|
        ensures !(r.orders[i].userId == r.orders[j].userId && r.orders[i].voucherId == r.orders[j].voucherId)
      {
        if j == |l.orders| {
          assert r.orders[j] == order;
          assert r.orders[i] in l.orders;
        } else {
          assert r.orders[i] == l.orders[i] && r.orders[j] == l.orders[j];
        }
      }
    }
  }

  /** Appending an order for voucher `w` counts one more sale of `w` only. */
  lemma SoldAppend(orders: seq<VoucherOrder>, o: VoucherOrder, v: int)
    ensures Sold(orders + [o], v) == Sold(orders, v) + (if o.voucherId == v then 1 else 0)
  {
    assert (orders + [o])[..|orders + [o]| - 1] == orders;
  }

  /**
   * Stock plus orders placed is constant for every voucher, so no voucher
   * ever has more orders than the stock it started with.
   */
  lemma CreateOrderConserves(l: Ledger, order: VoucherOrder, userId: int, v: int)
    requires v in l.stock
    ensures v in CreateOrder(l, order, userId).stock
    ensures CreateOrder(l, order, userId).stock[v] + Sold(CreateOrder(l, order, userId).orders, v)
            == l.stock[v] + Sold(l.orders, v)
  {
    SoldAppend(l.orders, order, v);
  }

  /** Exactly one unit of stock goes and exactly one order comes, or nothing changes. */
  lemma CreateOrderAllOrNothing(l: Ledger, order: VoucherOrder, userId: int)
    ensures var r := CreateOrder(l, order, userId);
      r == l
      || (order.voucherId in l.stock && l.stock[order.voucherId] > 0
          && CountOrders(l.orders, userId, order.voucherId) == 0
          && r.orders == l.orders + [order]
          && r.stock == l.stock[order.voucherId := l.stock[order.voucherId] - 1])
  {
  }

  function OrderOf(intent: OrderIntent): VoucherOrder
  {
    VoucherOrder(intent.orderId, intent.userId, intent.voucherId)
  }

  function OrderLockKey(userId: int): string
  {
    ORDER_LOCK_PREFIX + LongToString(userId)
  }

  type LockMap = map<string, Entry<LockHold>>

  /**
   * The state the consumer thread changes: the two tables, the Redisson
   * locks, and the group's delivery cursor and pending list.
   */
  datatype Side = Side(ledger: Ledger, rlocks: LockMap, delivered: nat, pending: seq<nat>)

  /**
   * What the consumer reads but does not change: the stream, the clock, the
   * owner name Redisson records for it and whether the proxy is captured.
   */
  datatype Env = Env(stream: seq<OrderIntent>, now: int, owner: string, proxy: bool)

  /** Whether `owner` gets the user's order lock: nobody holds it, or `owner` does. */
  predicate LockFree(rlocks: LockMap, now: int, owner: string, userId: int)
  {
    var key := OrderLockKey(userId);
    !(key in rlocks && Live(rlocks[key], now)) || rlocks[key].value.owner == owner
  }

  /** Every pending id names an entry of the stream. */
  predicate InStream(pending: seq<nat>, stream: seq<OrderIntent>)
  {
    forall x :: x in pending ==> x < |stream|
  }

  /**
   * handleVoucherOrder(order): the new state and whether an exception
   * escapes. Without the user's lock nothing happens. With it, the order
   * transaction runs (a null proxy throws instead) and `finally` gives back
   * the hold tryLock took.
   */
  function Handle(env: Env, s: Side, order: VoucherOrder, fault: bool): (r: (Side, bool))
    ensures r.0.delivered == s.delivered && r.0.pending == s.pending
    ensures r.0.ledger == s.ledger || r.0.ledger == CreateOrder(s.ledger, order, order.userId)
  {
    var key := OrderLockKey(order.userId);
    if !LockFree(s.rlocks, env.now, env.owner, order.userId) then (s, false)
    else
      var locks :=
        if key in s.rlocks && Live(s.rlocks[key], env.now)
        then s.rlocks[key := Entry(LockHold(env.owner, s.rlocks[key].value.holds), Some(env.now + LOCK_WATCHDOG_TIMEOUT))]
        else s.rlocks - {key};
      if !env.proxy || fault then (s.(rlocks := locks), true)
      else (s.(ledger := CreateOrder(s.ledger, order, order.userId), rlocks := locks), false)
  }

  /**
   * Steps 4 and 5 of both consumer loops: handle the intent stored under
   * `id`, then acknowledge it unless handling threw or the ack fails. The
   * flag says whether an exception left the block.
   */
  function Settle(env: Env, s: Side, id: nat, fault: Fault): (r: (Side, bool))
    requires id < |env.stream|
    ensures r.0.delivered == s.delivered
  {
    var h := Handle(env, s, OrderOf(env.stream[id]), fault == CreateError);
    if h.1 || fault == AckError then (h.0, true)
    else (h.0.(pending := Without(h.0.pending, id)), false)
  }

  /**
   * The `try` block of the consumer loop: read one new intent, handle it and
   * acknowledge it. The flag says whether an exception left the block.
   */
  function Consume(env: Env, s: Side, fault: Fault): (r: (Side, bool))
    ensures InStream(s.pending, env.stream) ==> InStream(r.0.pending, env.stream)
    ensures r.0.delivered == s.delivered || (s.delivered < |env.stream| && r.0.delivered == s.delivered + 1)
  {
    if fault == ReadError then (s, true)
    else if s.delivered >= |env.stream| then (s, false)
    else Settle(env, s.(delivered := s.delivered + 1, pending := s.pending + [s.delivered]), s.delivered, fault)
  }

  /**
   * handlePendingList: each pass meets the next event of `events`. A read
   * error skips the pass; an empty pending read ends the replay, drained.
   * Otherwise the first pending intent is handled and acknowledged when its
   * handling returned and the ack went through.
   */
  function Replay(env: Env, s: Side, events: seq<Fault>): (r: (Side, bool))
    requires InStream(s.pending, env.stream)
    ensures r.0.delivered == s.delivered
    ensures r.1 ==> r.0.pending == []
    ensures forall x :: x in r.0.pending ==> x in s.pending
    ensures |r.0.pending| <= |s.pending|
    decreases |events|
  {
    if events == [] then (s, false)
    else if events[0] == ReadError then Replay(env, s, events[1..])
    else if s.pending == [] then (s, true)
    else Replay(env, ReplayStep(env, s, events[0]), events[1..])
  }

  /**
   * handleVoucherOrder creates no order without the user's lock and throws
   * nothing then; with the lock it creates the order unless the proxy is
   * missing or the transaction throws, and a lock it took is released.
   */
  lemma HandleEffect(env: Env, s: Side, order: VoucherOrder, fault: bool)
    ensures var r := Handle(env, s, order, fault);
      !LockFree(s.rlocks, env.now, env.owner, order.userId) ==> r == (s, false)
    ensures var r := Handle(env, s, order, fault);
      LockFree(s.rlocks, env.now, env.owner, order.userId) ==> r.1 == (!env.proxy || fault)
    ensures var r := Handle(env, s, order, fault);
      LockFree(s.rlocks, env.now, env.owner, order.userId) && env.proxy && !fault ==>
        r.0.ledger == CreateOrder(s.ledger, order, order.userId)
    ensures var r := Handle(env, s, order, fault);
      !env.proxy || fault ==> r.0.ledger == s.ledger
    ensures var r := Handle(env, s, order, fault);
      var key := OrderLockKey(order.userId);
      !(key in s.rlocks && Live(s.rlocks[key], env.now)) ==> r.0.rlocks == s.rlocks - {key}
  {
  }

  /**
   * One read: a delivered intent the user's lock refuses is acknowledged and
   * dropped; one that gets the lock creates its order unless the
   * transaction throws, and stays pending exactly when an exception left
   * the block.
   */
  lemma ConsumeEffect(env: Env, s: Side, fault: Fault)
    requires forall i :: 0 <= i < |s.pending| ==> s.pending[i] < s.delivered
    ensures fault == ReadError ==> Consume(env, s, fault) == (s, true)
    ensures fault != ReadError && s.delivered >= |env.stream| ==> Consume(env, s, fault) == (s, false)
    ensures fault != ReadError && s.delivered < |env.stream| ==>
      var r := Consume(env, s, fault);
      var e := env.stream[s.delivered];
      var free := LockFree(s.rlocks, env.now, env.owner, e.userId);
      r.0.delivered == s.delivered + 1
      && (r.1 <==> fault == AckError || (free && (fault == CreateError || !env.proxy)))
      && (r.1 ==> r.0.pending == s.pending + [s.delivered])
      && (!r.1 ==> r.0.pending == s.pending)
      && (!free ==> r.0.ledger == s.ledger && r.0.rlocks == s.rlocks)
      && (free && env.proxy && fault != CreateError ==> r.0.ledger == CreateOrder(s.ledger, OrderOf(e), e.userId))
      && (!env.proxy || fault == CreateError ==> r.0.ledger == s.ledger)
  {
    if fault != ReadError && s.delivered < |env.stream| {
      assert s.delivered !in s.pending;
      WithoutAppended(s.pending, s.delivered);
    }
  }

  /** A read keeps the ledger sound. */
  lemma ConsumeSound(env: Env, s: Side, fault: Fault)
    requires Sound(s.ledger)
    ensures Sound(Consume(env, s, fault).0.ledger)
  {
    if fault != ReadError && s.delivered < |env.stream| {
      var e := env.stream[s.delivered];
      CreateOrderSound(s.ledger, OrderOf(e), e.userId);
    }
  }

  /** One pass of the replay, as Replay takes it. */
  function ReplayStep(env: Env, s: Side, f: Fault): (r: Side)
    requires s.pending != [] && InStream(s.pending, env.stream)
    ensures InStream(r.pending, env.stream)
    ensures r.delivered == s.delivered && |r.pending| <= |s.pending|
  {
    assert s.pending[0] in s.pending;
    Settle(env, s, s.pending[0], f).0
  }

  /** The replay keeps the ledger sound: no second order for a user, no negative stock. */
  lemma {:induction false} ReplaySound(env: Env, s: Side, events: seq<Fault>)
    requires InStream(s.pending, env.stream) && Sound(s.ledger)
    ensures Sound(Replay(env, s, events).0.ledger)
    decreases |events|
  {
    if events != [] {
      if events[0] == ReadError {
        ReplaySound(env, s, events[1..]);
      } else if s.pending != [] {
        assert s.pending[0] in s.pending;
        var e := env.stream[s.pending[0]];
        CreateOrderSound(s.ledger, OrderOf(e), e.userId);
        ReplaySound(env, ReplayStep(env, s, events[0]), events[1..]);
      }
    }
  }

  /** Replaying intents, however often, keeps stock plus orders placed constant for every voucher. */
  lemma {:induction false} ReplayConserves(env: Env, s: Side, events: seq<Fault>, v: int)
    requires InStream(s.pending, env.stream) && v in s.ledger.stock
    ensures var l := Replay(env, s, events).0.ledger;
      v in l.stock && l.stock[v] + Sold(l.orders, v) == s.ledger.stock[v] + Sold(s.ledger.orders, v)
    decreases |events|
  {
    if events != [] {
      if events[0] == ReadError {
        ReplayConserves(env, s, events[1..], v);
      } else if s.pending != [] {
        assert s.pending[0] in s.pending;
        var e := env.stream[s.pending[0]];
        CreateOrderConserves(s.ledger, OrderOf(e), e.userId, v);
        ReplayConserves(env, ReplayStep(env, s, events[0]), events[1..], v);
      }
    }
  }

  /** With a captured proxy and no faults, more passes than pending entries drain the list. */
  lemma {:induction false} ReplayDrains(env: Env, s: Side, events: seq<Fault>)
    requires InStream(s.pending, env.stream)
    requires env.proxy && forall k :: 0 <= k < |events| ==> events[k] == Healthy
    requires |events| > |s.pending|
    ensures Replay(env, s, events).1
    decreases |events|
  {
    if s.pending != [] {
      var next := ReplayStep(env, s, events[0]);
      assert next.pending == Without(s.pending, s.pending[0]);
      ReplayDrains(env, next, events[1..]);
    }
  }

  /** An entry leaves the pending list only through an ack that went through. */
  lemma {:induction false} ReplayFailedAcksKeepPending(env: Env, s: Side, events: seq<Fault>)
    requires InStream(s.pending, env.stream)
    requires forall k :: 0 <= k < |events| ==> events[k] == ReadError || events[k] == AckError
    ensures Replay(env, s, events).0.pending == s.pending
    decreases |events|
  {
    if events != [] {
      if events[0] == ReadError || s.pending == [] {
        if events[0] == ReadError {
          ReplayFailedAcksKeepPending(env, s, events[1..]);
        }
      } else {
        ReplayFailedAcksKeepPending(env, ReplayStep(env, s, events[0]), events[1..]);
      }
    }
  }

  class VoucherOrderService {
    const redis: Redis
    const db: Database
    const idWorker: RedisIdWorker
    /** The lock owner Redisson records for the consumer thread. */
    const consumer: string
    /** Whether the transactional proxy has been captured yet (it starts out null). */
    var proxy: bool

    ghost predicate Valid()
    {
      idWorker.redis == redis
    }

    constructor (redis: Redis, db: Database, idWorker: RedisIdWorker, consumer: string)
      requires idWorker.redis == redis
      ensures Valid() && this.redis == redis && this.db == db && this.idWorker == idWorker
      ensures this.consumer == consumer && !proxy
    {
      this.redis := redis;
      this.db := db;
      this.idWorker := idWorker;
      this.consumer := consumer;
      proxy := false;
    }

    function LedgerOf(): Ledger
      reads db
    {
      Ledger(db.stock, db.orders)
    }

    /**
     * seckillVoucher: captures the proxy, draws an order id (so the "order"
     * counter moves even when the script refuses), and maps the script's
     * reply to the response.
     */
    method SeckillVoucher(userId: int, voucherId: int, scriptReply: Option<int>) returns (resp: Response<int>)
      requires Valid()
      modifies this`proxy, redis`counters
      ensures proxy
      ensures var key := CounterKey("order", redis.now);
        redis.counters == old(redis.counters)[key := old(redis.Counter(key)) + 1]
        && resp == Verdict(scriptReply, ComposeId(Timestamp(redis.now), old(redis.Counter(key)) + 1))
    {
      proxy := true;
      var orderId := idWorker.NextId("order");
      resp := Verdict(scriptReply, orderId);
    }

    /**
     * createVoucherOrder as one transaction: it commits CreateOrder, or
     * throws and rolls back.
     */
    method CreateVoucherOrder(order: VoucherOrder, userId: int, fault: bool) returns (thrown: bool)
      modifies db`stock, db`orders
      ensures thrown == fault
      ensures !thrown ==> LedgerOf() == CreateOrder(old(LedgerOf()), order, userId)
      ensures thrown ==> LedgerOf() == old(LedgerOf())
    {
      if fault {
        return true;
      }
      thrown := false;
      var count := CountOrders(db.orders, userId, order.voucherId);
      if count > 0 {
        return;
      }
      var v := order.voucherId;
      var success := v in db.stock && db.stock[v] > 0;
      if !success {
        return;
      }
      db.stock := db.stock[v := db.stock[v] - 1];
      db.orders := db.orders + [order];
    }

    /** The consumer's part of the state. */
    function SideOf(): Side
      reads redis, db
    {
      Side(LedgerOf(), redis.rlocks, redis.delivered, redis.pending)
    }

    /** What the consumer reads but does not change. */
    function EnvOf(): Env
      reads this, redis
    {
      Env(redis.stream, redis.now, consumer, proxy)
    }

    /**
     * handleVoucherOrder: no order without the user's lock; with it, the order
     * transaction runs (or the null proxy throws) and the lock is released in
     * `finally`. `thrown` says whether an exception escapes.
     */
    method HandleVoucherOrder(order: VoucherOrder, fault: bool) returns (thrown: bool)
      modifies redis`rlocks, db`stock, db`orders
      ensures (SideOf(), thrown) == Handle(EnvOf(), old(SideOf()), order, fault)
    {
      var key := OrderLockKey(order.userId);
      ghost var locks0 := redis.rlocks;
      ghost var s0 := SideOf();
      var isLock := redis.RTryLock(key, consumer);
      if !isLock {
        assert SideOf() == s0;
        assert Handle(EnvOf(), s0, order, fault) == (s0, false);
        return false;
      }
      if !proxy {
        thrown := true;
      } else {
        thrown := CreateVoucherOrder(order, order.userId, fault);
      }
      var unlockThrown := redis.RUnlock(key, consumer);
      assert !unlockThrown;
      if !(key in locks0 && Live(locks0[key], redis.now)) {
        assert redis.rlocks == locks0 - {key};
      } else {
        assert redis.rlocks == locks0[key := Entry(LockHold(consumer, locks0[key].value.holds), Some(redis.now + LOCK_WATCHDOG_TIMEOUT))];
      }
      assert thrown == (!proxy || fault);
    }

    /**
     * The body of the consumer loop's `try`: read one new intent, handle
     * it, acknowledge it. `failed` says whether an exception left the block.
     */
    method ReadAndHandle(fault: Fault) returns (failed: bool)
      requires redis.StreamValid()
      modifies redis`delivered, redis`pending, redis`rlocks, db`stock, db`orders
      ensures redis.StreamValid()
      ensures (SideOf(), failed) == Consume(EnvOf(), old(SideOf()), fault)
    {
      if fault == ReadError {
        return true;
      }
      ghost var s0 := SideOf();
      var read := redis.XReadNew();
      if read.None? {
        return false;
      }
      var (id, intent) := read.value;
      ghost var s1 := s0.(delivered := id + 1, pending := s0.pending + [id]);
      assert SideOf() == s1;
      failed := HandleAndAck(id, intent, fault);
      assert (SideOf(), failed) == Settle(EnvOf(), s1, id, fault);
    }

    /**
     * Steps 4 and 5 of both loops on an intent just read: handleVoucherOrder,
     * then XACK unless it threw or the ack fails.
     */
    method HandleAndAck(id: nat, intent: OrderIntent, fault: Fault) returns (failed: bool)
      requires redis.StreamValid() && id < |redis.stream| && intent == redis.stream[id]
      modifies redis`pending, redis`rlocks, db`stock, db`orders
      ensures redis.StreamValid()
      ensures (SideOf(), failed) == Settle(EnvOf(), old(SideOf()), id, fault)
    {
      ghost var h := Handle(EnvOf(), SideOf(), OrderOf(intent), fault == CreateError);
      var thrown := HandleVoucherOrder(OrderOf(intent), fault == CreateError);
      assert SideOf() == h.0 && thrown == h.1;
      if thrown || fault == AckError {
        return true;
      }
      redis.XAck(id);
      failed := false;
    }

    /**
     * handlePendingList: re-reads the first pending intent, handles and
     * acknowledges it, and repeats until the pending read comes back empty.
     * Each pass meets the next event of `events`; the loop stops early when
     * they run out.
     */
    method HandlePendingList(events: seq<Fault>) returns (drained: bool)
      requires redis.StreamValid()
      modifies redis`pending, redis`rlocks, db`stock, db`orders
      ensures redis.StreamValid()
      ensures (SideOf(), drained) == Replay(EnvOf(), old(SideOf()), events)
    {
      drained := false;
      var i := 0;
      while i < |events|
        invariant 0 <= i <= |events|
        invariant redis.StreamValid() && InStream(redis.pending, redis.stream)
        invariant Replay(EnvOf(), SideOf(), events[i..]) == Replay(EnvOf(), old(SideOf()), events)
        decreases |events| - i
      {
        assert events[i..][1..] == events[i + 1..];
        drained := ReplayOnce(events[i]);
        if drained {
          break;
        }
        i := i + 1;
      }
    }

    /**
     * One pass of handlePendingList's loop: read the first pending intent;
     * when there is none the replay is over, otherwise handle it and
     * acknowledge it when handling returned and the ack goes through.
     */
    method ReplayOnce(f: Fault) returns (drained: bool)
      requires redis.StreamValid() && InStream(redis.pending, redis.stream)
      modifies redis`pending, redis`rlocks, db`stock, db`orders
      ensures redis.StreamValid() && InStream(redis.pending, redis.stream)
      ensures drained <==> f != ReadError && old(redis.pending) == []
      ensures drained || f == ReadError ==> SideOf() == old(SideOf())
      ensures !drained && f != ReadError ==> SideOf() == ReplayStep(EnvOf(), old(SideOf()), f)
    {
      if f == ReadError {
        return false;
      }
      var first := redis.PendingFirst();
      if first.None? {
        return true;
      }
      var (id, intent) := first.value;
      var _ := HandleAndAck(id, intent, f);
      drained := false;
    }

    /**
     * One pass of the consumer loop: the `try` block, and on an exception
     * the pending-list replay.
     */
    method ConsumerPass(fault: Fault, recovery: seq<Fault>) returns (failed: bool, drained: bool)
      requires redis.StreamValid()
      modifies redis`delivered, redis`pending, redis`rlocks, db`stock, db`orders
      ensures redis.StreamValid()
      ensures var c := Consume(EnvOf(), old(SideOf()), fault);
        failed == c.1
        && (!failed ==> SideOf() == c.0 && !drained)
        && (failed ==> (SideOf(), drained) == Replay(EnvOf(), c.0, recovery))
      ensures Sound(old(LedgerOf())) ==> Sound(LedgerOf())
    {
      ghost var s0 := SideOf();
      failed := ReadAndHandle(fault);
      drained := false;
      ghost var s1 := SideOf();
      if Sound(s0.ledger) {
        ConsumeSound(EnvOf(), s0, fault);
      }
      if failed {
        drained := HandlePendingList(recovery);
        if Sound(s1.ledger) {
          ReplaySound(EnvOf(), s1, recovery);
        }
      }
    }
  }

  /** Acknowledging the entry just delivered restores the pending list. */
  lemma WithoutAppended(s: seq<nat>, x: nat)
    requires x !in s
    ensures Without(s + [x], x) == s
  {
    WithoutAbsent(s, x);
    WithoutConcat(s, [x], x);
  }

  lemma {:induction false} WithoutAbsent(s: seq<nat>, x: nat)
    requires x !in s
    ensures Without(s, x) == s
    decreases |s|
  {
    if s != [] {
      assert s == [s[0]] + s[1..];
      WithoutAbsent(s[1..], x);
    }
  }

  lemma {:induction false} WithoutConcat(a: seq<nat>, b: seq<nat>, x: nat)
    ensures Without(a + b, x) == Without(a, x) + Without(b, x)
    decreases |a|
  {
    if a != [] {
      assert (a + b)[1..] == a[1..] + b;
      WithoutConcat(a[1..], b, x);
    } else {
      assert a + b == b;
    }
  }
}
