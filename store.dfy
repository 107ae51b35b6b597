/**
 * The Redis server the core talks to, as one object whose fields the
 * commands update in place. Each value type lives in its own map (the core's
 * key prefixes keep the types apart, so WRONGTYPE never arises); a key with
 * an expiry is live while the clock is strictly before it. The order stream
 * `stream.orders` is kept with the state of its one consumer group `g1` and
 * that group's one consumer `c1`.
 */
module Store {
  import opened Common
  import SortedSet

  /** A stored value and its absolute expiry in seconds, if it has one. */
  datatype Entry<T> = Entry(value: T, expireAt: Option<int>)

  predicate Live<T>(e: Entry<T>, now: int)
  {
    e.expireAt.None? || now < e.expireAt.value
  }

  /** The hash Redisson keeps for a reentrant lock: the owner's name and its hold count. */
  datatype LockHold = LockHold(owner: string, holds: Pos)

  /** Redisson's default lease for `tryLock()` without arguments, in seconds. */
  const LOCK_WATCHDOG_TIMEOUT: int := 30

  /** One entry of `stream.orders`: the fields seckill.lua adds with XADD. */
  datatype OrderIntent = OrderIntent(orderId: int, userId: int, voucherId: int)

  /**
   * BITFIELD ... GET u<w> 0: the first `w` bits of a bitmap read as an
   * unsigned number, bit offset 0 being the most significant.
   */
  function Field(bits: set<nat>, w: nat): (v: nat)
    ensures v < Pow2(w)
  {
    if w == 0 then 0 else 2 * Field(bits, w - 1) + (if w - 1 in bits then 1 else 0)
  }

  /** The sequence without any occurrence of `x` (XACK on a pending list). */
  function Without(s: seq<nat>, x: nat): (r: seq<nat>)
    ensures forall y :: y in r <==> y in s && y != x
    ensures x in s ==> |r| < |s|
    ensures |r| <= |s|
  {
    if s == [] then []
    else if s[0] == x then Without(s[1..], x)
    else [s[0]] + Without(s[1..], x)
  }

  predicate Increasing(s: seq<nat>)
  {
    forall i, j :: 0 <= i < j < |s| ==> s[i] < s[j]
  }

  lemma {:induction false} WithoutIncreasing(s: seq<nat>, x: nat)
    requires Increasing(s)
    ensures Increasing(Without(s, x))
    decreases |s|
  {
    if s != [] {
      WithoutIncreasing(s[1..], x);
      var t := Without(s[1..], x);
      if s[0] != x {
        forall j | 0 <= j < |t| ensures s[0] < t[j] {
          assert t[j] in s[1..];
        }
      }
    }
  }

  /** Every sorted set is well formed, and none is empty: Redis drops an emptied key. */
  predicate WellFormedZSets(zsets: map<string, seq<SortedSet.ZEntry>>)
  {
    forall k :: k in zsets ==> SortedSet.Valid(zsets[k]) && zsets[k] != []
  }

  class Redis {
    /** The server clock, in seconds. */
    var now: int
    var strings: map<string, Entry<string>>
    var hashes: map<string, Entry<map<string, string>>>
    /** Sorted sets; Redis deletes a sorted set when its last member goes. */
    var zsets: map<string, seq<SortedSet.ZEntry>>
    /** Bitmaps, as the offsets of their 1 bits. */
    var bitmaps: map<string, set<nat>>
    /** Integer counters written by INCR. */
    var counters: map<string, int>
    /** Redisson lock hashes. */
    var rlocks: map<string, Entry<LockHold>>
    /** `stream.orders`, in id order; an entry's id is its index. */
    var stream: seq<OrderIntent>
    /** Group g1's last-delivered cursor: entries below it were handed out. */
    var delivered: nat
    /** Consumer c1's pending list: delivered and not yet acknowledged. */
    var pending: seq<nat>

    ghost predicate Valid()
      reads this
    {
      ZSetsValid() && StreamValid()
    }

    ghost predicate ZSetsValid()
      reads this`zsets
    {
      WellFormedZSets(zsets)
    }

    /** The group's cursor lies within the stream; the pending list is ascending and delivered. */
    ghost predicate StreamValid()
      reads this`stream, this`delivered, this`pending
    {
      delivered <= |stream|
      && (forall i :: 0 <= i < |pending| ==> pending[i] < delivered)
      && Increasing(pending)
    }

    constructor (clock: int)
      ensures Valid() && now == clock
      ensures strings == map[] && hashes == map[] && zsets == map[] && bitmaps == map[]
      ensures counters == map[] && rlocks == map[] && stream == [] && delivered == 0 && pending == []
    {
      now, strings, hashes, zsets, bitmaps := clock, map[], map[], map[], map[];
      counters, rlocks, stream, delivered, pending := map[], map[], [], 0, [];
    }

    /** Time passes. */
    method Tick(seconds: nat)
      modifies this`now
      ensures now == old(now) + seconds
    {
      now := now + seconds;
    }

    // ---- strings ----

    /** GET: the value of a live key. */
    function Get(key: string): (r: Option<string>)
      reads this`strings, this`now
      ensures r.Some? <==> key in strings && Live(strings[key], now)
      ensures r.Some? ==> r.value == strings[key].value
    {
      if key in strings && Live(strings[key], now) then Some(strings[key].value) else None
    }

    /** SET key value: no expiry. */
    method Set(key: string, value: string)
      modifies this`strings
      ensures strings == old(strings)[key := Entry(value, None)]
    {
      strings := strings[key := Entry(value, None)];
    }

    /** SET key value EX ttl. */
    method SetEx(key: string, value: string, ttl: Pos)
      modifies this`strings
      ensures strings == old(strings)[key := Entry(value, Some(now + ttl))]
    {
      strings := strings[key := Entry(value, Some(now + ttl))];
    }

    /** SET key value EX ttl NX: writes only when the key is not live. */
    method SetNx(key: string, value: string, ttl: Pos) returns (ok: bool)
      modifies this`strings
      ensures ok <==> old(Get(key)).None?
      ensures strings == if ok then old(strings)[key := Entry(value, Some(now + ttl))] else old(strings)
    {
      ok := Get(key).None?;
      if ok {
        strings := strings[key := Entry(value, Some(now + ttl))];
      }
    }

    /** DEL on a string key. */
    method Del(key: string)
      modifies this`strings
      ensures strings == old(strings) - {key}
    {
      strings := strings - {key};
    }

    // ---- hashes ----

    predicate HashLive(key: string)
      reads this`hashes, this`now
    {
      key in hashes && Live(hashes[key], now)
    }

    /** HGETALL: the fields of a live hash, or none. */
    function HGetAll(key: string): map<string, string>
      reads this`hashes, this`now
    {
      if HashLive(key) then hashes[key].value else map[]
    }

    /** HSET key f1 v1 f2 v2 ...: merges the fields, keeping a live hash's expiry. */
    method HPutAll(key: string, fields: map<string, string>)
      modifies this`hashes
      ensures hashes == old(hashes)[key := Entry(old(HGetAll(key)) + fields,
                                                 if old(HashLive(key)) then old(hashes[key].expireAt) else None)]
    {
      var expireAt := if HashLive(key) then hashes[key].expireAt else None;
      hashes := hashes[key := Entry(HGetAll(key) + fields, expireAt)];
    }

    /** EXPIRE key ttl on a hash: false, and no change, when the key is not live. */
    method Expire(key: string, ttl: Pos) returns (ok: bool)
      modifies this`hashes
      ensures ok <==> old(HashLive(key))
      ensures hashes == if ok then old(hashes)[key := Entry(old(hashes[key].value), Some(now + ttl))] else old(hashes)
    {
      ok := HashLive(key);
      if ok {
        hashes := hashes[key := Entry(hashes[key].value, Some(now + ttl))];
      }
    }

    // ---- sorted sets ----

    function ZOf(key: string): seq<SortedSet.ZEntry>
      reads this
    {
      if key in zsets then zsets[key] else []
    }

    /** ZSCORE key member. */
    function ZScore(key: string, member: string): (r: Option<int>)
      reads this
      ensures r.Some? <==> member in SortedSet.Members(ZOf(key))
      ensures r.Some? ==> SortedSet.ZEntry(member, r.value) in ZOf(key)
    {
      SortedSet.Score(ZOf(key), member)
    }

    /** ZADD key score member. */
    method ZAdd(key: string, member: string, score: int)
      requires ZSetsValid()
      modifies this`zsets
      ensures ZSetsValid()
      ensures zsets == old(zsets)[key := SortedSet.Add(old(ZOf(key)), member, score)]
    {
      SortedSet.AddValid(ZOf(key), member, score);
      zsets := zsets[key := SortedSet.Add(ZOf(key), member, score)];
    }

    /** ZREM key member; the key goes away with its last member. */
    method ZRem(key: string, member: string)
      requires ZSetsValid()
      modifies this`zsets
      ensures ZSetsValid()
      ensures var r := SortedSet.Remove(old(ZOf(key)), member);
              zsets == if r == [] then old(zsets) - {key} else old(zsets)[key := r]
    {
      SortedSet.RemoveValid(ZOf(key), member);
      var r := SortedSet.Remove(ZOf(key), member);
      if r == [] {
        zsets := zsets - {key};
      } else {
        zsets := zsets[key := r];
      }
    }

    // ---- bitmaps ----

    function Bits(key: string): set<nat>
      reads this
    {
      if key in bitmaps then bitmaps[key] else {}
    }

    /** SETBIT key offset 1. */
    method SetBit(key: string, offset: nat)
      modifies this`bitmaps
      ensures bitmaps == old(bitmaps)[key := old(Bits(key)) + {offset}]
    {
      bitmaps := bitmaps[key := Bits(key) + {offset}];
    }

    /**
     * BITFIELD key GET u<width> 0 through the client: one value per GET, or an
     * empty reply (the client hands back null inside a pipeline or a
     * transaction). A missing key reads as all zeros.
     */
    method BitFieldGet(key: string, width: nat) returns (reply: seq<int>)
      ensures reply == [] || reply == [Field(Bits(key), width)]
    {
      reply := [Field(Bits(key), width)];
    }

    // ---- counters ----

    function Counter(key: string): int
      reads this
    {
      if key in counters then counters[key] else 0
    }

    /** INCR: a missing key counts from 0. */
    method Incr(key: string) returns (v: int)
      modifies this`counters
      ensures v == old(Counter(key)) + 1
      ensures counters == old(counters)[key := v]
    {
      v := Counter(key) + 1;
      counters := counters[key := v];
    }

    // ---- Redisson reentrant lock ----

    predicate RLockLive(key: string)
      reads this
    {
      key in rlocks && Live(rlocks[key], now)
    }

    /**
     * RLock.tryLock(): succeeds when nobody holds the lock or the caller
     * already does (reentry), and (re)sets the lease.
     */
    method RTryLock(key: string, owner: string) returns (ok: bool)
      modifies this`rlocks
      ensures ok <==> old(!RLockLive(key) || rlocks[key].value.owner == owner)
      ensures !ok ==> rlocks == old(rlocks)
      ensures ok && old(RLockLive(key)) ==>
        rlocks == old(rlocks)[key := Entry(LockHold(owner, old(rlocks[key].value.holds) + 1), Some(now + LOCK_WATCHDOG_TIMEOUT))]
      ensures ok && !old(RLockLive(key)) ==>
        rlocks == old(rlocks)[key := Entry(LockHold(owner, 1), Some(now + LOCK_WATCHDOG_TIMEOUT))]
    {
      if !RLockLive(key) {
        ok := true;
        rlocks := rlocks[key := Entry(LockHold(owner, 1), Some(now + LOCK_WATCHDOG_TIMEOUT))];
      } else if rlocks[key].value.owner == owner {
        ok := true;
        var holds := rlocks[key].value.holds + 1;
        rlocks := rlocks[key := Entry(LockHold(owner, holds), Some(now + LOCK_WATCHDOG_TIMEOUT))];
      } else {
        ok := false;
      }
    }

    /**
     * RLock.unlock(): by the holder, one hold fewer and the key gone with the
     * last; by anyone else, IllegalMonitorStateException (`thrown`) and no change.
     */
    method RUnlock(key: string, owner: string) returns (thrown: bool)
      modifies this`rlocks
      ensures thrown <==> !old(RLockLive(key) && rlocks[key].value.owner == owner)
      ensures thrown ==> rlocks == old(rlocks)
      ensures !thrown ==>
        rlocks == if old(rlocks[key].value.holds) == 1 then old(rlocks) - {key}
                  else old(rlocks)[key := Entry(LockHold(owner, old(rlocks[key].value.holds) - 1), Some(now + LOCK_WATCHDOG_TIMEOUT))]
    {
      thrown := !(RLockLive(key) && rlocks[key].value.owner == owner);
      if !thrown {
        var holds := rlocks[key].value.holds;
        if holds == 1 {
          rlocks := rlocks - {key};
        } else {
          rlocks := rlocks[key := Entry(LockHold(owner, holds - 1), Some(now + LOCK_WATCHDOG_TIMEOUT))];
        }
      }
    }

    // ---- the order stream ----

    /**
     * XREADGROUP GROUP g1 c1 COUNT 1 STREAMS stream.orders >: the next entry
     * nobody in the group has seen, which also goes on c1's pending list;
     * nothing when the stream is exhausted (the blocking read times out).
     */
    method XReadNew() returns (r: Option<(nat, OrderIntent)>)
      requires StreamValid()
      modifies this`delivered, this`pending
      ensures StreamValid()
      ensures old(delivered) < |stream| ==>
        r == Some((old(delivered), stream[old(delivered)]))
        && delivered == old(delivered) + 1 && pending == old(pending) + [old(delivered)]
      ensures old(delivered) == |stream| ==>
        r == None && delivered == old(delivered) && pending == old(pending)
    {
      if delivered < |stream| {
        r := Some((delivered, stream[delivered]));
        pending := pending + [delivered];
        delivered := delivered + 1;
      } else {
        r := None;
      }
    }

    /** XREADGROUP GROUP g1 c1 COUNT 1 STREAMS stream.orders 0: the first pending entry. */
    function PendingFirst(): (r: Option<(nat, OrderIntent)>)
      reads this`stream, this`delivered, this`pending
      requires StreamValid()
      ensures r.Some? <==> pending != []
      ensures r.Some? ==> r.value.0 in pending && r.value.0 < |stream|
      ensures r.Some? ==> forall i :: 0 <= i < |pending| ==> r.value.0 <= pending[i]
    {
      if pending == [] then None else Some((pending[0], stream[pending[0]]))
    }

    /** XACK stream.orders g1 id. */
    method XAck(id: nat)
      requires StreamValid()
      modifies this`pending
      ensures StreamValid()
      ensures pending == Without(old(pending), id)
    {
      WithoutIncreasing(pending, id);
      var rest := Without(pending, id);
      forall i | 0 <= i < |rest| ensures rest[i] < delivered {
        assert rest[i] in pending;
      }
      pending := rest;
    }
  }
}
