/**
 * RedisIdWorker: globally unique 64-bit ids. The high bits are the seconds
 * since BEGIN_TIMESTAMP, the low COUNT_BITS bits a per-prefix, per-day
 * counter that Redis increments. Java's `<<` and `|` work on the 64 bits of
 * a `long`; they are written out here on unbounded integers.
 */
module Ids {
  import opened Common
  import opened Text
  import opened Store

  const BEGIN_TIMESTAMP: int := 1691284026
  const COUNT_BITS: nat := 32
  const TWO32: int := 0x1_0000_0000
  const TWO63: int := 0x8000_0000_0000_0000
  const TWO64: int := 0x1_0000_0000_0000_0000
  const SECONDS_PER_DAY: int := 86400

  /** Bitwise OR of two non-negative numbers. */
  function Or(a: nat, b: nat): nat
    decreases a + b
  {
    if a == 0 then b
    else if b == 0 then a
    else 2 * Or(a / 2, b / 2) + (if a % 2 == 1 || b % 2 == 1 then 1 else 0)
  }

  /** The 64 bits of a long read as an unsigned number. */
  function Bits64(x: int): nat
  {
    x % TWO64
  }

  /** The long whose 64 bits, read unsigned, are `u` (higher bits dropped). */
  function ToLong(u: int): (r: int)
    ensures IsLong(r)
  {
    var v := u % TWO64;
    if v >= TWO63 then v - TWO64 else v
  }

  /** timestamp << COUNT_BITS | count, on Java longs. */
  function ComposeId(timestamp: int, count: int): (id: int)
    ensures IsLong(id)
  {
    ToLong(Or(Bits64(timestamp * Pow2(COUNT_BITS)), Bits64(count)))
  }

  /** The seconds since the origin. */
  function Timestamp(nowSecond: int): int
  {
    nowSecond - BEGIN_TIMESTAMP
  }

  /**
   * The date part of the counter key. The source spells the day of
   * `nowSecond` (read as UTC) as yyyy:MM:dd; here it is the day's number,
   * which names the same day.
   */
  function DayStamp(nowSecond: int): string
  {
    LongToString(nowSecond / SECONDS_PER_DAY)
  }

  /** "icr:" + keyPrefix + ":" + date. */
  function CounterKey(keyPrefix: string, nowSecond: int): string
  {
    "icr:" + keyPrefix + ":" + DayStamp(nowSecond)
  }

  lemma {:induction false} Pow2Add(a: nat, b: nat)
    ensures Pow2(a + b) == Pow2(a) * Pow2(b)
    decreases a
  {
    if a > 0 {
      Pow2Add(a - 1, b);
    }
  }

  lemma Pow2Of32()
    ensures Pow2(32) == TWO32
  {
    assert Pow2(2) == 4;
    Pow2Add(2, 2);
    Pow2Add(4, 4);
    Pow2Add(8, 8);
    Pow2Add(16, 16);
  }

  /** OR-ing a number below 2^k into a multiple of 2^k adds it. */
  lemma {:induction false} OrIntoLowBits(a: nat, c: nat, k: nat)
    requires c < Pow2(k)
    ensures Or(a * Pow2(k), c) == a * Pow2(k) + c
    decreases k
  {
    var big := a * Pow2(k);
    if k == 0 {
      assert c == 0;
    } else if big != 0 && c != 0 {
      var half := a * Pow2(k - 1);
      assert big == 2 * half;
      assert big / 2 == half && big % 2 == 0;
      assert c / 2 < Pow2(k - 1);
      OrIntoLowBits(a, c / 2, k - 1);
      assert Or(big, c) == 2 * Or(half, c / 2) + c % 2;
    }
  }

  lemma HighBitsFit(timestamp: int)
    requires 0 <= timestamp < TWO32 / 2
    ensures 0 <= timestamp * TWO32 <= TWO63 - TWO32
  {
    assert timestamp <= TWO32 / 2 - 1;
    assert timestamp * TWO32 <= (TWO32 / 2 - 1) * TWO32;
  }

  lemma SplitAt(high: int, low: int)
    requires 0 <= low < TWO32
    ensures (high * TWO32 + low) / TWO32 == high
    ensures (high * TWO32 + low) % TWO32 == low
  {
  }

  /**
   * For a non-negative timestamp below 2^31 and a count below 2^32, the id is
   * timestamp * 2^32 + count: shifting right by 32 gives the timestamp back
   * and the low 32 bits give the count back.
   */
  lemma IdRoundTrip(timestamp: int, count: int)
    requires 0 <= timestamp < TWO32 / 2 && 0 <= count < TWO32
    ensures ComposeId(timestamp, count) == timestamp * TWO32 + count
    ensures ComposeId(timestamp, count) / TWO32 == timestamp
    ensures ComposeId(timestamp, count) % TWO32 == count
  {
    Pow2Of32();
    HighBitsFit(timestamp);
    var high := timestamp * TWO32;
    assert Bits64(high) == high;
    assert Bits64(count) == count;
    OrIntoLowBits(timestamp, count, 32);
    var u := Or(high, count);
    assert u == high + count;
    assert ToLong(u) == u;
    SplitAt(timestamp, count);
  }

  /** Within one second, a larger count gives a larger id. */
  lemma IdIncreasesWithCount(timestamp: int, c1: int, c2: int)
    requires 0 <= timestamp < TWO32 / 2 && 0 <= c1 < c2 < TWO32
    ensures ComposeId(timestamp, c1) < ComposeId(timestamp, c2)
  {
    IdRoundTrip(timestamp, c1);
    IdRoundTrip(timestamp, c2);
  }

  /** A later second gives a larger id, whatever the two counts are. */
  lemma IdIncreasesWithTime(t1: int, c1: int, t2: int, c2: int)
    requires 0 <= t1 < t2 < TWO32 / 2 && 0 <= c1 < TWO32 && 0 <= c2 < TWO32
    ensures ComposeId(t1, c1) < ComposeId(t2, c2)
  {
    IdRoundTrip(t1, c1);
    IdRoundTrip(t2, c2);
    assert t1 * TWO32 + TWO32 <= t2 * TWO32;
  }

  lemma DayStampHasNoColon(nowSecond: int)
    ensures ':' !in DayStamp(nowSecond)
  {
    var d := DayStamp(nowSecond);
    forall i | 0 <= i < |d| ensures d[i] != ':' {
      if nowSecond / SECONDS_PER_DAY < 0 && i > 0 {
        assert d[i] == d[1..][i - 1];
      }
    }
  }

  /** The index of the last ':' in `s`, or -1. */
  function LastColon(s: string): (r: int)
    ensures -1 <= r < |s|
  {
    if s == [] then -1 else if s[|s| - 1] == ':' then |s| - 1 else LastColon(s[..|s| - 1])
  }

  /** After a text ending in ':', a colon-free suffix leaves that ':' the last one. */
  lemma {:induction false} LastColonBeforeSuffix(x: string, d: string)
    requires |x| > 0 && x[|x| - 1] == ':' && ':' !in d
    ensures LastColon(x + d) == |x| - 1
    decreases |d|
  {
    if d == [] {
      assert x + d == x;
    } else {
      var d0 := d[..|d| - 1];
      assert (x + d)[..|x + d| - 1] == x + d0;
      assert (x + d)[|x + d| - 1] == d[|d| - 1];
      assert d[|d| - 1] in d;
      LastColonBeforeSuffix(x, d0);
    }
  }

  /**
   * A key built as prefix + part + ":" + tail, with a colon-free tail, splits
   * back into its part and its tail at its last ':'.
   */
  lemma SplitAtLastColon(p: string, a1: string, b1: string, a2: string, b2: string)
    requires ':' !in b1 && ':' !in b2
    requires p + a1 + ":" + b1 == p + a2 + ":" + b2
    ensures a1 == a2 && b1 == b2
  {
    var x1, x2 := p + a1 + ":", p + a2 + ":";
    assert x1 + b1 == p + a1 + ":" + b1 && x2 + b2 == p + a2 + ":" + b2;
    LastColonBeforeSuffix(x1, b1);
    LastColonBeforeSuffix(x2, b2);
    assert x1 == (x1 + b1)[..|x1|] && x2 == (x2 + b2)[..|x2|];
    assert b1 == (x1 + b1)[|x1|..] && b2 == (x2 + b2)[|x2|..];
    assert a1 == x1[|p|..|x1| - 1] && a2 == x2[|p|..|x2| - 1];
  }

  /**
   * Two calls share a counter exactly when they use the same key prefix on
   * the same day: different prefixes count independently.
   */
  lemma CounterKeyInjective(p1: string, n1: int, p2: string, n2: int)
    requires IsLong(n1 / SECONDS_PER_DAY) && IsLong(n2 / SECONDS_PER_DAY)
    ensures CounterKey(p1, n1) == CounterKey(p2, n2) <==> p1 == p2 && n1 / SECONDS_PER_DAY == n2 / SECONDS_PER_DAY
  {
    if CounterKey(p1, n1) == CounterKey(p2, n2) {
      DayStampHasNoColon(n1);
      DayStampHasNoColon(n2);
      SplitAtLastColon("icr:", p1, DayStamp(n1), p2, DayStamp(n2));
      LongToStringInjective(n1 / SECONDS_PER_DAY, n2 / SECONDS_PER_DAY);
    }
  }

  class RedisIdWorker {
    const redis: Redis

    constructor (redis: Redis)
      ensures this.redis == redis
    {
      this.redis := redis;
    }

    /**
     * nextId(keyPrefix): bumps today's counter for the prefix (the first call
     * of a day reads 1) and composes the id from the clock and that count.
     */
    method NextId(keyPrefix: string) returns (id: int)
      modifies redis`counters
      ensures var key := CounterKey(keyPrefix, redis.now);
        redis.counters == old(redis.counters)[key := old(redis.Counter(key)) + 1]
        && id == ComposeId(Timestamp(redis.now), old(redis.Counter(key)) + 1)
      ensures IsLong(id)
    {
      var timestamp := Timestamp(redis.now);
      var count := redis.Incr(CounterKey(keyPrefix, redis.now));
      id := ComposeId(timestamp, count);
    }

    /** Two ids drawn for one prefix within one second: the second is the larger. */
    method NextIdTwice(keyPrefix: string) returns (first: int, second: int)
      requires 0 <= Timestamp(redis.now) < TWO32 / 2
      requires 0 <= redis.Counter(CounterKey(keyPrefix, redis.now)) < TWO32 - 2
      modifies redis`counters
      ensures first < second
    {
      ghost var c := redis.Counter(CounterKey(keyPrefix, redis.now));
      first := NextId(keyPrefix);
      second := NextId(keyPrefix);
      IdIncreasesWithCount(Timestamp(redis.now), c + 1, c + 2);
    }
  }
}
