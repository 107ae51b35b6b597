/**
 * A Redis sorted set as Redis keeps it: members in ascending order of score,
 * ties broken by the member's bytes, each member at most once. ZADD, ZREM,
 * ZSCORE, ZRANGE and ZREVRANGEBYSCORE are functions on that sequence.
 */
module SortedSet {
  import opened Common
  import opened Text

  datatype ZEntry = ZEntry(member: string, score: int)

  /** Redis's order on (score, member). */
  predicate Before(a: ZEntry, b: ZEntry)
  {
    a.score < b.score || (a.score == b.score && StrLess(a.member, b.member))
  }

  function Members(z: seq<ZEntry>): set<string>
  {
    set i | 0 <= i < |z| :: z[i].member
  }

  predicate Sorted(z: seq<ZEntry>)
  {
    forall i, j :: 0 <= i < j < |z| ==> Before(z[i], z[j])
  }

  predicate Distinct(z: seq<ZEntry>)
  {
    forall i, j :: 0 <= i < j < |z| ==> z[i].member != z[j].member
  }

  /** The representation invariant of a sorted set. */
  predicate Valid(z: seq<ZEntry>)
  {
    Sorted(z) && Distinct(z)
  }

  /** ZSCORE: the member's score, or nil. */
  function Score(z: seq<ZEntry>, m: string): (r: Option<int>)
    ensures r.Some? <==> m in Members(z)
    ensures r.Some? ==> ZEntry(m, r.value) in z
  {
    if z == [] then None
    else if z[0].member == m then Some(z[0].score)
    else
      assert Members(z) == {z[0].member} + Members(z[1..]);
      Score(z[1..], m)
  }

  /** ZREM of one member. */
  function Remove(z: seq<ZEntry>, m: string): (r: seq<ZEntry>)
    ensures forall x :: x in r <==> x in z && x.member != m
    ensures |r| <= |z|
  {
    if z == [] then []
    else if z[0].member == m then Remove(z[1..], m)
    else [z[0]] + Remove(z[1..], m)
  }

  /** Places an entry whose member is not in the set at its position in Redis's order. */
  function Insert(z: seq<ZEntry>, e: ZEntry): (r: seq<ZEntry>)
    ensures |r| == |z| + 1
    ensures forall x :: x in r <==> x in z || x == e
  {
    if z == [] || Before(e, z[0]) then [e] + z else [z[0]] + Insert(z[1..], e)
  }

  /** ZADD key score member: replaces the member's score if it is already there. */
  function Add(z: seq<ZEntry>, m: string, score: int): (r: seq<ZEntry>)
    ensures forall x :: x in r <==> (x in z && x.member != m) || x == ZEntry(m, score)
  {
    Insert(Remove(z, m), ZEntry(m, score))
  }

  /** ZRANGE key start stop for 0 <= start: the members at ranks start..stop, inclusive. */
  function Range(z: seq<ZEntry>, start: nat, stop: nat): (r: seq<string>)
    ensures |r| == if start >= |z| || stop < start then 0
                   else (if stop + 1 < |z| then stop + 1 else |z|) - start
    ensures forall k :: 0 <= k < |r| ==> start + k < |z| && r[k] == z[start + k].member
  {
    if start >= |z| || stop < start then []
    else
      var hi := if stop + 1 < |z| then stop + 1 else |z|;
      seq(hi - start, k requires 0 <= k < hi - start => z[start + k].member)
  }

  function Reverse(z: seq<ZEntry>): (r: seq<ZEntry>)
    ensures |r| == |z|
    ensures forall k :: 0 <= k < |z| ==> r[k] == z[|z| - 1 - k]
  {
    seq(|z|, k requires 0 <= k < |z| => z[|z| - 1 - k])
  }

  function ScoreBetween(z: seq<ZEntry>, min: int, max: int): (r: seq<ZEntry>)
    ensures forall x :: x in r <==> x in z && min <= x.score <= max
  {
    if z == [] then []
    else if min <= z[0].score <= max then [z[0]] + ScoreBetween(z[1..], min, max)
    else ScoreBetween(z[1..], min, max)
  }

  /**
   * ZREVRANGEBYSCORE key max min WITHSCORES LIMIT offset count: the entries
   * with min <= score <= max, highest first, skipping `offset` of them and
   * returning at most `count`. A negative offset gives an empty reply.
   */
  function RevRangeByScore(z: seq<ZEntry>, min: int, max: int, offset: int, count: nat): (r: seq<ZEntry>)
    ensures var n := |ScoreBetween(z, min, max)|;
      |r| == if offset < 0 || offset >= n then 0
             else (if offset + count < n then count else n - offset)
    ensures forall k :: 0 <= k < |r| ==>
      0 <= offset && r[k] == Reverse(ScoreBetween(z, min, max))[offset + k]
    ensures forall x :: x in r ==> x in z && min <= x.score <= max
  {
    var desc := Reverse(ScoreBetween(z, min, max));
    if offset < 0 || offset >= |desc| then []
    else
      var hi := if offset + count < |desc| then offset + count else |desc|;
      desc[offset..hi]
  }

  lemma BeforeTransitive(a: ZEntry, b: ZEntry, c: ZEntry)
    requires Before(a, b) && Before(b, c)
    ensures Before(a, c)
  {
    if a.score == b.score && b.score == c.score {
      StrLessTransitive(a.member, b.member, c.member);
    }
  }

  lemma BeforeTotal(a: ZEntry, b: ZEntry)
    requires a.member != b.member
    ensures Before(a, b) || Before(b, a)
  {
    StrLessTotal(a.member, b.member);
  }

  lemma MembersCons(x: ZEntry, z: seq<ZEntry>)
    ensures Members([x] + z) == {x.member} + Members(z)
  {
    var w := [x] + z;
    assert w[0].member == x.member;
    forall m | m in Members(w) ensures m in {x.member} + Members(z) {
      var i :| 0 <= i < |w| && w[i].member == m;
      if i > 0 { assert z[i - 1].member == m; }
    }
    forall m | m in Members(z) ensures m in Members(w) {
      var i :| 0 <= i < |z| && z[i].member == m;
      assert w[i + 1].member == m;
    }
  }

  lemma MemberIn(z: seq<ZEntry>, x: ZEntry)
    requires x in z
    ensures x.member in Members(z)
  {
    var i :| 0 <= i < |z| && z[i] == x;
  }

  /** Inserting a new member keeps the set sorted and free of duplicates. */
  lemma {:induction false} InsertValid(z: seq<ZEntry>, e: ZEntry)
    requires Valid(z) && e.member !in Members(z)
    ensures Valid(Insert(z, e))
    ensures Members(Insert(z, e)) == Members(z) + {e.member}
    decreases |z|
  {
    var r := Insert(z, e);
    if z == [] || Before(e, z[0]) {
      forall j | 0 <= j < |z| ensures Before(e, z[j]) && e.member != z[j].member {
        if j > 0 { BeforeTransitive(e, z[0], z[j]); }
        MemberIn(z, z[j]);
      }
      ConsValid(e, z);
      MembersCons(e, z);
    } else {
      MemberIn(z, z[0]);
      BeforeTotal(e, z[0]);
      var t := z[1..];
      assert z == [z[0]] + t;
      TailValid(z);
      MembersCons(z[0], t);
      InsertValid(t, e);
      var it := Insert(t, e);
      assert r == [z[0]] + it;
      forall j | 0 <= j < |it| ensures Before(z[0], it[j]) && z[0].member != it[j].member {
        assert it[j] in t || it[j] == e;
        if it[j] != e {
          var k :| 0 <= k < |t| && t[k] == it[j];
        }
      }
      ConsValid(z[0], it);
      MembersCons(z[0], it);
    }
  }

  lemma TailValid(z: seq<ZEntry>)
    requires Valid(z) && z != []
    ensures Valid(z[1..])
    ensures forall k :: 0 <= k < |z| - 1 ==> Before(z[0], z[1..][k]) && z[0].member != z[1..][k].member
  {
    var t := z[1..];
    forall i, j | 0 <= i < j < |t| ensures Before(t[i], t[j]) && t[i].member != t[j].member {
      assert t[i] == z[i + 1] && t[j] == z[j + 1];
    }
    forall k | 0 <= k < |t| ensures Before(z[0], t[k]) && z[0].member != t[k].member {
      assert t[k] == z[k + 1];
    }
  }

  /** A valid set stays valid with an entry in front that precedes and differs from all of it. */
  lemma ConsValid(x: ZEntry, t: seq<ZEntry>)
    requires Valid(t)
    requires forall j :: 0 <= j < |t| ==> Before(x, t[j]) && x.member != t[j].member
    ensures Valid([x] + t)
  {
    var r := [x] + t;
    forall i, j | 0 <= i < j < |r| ensures Before(r[i], r[j]) && r[i].member != r[j].member {
      assert r[j] == t[j - 1];
      if i > 0 {
        assert r[i] == t[i - 1];
      }
    }
  }

  /** Removing a member keeps the set sorted and free of duplicates. */
  lemma {:induction false} RemoveValid(z: seq<ZEntry>, m: string)
    requires Valid(z)
    ensures Valid(Remove(z, m))
    ensures Members(Remove(z, m)) == Members(z) - {m}
    decreases |z|
  {
    if z != [] {
      var t := z[1..];
      assert z == [z[0]] + t;
      TailValid(z);
      MembersCons(z[0], t);
      RemoveValid(t, m);
      var rt := Remove(t, m);
      if z[0].member != m {
        assert Remove(z, m) == [z[0]] + rt;
        forall j | 0 <= j < |rt| ensures Before(z[0], rt[j]) && z[0].member != rt[j].member {
          assert rt[j] in t;
          var k :| 0 <= k < |t| && t[k] == rt[j];
        }
        ConsValid(z[0], rt);
        MembersCons(z[0], rt);
      } else {
        assert Remove(z, m) == rt;
      }
    }
  }

  lemma AddValid(z: seq<ZEntry>, m: string, score: int)
    requires Valid(z)
    ensures Valid(Add(z, m, score))
    ensures Members(Add(z, m, score)) == Members(z) + {m}
  {
    RemoveValid(z, m);
    InsertValid(Remove(z, m), ZEntry(m, score));
  }

  lemma {:induction false} RemoveAbsent(z: seq<ZEntry>, m: string)
    requires m !in Members(z)
    ensures Remove(z, m) == z
    decreases |z|
  {
    if z != [] {
      MembersCons(z[0], z[1..]);
      assert z == [z[0]] + z[1..];
      RemoveAbsent(z[1..], m);
    }
  }

  /** ZREM undoes a ZADD of a member that was not in the set. */
  lemma {:induction false} RemoveInsert(z: seq<ZEntry>, e: ZEntry)
    requires e.member !in Members(z)
    ensures Remove(Insert(z, e), e.member) == z
    decreases |z|
  {
    if z == [] || Before(e, z[0]) {
      RemoveAbsent(z, e.member);
    } else {
      MembersCons(z[0], z[1..]);
      assert z == [z[0]] + z[1..];
      RemoveInsert(z[1..], e);
    }
  }

  /** After ZADD the member carries the new score; every other member keeps its own. */
  lemma AddScore(z: seq<ZEntry>, m: string, score: int, other: string)
    requires Valid(z)
    ensures Score(Add(z, m, score), m) == Some(score)
    ensures other != m ==> Score(Add(z, m, score), other) == Score(z, other)
  {
    AddValid(z, m, score);
    var a := Add(z, m, score);
    var s := Score(a, m);
    DistinctScore(a, ZEntry(m, score));
    if other != m {
      var so := Score(z, other);
      RemoveValid(z, m);
      if so.Some? {
        MemberIn(a, ZEntry(other, so.value));
        DistinctScore(a, ZEntry(other, so.value));
      }
    }
  }

  /** In a set without duplicates, the entry of a member determines ZSCORE. */
  lemma DistinctScore(z: seq<ZEntry>, e: ZEntry)
    requires Distinct(z) && e in z
    ensures Score(z, e.member) == Some(e.score)
  {
    MemberIn(z, e);
    var s := Score(z, e.member);
    var i :| 0 <= i < |z| && z[i] == e;
    var j :| 0 <= j < |z| && z[j] == ZEntry(e.member, s.value);
    assert i == j;
  }

  /** After ZREM the member has no score; every other member keeps its own. */
  lemma RemoveScore(z: seq<ZEntry>, m: string, other: string)
    requires Valid(z)
    ensures Score(Remove(z, m), m) == None
    ensures other != m ==> Score(Remove(z, m), other) == Score(z, other)
  {
    RemoveValid(z, m);
    var r := Remove(z, m);
    if other != m {
      var so := Score(z, other);
      if so.Some? {
        MemberIn(r, ZEntry(other, so.value));
        DistinctScore(r, ZEntry(other, so.value));
      }
    }
  }

  /** ZREM of a member that is there shrinks a duplicate-free set by exactly one. */
  lemma {:induction false} RemovePresentLength(z: seq<ZEntry>, m: string)
    requires Distinct(z) && m in Members(z)
    ensures |Remove(z, m)| == |z| - 1
    decreases |z|
  {
    var t := z[1..];
    assert z == [z[0]] + t;
    MembersCons(z[0], t);
    assert Distinct(t) by {
      forall i, j | 0 <= i < j < |t| ensures t[i].member != t[j].member {
        assert t[i] == z[i + 1] && t[j] == z[j + 1];
      }
    }
    if z[0].member == m {
      forall k | 0 <= k < |t| ensures t[k].member != m {
        assert t[k] == z[k + 1];
      }
      assert m !in Members(t);
      RemoveAbsent(t, m);
    } else {
      RemovePresentLength(t, m);
    }
  }

  /** ZADD of a member that is not there grows the set by exactly one. */
  lemma AddAbsentLength(z: seq<ZEntry>, m: string, score: int)
    requires m !in Members(z)
    ensures |Add(z, m, score)| == |z| + 1
  {
    RemoveAbsent(z, m);
  }

  lemma SortedTail(z: seq<ZEntry>)
    requires Sorted(z) && z != []
    ensures Sorted(z[1..])
    ensures forall k :: 0 <= k < |z| - 1 ==> Before(z[0], z[1..][k])
  {
    var t := z[1..];
    forall i, j | 0 <= i < j < |t| ensures Before(t[i], t[j]) {
      assert t[i] == z[i + 1] && t[j] == z[j + 1];
    }
    forall k | 0 <= k < |t| ensures Before(z[0], t[k]) {
      assert t[k] == z[k + 1];
    }
  }

  lemma SortedCons(x: ZEntry, t: seq<ZEntry>)
    requires Sorted(t)
    requires forall j :: 0 <= j < |t| ==> Before(x, t[j])
    ensures Sorted([x] + t)
  {
    var r := [x] + t;
    forall i, j | 0 <= i < j < |r| ensures Before(r[i], r[j]) {
      assert r[j] == t[j - 1];
      if i > 0 {
        assert r[i] == t[i - 1];
      }
    }
  }

  /** Filtering by score keeps a sorted set sorted. */
  lemma {:induction false} ScoreBetweenSorted(z: seq<ZEntry>, min: int, max: int)
    requires Sorted(z)
    ensures Sorted(ScoreBetween(z, min, max))
    decreases |z|
  {
    if z != [] {
      var t := z[1..];
      SortedTail(z);
      ScoreBetweenSorted(t, min, max);
      var rt := ScoreBetween(t, min, max);
      if min <= z[0].score <= max {
        forall j | 0 <= j < |rt| ensures Before(z[0], rt[j]) {
          assert rt[j] in t;
          var k :| 0 <= k < |t| && t[k] == rt[j];
        }
        SortedCons(z[0], rt);
      }
    }
  }

  /**
   * ZREVRANGEBYSCORE answers highest score first: along the reply, scores
   * never increase.
   */
  lemma RevRangeDescending(z: seq<ZEntry>, min: int, max: int, offset: int, count: nat)
    requires Valid(z)
    ensures var r := RevRangeByScore(z, min, max, offset, count);
      forall i, j :: 0 <= i < j < |r| ==> r[j].score <= r[i].score
  {
    ScoreBetweenSorted(z, min, max);
    var asc := ScoreBetween(z, min, max);
    var desc := Reverse(asc);
    var r := RevRangeByScore(z, min, max, offset, count);
    forall i, j | 0 <= i < j < |r| ensures r[j].score <= r[i].score {
      assert r[i] == desc[offset + i] && r[j] == desc[offset + j];
      assert Before(asc[|asc| - 1 - offset - j], asc[|asc| - 1 - offset - i]);
    }
  }

  /**
   * A window that starts at offset 0 and is at least as wide as the score
   * range returns every entry of the set whose score lies in it.
   */
  lemma RevRangeComplete(z: seq<ZEntry>, min: int, max: int, count: nat, x: ZEntry)
    requires count >= |z|
    requires x in z && min <= x.score <= max
    ensures x in RevRangeByScore(z, min, max, 0, count)
  {
    var asc := ScoreBetween(z, min, max);
    ScoreBetweenLength(z, min, max);
    var i :| 0 <= i < |asc| && asc[i] == x;
    assert RevRangeByScore(z, min, max, 0, count)[|asc| - 1 - i] == x;
  }

  lemma {:induction false} ScoreBetweenLength(z: seq<ZEntry>, min: int, max: int)
    ensures |ScoreBetween(z, min, max)| <= |z|
    decreases |z|
  {
    if z != [] {
      ScoreBetweenLength(z[1..], min, max);
    }
  }

  /**
   * Paging with LIMIT: the page at offset o of width c followed by the page
   * at offset o + c of width c' is the page at o of width c + c'.
   */
  lemma RevRangePages(z: seq<ZEntry>, min: int, max: int, o: nat, c: nat, c': nat)
    ensures RevRangeByScore(z, min, max, o, c) + RevRangeByScore(z, min, max, o + c, c')
         == RevRangeByScore(z, min, max, o, c + c')
  {
    var a := RevRangeByScore(z, min, max, o, c);
    var b := RevRangeByScore(z, min, max, o + c, c');
    var w := RevRangeByScore(z, min, max, o, c + c');
    var n := |ScoreBetween(z, min, max)|;
    if o < n {
      assert |a + b| == |w|;
      forall k | 0 <= k < |w| ensures (a + b)[k] == w[k] {
        if k >= |a| {
          assert (a + b)[k] == b[k - c];
        }
      }
    }
  }
}
