/**
 * BlogServiceImpl: likes kept both as a counter column and as a sorted set of
 * likers scored by the time of the like, and a push-style feed: saving a
 * blog adds its id to every follower's inbox, which the follower reads in
 * pages of two with a (minTime, offset) cursor.
 */
module Blogs {
  import opened Common
  import opened Text
  import opened Store
  import opened Tables
  import opened Constants
  import SortedSet

  const SAVE_FAILED_MSG: string := "新增笔记失败!"

  function LikedKey(blogId: int): string
  {
    BLOG_LIKED_KEY + LongToString(blogId)
  }

  function FeedKey(userId: int): string
  {
    FEED_KEY + LongToString(userId)
  }

  /** What queryBlogOfFollow hands back: the page and the cursor for the next one. */
  datatype ScrollResult = ScrollResult(list: seq<Blog>, minTime: int, offset: int)

  /** Each blog has its own like set. */
  lemma LikedKeyInjective(a: int, b: int)
    requires IsLong(a) && IsLong(b)
    ensures LikedKey(a) == LikedKey(b) <==> a == b
  {
    if LikedKey(a) == LikedKey(b) {
      assert LongToString(a) == LikedKey(a)[|BLOG_LIKED_KEY|..];
      assert LongToString(b) == LikedKey(b)[|BLOG_LIKED_KEY|..];
      LongToStringInjective(a, b);
    }
  }

  /** A like followed by an unlike gives the set back exactly. */
  lemma LikeUnlikeRestores(z: seq<SortedSet.ZEntry>, member: string, millis: int)
    requires SortedSet.Valid(z) && SortedSet.Score(z, member).None?
    ensures SortedSet.Remove(SortedSet.Add(z, member, millis), member) == z
  {
    SortedSet.RemoveAbsent(z, member);
    SortedSet.RemoveInsert(z, SortedSet.ZEntry(member, millis));
  }

  /** An unlike followed by a like gives back the same likers, the user's score renewed. */
  lemma UnlikeLikeRestoresMembers(z: seq<SortedSet.ZEntry>, member: string, millis: int)
    requires SortedSet.Valid(z) && SortedSet.Score(z, member).Some?
    ensures SortedSet.Members(SortedSet.Add(SortedSet.Remove(z, member), member, millis)) == SortedSet.Members(z)
    ensures |SortedSet.Add(SortedSet.Remove(z, member), member, millis)| == |z|
  {
    SortedSet.RemoveValid(z, member);
    SortedSet.AddValid(SortedSet.Remove(z, member), member, millis);
    SortedSet.RemovePresentLength(z, member);
    SortedSet.AddAbsentLength(SortedSet.Remove(z, member), member, millis);
  }

  /** The sorted set stored under `key` in a key space, empty when missing. */
  function ZIn(zsets: map<string, seq<SortedSet.ZEntry>>, key: string): seq<SortedSet.ZEntry>
  {
    if key in zsets then zsets[key] else []
  }

  /**
   * The key space after ZADD feed:<follower> blogId millis for each follow
   * row in turn.
   */
  function Fanout(zsets: map<string, seq<SortedSet.ZEntry>>, follows: seq<Follow>, member: string, millis: int)
    : (r: map<string, seq<SortedSet.ZEntry>>)
    ensures zsets.Keys <= r.Keys
  {
    if follows == [] then zsets
    else
      var prev := Fanout(zsets, follows[..|follows| - 1], member, millis);
      var key := FeedKey(follows[|follows| - 1].userId);
      prev[key := SortedSet.Add(ZIn(prev, key), member, millis)]
  }

  /** One more follow row adds the blog to that follower's inbox. */
  lemma FanoutStep(zsets: map<string, seq<SortedSet.ZEntry>>, follows: seq<Follow>, i: nat, member: string, millis: int)
    requires i < |follows|
    ensures var prev := Fanout(zsets, follows[..i], member, millis);
      var key := FeedKey(follows[i].userId);
      Fanout(zsets, follows[..i + 1], member, millis) == prev[key := SortedSet.Add(ZIn(prev, key), member, millis)]
  {
    assert follows[..i + 1][..i] == follows[..i];
  }

  /** Every follower's inbox holds the new blog after the fan-out. */
  lemma {:induction false} FanoutReachesFollowers(zsets: map<string, seq<SortedSet.ZEntry>>, follows: seq<Follow>,
                                                  member: string, millis: int)
    ensures forall f :: f in follows ==> member in SortedSet.Members(ZIn(Fanout(zsets, follows, member, millis), FeedKey(f.userId)))
    decreases |follows|
  {
    if follows != [] {
      var init := follows[..|follows| - 1];
      var last := follows[|follows| - 1];
      FanoutReachesFollowers(zsets, init, member, millis);
      var prev := Fanout(zsets, init, member, millis);
      var added := SortedSet.Add(ZIn(prev, FeedKey(last.userId)), member, millis);
      SortedSet.MemberIn(added, SortedSet.ZEntry(member, millis));
      forall f | f in follows
        ensures member in SortedSet.Members(ZIn(Fanout(zsets, follows, member, millis), FeedKey(f.userId)))
      {
        if f != last {
          assert f in init;
        }
      }
    }
  }

  /** Nobody but a follower receives anything. */
  lemma {:induction false} FanoutOnlyFollowers(zsets: map<string, seq<SortedSet.ZEntry>>, follows: seq<Follow>,
                                               member: string, millis: int, key: string)
    requires forall f :: f in follows ==> FeedKey(f.userId) != key
    ensures ZIn(Fanout(zsets, follows, member, millis), key) == ZIn(zsets, key)
    decreases |follows|
  {
    if follows != [] {
      var init := follows[..|follows| - 1];
      assert forall f :: f in init ==> f in follows;
      FanoutOnlyFollowers(zsets, init, member, millis, key);
      assert follows[|follows| - 1] in follows;
    }
  }

  /** The blogs and the like sets: the state likeBlog works on. */
  datatype LikeState = LikeState(blogs: map<int, Blog>, zsets: map<string, seq<SortedSet.ZEntry>>)

  /**
   * likeBlog's effect: nothing for a blog id with no row; otherwise the
   * counter goes up by one and the user joins the like set, or, when the
   * user is already in it, the counter goes down by one and the user leaves.
   */
  function Toggle(s: LikeState, id: int, member: string, millis: int): (r: LikeState)
    ensures id !in s.blogs ==> r == s
    ensures r.blogs.Keys == s.blogs.Keys
    ensures forall b :: b in s.blogs && b != id ==> r.blogs[b] == s.blogs[b]
    ensures forall k :: k != LikedKey(id) ==> (k in r.zsets <==> k in s.zsets)
    ensures forall k :: k != LikedKey(id) && k in s.zsets ==> r.zsets[k] == s.zsets[k]
  {
    if id !in s.blogs then s
    else
      var key := LikedKey(id);
      var z := ZIn(s.zsets, key);
      if SortedSet.Score(z, member).None? then
        LikeState(s.blogs[id := s.blogs[id].(liked := s.blogs[id].liked + 1)],
                  s.zsets[key := SortedSet.Add(z, member, millis)])
      else
        var r := SortedSet.Remove(z, member);
        LikeState(s.blogs[id := s.blogs[id].(liked := s.blogs[id].liked - 1)],
                  if r == [] then s.zsets - {key} else s.zsets[key := r])
  }

  /** Toggle on a blog the member has not liked: the counter goes up and the member is added. */
  lemma ToggleLikes(s: LikeState, id: int, member: string, millis: int)
    requires id in s.blogs && SortedSet.Score(ZIn(s.zsets, LikedKey(id)), member).None?
    ensures Toggle(s, id, member, millis) ==
      LikeState(s.blogs[id := s.blogs[id].(liked := s.blogs[id].liked + 1)],
                s.zsets[LikedKey(id) := SortedSet.Add(ZIn(s.zsets, LikedKey(id)), member, millis)])
  {
  }

  /** Toggle on a blog the member has liked: the counter goes down and the member leaves. */
  lemma ToggleUnlikes(s: LikeState, id: int, member: string, millis: int)
    requires id in s.blogs && SortedSet.Score(ZIn(s.zsets, LikedKey(id)), member).Some?
    ensures var r := SortedSet.Remove(ZIn(s.zsets, LikedKey(id)), member);
      Toggle(s, id, member, millis) ==
        LikeState(s.blogs[id := s.blogs[id].(liked := s.blogs[id].liked - 1)],
                  if r == [] then s.zsets - {LikedKey(id)} else s.zsets[LikedKey(id) := r])
  {
  }

  /** Every blog's `liked` column equals the size of its like set; blog ids are longs. */
  predicate LikesMatch(s: LikeState)
  {
    forall id :: id in s.blogs ==> IsLong(id) && s.blogs[id].liked == |ZIn(s.zsets, LikedKey(id))|
  }

  /** A toggle keeps every counter equal to the size of its like set. */
  lemma ToggleKeepsLikesMatch(s: LikeState, id: int, member: string, millis: int)
    requires WellFormedZSets(s.zsets) && LikesMatch(s)
    ensures LikesMatch(Toggle(s, id, member, millis))
  {
    if id in s.blogs {
      var key := LikedKey(id);
      var z := ZIn(s.zsets, key);
      var t := Toggle(s, id, member, millis);
      if SortedSet.Score(z, member).None? {
        SortedSet.AddAbsentLength(z, member, millis);
      } else {
        SortedSet.RemovePresentLength(z, member);
      }
      forall other | other in t.blogs
        ensures IsLong(other) && t.blogs[other].liked == |ZIn(t.zsets, LikedKey(other))|
      {
        if other != id {
          LikedKeyInjective(id, other);
        }
      }
    }
  }

  /** A toggle keeps the key space well formed. */
  lemma ToggleKeepsValid(s: LikeState, id: int, member: string, millis: int)
    requires WellFormedZSets(s.zsets)
    ensures WellFormedZSets(Toggle(s, id, member, millis).zsets)
  {
    if id in s.blogs {
      var z := ZIn(s.zsets, LikedKey(id));
      SortedSet.AddValid(z, member, millis);
      SortedSet.MemberIn(SortedSet.Add(z, member, millis), SortedSet.ZEntry(member, millis));
      SortedSet.RemoveValid(z, member);
    }
  }

  /** Like then unlike: the state comes back exactly. */
  lemma LikeThenUnlike(s: LikeState, id: int, member: string, t1: int, t2: int)
    requires SortedSet.Valid(ZIn(s.zsets, LikedKey(id))) && id in s.blogs
    requires LikedKey(id) in s.zsets ==> s.zsets[LikedKey(id)] != []
    requires SortedSet.Score(ZIn(s.zsets, LikedKey(id)), member).None?
    ensures Toggle(Toggle(s, id, member, t1), id, member, t2) == s
  {
    var key := LikedKey(id);
    var z := ZIn(s.zsets, key);
    var added := SortedSet.Add(z, member, t1);
    var s1 := LikeState(s.blogs[id := s.blogs[id].(liked := s.blogs[id].liked + 1)], s.zsets[key := added]);
    ToggleLikes(s, id, member, t1);
    SortedSet.AddScore(z, member, t1, member);
    assert ZIn(s1.zsets, key) == added;
    ToggleUnlikes(s1, id, member, t2);
    LikeUnlikeRestores(z, member, t1);
    if z == [] {
      assert key !in s.zsets;
      assert s1.zsets - {key} == s.zsets;
    } else {
      assert s1.zsets[key := z] == s.zsets;
    }
    assert s1.blogs[id := s1.blogs[id].(liked := s1.blogs[id].liked - 1)] == s.blogs;
  }

  /** Unlike then like: the counters and the likers come back; the user's score is renewed. */
  lemma UnlikeThenLike(s: LikeState, id: int, member: string, t1: int, t2: int)
    requires WellFormedZSets(s.zsets) && id in s.blogs
    requires SortedSet.Score(ZIn(s.zsets, LikedKey(id)), member).Some?
    ensures var s2 := Toggle(Toggle(s, id, member, t1), id, member, t2);
      s2.blogs == s.blogs
      && SortedSet.Members(ZIn(s2.zsets, LikedKey(id))) == SortedSet.Members(ZIn(s.zsets, LikedKey(id)))
  {
    var key := LikedKey(id);
    var z := ZIn(s.zsets, key);
    var r := SortedSet.Remove(z, member);
    var s1 := Toggle(s, id, member, t1);
    assert s1.blogs == s.blogs[id := s.blogs[id].(liked := s.blogs[id].liked - 1)];
    SortedSet.RemoveScore(z, member, member);
    assert ZIn(s1.zsets, key) == r;
    UnlikeLikeRestoresMembers(z, member, t2);
    assert s1.blogs[id := s1.blogs[id].(liked := s1.blogs[id].liked + 1)] == s.blogs;
  }

  /**
   * Two toggles by one user restore every counter and the set of likers;
   * when the first one liked, they restore the like set exactly.
   */
  lemma ToggleTwice(s: LikeState, id: int, member: string, t1: int, t2: int)
    requires WellFormedZSets(s.zsets)
    ensures var s2 := Toggle(Toggle(s, id, member, t1), id, member, t2);
      s2.blogs == s.blogs
      && (SortedSet.Score(ZIn(s.zsets, LikedKey(id)), member).None? ==> s2 == s)
      && SortedSet.Members(ZIn(s2.zsets, LikedKey(id))) == SortedSet.Members(ZIn(s.zsets, LikedKey(id)))
  {
    if id in s.blogs {
      if SortedSet.Score(ZIn(s.zsets, LikedKey(id)), member).None? {
        LikeThenUnlike(s, id, member, t1, t2);
      } else {
        UnlikeThenLike(s, id, member, t1, t2);
      }
    }
  }

  /** A toggle on an existing blog flips whether isBlogLiked reports the user's like. */
  lemma ToggleFlipsLike(s: LikeState, id: int, member: string, millis: int)
    requires WellFormedZSets(s.zsets) && id in s.blogs
    ensures var key := LikedKey(id);
      SortedSet.Score(ZIn(Toggle(s, id, member, millis).zsets, key), member).Some?
      <==> SortedSet.Score(ZIn(s.zsets, key), member).None?
  {
    var z := ZIn(s.zsets, LikedKey(id));
    SortedSet.AddScore(z, member, millis, member);
    SortedSet.RemoveScore(z, member, member);
  }

  /** The blog rows for `ids`, in the order of `ids` (ORDER BY FIELD(id, ...)). */
  function BlogsByIds(blogs: map<int, Blog>, ids: seq<int>): (r: seq<Blog>)
    ensures |r| <= |ids|
    ensures forall b :: b in r ==> b in blogs.Values
    ensures forall i :: 0 <= i < |ids| && ids[i] in blogs ==> blogs[ids[i]] in r
  {
    if ids == [] then []
    else if ids[0] in blogs then [blogs[ids[0]]] + BlogsByIds(blogs, ids[1..])
    else BlogsByIds(blogs, ids[1..])
  }

  /** When every id names a blog, the k-th blog listed is the k-th id's row. */
  lemma {:induction false} BlogsByIdsInOrder(blogs: map<int, Blog>, ids: seq<int>)
    requires forall i :: 0 <= i < |ids| ==> ids[i] in blogs
    ensures |BlogsByIds(blogs, ids)| == |ids|
    ensures forall k :: 0 <= k < |ids| ==> BlogsByIds(blogs, ids)[k] == blogs[ids[k]]
    decreases |ids|
  {
    if ids != [] {
      assert forall i :: 0 <= i < |ids| - 1 ==> ids[1..][i] == ids[i + 1];
      BlogsByIdsInOrder(blogs, ids[1..]);
      var r := BlogsByIds(blogs, ids);
      forall k | 0 <= k < |ids| ensures r[k] == blogs[ids[k]] {
        if k > 0 {
          assert r[k] == BlogsByIds(blogs, ids[1..])[k - 1];
        }
      }
    }
  }

  /** The previous score in a page as the cursor loop sees it: 0 before the first. */
  function PrevScore(scores: seq<int>, k: nat): int
    requires k < |scores|
  {
    if k == 0 then 0 else scores[k - 1]
  }

  /** How many entries of a page have the same score as the one before (0 before the first). */
  function Repeats(scores: seq<int>): (n: nat)
    ensures n <= |scores|
  {
    if scores == [] then 0
    else Repeats(scores[..|scores| - 1]) + (if scores[|scores| - 1] == PrevScore(scores, |scores| - 1) then 1 else 0)
  }

  /** One more entry of the page: the count grows exactly when its score equals `prev`, the score before it. */
  lemma RepeatsStep(scores: seq<int>, i: nat, prev: int)
    requires i < |scores| && prev == PrevScore(scores, i)
    ensures Repeats(scores[..i + 1]) == Repeats(scores[..i]) + (if scores[i] == prev then 1 else 0)
  {
    var pre := scores[..i + 1];
    assert pre[..i] == scores[..i];
  }

  /** How many entries at the end of a page share the last score: the offset the next page must skip. */
  function TailRun(scores: seq<int>): (n: nat)
    ensures n <= |scores|
    ensures scores != [] ==> n >= 1
  {
    if scores == [] then 0
    else if |scores| >= 2 && scores[|scores| - 2] == scores[|scores| - 1] then 1 + TailRun(scores[..|scores| - 1])
    else 1
  }

  /**
   * For the pages of at most two entries the service reads, with positive
   * scores in descending order, the offset the loop computes is the number
   * of entries that share the last score.
   */
  lemma CursorOffsetOfPair(scores: seq<int>)
    requires 1 <= |scores| <= 2
    requires forall i :: 0 <= i < |scores| ==> scores[i] > 0
    requires |scores| == 2 ==> scores[1] <= scores[0]
    ensures 1 + Repeats(scores) == TailRun(scores)
  {
    assert scores[..|scores| - 1][..0] == [];
    if |scores| == 2 {
      assert scores[..1][..0] == [];
      assert TailRun(scores[..1]) == 1;
    }
  }

  /** Longer pages would not get it right: the count is not reset when the score changes. */
  lemma CursorOffsetOfLongerPage()
    ensures 1 + Repeats([5, 5, 3]) == 2 && TailRun([5, 5, 3]) == 1
  {
    assert [5, 5, 3][..2] == [5, 5];
    assert [5, 5][..1] == [5];
    assert [5][..0] == [];
  }

  /**
   * On an inbox page as ZREVRANGEBYSCORE ... LIMIT offset 2 reads it, with
   * positive scores, the offset the cursor loop counts is the number of
   * entries sharing the last score.
   */
  lemma FeedPageOffset(z: seq<SortedSet.ZEntry>, max: int, offset: int)
    requires SortedSet.Valid(z)
    ensures var page := SortedSet.RevRangeByScore(z, 0, max, offset, 2);
      page != [] && (forall k :: 0 <= k < |page| ==> page[k].score > 0) ==>
        1 + Repeats(Scores(page)) == TailRun(Scores(page))
  {
    var page := SortedSet.RevRangeByScore(z, 0, max, offset, 2);
    if page != [] && forall k :: 0 <= k < |page| ==> page[k].score > 0 {
      SortedSet.RevRangeDescending(z, 0, max, offset, 2);
      CursorOffsetOfPair(Scores(page));
    }
  }

  function Scores(page: seq<SortedSet.ZEntry>): (r: seq<int>)
    ensures |r| == |page| && forall k :: 0 <= k < |page| ==> r[k] == page[k].score
  {
    seq(|page|, k requires 0 <= k < |page| => page[k].score)
  }

  class BlogService {
    const redis: Redis
    const db: Database

    constructor (redis: Redis, db: Database)
      ensures this.redis == redis && this.db == db
    {
      this.redis := redis;
      this.db := db;
    }

    function LikeStateOf(): LikeState
      reads redis, db
    {
      LikeState(db.blogs, redis.zsets)
    }

    /** isBlogLiked: sets `isLike` when a user is logged in; a guest leaves the blog as it is. */
    method IsBlogLiked(blog: Blog, user: Option<int>) returns (r: Blog)
      ensures user.None? ==> r == blog
      ensures user.Some? ==> r == LikedFor(blog, user.value)
    {
      if user.None? {
        return blog;
      }
      var score := redis.ZScore(LikedKey(blog.id), LongToString(user.value));
      r := blog.(isLike := Some(score.Some?));
    }

    /**
     * likeBlog: toggles the user's like. The counter moves by one in the
     * database, and the like set changes only when that update hit a row.
     */
    method LikeBlog(id: int, userId: int, millis: int) returns (resp: Response<int>)
      requires redis.Valid()
      modifies db`blogs, redis`zsets
      ensures redis.Valid() && resp == Ok
      ensures LikeStateOf() == Toggle(old(LikeStateOf()), id, LongToString(userId), millis)
    {
      var key := LikedKey(id);
      var member := LongToString(userId);
      var score := redis.ZScore(key, member);
      var isSuccess := id in db.blogs;
      if isSuccess {
        if score.None? {
          AddLike(id, member, millis);
        } else {
          RemoveLike(id, member, millis);
        }
      }
      resp := Ok;
    }

    /** The "not liked yet" branch of likeBlog for an existing blog: liked + 1, then ZADD. */
    method AddLike(id: int, member: string, millis: int)
      requires redis.Valid() && id in db.blogs && redis.ZScore(LikedKey(id), member).None?
      modifies db`blogs, redis`zsets
      ensures redis.Valid()
      ensures LikeStateOf() == Toggle(old(LikeStateOf()), id, member, millis)
    {
      ghost var s := LikeStateOf();
      var key := LikedKey(id);
      assert redis.ZOf(key) == ZIn(s.zsets, key);
      ToggleLikes(s, id, member, millis);
      redis.ZAdd(key, member, millis);
      db.blogs := db.blogs[id := db.blogs[id].(liked := db.blogs[id].liked + 1)];
    }

    /** The "already liked" branch of likeBlog for an existing blog: liked - 1, then ZREM. */
    method RemoveLike(id: int, member: string, millis: int)
      requires redis.Valid() && id in db.blogs && redis.ZScore(LikedKey(id), member).Some?
      modifies db`blogs, redis`zsets
      ensures redis.Valid()
      ensures LikeStateOf() == Toggle(old(LikeStateOf()), id, member, millis)
    {
      ghost var s := LikeStateOf();
      var key := LikedKey(id);
      assert redis.ZOf(key) == ZIn(s.zsets, key);
      ToggleUnlikes(s, id, member, millis);
      redis.ZRem(key, member);
      db.blogs := db.blogs[id := db.blogs[id].(liked := db.blogs[id].liked - 1)];
    }

    /**
     * Two likes in a row by one user: the counters and the likers come back
     * (the like set exactly, when the first call liked).
     */
    method LikeTwice(id: int, userId: int, t1: int, t2: int)
      requires redis.Valid()
      modifies db`blogs, redis`zsets
      ensures redis.Valid() && db.blogs == old(db.blogs)
      ensures old(redis.ZScore(LikedKey(id), LongToString(userId))).None? ==> redis.zsets == old(redis.zsets)
      ensures SortedSet.Members(redis.ZOf(LikedKey(id))) == SortedSet.Members(old(redis.ZOf(LikedKey(id))))
    {
      ghost var s0 := LikeStateOf();
      var _ := LikeBlog(id, userId, t1);
      var _ := LikeBlog(id, userId, t2);
      ToggleTwice(s0, id, LongToString(userId), t1, t2);
    }

    /**
     * queryBlogLikes(id): the first five members of the like set (earliest
     * likes first), parsed as user ids, then `selectBatchIds`: the users with
     * those ids, in table order.
     */
    method QueryBlogLikes(id: int) returns (resp: Response<seq<UserDTO>>)
      ensures var top5 := SortedSet.Range(redis.ZOf(LikedKey(id)), 0, 4);
        top5 == [] ==> resp == OkData([])
      ensures var top5 := SortedSet.Range(redis.ZOf(LikedKey(id)), 0, 4);
        top5 != [] && ParseAll(top5).None? ==> resp == Thrown
      ensures var top5 := SortedSet.Range(redis.ZOf(LikedKey(id)), 0, 4);
        top5 != [] && ParseAll(top5).Some? ==> resp == OkData(DTOs(UsersIn(db.users, ParseAll(top5).value)))
      // every liker among the first five with a row is listed, and only those
      ensures var top5 := SortedSet.Range(redis.ZOf(LikedKey(id)), 0, 4);
        resp.OkData? ==> forall u :: u in db.users && Names(top5, u.id) ==> ToDTO(u) in resp.data
      ensures var top5 := SortedSet.Range(redis.ZOf(LikedKey(id)), 0, 4);
        resp.OkData? ==> forall k :: 0 <= k < |resp.data| ==> Names(top5, resp.data[k].id)
      ensures resp.OkData? && UniqueIds(db.users) ==> |resp.data| <= 5
    {
      var top5 := SortedSet.Range(redis.ZOf(LikedKey(id)), 0, 4);
      if top5 == [] {
        return OkData([]);
      }
      var ids := ParseEach(top5);
      if ids.None? {
        return Thrown;
      }
      var users := UsersIn(db.users, ids.value);
      assert forall x :: x in ids.value <==> Names(top5, x);
      if UniqueIds(db.users) {
        DistinctIdsBound(db.users, ids.value);
      }
      resp := OkData(DTOs(users));
      forall u | u in db.users && Names(top5, u.id) ensures ToDTO(u) in resp.data {
        var k :| 0 <= k < |users| && users[k] == u;
        assert resp.data[k] == ToDTO(u);
      }
      forall k | 0 <= k < |resp.data| ensures Names(top5, resp.data[k].id) {
        assert users[k] in users;
      }
    }

    /**
     * queryBlogLikes with the users listed in the order of the like set:
     * `selectBatchIds` followed by ORDER BY FIELD(id, ...).
     */
    method QueryBlogLikesInLikeOrder(id: int) returns (resp: Response<seq<UserDTO>>)
      ensures var top5 := SortedSet.Range(redis.ZOf(LikedKey(id)), 0, 4);
        top5 == [] ==> resp == OkData([])
      ensures var top5 := SortedSet.Range(redis.ZOf(LikedKey(id)), 0, 4);
        top5 != [] && ParseAll(top5).None? ==> resp == Thrown
      ensures var top5 := SortedSet.Range(redis.ZOf(LikedKey(id)), 0, 4);
        top5 != [] && ParseAll(top5).Some? ==> resp == OkData(DTOs(UsersInOrder(db.users, ParseAll(top5).value)))
      // every liker with a row is listed, earliest like first
      ensures var top5 := SortedSet.Range(redis.ZOf(LikedKey(id)), 0, 4);
        resp.OkData? && ParseAll(top5).Some? && (forall k :: 0 <= k < |top5| ==> UserById(db.users, ParseAll(top5).value[k]).Some?) ==>
          |resp.data| == |top5| && forall k :: 0 <= k < |top5| ==> resp.data[k].id == ParseAll(top5).value[k]
    {
      var top5 := SortedSet.Range(redis.ZOf(LikedKey(id)), 0, 4);
      if top5 == [] {
        return OkData([]);
      }
      var ids := ParseEach(top5);
      if ids.None? {
        return Thrown;
      }
      if forall k :: 0 <= k < |ids.value| ==> UserById(db.users, ids.value[k]).Some? {
        UsersInOrderFollowsIds(db.users, ids.value);
      }
      resp := OkData(DTOs(UsersInOrder(db.users, ids.value)));
    }

    /**
     * saveBlog: the author becomes the blog's user; when the insert fails
     * nothing is pushed. Otherwise the blog, under its new id, goes into the
     * inbox of every follower of the author.
     */
    method SaveBlog(blog: Blog, authorId: int, saved: bool, newId: int, millis: int) returns (resp: Response<int>)
      requires redis.Valid() && newId !in db.blogs
      modifies db`blogs, redis`zsets
      ensures redis.Valid()
      ensures !saved ==> resp == Fail(SAVE_FAILED_MSG) && db.blogs == old(db.blogs) && redis.zsets == old(redis.zsets)
      ensures saved ==> resp == OkData(newId)
      ensures saved ==> db.blogs == old(db.blogs)[newId := blog.(id := newId, userId := authorId)]
      ensures saved ==> redis.zsets == Fanout(old(redis.zsets), FollowersOf(db.follows, authorId), LongToString(newId), millis)
    {
      if !saved {
        return Fail(SAVE_FAILED_MSG);
      }
      db.blogs := db.blogs[newId := blog.(id := newId, userId := authorId)];
      PushToFollowers(FollowersOf(db.follows, authorId), LongToString(newId), millis);
      resp := OkData(newId);
    }

    /** The push loop of saveBlog: ZADD feed:<follower> blogId millis for each follow row. */
    method PushToFollowers(follows: seq<Follow>, member: string, millis: int)
      requires redis.ZSetsValid()
      modifies redis`zsets
      ensures redis.ZSetsValid()
      ensures redis.zsets == Fanout(old(redis.zsets), follows, member, millis)
    {
      var i := 0;
      while i < |follows|
        invariant 0 <= i <= |follows|
        invariant redis.ZSetsValid()
        invariant redis.zsets == Fanout(old(redis.zsets), follows[..i], member, millis)
      {
        FanoutStep(old(redis.zsets), follows, i, member, millis);
        redis.ZAdd(FeedKey(follows[i].userId), member, millis);
        i := i + 1;
      }
      assert follows[..|follows|] == follows;
    }

    /**
     * The cursor loop of queryBlogOfFollow, time side: `minTime` ends at the
     * last score, and `os` counts up from 1 whenever a score equals the one
     * before it, without being reset when the score changes.
     */
    method Cursor(scores: seq<int>) returns (minTime: int, os: int)
      ensures minTime == (if scores == [] then 0 else scores[|scores| - 1])
      ensures os == 1 + Repeats(scores)
    {
      minTime, os := 0, 1;
      var i := 0;
      while i < |scores|
        invariant 0 <= i <= |scores|
        invariant minTime == (if i == 0 then 0 else scores[i - 1])
        invariant os == 1 + Repeats(scores[..i])
      {
        RepeatsStep(scores, i, minTime);
        if scores[i] == minTime {
          os := os + 1;
        } else {
          minTime := scores[i];
        }
        i := i + 1;
      }
      assert scores[..|scores|] == scores;
    }

    /** A blog as isBlogLiked leaves it for a logged-in user. */
    function LikedFor(b: Blog, userId: int): Blog
      reads redis
    {
      b.(isLike := Some(redis.ZScore(LikedKey(b.id), LongToString(userId)).Some?))
    }

    /** Each blog as isBlogLiked leaves it for a logged-in user. */
    function LikedAll(blogs: seq<Blog>, userId: int): (r: seq<Blog>)
      reads redis
      ensures |r| == |blogs|
    {
      seq(|blogs|, k requires 0 <= k < |blogs| reads redis => LikedFor(blogs[k], userId))
    }

    /** The decoration loop of queryBlogOfFollow: isBlogLiked on each blog of the page. */
    method MarkLiked(blogs: seq<Blog>, userId: int) returns (marked: seq<Blog>)
      ensures marked == LikedAll(blogs, userId)
    {
      marked := [];
      var i := 0;
      while i < |blogs|
        invariant 0 <= i <= |blogs| && |marked| == i
        invariant forall k :: 0 <= k < i ==> marked[k] == LikedFor(blogs[k], userId)
      {
        var b := IsBlogLiked(blogs[i], Some(userId));
        marked := marked + [b];
        i := i + 1;
      }
    }

    /**
     * queryBlogOfFollow: the next two entries of the user's inbox with
     * score at most `max`, skipping `offset`; the blogs in that order with
     * their like flags, and the cursor for the next call.
     */
    method QueryBlogOfFollow(userId: int, max: int, offset: int) returns (resp: Response<ScrollResult>)
      requires redis.ZSetsValid()
      ensures var page := FeedPage(userId, max, offset);
        page == [] ==> resp == Ok
      ensures var page := FeedPage(userId, max, offset);
        page != [] && ParseAll(MemberNames(page)).None? ==> resp == Thrown
      ensures var page := FeedPage(userId, max, offset);
        page != [] && ParseAll(MemberNames(page)).Some? ==> resp == OkData(Scroll(page, userId))
      ensures resp.OkData? ==> |resp.data.list| <= 2
      ensures var page := FeedPage(userId, max, offset);
        resp.OkData? && (forall k :: 0 <= k < |page| ==> page[k].score > 0) ==> resp.data.offset == TailRun(Scores(page))
    {
      var z := redis.ZOf(FeedKey(userId));
      assert SortedSet.Valid(z);
      var page := FeedPage(userId, max, offset);
      if page == [] {
        return Ok;
      }
      var ok, scroll := ScrollPage(page, userId);
      if !ok {
        return Thrown;
      }
      FeedPageOffset(z, max, offset);
      resp := OkData(scroll);
    }

    /** ZREVRANGEBYSCORE feed:userId max 0 WITHSCORES LIMIT offset 2: the entries queryBlogOfFollow reads. */
    function FeedPage(userId: int, max: int, offset: int): (page: seq<SortedSet.ZEntry>)
      reads redis
      ensures |page| <= 2
    {
      SortedSet.RevRangeByScore(redis.ZOf(FeedKey(userId)), 0, max, offset, 2)
    }

    /**
     * The answer for a non-empty page whose members all parse: its blogs in
     * page order, marked for the user, the last score as the next `max`, and
     * the offset the cursor loop counts.
     */
    function Scroll(page: seq<SortedSet.ZEntry>, userId: int): (r: ScrollResult)
      requires page != [] && ParseAll(MemberNames(page)).Some?
      reads redis, db
      ensures |r.list| <= |page|
      ensures r.minTime == page[|page| - 1].score
    {
      ScrollResult(LikedAll(BlogsByIds(db.blogs, ParseAll(MemberNames(page)).value), userId), page[|page| - 1].score, 1 + Repeats(Scores(page)))
    }

    /** The body of queryBlogOfFollow for a non-empty page: the blogs it names, marked, and the cursor. */
    method ScrollPage(page: seq<SortedSet.ZEntry>, userId: int) returns (ok: bool, scroll: ScrollResult)
      requires page != []
      ensures ok <==> ParseAll(MemberNames(page)).Some?
      ensures ok ==> scroll == Scroll(page, userId)
    {
      var ids := ParseEach(MemberNames(page));
      if ids.None? {
        return false, ScrollResult([], 0, 0);
      }
      ok := true;
      var scores := Scores(page);
      var minTime, os := Cursor(scores);
      assert minTime == page[|page| - 1].score by {
        assert scores[|page| - 1] == page[|page| - 1].score;
      }
      var marked := MarkLiked(BlogsByIds(db.blogs, ids.value), userId);
      scroll := ScrollResult(marked, minTime, os);
    }
  }

  /** The members of a page, in page order. */
  function MemberNames(page: seq<SortedSet.ZEntry>): (names: seq<string>)
    ensures |names| == |page| && forall k :: 0 <= k < |page| ==> names[k] == page[k].member
  {
    seq(|page|, k requires 0 <= k < |page| => page[k].member)
  }

  /** Some member of the reply parses to `id`. */
  predicate Names(members: seq<string>, id: int)
  {
    exists k :: 0 <= k < |members| && ParseLong(members[k]) == Some(id)
  }

  /** SELECT * FROM tb_user WHERE id = ?: the first row with the id. */
  function UserById(rows: seq<User>, id: int): (r: Option<User>)
    ensures r.Some? ==> r.value in rows && r.value.id == id
    ensures r.None? ==> forall u :: u in rows ==> u.id != id
  {
    if rows == [] then None
    else if rows[0].id == id then Some(rows[0])
    else UserById(rows[1..], id)
  }

  /** The rows for `ids`, in the order of `ids`; ids without a row are skipped. */
  function UsersInOrder(rows: seq<User>, ids: seq<int>): (r: seq<User>)
    ensures |r| <= |ids|
    ensures forall u :: u in r ==> u in rows && u.id in ids
  {
    if ids == [] then []
    else
      var rest := UsersInOrder(rows, ids[1..]);
      match UserById(rows, ids[0])
      case None => rest
      case Some(u) => [u] + rest
  }

  /** When every id has a row, the k-th user listed is the k-th liker. */
  lemma {:induction false} UsersInOrderFollowsIds(rows: seq<User>, ids: seq<int>)
    requires forall k :: 0 <= k < |ids| ==> UserById(rows, ids[k]).Some?
    ensures |UsersInOrder(rows, ids)| == |ids|
    ensures forall k :: 0 <= k < |ids| ==> UsersInOrder(rows, ids)[k].id == ids[k]
    decreases |ids|
  {
    if ids != [] {
      assert forall k :: 0 <= k < |ids| - 1 ==> ids[1..][k] == ids[k + 1];
      UsersInOrderFollowsIds(rows, ids[1..]);
      var r := UsersInOrder(rows, ids);
      assert r == [UserById(rows, ids[0]).value] + UsersInOrder(rows, ids[1..]);
      forall k | 0 <= k < |ids| ensures r[k].id == ids[k] {
        if k > 0 {
          assert r[k] == UsersInOrder(rows, ids[1..])[k - 1];
        }
      }
    }
  }

  /**
   * Table order is not like order: user 2 liked first, yet selectBatchIds
   * lists user 1 first.
   */
  lemma LikersInTableOrder()
    ensures var u1, u2 := User(1, "13800000001", "user_a", None), User(2, "13800000002", "user_b", None);
      UsersIn([u1, u2], [2, 1]) == [u1, u2]
      && UsersInOrder([u1, u2], [2, 1]) == [u2, u1]
  {
    var u1, u2 := User(1, "13800000001", "user_a", None), User(2, "13800000002", "user_b", None);
    assert [u1, u2][1..] == [u2];
    assert [2, 1][1..] == [1];
    assert [1][1..] == [];
  }

  /** With unique ids, the rows for a list of ids are no more than the list. */
  lemma DistinctIdsBound(users: seq<User>, ids: seq<int>)
    requires UniqueIds(users)
    ensures |UsersIn(users, ids)| <= |ids|
  {
    var r := UsersIn(users, ids);
    UsersInUnique(users, ids);
    var rIds := IdsOf(r);
    DistinctCard(rIds);
    SeqSetCard(ids);
    var a := set x | x in rIds;
    var b := set x | x in ids;
    assert a <= b;
    assert b == a + (b - a);
    assert |b| == |a| + |b - a|;
  }

  function IdsOf(r: seq<User>): (s: seq<int>)
    ensures |s| == |r| && forall k :: 0 <= k < |r| ==> s[k] == r[k].id
  {
    seq(|r|, k requires 0 <= k < |r| => r[k].id)
  }

  lemma {:induction false} UsersInUnique(users: seq<User>, ids: seq<int>)
    requires UniqueIds(users)
    ensures UniqueIds(UsersIn(users, ids))
    decreases |users|
  {
    if users != [] {
      var t := users[1..];
      assert UniqueIds(t) by {
        forall i, j | 0 <= i < j < |t| ensures t[i].id != t[j].id {
          assert t[i] == users[i + 1] && t[j] == users[j + 1];
        }
      }
      UsersInUnique(t, ids);
      var rt := UsersIn(t, ids);
      if users[0].id in ids {
        var r := [users[0]] + rt;
        forall i, j | 0 <= i < j < |r| ensures r[i].id != r[j].id {
          assert r[j] == rt[j - 1] && rt[j - 1] in t;
          if i == 0 {
            var k :| 0 <= k < |t| && t[k] == rt[j - 1];
            assert users[k + 1] == rt[j - 1];
          } else {
            assert r[i] == rt[i - 1];
          }
        }
      }
    }
  }

  /** A list without repeats has as many distinct values as entries. */
  lemma {:induction false} DistinctCard(s: seq<int>)
    requires forall i, j :: 0 <= i < j < |s| ==> s[i] != s[j]
    ensures |set x | x in s| == |s|
    decreases |s|
  {
    if s != [] {
      var t := s[1..];
      DistinctCard(t);
      assert (set x | x in s) == (set x | x in t) + {s[0]} by {
        assert s == [s[0]] + t;
      }
      assert s[0] !in t by {
        forall k | 0 <= k < |t| ensures t[k] != s[0] {
          assert t[k] == s[k + 1];
        }
      }
    }
  }

  /** A list has at least as many entries as distinct values. */
  lemma {:induction false} SeqSetCard(ids: seq<int>)
    ensures |set x | x in ids| <= |ids|
    decreases |ids|
  {
    if ids != [] {
      SeqSetCard(ids[1..]);
      assert (set x | x in ids) == (set x | x in ids[1..]) + {ids[0]} by {
        assert ids == [ids[0]] + ids[1..];
      }
    }
  }
}
