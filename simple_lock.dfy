/**
 * SimpleRedisLock: a lock named `name` held in the string key "lock:"+name,
 * whose value is the owner's token: the process's random prefix followed by
 * the thread id. Acquiring is SET NX with a TTL; releasing deletes the key
 * only when it still holds the caller's token (check and delete happen in
 * one server-side script).
 */
module Lock {
  import opened Common
  import opened Text
  import opened Store

  const KEY_PREFIX: string := "lock:"

  /** A UUID without dashes is 32 characters; the prefix adds a '-'. */
  const ID_PREFIX_LENGTH: nat := 33

  /** The owner token of a thread: ID_PREFIX + threadId. */
  function Token(idPrefix: string, threadId: int): string
  {
    idPrefix + LongToString(threadId)
  }

  /**
   * Between processes whose prefixes have the same length, two tokens are
   * equal exactly when they come from the same process and the same thread.
   */
  lemma TokenOwnership(p1: string, t1: int, p2: string, t2: int)
    requires |p1| == |p2| && IsLong(t1) && IsLong(t2)
    ensures Token(p1, t1) == Token(p2, t2) <==> p1 == p2 && t1 == t2
  {
    if Token(p1, t1) == Token(p2, t2) {
      assert p1 == Token(p1, t1)[..|p1|];
      assert p2 == Token(p2, t2)[..|p2|];
      assert LongToString(t1) == Token(p1, t1)[|p1|..];
      assert LongToString(t2) == Token(p2, t2)[|p2|..];
      LongToStringInjective(t1, t2);
    }
  }

  class SimpleRedisLock {
    const name: string
    /** ID_PREFIX: fixed for the life of the process. */
    const idPrefix: string
    const redis: Redis

    constructor (name: string, idPrefix: string, redis: Redis)
      requires |idPrefix| == ID_PREFIX_LENGTH
      ensures this.name == name && this.idPrefix == idPrefix && this.redis == redis
    {
      this.name := name;
      this.idPrefix := idPrefix;
      this.redis := redis;
    }

    function Key(): string
    {
      KEY_PREFIX + name
    }

    /**
     * tryLock(timeoutSec): true iff nobody held the lock, in which case it now
     * holds this thread's token for `timeoutSec` seconds. A held lock refuses
     * every caller, its own holder included.
     */
    method TryLock(threadId: int, timeoutSec: Pos) returns (ok: bool)
      modifies redis`strings
      ensures ok <==> old(redis.Get(Key())).None?
      ensures ok ==> redis.strings == old(redis.strings)[Key() := Entry(Token(idPrefix, threadId), Some(redis.now + timeoutSec))]
      ensures ok ==> redis.Get(Key()) == Some(Token(idPrefix, threadId))
      ensures !ok ==> redis.strings == old(redis.strings)
    {
      ok := redis.SetNx(Key(), Token(idPrefix, threadId), timeoutSec);
    }

    /**
     * unlock(): the key goes only when it holds this thread's token; a lock
     * that expired and was taken by someone else is left alone.
     */
    method Unlock(threadId: int)
      modifies redis`strings
      ensures old(redis.Get(Key())) == Some(Token(idPrefix, threadId)) ==>
        redis.strings == old(redis.strings) - {Key()} && redis.Get(Key()).None?
      ensures old(redis.Get(Key())) != Some(Token(idPrefix, threadId)) ==>
        redis.strings == old(redis.strings)
    {
      var id := redis.Get(Key());
      if id == Some(Token(idPrefix, threadId)) {
        redis.Del(Key());
      }
    }

    /** After the holder's unlock the lock is free again: the next tryLock, from any thread, takes it. */
    method UnlockThenTryLock(threadId: int, nextThread: int, timeoutSec: Pos) returns (ok: bool)
      requires redis.Get(Key()) == Some(Token(idPrefix, threadId))
      modifies redis`strings
      ensures ok && redis.Get(Key()) == Some(Token(idPrefix, nextThread))
    {
      Unlock(threadId);
      ok := TryLock(nextThread, timeoutSec);
    }
  }
}
