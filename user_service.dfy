/**
 * UserServiceImpl: phone-code login with the session kept in a Redis hash
 * under a random token, and monthly sign-in bitmaps (one bit per day of the
 * month, bit offset day-1).
 */
module Users {
  import opened Common
  import opened Text
  import opened Store
  import opened Tables
  import opened Constants
  import Ids

  const PHONE_INVALID_MSG: string := "手机格式错误"
  const CODE_MISMATCH_MSG: string := "验证码或者手机号出现错误"

  /** The local date the clock reads. */
  datatype Date = Date(year: int, month: int, day: int)

  /** A date with a four-digit year, as LocalDateTime.now() gives for centuries to come. */
  predicate ValidDate(d: Date)
  {
    1000 <= d.year <= 9999 && 1 <= d.month <= 12 && 1 <= d.day <= 31
  }

  /** ":yyyyMM": with a four-digit year this is the decimal numeral of year*100+month. */
  function MonthSuffix(d: Date): string
  {
    ":" + LongToString(d.year * 100 + d.month)
  }

  /** "sign:" + userId + ":yyyyMM". */
  function SignKey(userId: int, d: Date): string
  {
    USER_SIGN_KEY + LongToString(userId) + MonthSuffix(d)
  }

  lemma NoColonInNumeral(n: nat)
    ensures ':' !in LongToString(n)
  {
    var s := LongToString(n);
    assert AllDigits(s);
    forall i | 0 <= i < |s| ensures s[i] != ':' {
      assert IsDigit(s[i]);
    }
  }

  /**
   * Each user has one bitmap per month: two sign-ins share a key exactly
   * when they are by the same user in the same month.
   */
  lemma SignKeyInjective(u1: int, d1: Date, u2: int, d2: Date)
    requires IsLong(u1) && IsLong(u2) && ValidDate(d1) && ValidDate(d2)
    ensures SignKey(u1, d1) == SignKey(u2, d2) <==> u1 == u2 && d1.year == d2.year && d1.month == d2.month
  {
    var m1, m2 := d1.year * 100 + d1.month, d2.year * 100 + d2.month;
    if SignKey(u1, d1) == SignKey(u2, d2) {
      NoColonInNumeral(m1);
      NoColonInNumeral(m2);
      assert SignKey(u1, d1) == USER_SIGN_KEY + LongToString(u1) + ":" + LongToString(m1);
      assert SignKey(u2, d2) == USER_SIGN_KEY + LongToString(u2) + ":" + LongToString(m2);
      Ids.SplitAtLastColon(USER_SIGN_KEY, LongToString(u1), LongToString(m1), LongToString(u2), LongToString(m2));
      LongToStringInjective(u1, u2);
      LongToStringInjective(m1, m2);
    }
  }

  /** The row login ends up with: the one holding the phone, or a new user "user_" + suffix. */
  function LoginRow(users: seq<User>, phone: string, freshId: int, nickSuffix: string): (u: User)
    ensures u.phone == phone
    ensures UsersWithPhone(users, phone) == [] ==> u == User(freshId, phone, USER_NICK_NAME_PREFIX + nickSuffix, None)
    ensures UsersWithPhone(users, phone) != [] ==> u in users
  {
    var found := UsersWithPhone(users, phone);
    if found == [] then User(freshId, phone, USER_NICK_NAME_PREFIX + nickSuffix, None) else found[0]
  }

  /**
   * The session hash: UserDTO's id, nickName and icon as strings, a NULL
   * icon left out.
   */
  function SessionFields(u: User): (r: map<string, string>)
    ensures "id" in r && "nickName" in r && r["nickName"] == u.nickName
    ensures "icon" in r <==> u.icon.Some?
    ensures u.icon.Some? ==> r["icon"] == u.icon.value
    ensures r.Keys <= {"id", "nickName", "icon"}
  {
    map["id" := LongToString(u.id), "nickName" := u.nickName]
      + (if u.icon.Some? then map["icon" := u.icon.value] else map[])
  }

  /** Reading the session back (as the token interceptor does) recovers the user's id. */
  lemma SessionIdRoundTrip(u: User)
    requires IsLong(u.id)
    ensures ParseLong(SessionFields(u)["id"]) == Some(u.id)
  {
    ParseLongRoundTrip(u.id);
  }

  /** No two users share a phone number. */
  predicate PhonesUnique(users: seq<User>)
  {
    forall i, j :: 0 <= i < j < |users| ==> users[i].phone != users[j].phone
  }

  lemma {:induction false} NoUserWithPhone(users: seq<User>, phone: string)
    requires forall i :: 0 <= i < |users| ==> users[i].phone != phone
    ensures UsersWithPhone(users, phone) == []
    decreases |users|
  {
    if users != [] {
      NoUserWithPhone(users[1..], phone);
    }
  }

  /** With unique phones the lookup by phone finds at most one row, so `one()` never throws. */
  lemma {:induction false} PhonesUniqueAtMostOne(users: seq<User>, phone: string)
    requires PhonesUnique(users)
    ensures |UsersWithPhone(users, phone)| <= 1
    decreases |users|
  {
    if users != [] {
      assert PhonesUnique(users[1..]) by {
        forall i, j | 0 <= i < j < |users[1..]| ensures users[1..][i].phone != users[1..][j].phone {
          assert users[1..][i] == users[i + 1] && users[1..][j] == users[j + 1];
        }
      }
      PhonesUniqueAtMostOne(users[1..], phone);
      if users[0].phone == phone {
        forall i | 0 <= i < |users[1..]| ensures users[1..][i].phone != phone {
          assert users[1..][i] == users[i + 1];
        }
        NoUserWithPhone(users[1..], phone);
      }
    }
  }

  /** Registering a user under an id nobody has keeps primary keys unique. */
  lemma {:induction false} RegisterKeepsIdsUnique(users: seq<User>, u: User)
    requires UniqueIds(users) && forall v :: v in users ==> v.id != u.id
    ensures UniqueIds(users + [u])
  {
    var r := users + [u];
    forall i, j | 0 <= i < j < |r| ensures r[i].id != r[j].id {
      if j == |users| {
        assert r[i] in users;
      }
    }
  }

  /** Registering a phone nobody has keeps phones unique. */
  lemma RegisterKeepsPhonesUnique(users: seq<User>, u: User)
    requires PhonesUnique(users) && UsersWithPhone(users, u.phone) == []
    ensures PhonesUnique(users + [u])
  {
    var r := users + [u];
    forall i, j | 0 <= i < j < |r| ensures r[i].phone != r[j].phone {
      if j == |users| {
        assert r[i] in users;
        assert r[i] !in UsersWithPhone(users, u.phone);
      }
    }
  }

  /** The number of days signed in a row, ending with day `w` (bit offset w-1). */
  function Streak(bits: set<nat>, w: nat): (k: nat)
    ensures k <= w
    ensures forall d :: w - k <= d < w ==> d in bits
    ensures k < w ==> w - k - 1 !in bits
  {
    if w == 0 || w - 1 !in bits then 0 else 1 + Streak(bits, w - 1)
  }

  /** The number of 1 bits at the low end of `n`. */
  function TrailingOnes(n: nat): nat
  {
    if n % 2 == 1 then 1 + TrailingOnes(n / 2) else 0
  }

  /** The low end of BITFIELD GET u<w> 0 is day w: its trailing ones are the streak. */
  lemma {:induction false} TrailingOnesOfField(bits: set<nat>, w: nat)
    ensures TrailingOnes(Field(bits, w)) == Streak(bits, w)
  {
    if w > 0 {
      var f := Field(bits, w);
      assert f % 2 == (if w - 1 in bits then 1 else 0);
      assert f / 2 == Field(bits, w - 1);
      if w - 1 in bits {
        TrailingOnesOfField(bits, w - 1);
      }
    }
  }

  /** Signing today makes the streak one longer than yesterday's. */
  lemma SignExtendsStreak(bits: set<nat>, day: nat)
    requires day >= 1
    ensures Streak(bits + {day - 1}, day) == 1 + Streak(bits + {day - 1}, day - 1)
    ensures day - 2 !in bits && day >= 2 ==> Streak(bits + {day - 1}, day) == 1
  {
    if day >= 2 && day - 2 !in bits {
      assert Streak(bits + {day - 1}, day - 1) == 0;
    }
  }

  class UserService {
    const redis: Redis
    const db: Database

    constructor (redis: Redis, db: Database)
      ensures this.redis == redis && this.db == db
    {
      this.redis := redis;
      this.db := db;
    }

    /**
     * sendCode: an invalid phone is refused; otherwise the six-digit `code`
     * is stored under "login:code:"+phone for two minutes.
     * `phoneInvalid` is RegexUtils.isPhoneInvalid(phone).
     */
    method SendCode(phone: string, phoneInvalid: bool, code: string) returns (resp: Response<string>)
      modifies redis`strings
      ensures phoneInvalid ==> resp == Fail(PHONE_INVALID_MSG) && redis.strings == old(redis.strings)
      ensures !phoneInvalid ==> resp == Ok
      ensures !phoneInvalid ==> redis.strings == old(redis.strings)[LOGIN_CODE_KEY + phone := Entry(code, Some(redis.now + 120))]
    {
      if phoneInvalid {
        return Fail(PHONE_INVALID_MSG);
      }
      redis.SetEx(LOGIN_CODE_KEY + phone, code, ToSeconds(LOGIN_CODE_TTL, Minutes));
      resp := Ok;
    }

    /** The user's session hash under `tokenKey`, expiring in LOGIN_USER_TTL minutes. */
    method SaveSession(tokenKey: string, user: User)
      modifies redis`hashes
      ensures redis.hashes == old(redis.hashes)[tokenKey := Entry(old(redis.HGetAll(tokenKey)) + SessionFields(user), Some(redis.now + 1800))]
    {
      redis.HPutAll(tokenKey, SessionFields(user));
      var _ := redis.Expire(tokenKey, ToSeconds(LOGIN_USER_TTL, Minutes));
    }

    /**
     * login: the phone must be valid and the submitted code equal to the live
     * cached one. The user is looked up by phone (more than one row throws)
     * or registered with id `freshId` and nickname "user_"+`nickSuffix`; the
     * session hash under "login:token:"+token then expires in 30 minutes.
     * The code stays cached after a successful login.
     */
    method Login(phone: string, phoneInvalid: bool, code: Option<string>, token: string,
                 freshId: int, nickSuffix: string) returns (resp: Response<string>)
      requires forall u :: u in db.users ==> u.id != freshId
      modifies redis`hashes, db`users
      ensures old(db.Valid()) ==> db.Valid()
      ensures !old(Admitted(phone, phoneInvalid, code)) ==> redis.hashes == old(redis.hashes) && db.users == old(db.users)
      ensures phoneInvalid ==> resp == Fail(PHONE_INVALID_MSG)
      ensures !phoneInvalid && !old(Admitted(phone, phoneInvalid, code)) ==> resp == Fail(CODE_MISMATCH_MSG)
      ensures old(Admitted(phone, phoneInvalid, code)) && |UsersWithPhone(old(db.users), phone)| > 1 ==>
        resp == Thrown && redis.hashes == old(redis.hashes) && db.users == old(db.users)
      ensures old(Admitted(phone, phoneInvalid, code)) && |UsersWithPhone(old(db.users), phone)| <= 1 ==>
        var user := LoginRow(old(db.users), phone, freshId, nickSuffix);
        resp == OkData(token)
        && db.users == (if UsersWithPhone(old(db.users), phone) == [] then old(db.users) + [user] else old(db.users))
        && redis.hashes == old(redis.hashes)[LOGIN_USER_KEY + token :=
             Entry(old(redis.HGetAll(LOGIN_USER_KEY + token)) + SessionFields(user), Some(redis.now + 1800))]
      ensures PhonesUnique(old(db.users)) ==> PhonesUnique(db.users) && resp != Thrown
    {
      if phoneInvalid {
        return Fail(PHONE_INVALID_MSG);
      }
      var cacheCode := redis.Get(LOGIN_CODE_KEY + phone);
      if cacheCode.None? || cacheCode != code {
        return Fail(CODE_MISMATCH_MSG);
      }
      resp := SignIn(phone, token, freshId, nickSuffix);
    }

    /**
     * The admitted half of login: find or register the user, then store the
     * session under "login:token:"+token and answer the token. Throws, with
     * nothing written, where one() finds more than one row for the phone.
     */
    method SignIn(phone: string, token: string, freshId: int, nickSuffix: string) returns (resp: Response<string>)
      requires forall u :: u in db.users ==> u.id != freshId
      modifies redis`hashes, db`users
      ensures old(db.Valid()) ==> db.Valid()
      ensures |UsersWithPhone(old(db.users), phone)| > 1 ==>
        resp == Thrown && redis.hashes == old(redis.hashes) && db.users == old(db.users)
      ensures |UsersWithPhone(old(db.users), phone)| <= 1 ==>
        var user := LoginRow(old(db.users), phone, freshId, nickSuffix);
        resp == OkData(token)
        && db.users == (if UsersWithPhone(old(db.users), phone) == [] then old(db.users) + [user] else old(db.users))
        && redis.hashes == old(redis.hashes)[LOGIN_USER_KEY + token :=
             Entry(old(redis.HGetAll(LOGIN_USER_KEY + token)) + SessionFields(user), Some(redis.now + 1800))]
      ensures PhonesUnique(old(db.users)) ==> PhonesUnique(db.users) && resp != Thrown
    {
      ghost var session := redis.HGetAll(LOGIN_USER_KEY + token);
      var row := FindOrCreate(phone, freshId, nickSuffix);
      if row.None? {
        return Thrown;
      }
      assert redis.HGetAll(LOGIN_USER_KEY + token) == session;
      assert row.value == LoginRow(old(db.users), phone, freshId, nickSuffix);
      SaveSession(LOGIN_USER_KEY + token, row.value);
      resp := OkData(token);
    }

    /**
     * The database half of login: `query().eq("phone", phone).one()`, then
     * createUserWithPhone when nobody has the phone. None where one() throws
     * on more than one row.
     */
    method FindOrCreate(phone: string, freshId: int, nickSuffix: string) returns (row: Option<User>)
      requires forall u :: u in db.users ==> u.id != freshId
      modifies db`users
      ensures old(db.Valid()) ==> db.Valid()
      ensures |UsersWithPhone(old(db.users), phone)| > 1 ==> row.None? && db.users == old(db.users)
      ensures |UsersWithPhone(old(db.users), phone)| <= 1 ==>
        row == Some(LoginRow(old(db.users), phone, freshId, nickSuffix))
        && db.users == (if UsersWithPhone(old(db.users), phone) == [] then old(db.users) + [row.value] else old(db.users))
      ensures PhonesUnique(old(db.users)) ==> PhonesUnique(db.users) && row.Some?
    {
      var found := UsersWithPhone(db.users, phone);
      if PhonesUnique(db.users) {
        PhonesUniqueAtMostOne(db.users, phone);
      }
      if |found| > 1 {
        return None;
      }
      var user: User;
      if found == [] {
        user := User(freshId, phone, USER_NICK_NAME_PREFIX + nickSuffix, None);
        if PhonesUnique(db.users) {
          RegisterKeepsPhonesUnique(db.users, user);
        }
        if UniqueIds(db.users) {
          RegisterKeepsIdsUnique(db.users, user);
        }
        db.users := db.users + [user];
      } else {
        user := found[0];
      }
      row := Some(user);
    }

    /** The phone is valid and the submitted code equals the live cached one. */
    predicate Admitted(phone: string, phoneInvalid: bool, code: Option<string>)
      reads redis`strings, redis`now
    {
      !phoneInvalid && redis.Get(LOGIN_CODE_KEY + phone).Some? && redis.Get(LOGIN_CODE_KEY + phone) == code
    }

    /** sgin: sets today's bit in this month's bitmap of the user. */
    method Sign(userId: int, today: Date) returns (resp: Response<int>)
      requires ValidDate(today)
      modifies redis`bitmaps
      ensures resp == Ok
      ensures redis.bitmaps == old(redis.bitmaps)[SignKey(userId, today) := old(redis.Bits(SignKey(userId, today))) + {today.day - 1}]
    {
      redis.SetBit(SignKey(userId, today), today.day - 1);
      resp := Ok;
    }

    /**
     * signCount: the number of days up to and including today signed
     * without a gap, read from BITFIELD GET u<day> 0 by stripping 1 bits off
     * the low end. An empty reply gives `Result.ok()`.
     */
    method SignCount(userId: int, today: Date) returns (resp: Response<int>)
      requires ValidDate(today)
      ensures resp == Ok || resp == OkData(Streak(redis.Bits(SignKey(userId, today)), today.day))
    {
      var key := SignKey(userId, today);
      var result := redis.BitFieldGet(key, today.day);
      if result == [] {
        return Ok;
      }
      var num: nat := result[0];
      TrailingOnesOfField(redis.Bits(key), today.day);
      if num == 0 {
        return OkData(0);
      }
      var count := 0;
      while num % 2 == 1
        invariant count + TrailingOnes(num) == Streak(redis.Bits(key), today.day)
        decreases num
      {
        count := count + 1;
        num := num / 2;
      }
      resp := OkData(count);
    }
  }
}
