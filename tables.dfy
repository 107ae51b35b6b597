/**
 * The MySQL tables the services read and write through MyBatis-Plus, as one
 * object whose fields are the tables. Rows keep insertion order, which is
 * the order an unordered SELECT returns them in.
 */
module Tables {
  import opened Common

  /** tb_user; `icon` may be NULL. */
  datatype User = User(id: int, phone: string, nickName: string, icon: Option<string>)

  /** UserDTO: what the services hand out about a user; the phone stays behind. */
  datatype UserDTO = UserDTO(id: int, nickName: string, icon: Option<string>)

  /** BeanUtil.copyProperties(user, UserDTO.class): the fields User and UserDTO share. */
  function ToDTO(u: User): UserDTO
  {
    UserDTO(u.id, u.nickName, u.icon)
  }

  /** The stream `.map(user -> copyProperties(user, UserDTO.class))`, one DTO per row in order. */
  function DTOs(us: seq<User>): (r: seq<UserDTO>)
    ensures |r| == |us| && forall k :: 0 <= k < |us| ==> r[k] == ToDTO(us[k])
  {
    seq(|us|, k requires 0 <= k < |us| => ToDTO(us[k]))
  }

  /** No two rows share an id. */
  predicate UniqueIds(users: seq<User>)
  {
    forall i, j :: 0 <= i < j < |users| ==> users[i].id != users[j].id
  }

  /** tb_blog, with the transient `isLike` flag the service fills in. */
  datatype Blog = Blog(id: int, userId: int, liked: int, isLike: Option<bool>)

  /** tb_follow: `userId` follows `followUserId`. */
  datatype Follow = Follow(userId: int, followUserId: int)

  /** tb_shop; a Shop object coming from the web layer may lack its id. */
  datatype Shop = Shop(id: Option<int>, typeId: int, name: string)

  /** tb_voucher_order. */
  datatype VoucherOrder = VoucherOrder(id: int, userId: int, voucherId: int)

  class Database {
    var users: seq<User>
    /** tb_blog by primary key. */
    var blogs: map<int, Blog>
    var follows: seq<Follow>
    var shops: seq<Shop>
    /** tb_seckill_voucher.stock by voucher id. */
    var stock: map<int, int>
    var orders: seq<VoucherOrder>

    /** Primary keys are unique. */
    ghost predicate Valid()
      reads this`users, this`shops
    {
      UniqueIds(users)
      && (forall i, j :: 0 <= i < j < |shops| ==> shops[i].id != shops[j].id)
      && (forall i :: 0 <= i < |shops| ==> shops[i].id.Some?)
    }

    constructor ()
      ensures Valid()
      ensures users == [] && blogs == map[] && follows == [] && shops == [] && stock == map[] && orders == []
    {
      users, blogs, follows, shops, stock, orders := [], map[], [], [], map[], [];
    }

    /** SELECT * FROM tb_shop WHERE id = ? */
    function ShopById(id: int): Option<Shop>
      reads this
    {
      ShopIn(shops, id)
    }
  }

  function ShopIn(rows: seq<Shop>, id: int): (r: Option<Shop>)
    ensures r.Some? ==> r.value in rows && r.value.id == Some(id)
    ensures r.None? ==> forall s :: s in rows ==> s.id != Some(id)
  {
    if rows == [] then None
    else if rows[0].id == Some(id) then Some(rows[0])
    else ShopIn(rows[1..], id)
  }

  /** The rows whose phone column equals `phone`. */
  function UsersWithPhone(rows: seq<User>, phone: string): (r: seq<User>)
    ensures forall u :: u in r <==> u in rows && u.phone == phone
    ensures |r| <= |rows|
  {
    if rows == [] then []
    else if rows[0].phone == phone then [rows[0]] + UsersWithPhone(rows[1..], phone)
    else UsersWithPhone(rows[1..], phone)
  }

  /** SELECT * FROM tb_user WHERE id IN (ids), in table order. */
  function UsersIn(rows: seq<User>, ids: seq<int>): (r: seq<User>)
    ensures forall u :: u in r <==> u in rows && u.id in ids
    ensures |r| <= |rows|
  {
    if rows == [] then []
    else if rows[0].id in ids then [rows[0]] + UsersIn(rows[1..], ids)
    else UsersIn(rows[1..], ids)
  }

  /** SELECT * FROM tb_follow WHERE follow_user_id = author: the author's followers. */
  function FollowersOf(rows: seq<Follow>, author: int): (r: seq<Follow>)
    ensures forall f :: f in r <==> f in rows && f.followUserId == author
  {
    if rows == [] then []
    else if rows[0].followUserId == author then [rows[0]] + FollowersOf(rows[1..], author)
    else FollowersOf(rows[1..], author)
  }

  /** SELECT count(*) FROM tb_voucher_order WHERE user_id = ? AND voucher_id = ? */
  function CountOrders(rows: seq<VoucherOrder>, userId: int, voucherId: int): (n: nat)
    ensures n == 0 <==> forall o :: o in rows ==> !(o.userId == userId && o.voucherId == voucherId)
    ensures n <= |rows|
  {
    if rows == [] then 0
    else (if rows[0].userId == userId && rows[0].voucherId == voucherId then 1 else 0)
         + CountOrders(rows[1..], userId, voucherId)
  }

  /** SELECT * FROM tb_shop WHERE type_id = ?, in table order. */
  function ShopsOfType(rows: seq<Shop>, typeId: int): (r: seq<Shop>)
    ensures forall s :: s in r <==> s in rows && s.typeId == typeId
    ensures |r| <= |rows|
  {
    if rows == [] then []
    else if rows[0].typeId == typeId then [rows[0]] + ShopsOfType(rows[1..], typeId)
    else ShopsOfType(rows[1..], typeId)
  }
}
