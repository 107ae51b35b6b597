/**
 * RedisConstants and SystemConstants: key prefixes, lifetimes and page sizes.
 * Lifetimes are in the unit the call site passes with them.
 */
module Constants {
  const LOGIN_CODE_KEY: string := "login:code:"
  /** Minutes. */
  const LOGIN_CODE_TTL: int := 2
  const LOGIN_USER_KEY: string := "login:token:"
  /** Minutes. */
  const LOGIN_USER_TTL: int := 30

  const CACHE_SHOP_KEY: string := "cache:shop:"
  /** Minutes. */
  const CACHE_SHOP_TTL: int := 30
  const LOCK_SHOP_KEY: string := "lock:shop:"

  const BLOG_LIKED_KEY: string := "blog:liked:"
  const FEED_KEY: string := "feed:"
  const SHOP_GEO_KEY: string := "shop:geo:"
  const USER_SIGN_KEY: string := "sign:"

  const DEFAULT_PAGE_SIZE: int := 5
  const USER_NICK_NAME_PREFIX: string := "user_"
}
