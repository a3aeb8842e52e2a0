/**
 * The cookie manager: the cookies a response will send, keyed by cookie
 * name, with the clock reading and the application's base URI passed in.
 */
module Cookies {
  import opened Wrappers

  datatype SameSite = Lax | Strict | NoRestriction

  /**
   * A cookie. `expiresAt` is held as the Unix time its expiry value stands
   * for (the result of the cookie's own expiry-to-seconds conversion).
   */
  datatype Cookie = Cookie(
    key: string,
    value: string,
    expiresAt: Option<int>,
    maxAge: Option<int>,
    domain: Option<string>,
    path: Option<string>,
    secure: bool,
    httpOnly: bool,
    sameSite: Option<SameSite>)

  /** The cookies of one response, by key. */
  type Jar = map<string, Cookie>

  /** A cookie built from key, value and expiry alone; every other field takes the constructor default. */
  function Plain(key: string, value: string, expiresAt: Option<int>): (c: Cookie)
    ensures c.key == key && c.value == value && c.expiresAt == expiresAt
    ensures c.maxAge.None? && c.domain.None? && c.path.None?
    ensures !c.secure && !c.httpOnly && c.sameSite.None?
  {
    Cookie(key, value, expiresAt, None, None, None, false, false, None)
  }

  /**
   * The manager's invariant: every cookie sits under its own key. It holds
   * of the empty jar and `Add` is the only writer.
   */
  predicate WellKeyed(jar: Jar) {
    forall k :: k in jar ==> jar[k].key == k
  }

  /** PHP's `str_starts_with`. */
  predicate StartsWith(s: string, prefix: string) {
    |prefix| <= |s| && s[..|prefix|] == prefix
  }

  /** The cookies held so far. */
  function All(jar: Jar): (r: Jar)
    ensures forall k :: k in r <==> Get(jar, k).Some?
    ensures forall k :: k in r ==> Get(jar, k) == Some(r[k])
  {
    jar
  }

  /** The cookie stored under `key`, or null. */
  function Get(jar: Jar, key: string): (r: Option<Cookie>)
    ensures r.Some? <==> key in jar
    ensures r.Some? ==> r.value == jar[key]
  {
    if key in jar then Some(jar[key]) else None
  }

  /** `max(expiresAt - now, 0)`: seconds until expiry, never negative. */
  function MaxAge(expiresAt: int, now: int): (age: nat)
    ensures expiresAt >= now ==> age == expiresAt - now
    ensures expiresAt < now ==> age == 0
  {
    if expiresAt - now > 0 then expiresAt - now else 0
  }

  /**
   * Stores `cookie` under its own key. When it has an expiry, its max-age is
   * first set from the clock reading `now`.
   */
  function Add(jar: Jar, now: int, cookie: Cookie): (r: Jar)
    ensures cookie.key in r
    ensures cookie.expiresAt.Some? ==> r[cookie.key] == cookie.(maxAge := Some(MaxAge(cookie.expiresAt.value, now)))
    ensures cookie.expiresAt.None? ==> r[cookie.key] == cookie
    ensures forall k :: k != cookie.key ==> Get(r, k) == Get(jar, k)
    ensures WellKeyed(jar) ==> WellKeyed(r)
  {
    var stored := if cookie.expiresAt.Some? then cookie.(maxAge := Some(MaxAge(cookie.expiresAt.value, now))) else cookie;
    jar[cookie.key := stored]
  }

  /**
   * Adds or updates the cookie `key`. An absent cookie starts with path `/`,
   * http-only, SameSite Lax, and secure exactly when `baseUri` starts with
   * `https`; an existing one keeps its other fields. The value is always
   * replaced; the expiry only when one is given. Returns the stored cookie.
   */
  function Set(jar: Jar, baseUri: string, now: int, key: string, value: string, expiresAt: Option<int>): (r: (Cookie, Jar))
    requires WellKeyed(jar)
    ensures WellKeyed(r.1)
    ensures Get(r.1, key) == Some(r.0)
    ensures r.0.key == key && r.0.value == value
    ensures r.0.expiresAt == (if expiresAt.Some? then expiresAt else if key in jar then jar[key].expiresAt else None)
    ensures key !in jar ==>
              && r.0.path == Some("/") && r.0.httpOnly && r.0.sameSite == Some(Lax)
              && (r.0.secure <==> StartsWith(baseUri, "https"))
              && r.0.domain.None?
    ensures key in jar ==>
              && r.0.path == jar[key].path && r.0.httpOnly == jar[key].httpOnly
              && r.0.sameSite == jar[key].sameSite && r.0.secure == jar[key].secure
              && r.0.domain == jar[key].domain
    ensures r.0.expiresAt.Some? ==> r.0.maxAge == Some(MaxAge(r.0.expiresAt.value, now))
    ensures r.0.expiresAt.None? ==> r.0.maxAge == (if key in jar then jar[key].maxAge else None)
    ensures forall k :: k != key ==> Get(r.1, k) == Get(jar, k)
  {
    var base := Get(jar, key).GetOr(
      Cookie(key, "", None, None, None, Some("/"), StartsWith(baseUri, "https"), true, Some(Lax)));
    var cookie := base.(value := value, expiresAt := if expiresAt.Some? then expiresAt else base.expiresAt);
    var next := Add(jar, now, cookie);
    (next[key], next)
  }

  /** Replaces the cookie `key` by an already-expired, empty one, so that the client drops it. */
  function Remove(jar: Jar, now: int, key: string): (r: Jar)
    ensures key in r
    ensures r[key].value == "" && r[key].expiresAt == Some(-1)
    ensures now >= -1 ==> r[key].maxAge == Some(0)
    ensures forall k :: k != key ==> Get(r, k) == Get(jar, k)
    ensures WellKeyed(jar) ==> WellKeyed(r)
  {
    Add(jar, now, Plain(key, "", Some(-1)))
  }

  /** Setting the same cookie twice at the same moment changes nothing the second time. */
  lemma SetIdempotent(jar: Jar, baseUri: string, now: int, key: string, value: string, expiresAt: Option<int>)
    requires WellKeyed(jar)
    ensures var (c1, j1) := Set(jar, baseUri, now, key, value, expiresAt);
            Set(j1, baseUri, now, key, value, expiresAt) == (c1, j1)
  {
    var (c1, j1) := Set(jar, baseUri, now, key, value, expiresAt);
    assert j1[key] == c1;
    var (c2, j2) := Set(j1, baseUri, now, key, value, expiresAt);
    assert c2 == c1;
    assert j2 == j1;
  }

  /** A removed cookie reads back as the tombstone, whatever was there before. */
  lemma RemoveThenGet(jar: Jar, now: nat, key: string)
    ensures Get(Remove(jar, now, key), key) == Some(Cookie(key, "", Some(-1), Some(0), None, None, false, false, None))
  {
  }

  /** Setting after removing starts from the tombstone, not from the defaults: the tombstone's path and flags survive. */
  lemma SetAfterRemoveKeepsTombstoneFields(jar: Jar, baseUri: string, now: nat, key: string, value: string)
    requires WellKeyed(jar)
    ensures var (c, _) := Set(Remove(jar, now, key), baseUri, now, key, value, None);
            c.path.None? && !c.httpOnly && c.sameSite.None? && c.expiresAt == Some(-1) && c.maxAge == Some(0)
  {
  }
}
