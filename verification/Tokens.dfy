/**
 Signed tokens. The signature scheme itself is assumed sound: a token is its
 claims, and only claims this service minted carry a good signature. Times are
 milliseconds since the Unix epoch; `exp`, `iat` and `nbf` are NumericDates,
 whole seconds (sections 2 and 4.1 of RFC 7519).
 */
module Tokens {
  import opened Basics

  /** Untyped is a token minted before the type claim existed. */
  datatype TokenType = Access | Refresh | Untyped

  datatype Claims = Claims(
    userId: string,
    role: string,
    typ: TokenType,
    iatMs: int,
    jti: string,
    iat: Option<int>,
    nbf: Option<int>,
    exp: Option<int>,
    issuer: string)

  /** The UnixMilli value of Go's zero time, year 1. */
  const ZERO_TIME_MS := -62135596800000

  function Seconds(ms: int): int {
    ms / 1000
  }

  /** The best-precision mint time a token carries. */
  function IssuedAtTime(c: Claims): int {
    if c.iatMs > 0 then c.iatMs
    else if c.iat.Some? then c.iat.value * 1000
    else ZERO_TIME_MS
  }

  function Sign(userId: string, role: string, typ: TokenType, ttl: int, issuer: string, jti: string, now: int): Claims {
    Claims(userId, role, typ, now, jti, Some(Seconds(now)), Some(Seconds(now)), Some(Seconds(now + ttl)), issuer)
  }

  /** The registered-claim checks of sections 4.1.4 and 4.1.5 of RFC 7519, plus the issuer. */
  predicate TimelyAt(c: Claims, issuer: string, now: int) {
    && (c.exp.Some? ==> now < c.exp.value * 1000)
    && (c.nbf.Some? ==> c.nbf.value * 1000 <= now)
    && c.issuer == issuer
  }

  predicate HasType(c: Claims, want: TokenType) {
    (if c.typ == Untyped then Access else c.typ) == want
  }

  /** One entry of the mint log: the claims signed, and the instant they were signed. */
  datatype Mint = Mint(claims: Claims, at: int)

  /**
   What every token ever signed satisfies, the legacy ones included: the stamp
   it is compared by is never later than the moment it was minted.
   */
  predicate Genuine(m: Mint) {
    && 0 < m.at
    && IssuedAtTime(m.claims) <= m.at
    && (m.claims.nbf.Some? ==> m.claims.nbf.value * 1000 <= m.at)
  }

  /** The token cannot validate more than `ttl` after it was minted. */
  predicate LivesAtMost(m: Mint, ttl: int) {
    m.claims.exp.Some? && m.claims.exp.value * 1000 <= m.at + ttl
  }

  /** Whole-second claims never make a token outlive its lifetime, nor pre-date its stamp. */
  lemma SignedIsGenuine(userId: string, role: string, typ: TokenType, ttl: int, issuer: string, jti: string, now: int)
    requires 0 < now
    ensures var m := Mint(Sign(userId, role, typ, ttl, issuer, jti, now), now);
            Genuine(m) && LivesAtMost(m, ttl) && IssuedAtTime(m.claims) == now
            && (forall t :: TimelyAt(m.claims, issuer, t) ==> t < now + ttl)
  {
  }

  /** It names its bearer, and is good from the moment it is signed to within a second of its lifetime, for its issuer only. */
  lemma SignedIsUsable(userId: string, role: string, typ: TokenType, ttl: int, issuer: string, jti: string, now: int)
    ensures var c := Sign(userId, role, typ, ttl, issuer, jti, now);
            && c.userId == userId && c.role == role && c.typ == typ && c.jti == jti && c.exp.Some?
            && (forall t :: now <= t <= now + ttl - 1000 ==> TimelyAt(c, issuer, t))
            && (forall t, other :: other != issuer ==> !TimelyAt(c, other, t))
  {
  }

  /** A refresh token passes for no other kind, and only a legacy token without a type passes for an access token beside those. */
  lemma TypesAreKeptApart(c: Claims)
    ensures HasType(c, Refresh) <==> c.typ == Refresh
    ensures HasType(c, Access) <==> c.typ != Refresh
  {
  }
}
