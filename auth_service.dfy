/** The credential check and token issue of internal/services/auth_service.go.
    Times are Unix nanoseconds; the clock reading and the HS256 signer are
    parameters. */
module AuthServices {
  import opened Wrappers
  import opened Text

  const NanosPerSecond: int := 1_000_000_000
  const NanosPerMinute: int := 60 * NanosPerSecond

  /** The claims of an issued token: subject, expiry and issue time in Unix seconds. */
  datatype Claims = Claims(sub: string, exp: int, iat: int)

  datatype AuthError = InvalidCredentials | CreatingToken(cause: string)

  /** The hard-coded user table. */
  const DemoUsers: map<string, string> := map["admin" := "password123", "user" := "user12345"]

  /** time.Time.Unix(): whole seconds, rounded toward negative infinity. */
  function UnixSeconds(nanos: int): (s: int)
    ensures s * NanosPerSecond <= nanos < (s + 1) * NanosPerSecond
  {
    nanos / NanosPerSecond
  }

  /** int64 multiplication of time.Duration values wraps around. */
  function Wrap64(x: int): (r: int)
    ensures MinInt64 <= r <= MaxInt64
    ensures MinInt64 <= x <= MaxInt64 ==> r == x
    ensures (x - r) % 0x1_0000_0000_0000_0000 == 0
  {
    (x - MinInt64) % 0x1_0000_0000_0000_0000 + MinInt64
  }

  /** The claims issued at `now` with time-to-live `ttl` (a time.Duration). */
  function IssuedClaims(username: string, now: int, ttl: int): (c: Claims)
    ensures c.sub == username
    ensures c.iat * NanosPerSecond <= now < (c.iat + 1) * NanosPerSecond
    ensures c.exp * NanosPerSecond <= now + ttl < (c.exp + 1) * NanosPerSecond
    ensures ttl >= 0 ==> c.iat <= c.exp
  {
    Claims(username, UnixSeconds(now + ttl), UnixSeconds(now))
  }

  /** The expiry written to the log: now + tokenTTL * time.Minute, a Duration
      product that wraps at 64 bits. */
  function LoggedExpiry(now: int, ttl: int): int {
    now + Wrap64(ttl * NanosPerMinute)
  }

  /** Whenever the product does not wrap, the logged offset is 60,000,000,000
      times the offset the token's `exp` carries: the log reads the TTL as
      minutes and the claim as nanoseconds. Which of the two is wrong depends on
      the unit the caller passes. */
  lemma LoggedExpiryOvershoots(now: int, ttl: int)
    requires 0 < ttl && ttl * NanosPerMinute <= MaxInt64
    ensures LoggedExpiry(now, ttl) - now == ttl * NanosPerMinute
    ensures LoggedExpiry(now, ttl) > now + ttl
  {
  }

  /** A caller passing a one-hour Duration: the claim expires after an hour, and
      the log's product wraps to an expiry about 224 years away. */
  lemma LoggedExpiryOfOneHour(now: int)
    ensures LoggedExpiry(now, 3600 * NanosPerSecond) == now + 7073640934860128256
    ensures IssuedClaims("admin", now, 3600 * NanosPerSecond).exp == UnixSeconds(now) + 3600
  {
    assert 3600 * NanosPerSecond * NanosPerMinute - 11709 * 0x1_0000_0000_0000_0000 == 7073640934860128256;
    var n := now + 3600 * NanosPerSecond;
    assert n / NanosPerSecond == now / NanosPerSecond + 3600;
  }

  /** A caller passing the count 60 (minutes) as the Duration: the log shows an
      hour ahead, and the claim expires 60 nanoseconds after issue. */
  lemma ClaimAndLogOfMinuteCount(now: int)
    ensures LoggedExpiry(now, 60) == now + 3600 * NanosPerSecond
    ensures IssuedClaims("admin", now, 60).exp == UnixSeconds(now + 60)
  {
  }

  class AuthService {
    /** Only read after construction: every lookup is under the read lock. */
    const users: map<string, string>
    const jwtKey: string
    /** The token lifetime as the caller passes it: a time.Duration, whose
        unit is the nanosecond. */
    const tokenTTL: int

    /** NewAuthService: the fixed demo table, the key and the lifetime. */
    constructor (jwtKey: string, tokenTTL: int)
      ensures users == DemoUsers
      ensures users.Keys == {"admin", "user"}
      ensures this.jwtKey == jwtKey && this.tokenTTL == tokenTTL
    {
      users := DemoUsers;
      this.jwtKey := jwtKey;
      this.tokenTTL := tokenTTL;
    }

    predicate CredentialsMatch(username: string, password: string) {
      username in users && users[username] == password
    }

    /** Authenticate at clock reading `now`, signing with `sign(key, claims)`. The
        credentials are refused exactly when the user is unknown or the password
        differs; otherwise the signer's token, or its error, is returned. */
    method Authenticate(username: string, password: string, now: int,
                        sign: (string, Claims) -> Result<string, string>)
      returns (r: Result<string, AuthError>)
      ensures r == Failure(InvalidCredentials) <==> !CredentialsMatch(username, password)
      ensures CredentialsMatch(username, password) ==>
        var signed := sign(jwtKey, IssuedClaims(username, now, tokenTTL));
        r == (if signed.Success? then Success(signed.value) else Failure(CreatingToken(signed.error)))
    {
      var found := username in users;
      if !found || users[username] != password {
        return Failure(InvalidCredentials);
      }
      var claims := IssuedClaims(username, now, tokenTTL);
      var signed := sign(jwtKey, claims);
      if signed.Failure? {
        return Failure(CreatingToken(signed.error));
      }
      r := Success(signed.value);
    }
  }

  /** The demo table accepts exactly its two pairs. */
  lemma DemoCredentials(s: AuthService, username: string, password: string)
    requires s.users == DemoUsers
    ensures s.CredentialsMatch(username, password) <==>
      (username == "admin" && password == "password123") ||
      (username == "user" && password == "user12345")
  {
  }
}
