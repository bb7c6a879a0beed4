/**
 A model of the access-token cache of ForgeAuthService: a time-based read-through
 cache over an OAuth 2.0 client-credentials token request (section 4.4 of RFC 6749,
 with `expires_in` in seconds as in section 5.1).

 The network and the clock stay outside the model. Each `fetch` to the token
 endpoint becomes a FetchOutcome passed in by the caller, and each reading of the
 clock becomes an integer count of milliseconds.
 */
module ForgeAuth {

  datatype Option<T> = None | Some(value: T)

  /** The JSON body of a successful token response. */
  datatype AuthToken = AuthToken(accessToken: string, tokenType: string, expiresIn: int)

  /** What one request to the token endpoint came to: a parsed token; an ok response
      whose JSON body is `null`, which is assigned before reading a field of it throws;
      or a failure that throws before any field is written (a non-ok status, a `fetch`
      that threw, or a body that did not parse). */
  datatype FetchOutcome = Ok(token: AuthToken) | NullBody | Failed

  /** A cached token is dropped this many milliseconds before it really expires. */
  const RefreshSkewMs: int := 60000

  const MsPerSecond: int := 1000

  /** What the service hands out when both token requests have failed. */
  const FallbackToken: string := "demo-token-fallback"

  /** The two fields of the service, as a value. */
  datatype CacheState = CacheState(tokenCache: Option<AuthToken>, tokenExpiry: int)

  /** The fields of a newly constructed service. */
  const Initial: CacheState := CacheState(None, 0)

  /** The fast-path test: a token is cached and the clock is still before its expiry. */
  predicate IsHit(c: CacheState, now: int)
  {
    c.tokenCache.Some? && now < c.tokenExpiry
  }

  /** The expiry recorded for a token whose response was read at `receivedAt`. */
  function ExpiryFor(t: AuthToken, receivedAt: int): (e: int)
  {
    receivedAt + t.expiresIn * MsPerSecond - RefreshSkewMs
  }

  /** The second token request, made only after the first one failed. It reads and
      writes no field of the service, and it never fails: a null body throws when its
      `access_token` is read, and that is caught like every other failure. */
  function GetWorkingToken(secondary: FetchOutcome): (r: string)
    ensures secondary.Ok? ==> r == secondary.token.accessToken
    ensures !secondary.Ok? ==> r == FallbackToken
  {
    match secondary
    case Ok(t) => t.accessToken
    case NullBody => FallbackToken
    case Failed => FallbackToken
  }

  /** Everything one call of getAccessToken depends on besides the cache: the clock
      at the cache check, the clock once the first response has been read, and the
      outcomes of the first and the second token request. */
  datatype Request = Request(now: int, receivedAt: int, primary: FetchOutcome, secondary: FetchOutcome)

  /** Where the returned token came from. */
  datatype Source = Cache | Primary | Secondary | Placeholder

  /** The returned token, where it came from, and the cache afterwards. */
  datatype Step = Step(token: string, source: Source, after: CacheState)

  /** One call of getAccessToken on a service whose fields are `c`. */
  function Respond(c: CacheState, q: Request): (r: Step)
    // the cache answers exactly when it holds a token that has not expired
    ensures r.source == Cache <==> IsHit(c, q.now)
    ensures r.source == Cache ==> r.token == c.tokenCache.value.accessToken && r.after == c
    // otherwise the first request decides, and only its success is cached
    ensures r.source == Primary <==> !IsHit(c, q.now) && q.primary.Ok?
    ensures r.source == Primary ==>
              r.token == q.primary.token.accessToken &&
              r.after == CacheState(Some(q.primary.token), ExpiryFor(q.primary.token, q.receivedAt))
    // the fallback is reached only after a miss and a failed first request
    ensures r.source == Secondary <==> !IsHit(c, q.now) && !q.primary.Ok? && q.secondary.Ok?
    ensures r.source == Secondary ==> r.token == q.secondary.token.accessToken
    ensures r.source == Placeholder <==> !IsHit(c, q.now) && !q.primary.Ok? && !q.secondary.Ok?
    ensures r.source == Placeholder ==> r.token == FallbackToken
    // a fallback never writes the expiry, and it keeps the cached token unless the
    // first body was null, which was stored before the throw
    ensures r.source == Secondary || r.source == Placeholder ==>
              r.after.tokenExpiry == c.tokenExpiry &&
              r.after.tokenCache == if q.primary.NullBody? then None else c.tokenCache
  {
    if IsHit(c, q.now) then
      Step(c.tokenCache.value.accessToken, Cache, c)
    else
      match q.primary
      case Ok(t) =>
        Step(t.accessToken, Primary, CacheState(Some(t), ExpiryFor(t, q.receivedAt)))
      case NullBody =>
        Fallback(CacheState(None, c.tokenExpiry), q.secondary)
      case Failed =>
        Fallback(c, q.secondary)
  }

  /** The catch branch of getAccessToken: the fields stay as the failed attempt left them. */
  function Fallback(c: CacheState, secondary: FetchOutcome): (r: Step)
  {
    Step(GetWorkingToken(secondary), if secondary.Ok? then Secondary else Placeholder, c)
  }

  /** A newly constructed service never answers its first call from the cache. */
  lemma FirstCallFetches(q: Request)
    ensures Respond(Initial, q).source != Cache
    ensures q.primary.Ok? ==> Respond(Initial, q).source == Primary
  {
  }

  /** On a hit the answer does not depend on either token request. */
  lemma HitIgnoresFetches(c: CacheState, q1: Request, q2: Request)
    requires IsHit(c, q1.now) && q1.now == q2.now
    ensures Respond(c, q1) == Respond(c, q2)
    ensures Respond(c, q1) == Step(c.tokenCache.value.accessToken, Cache, c)
  {
  }

  /** The answer of a successful first request does not depend on the second one. */
  lemma PrimaryIgnoresSecondary(c: CacheState, q1: Request, q2: Request)
    requires !IsHit(c, q1.now) && q1.primary.Ok?
    requires q2 == q1.(secondary := q2.secondary)
    ensures Respond(c, q1) == Respond(c, q2)
  {
  }

  /** A token read at time T is served by the following call exactly when that call
      comes before T + expires_in * 1000 - 60000. */
  lemma RefreshSkew(c: CacheState, q: Request, next: int)
    requires !IsHit(c, q.now) && q.primary.Ok?
    ensures IsHit(Respond(c, q).after, next) <==>
              next < q.receivedAt + q.primary.token.expiresIn * 1000 - 60000
  {
  }

  /** A token whose lifetime does not exceed the skew is never served from the cache
      by a call that starts after its response was read. */
  lemma ShortLivedTokenNotServed(c: CacheState, q: Request, next: int)
    requires !IsHit(c, q.now) && q.primary.Ok?
    requires q.primary.token.expiresIn * MsPerSecond <= RefreshSkewMs
    requires q.receivedAt <= next
    ensures !IsHit(Respond(c, q).after, next)
  {
  }

  /** A null first body clears the cached token and keeps the expiry, so a later call
      misses whatever its clock says. */
  lemma NullBodyClearsCache(c: CacheState, q: Request, next: int)
    requires !IsHit(c, q.now) && q.primary.NullBody?
    ensures Respond(c, q).after == CacheState(None, c.tokenExpiry)
    ensures !IsHit(Respond(c, q).after, next)
  {
  }

  /** After a first request that throws before writing a field, the fallback leaves the
      cache as it was, so a later call misses again. */
  lemma FallbackNotCached(c: CacheState, q: Request, next: int)
    requires !IsHit(c, q.now) && q.primary.Failed?
    requires q.now <= next
    ensures Respond(c, q).after == c
    ensures !IsHit(Respond(c, q).after, next)
  {
  }

  /** The service object. Its two fields are the only state, and only GetAccessToken
      writes them. */
  class ForgeAuthService {
    var tokenCache: Option<AuthToken>
    var tokenExpiry: int
    /** The clock reading at which the cached token's response was read. */
    ghost var issuedAt: int

    /** A cached token carries the expiry computed from its lifetime and the time it
        arrived. With no token cached the expiry is whatever was last written: 0 at
        first, or the expiry of a token that a null body has since replaced. */
    ghost predicate Valid()
      reads this
    {
      tokenCache.Some? ==> tokenExpiry == ExpiryFor(tokenCache.value, issuedAt)
    }

    function State(): (c: CacheState)
      reads this
    {
      CacheState(tokenCache, tokenExpiry)
    }

    constructor ()
      ensures Valid() && State() == Initial
    {
      tokenCache := None;
      tokenExpiry := 0;
      issuedAt := 0;
    }

    /** Returns a bearer token and never fails. `now` is the clock at the cache check,
        `receivedAt` the clock once the first response has been read; `primary` and
        `secondary` are what the two token requests would come to if they were made. */
    method GetAccessToken(now: int, receivedAt: int, primary: FetchOutcome, secondary: FetchOutcome)
      returns (token: string)
      requires Valid()
      modifies this
      ensures Valid()
      ensures var r := Respond(old(State()), Request(now, receivedAt, primary, secondary));
              token == r.token && State() == r.after
      ensures issuedAt == if !old(IsHit(State(), now)) && primary.Ok? then receivedAt else old(issuedAt)
      // a token served from the cache is served before its arrival time plus its
      // lifetime less the skew
      ensures old(IsHit(State(), now)) ==> tokenCache.Some? && now < ExpiryFor(tokenCache.value, issuedAt)
    {
      if tokenCache.Some? && now < tokenExpiry {
        return tokenCache.value.accessToken;
      }
      match primary
      case Ok(tokenData) =>
        tokenCache := Some(tokenData);
        tokenExpiry := receivedAt + tokenData.expiresIn * MsPerSecond - RefreshSkewMs;
        issuedAt := receivedAt;
        token := tokenData.accessToken;
      case NullBody =>
        tokenCache := None;
        token := GetWorkingToken(secondary);
      case Failed =>
        token := GetWorkingToken(secondary);
    }
  }
}
