# ForgeAuthService token cache, in Dafny

This project models the access-token cache of `ForgeAuthService`. The service obtains
an OAuth 2.0 client-credentials token (section 4.4 of RFC 6749; `expires_in` in seconds
as in section 5.1) for the Autodesk viewer. The model covers:

- the `AuthToken` record;
- the two fields `tokenCache` and `tokenExpiry`;
- `getAccessToken`, with its fast path, its primary token request and its fallback;
- the private `getWorkingToken`.

Files:

- `forge_auth_service.dfy` (module `ForgeAuth`) has the data, the constants and the
  single-call specification `Respond`. It also has the class `ForgeAuthService`, whose
  method `GetAccessToken` reads and overwrites the two fields as the source does.
  `GetAccessToken` is proved against `Respond`.
- `forge_auth_runs.dfy` (module `ForgeAuthRuns`) covers sequences of calls on one
  service, as the single exported instance receives them. It proves, by induction over
  the calls, what the cache serves and keeps. `Run` is a function over the fields. Its link
  to the class is per-call composition: each `GetAccessToken` call is `Respond` on the
  current fields, and `RunAnswersFromFields` shows that each step of `Run` is `Respond` on
  the fields the earlier calls left. The client method `NewServiceTwoCalls` carries out
  this composition for two calls on a new object.

Clock and network are parameters. Each `Date.now()` reading is an integer count of
milliseconds. One call reads the clock twice: `now` at the cache check (line 15) and
`receivedAt` after the first response has been read (line 46). Each `fetch` plus its
`response.json()` becomes a `FetchOutcome` with three cases:

- `Ok(token)`: an ok response whose body parsed to a token record.
- `Failed`: a non-ok status, a thrown `fetch` or a body that does not parse. Each of
  these throws before any field is written.
- `NullBody`: an ok response whose JSON body is `null`. In the first request, line 45
  stores `null` in `tokenCache`. Line 46 then throws reading `expires_in`, so
  `tokenExpiry` keeps its old value and the call falls back. In the second request, the
  throw at line 77 is caught and the placeholder is returned.

On failure and under concurrency the code behaves as follows:

- On failure, the code does not raise an error. It makes a second request with other
  credentials, and if that fails too it returns the literal `"demo-token-fallback"`.
  The model has both steps. `Respond` proves that the call always returns a string.
- The code has no single-flight de-duplication of concurrent refreshes, no request
  timeout, and no check that the returned token is non-empty. None of these is modelled.

## Model

| member | source | states |
|---|---|---|
| ForgeAuth.GetWorkingToken | src/services/ForgeAuthService.ts:58-86 | The fallback request never fails. It returns the second response's access token, or exactly `"demo-token-fallback"` when that request fails or its body is `null`. It is a function of its outcome alone, so it cannot read or write the cache fields. |
| ForgeAuth.Respond | src/services/ForgeAuthService.ts:13-55 | One call answers from the cache exactly when a token is cached and `now < tokenExpiry`, and then leaves the fields alone. Otherwise a successful first request is returned and stored, with expiry `receivedAt + expires_in*1000 - 60000`. After a failed first request, the fallback is reached and the expiry is unchanged. The cached token is unchanged too, except after a `null` body, which clears it. The placeholder is returned exactly when the cache misses and both requests fail. |
| ForgeAuth.FirstCallFetches | src/services/ForgeAuthService.ts:8-17 | A new service (no token, expiry 0) never answers its first call from the cache. If the first request succeeds, that call returns its token. |
| ForgeAuth.HitIgnoresFetches | src/services/ForgeAuthService.ts:15-17 | On a cache hit, the answer and the new fields do not depend on either request's outcome. The call returns the cached access token and changes nothing. |
| ForgeAuth.PrimaryIgnoresSecondary | src/services/ForgeAuthService.ts:42-53 | After a miss, a successful first request decides the answer whatever the fallback request would have returned. |
| ForgeAuth.RefreshSkew | src/services/ForgeAuthService.ts:15-46 | A token read at time T is served by the next call exactly when that call's clock is below `T + expires_in*1000 - 60000`. |
| ForgeAuth.ShortLivedTokenNotServed | src/services/ForgeAuthService.ts:15-46 | Suppose `expires_in*1000 <= 60000`. Then the stored token is not served to a call that starts at or after the moment its response was read. |
| ForgeAuth.NullBodyClearsCache | src/services/ForgeAuthService.ts:42-53 | After a miss, a `null` first body leaves no token cached and the old expiry in place. A later call therefore misses, whatever its clock. |
| ForgeAuth.FallbackNotCached | src/services/ForgeAuthService.ts:50-86 | When the first request throws before writing a field, the fields stay as they were. A later call therefore misses again. |
| ForgeAuth.ForgeAuthService.constructor | src/services/ForgeAuthService.ts:7-9 | A new service has no cached token and expiry 0, and satisfies the object invariant. |
| ForgeAuth.ForgeAuthService.GetAccessToken | src/services/ForgeAuthService.ts:13-55 | The method returns the token `Respond` gives for the old fields, the two clock readings and the two outcomes. The new fields are exactly those `Respond` gives. It keeps the invariant that a cached token's expiry is its arrival time plus `expires_in*1000 - 60000`. From that invariant it proves that a token answered from the cache is answered before that instant. |
| ForgeAuthRuns.NewServiceTwoCalls | src/services/ForgeAuthService.ts:13-89 | Two `getAccessToken` calls on a newly constructed service return exactly the tokens `Run` gives from the initial fields for those two calls. |
| ForgeAuthRuns.RunAnswersFromFields | src/services/ForgeAuthService.ts:13-55 | Each call in a sequence is answered exactly as one call on the fields the earlier calls left. |
| ForgeAuthRuns.FailuresKeepCache | src/services/ForgeAuthService.ts:38-54 | Any number of calls whose first request throws before writing a field leave the cache as it was after every call. A previously cached token survives them. |
| ForgeAuthRuns.CacheServesWithinWindow | src/services/ForgeAuthService.ts:15-17 | Every call before the expiry is answered from the cache with the same token and leaves the fields unchanged, whatever the network would have said. |
| ForgeAuthRuns.ServedOnlyWithinWindow | src/services/ForgeAuthService.ts:15-46 | Every cache answer in any sequence of calls comes from one of two places. If no earlier call stored a token, it is the token cached at the start, served before its expiry. Otherwise it is the token stored by the latest earlier successful first request, served before `T + expires_in*1000 - 60000`, where T is when that token arrived. |
| ForgeAuthRuns.CacheHoldsLatestPrimaryToken | src/services/ForgeAuthService.ts:42-86 | Whenever a token is cached after some call, there are two cases. If no call so far stored a token, the fields are as they started. Otherwise they are exactly what the latest successful first request stored. Fallback tokens are never cached. |
| ForgeAuthRuns.ShortLivedNeverServed | src/services/ForgeAuthService.ts:15-46 | Assume the cache is stale for all the calls, the clock does not go backwards, and every token obtained has `expires_in*1000 <= 60000`. Then no call is answered from the cache. |
| ForgeAuthRuns.NewServiceShortLivedAlwaysFetches | src/services/ForgeAuthService.ts:8-46 | Under the same clock and lifetime assumptions, a new service answers no call from the cache. |

## Left out

- Network I/O: the `fetch` calls, their URLs, headers, form bodies, scope and client credentials (src/services/ForgeAuthService.ts:21-36, 61-72). Each request is an abstract outcome passed in by the caller.
- The clock: `Date.now()` is replaced by the integer parameters `now` and `receivedAt`. The model does not assume that the clock is monotonic. Only the lemmas that need it assume it, through `Chronological` or an explicit ordering `requires`.
- Floating-point numbers: JavaScript numbers are doubles. The model uses unbounded integers. These agree with the source when `expires_in` is an integer and `Date.now() + expires_in*1000` stays within ±2^53. Beyond that, line 46 rounds and the source's `tokenExpiry` can differ from `ExpiryFor`. A fractional `expires_in` cannot be represented in the model.
- Malformed but parseable non-null bodies: if the JSON lacks `expires_in`, the source stores `NaN` as the expiry, and every later cache check misses. If it lacks `access_token`, the source returns `undefined`. The model assumes that a parsed non-null body carries both fields. A `null` body is modelled, as `NullBody`.
- Console logging (src/services/ForgeAuthService.ts:48, 51, 76, 82).
- Concurrency: calls interleaving across `await`. The model runs calls one after another. The source has no de-duplication of concurrent refreshes, and none is added.
- src/ForgeViewer.tsx, src/App.tsx and upload.js are not part of this model. They are UI glue over the vendor's closed viewer runtime and a shell script of REST calls.
