# Verified model of the video streaming service

A Dafny model of the stateful parts of a video streaming backend, written in Go,
and of its TypeScript client, with proofs of what they guarantee over whole runs.
`dafny verify dfyconfig.toml` checks all of it.

The clock is an integer number of milliseconds that never goes back. Redis is a map
whose entries carry deadlines, tables and files are maps, sets or sequences, and the
answers of the outside world (a failed insert, an ffmpeg exit code, a dead worker, a
Redis command that fails on its own, a file that cannot be removed) are parameters or
steps, so the theorems hold for all of them; the failures not modelled are listed under
"Left out".
Each component that updates state is a class whose methods are proved to compute a
specification function; the theorems about runs are proved of that function.

| files | component |
|---|---|
| `Tokens`, `Sessions`, `Users`, `AuthService`, `AuthRuns`, `SignInRuns` | access and refresh tokens, the revocation denylist, bans and roles |
| `MailTokens`, `Base64Url`, `EmailService`, `EmailRuns` | verification and password-reset links |
| `LocalCache`, `LocalCacheRuns`, `CacheService` | the two-tier cache |
| `RateLimiter`, `RateLimiterRuns`, `ConcurrencyLimiter` | request limits and concurrency slots |
| `Sql`, `QueryBuilder`, `VideoRepository`, `SearchRepository`, `Pagination`, `LikePattern` | filters compiled to SQL, paging, LIKE escaping |
| `Paths`, `Storage`, `StorageBackends` | storage keys on the file-system and object-store backends |
| `VideoRecords`, `Transcoding`, `TranscodingRuns`, `MasterPlaylist`, `Sublists` | the transcoding ladder and the life of a video |
| `Worker`, `WorkerRuns` | staging, uploading and cleaning up around a transcode |
| `ViewTracker` | view deduplication and counting |
| `Playlist`, `PlaylistRuns` | playlist order under concurrent transactions |
| `ClientRefresh`, `ClientRefreshRuns` | single-flight token refresh in the client |
| `Basics`, `Decimal`, `Redis` | shared datatypes, number printing, Redis commands |

## What the code does not do

Where a promise fails, the model keeps the code as it is and a lemma says exactly when it
holds; where that does not already show an input on which it fails, another lemma does.

- Logout-all. The service's own README (line 358) promises that every session ends on
  every device. The marker lives for `maxTokenTTL`, and `internal/app/app.go:119` passes
  the access-token lifetime there, so a refresh token issued earlier is redeemable again
  once the marker lapses (`RefreshTokenOutlivesLogoutAll`). The guarantee holds for
  exactly those tokens that expire no later than the marker (`LogoutAllHoldsExactlyWhen`).
  A password reset or change ends sessions on the same terms, and ends none while Redis
  cannot be reached (`NewPasswordHoldsExactlyWhen`).
- Logout of one token holds exactly for tokens that carry a jti and an exp
  (`LogoutHoldsExactlyWhen` in `AuthRuns`); every token the service mints carries both.
- A concurrency counter is forgotten when a handler outlives it by a minute without a new
  arrival (`SlowHandlerIsForgotten`), and a release that Redis never sees takes a slot away
  (`LostReleaseTakesASlot`); it is exact exactly when neither happens
  (`CounterIsExactExactlyWhen` in `ConcurrencyLimiting`).
- Rate-limit windows that are not whole seconds. Below a second, neighbouring windows
  share a counter (`CrowdedSecond`); above, the counter expires inside its window
  (`LapseWithin`). Windows have counters of their own exactly from a second up, counters
  are exact exactly for whole seconds, and the limits are kept exactly under the
  conditions of `WindowAdmitsTheLimitExactlyWhen` and `SlidingBoundHoldsExactlyWhen`.
- An insert of a view that fails after its half-hour window, or after a claim that never
  reached Redis, frees a key that another call holds, and a view is counted twice
  (`LateFailureDoubleCounts`); so is one that comes while Redis cannot be reached
  (`OutageDoubleCounts`). Claims stay spaced exactly as long as neither happens
  (`SpacedExactlyWhenNoKeyIsStolen`). A failed insert uses up the window only if its DEL is
  lost (`RefusedOnlyBesideAClaim`).
- The page offset is computed in 64 bits and wraps for huge page numbers
  (`HugePageNumberIsAnsweredWithPageOne`); it is right exactly when the product fits
  (`OffsetIsRightUnlessItOverflows`, `PageNumberIsRightExactlyWhen`).
- A cache write or deletion that bypasses the local tier leaves the old value readable
  for up to a minute (`BypassingWriteServesStaleValue`). Reads are exact exactly when each
  such step comes while the local tier serves nothing of the key, or the very value
  written (`ReadsAreExactExactlyWhen`).
- Storage keys that path cleaning would change are one file but two objects, exactly when
  they spell the same names (`UncleanKeysCollideLocally`). Deleting a prefix keeps the two
  backends alike exactly when no object is named by the prefix itself
  (`PrefixDeletionKeepsThemAlikeWhen`). A failed save on disk can destroy what the key
  held, or leave a part where there was nothing; `FailedSaveKeepsContentExactlyWhen` says
  exactly when it changes nothing.
- A worker that dies while transcoding, or cannot write the closing status, leaves the
  video in processing for good (`StrandedForGood`), and nothing else does
  (`StuckExactlyWhenStranded`). An execution makes a video ready exactly when some rung
  fits, so a source shorter than 360 lines never gets there
  (`ReadyExactlyWhenARungIsMade`, `ReadySourcesReachTheLowestRung`).
- A worker that dies while staging, or cannot remove the file after a failed copy, leaves
  part of the raw file, and the next delivery to that host transcodes that part
  (`CutShortCopyIsTranscoded`); what a host transcodes is the uploaded object exactly when
  neither has happened there (`TranscodesWhatWasUploadedExactlyWhen`).
- A failed attempt leaves its outputs on its host, and a redelivery there, after another
  host has stored the finished ones, uploads the old ones over them
  (`LeftoversBuryOutputs`). An output survives exactly when that has not happened to it
  (`OutputsSurviveExactlyWhen`).
- A redelivery to a host without the outputs returns nil without uploading anything
  (`AnotherHostReturnsWithoutOutputs`); `NilReturnStoresExactlyWhen` says what a nil
  return stores on whatever host.
- In the client, a refusal that arrives after a new sign-in drops the new refresh token
  (`StaleRefusalDropsANewToken`); the token dropped is the refused one exactly as long as
  the tokens have not been changed (`RefusalsDropTheRefusedTokenExactlyWhen`). An answer
  that arrives after a logout signs the client in again (`LateAnswerUndoesLogout`); a
  logout holds exactly when no refresh call is in flight (`LogoutHoldsExactlyWhen` in
  `ClientRefreshRuns`).
- Duration presets are inclusive at both ends: two of them select one video exactly when
  it lasts 240 or 1200 seconds (`PresetsShareOnlyTheirBounds`).

## Model

| member | source | states |
|---|---|---|
| `Tokens.SignedIsGenuine` | pkg/jwt/token.go:103-132 | a token minted now is stamped with the current millisecond and, although exp is in whole seconds, never validates beyond its lifetime |
| `Tokens.SignedIsUsable` | pkg/jwt/token.go:103-132 | a token names its bearer, role, type and jti, and validates for its issuer alone from its minting to within a second of its lifetime |
| `Tokens.TypesAreKeptApart` | pkg/jwt/token.go:134-167 | only a refresh token passes as one, and it passes as nothing else |
| `Sessions.KeysAreDistinct` | internal/service/session_service.go:15-23 | per-token and per-user denylist keys never meet, and each names one token or user |
| `Sessions.SessionService.RevokeToken` | internal/service/session_service.go:48-68 | writes an entry that lives as long as the token, none for an expired one, and refuses an empty jti |
| `Sessions.SessionService.RevokeAllUserSessions` | internal/service/session_service.go:78-85 | overwrites the user's minimum issue time with the next millisecond, for maxTokenTTL |
| `Sessions.SessionService.IsRevoked` | internal/service/session_service.go:94-115 | revoked when the jti is listed or the stamp precedes the cutoff; an unreadable cutoff or store is an error |
| `Users.UserRepository.Update` | internal/repository/postgres/user_repository.go:142-181 | writes every column but the ban columns of one live row, or nothing when the username or email is taken, so names stay unique and no update changes whether anybody is banned at any time |
| `Users.UserRepository.Create` | internal/repository/postgres/user_repository.go:96-128 | adds a row exactly when its username and address are free, and keeps both unique |
| `Users.UserRepository.BanUser` | internal/repository/postgres/user_repository.go:191-197 | a live row is banned at exactly the times before the end given, or for good, and nothing else changes |
| `Users.UserRepository.UnbanUser` | internal/repository/postgres/user_repository.go:199-205 | a live row is banned at no time, and nothing else changes |
| `AuthService.Service.Register` | internal/service/auth_service.go:70-92 | adds a row and mints a pair as RegistrationSucceedsExactlyWhen says |
| `AuthService.Service.Login` | internal/service/auth_service.go:99-132 | compares the password even for nobody, mints a pair as LoginSucceedsExactlyWhen says, and records the login if that can be written |
| `AuthService.Service.Refresh` | internal/service/auth_service.go:135-170 | mints an access token with the stored role only for a timely, unrevoked refresh token of a live, unbanned user |
| `AuthService.Service.RevokeByClaims` | internal/service/auth_service.go:206-219 | denylists a token by its jti until its own expiry; without a jti there is nothing to list |
| `AuthService.Service.Logout` | internal/service/auth_service.go:175-196 | denylists the access token and, if one is given and valid, the refresh token |
| `AuthService.Service.RevokeAllSessions` | internal/service/auth_service.go:202-204 | writes the user's cutoff or reports the store failure |
| `AuthService.Service.PrincipalFromRequest` | internal/middleware/auth.go:114-189 | authenticates a timely, unrevoked access token with a known role; an unreachable denylist fails closed or open as configured |
| `SignInRuns.RegistrationSucceedsExactlyWhen` | internal/service/auth_service.go:70-92 | a sign-up goes through exactly with acceptable input and a free name and address; it adds one row in the default role and signs its user in, any other changes nothing |
| `SignInRuns.LoginSucceedsExactlyWhen` | internal/service/auth_service.go:99-132 | a sign-in succeeds exactly on the right password of a live user under no ban; a refused one changes nothing, and a ban shows only to those who know the password |
| `SignInRuns.RefreshSucceedsExactlyWhen` | internal/service/auth_service.go:135-170 | a token is redeemed exactly if it is a fresh refresh token known to be unrevoked of a live user under no ban; it buys one access token in the stored role |
| `SignInRuns.AuthenticatedExactlyWhen` | internal/middleware/auth.go:114-189 | a request is let in exactly with a fresh token, not a refresh token, of a known role, that is known good, or not known bad where the switch fails open |
| `SignInRuns.LogoutTellsTheTruth` | internal/service/auth_service.go:172-219 | a logout that answers Ok has denied the tokens handed in; any other answer is a bad access token or an unreachable store |
| `SignInRuns.EveryTokenHasACause` | internal/service/auth_service.go:77-170 | in every run each token ever minted comes from a registration, a right password, or a good refresh token of its bearer |
| `SignInRuns.NobodyElseGetsTokens` | internal/service/auth_service.go:77-170 | until a user registers or gives the right password no token of theirs exists, whatever is presented |
| `SignInRuns.OnlyTheNewPasswordWorks` | internal/service/email_service.go:191-248 | after a reset or change, until the next, a live user under no ban is signed in exactly by the new password |
| `SignInRuns.UpdatesTakeEffect` | internal/service/auth_service.go:165-170 | a role or password written to a row counts from the next refresh and login on |
| `SignInRuns.DeletedGetNoTokens` | internal/repository/postgres/user_repository.go:183-188 | a deleted user gets no token ever again |
| `SignInRuns.DeletionLocksOut` | internal/service/auth_service.go:135-170 | and is locked out within one access-token lifetime |
| `SignInRuns.UnbanningLetsBackIn` | internal/domain/user.go:51-59 | lifting a ban lets the user in at once; a ban keeps them out until it ends by itself |
| `SignInRuns.NamesStayUnique` | internal/repository/postgres/user_repository.go:96-181 | usernames and addresses stay unique over every run |
| `AuthRuns.LogoutAllIsPermanent` | internal/service/session_service.go:78-115 | after logout-all every token of the user minted up to that millisecond is dead at every later instant it would validate, whatever happens in between, if it expires no later than the marker |
| `AuthRuns.LogoutAllSparesLaterTokens` | internal/service/session_service.go:70-85 | a token stamped after the cutoff's instant is not denied by it |
| `AuthRuns.LogoutAllHoldsExactlyWhen` | internal/service/session_service.go:78-85 | the guarantee holds for a token exactly when the token expires no later than the marker |
| `AuthRuns.NewPasswordEndsSessions` | internal/service/email_service.go:191-248 | after a password reset or change every earlier token of the user is dead at every later instant it would validate, whatever happens in between, if it expires no later than the marker |
| `AuthRuns.NewPasswordHoldsExactlyWhen` | internal/service/email_service.go:269-283 | a new password ends a session for good exactly when the store can be reached and the token expires no later than the marker |
| `AuthRuns.RefreshTokenOutlivesLogoutAll` | internal/app/app.go:116-119 | with the marker as short as an access token, an earlier refresh token comes back to life and authenticates |
| `AuthRuns.LogoutIsPermanent` | internal/service/auth_service.go:172-219 | a token handed to logout never again authenticates or is redeemed while it would validate |
| `AuthRuns.LogoutHoldsExactlyWhen` | internal/service/auth_service.go:206-219 | logout of a token is permanent exactly when the token has a jti and an exp |
| `AuthRuns.DenylistNeverOutgrowsTokens` | internal/service/session_service.go:31-68 | at every moment of every run there are no more live per-token entries than unexpired tokens |
| `AuthRuns.EveryTokenWasGranted` | internal/service/auth_service.go:223-259 | every token in the log was minted for a stored, unbanned user with the role it carries |
| `AuthRuns.AuthenticationIsRecent` | internal/middleware/auth.go:114-153 | an authenticated request rests on a grant less than an access-token lifetime old |
| `AuthRuns.BanTakesHold` | internal/domain/user.go:51-59 | a user banned since some moment is never authenticated an access-token lifetime later |
| `AuthRuns.RoleIsRecent` | internal/service/auth_service.go:231-259 | the role of a request was the stored role at some moment within the last access-token lifetime |
| `AuthRuns.PermanentBanStands` | internal/repository/postgres/user_repository.go:142-205 | only an unban or a new ban ends a permanent ban, no other operation of any run |
| `AuthRuns.PermanentBanLocksOut` | internal/service/auth_service.go:99-170 | a permanently banned user is locked out for good within one access-token lifetime |
| `Base64Url.DecodingUndoesEncoding` | internal/service/email_service.go:315 | every byte string survives unpadded base64url (section 5 of RFC 4648) and back |
| `Base64Url.OneSpellingPerPayload` | internal/service/email_service.go:321-324 | for whole groups only the encoder's own spelling decodes to the bytes, line breaks aside |
| `Base64Url.AlphabetIsUrlSafe` | internal/service/email_service.go:315 | the characters are those of table 2 of RFC 4648 |
| `Base64Url.GroupsAreNumbers` | internal/service/email_service.go:315 | a group of characters is the number its bytes are, filled up with zeros |
| `MailTokens.MailedTokenReadsBack` | internal/service/email_service.go:305-331 | parsing a mailed token gives back its user and the digest that was stored, for all ids and secrets |
| `MailTokens.AcceptedExactlyWhenMailed` | internal/service/email_service.go:320-331 | a token is accepted exactly when it spells some id followed by some secret, line breaks aside |
| `MailTokens.MailedTokensAreDistinct` | internal/service/email_service.go:305-316 | no two id and secret pairs share a token |
| `EmailService.EmailService.SendVerificationEmail` | internal/service/email_service.go:90-124 | stores the digest of a new secret for an unverified user, even if the mail then fails, and refuses others |
| `EmailService.EmailService.LookupByToken` | internal/service/email_service.go:253-267 | a malformed token and an unknown user are one and the same error |
| `EmailService.EmailService.VerifyEmail` | internal/service/email_service.go:128-143 | verifies exactly on a matching digest, and clears it |
| `EmailService.EmailService.RequestPasswordReset` | internal/service/email_service.go:149-186 | replaces digest and expiry of a registered user and leaves everything alone otherwise |
| `EmailService.EmailService.ResetPassword` | internal/service/email_service.go:191-217 | succeeds only on a matching, unexpired digest and an acceptable password, clears the token and ends every session |
| `EmailService.EmailService.ChangePassword` | internal/service/email_service.go:222-248 | on the right current password sets the new one, clears any reset token and ends every session |
| `EmailRuns.RunIsRecorded` | internal/domain/user.go:129-146 | in every run the token columns hold exactly the newest unvoided token of each kind |
| `EmailRuns.ResetSucceedsExactlyWhen` | internal/service/email_service.go:191-217 | a reset goes through exactly for the newest unvoided token of a live account before its expiry, with an acceptable password |
| `EmailRuns.VerificationSucceedsExactlyWhen` | internal/service/email_service.go:128-143 | verification goes through exactly for the newest unvoided token of a live account |
| `EmailRuns.TokensWorkOnce` | internal/service/email_service.go:126-217 | once a token has worked, no spelling of it works at any later point of the run |
| `EmailRuns.OnlyTheNewestWorks` | internal/service/email_service.go:87-115 | a token that works has no newer one of its kind, nor was it voided |
| `EmailRuns.PasswordChangeVoidsResetTokens` | internal/service/email_service.go:219-248 | a reset link issued before a password change never works after it |
| `EmailRuns.NewPasswordStands` | internal/service/email_service.go:191-248 | after a reset or change goes through the stored hash is the new one until the next reset, change or update of that user |
| `EmailRuns.PasswordsChangeExactlyWhen` | internal/service/email_service.go:191-248 | a step puts the new hash into the row when it goes through, and no other step but an update of that user touches a hash |
| `EmailRuns.VerifiedExactlyWhen` | internal/service/email_service.go:128-143 | over any stretch of a run an address is verified at the end exactly if it was, or a link for it worked, registrations and updates aside |
| `EmailRuns.ChangeSucceedsExactlyWhen` | internal/service/email_service.go:222-248 | a change goes through exactly on the current password of a live user and an acceptable new one, and changes the password and the reset token only |
| `EmailRuns.ResetRefusals` | internal/service/email_service.go:191-217 | the password policy is told only to those whose token would do; a refusal changes nothing, a reset the password and the token only |
| `EmailRuns.SendingSucceedsExactlyWhen` | internal/service/email_service.go:90-124 | a verification mail goes to live users not yet verified; the token replaces the one before and stays if the mail is lost |
| `EmailRuns.VerifyingChanges` | internal/service/email_service.go:128-143 | a working link changes the flag and the token only, any other nothing |
| `EmailRuns.RequestingChanges` | internal/service/email_service.go:149-186 | a reset request changes the token and its expiry of a live user only |
| `LocalCaching.LocalCache.Get` | internal/cache/cache.go:100-118 | serves entries up to their expiry and drops those past it |
| `LocalCaching.LocalCache.Set` | internal/cache/cache.go:120-134 | overwriting never evicts; an insert into a full cache loses one entry of minimal expiry and no other |
| `LocalCaching.LocalCache.EvictOldestLocked` | internal/cache/cache.go:142-156 | removes an entry of minimal expiry for whatever order the map is visited in, the empty key included |
| `LocalCaching.LocalCache.Sweep` | internal/cache/cache.go:80-98 | removes exactly the expired entries |
| `LocalCaching.SweptAndLookedExactly` | internal/cache/cache.go:80-118 | a sweep leaves just what has not expired, a look drops just the entry it finds expired, and what it answers is the live value |
| `LocalCacheRuns.NeverOverCapacity` | internal/cache/cache.go:120-156 | no run ever holds more than max(1, max) entries |
| `LocalCacheRuns.EntriesLeaveForAReason` | internal/cache/cache.go:80-162 | an entry stays, unchanged, until it is overwritten, deleted, expired or the oldest victim of an insert |
| `CacheService.Cache.Get` | internal/cache/cache.go:171-187 | a miss reads Redis and keeps the value locally for a minute |
| `CacheService.Cache.Set` | internal/cache/cache.go:189-208 | writes Redis first and the local tier for a minute at most, only if asked and only if Redis took it |
| `CacheService.Cache.Delete` | internal/cache/cache.go:210-218 | removes the local entry even when Redis cannot be reached |
| `CacheService.Cache.DeletePattern` | internal/cache/cache.go:220-244 | removes from Redis every key some scan page returned, and nothing locally |
| `CacheService.NothingOlderThanAMinute` | internal/cache/cache.go:171-244 | whatever came before, a value returned was the live Redis value of the key within the last minute |
| `CacheService.ReadsAreExactExactlyWhen` | internal/cache/cache.go:171-244 | over any run from an empty cache, whatever is read of a key at any moment is the value last put there if and only if no bypassing write, pattern deletion or outside write comes while the local tier serves another value |
| `CacheService.ReadsAreExact` | internal/cache/cache.go:171-218 | in particular, if every write uses both tiers and nothing bypasses them, a hit is exactly the last value set |
| `CacheService.WritesAreReadBack` | internal/cache/cache.go:171-208 | whatever comes between, a value Redis took is what every read within its lifetime answers while Redis can be reached, until the key is written again |
| `CacheService.WritesAreKept` | internal/cache/cache.go:189-208 | a write is in Redis for its lifetime, five minutes by default, and locally for that or a minute, and no longer |
| `CacheService.ReadsAnswer` | internal/cache/cache.go:171-187 | a read answers from the local tier, else from Redis, else with the error; what came from Redis is then served locally for a minute |
| `CacheService.BypassingWriteServesStaleValue` | internal/cache/cache.go:189-208 | one write that skips the local tier makes a read return the value before it |
| `RateLimiting.RateLimiter.Hit` | internal/middleware/rate_limiter.go:109-133 | increments the window's counter, renews its expiry, and decides on the incremented count |
| `RateLimiting.RateLimiter.Allow` | internal/middleware/rate_limiter.go:102-134 | counts the request in its window and answers whether the count is within requests plus burst |
| `RateLimiting.WindowKeysSeparate` | internal/middleware/rate_limiter.go:102-107 | with windows of a second or more, two requests share a counter exactly when they share key and window |
| `RateLimiting.WindowsHaveTheirOwnKeysExactlyWhen` | internal/middleware/rate_limiter.go:102-107 | for any rule, every window has a counter key of its own exactly when windows last a second or more |
| `RateLimiting.RetryAfterReachesLaterWindow` | internal/middleware/rate_limiter.go:172-174 | waiting the advertised seconds always lands in a later window, and no longer than to the second is asked for |
| `RateLimiting.RulesHaveTheirOwnKeys` | internal/middleware/rate_limiter.go:107 | rules whose names have no colon never share a counter |
| `RateLimiting.ResetInEndsTheWindow` | internal/middleware/rate_limiter.go:102-133 | ResetIn is just the time until the next window begins |
| `RateLimiting.RemainingCountsDown` | internal/middleware/rate_limiter.go:119-133 | the next request in the window is allowed exactly if Remaining is positive, and leaves one fewer |
| `RateLimiterRuns.StepsAreAllowsSteps` | internal/middleware/rate_limiter.go:102-134 | each step of a run counts and decides as Allow does |
| `RateLimiterRuns.CounterIsExactExactlyWhen` | internal/middleware/rate_limiter.go:107-126 | for any rule, the counter is the number of requests made in its window while Redis answers (one made during an outage is let through uncounted), at every point of every run, exactly when the window is of whole seconds |
| `RateLimiterRuns.WindowAdmitsTheLimitExactlyWhen` | internal/middleware/rate_limiter.go:31-134 | for any rule, every aligned window of every run admits, of the requests Redis counts, exactly the first Limit of a key, exactly when the window is of whole seconds or the limit is nothing |
| `RateLimiterRuns.DefaultWindowsAdmit` | internal/middleware/rate_limiter.go:31-46 | under each of the seven default rules a window admits its first requests up to 40, 80, 350, 7, 40, 400 and 15, and no others |
| `RateLimiterRuns.SlidingBoundHoldsExactlyWhen` | internal/middleware/rate_limiter.go:31-134 | for any rule, every interval of a window's length admits, of the requests Redis counts, at most twice the limit, exactly when the window is below a second, or at most a millisecond over whole seconds, or the limit is nothing |
| `RateLimiterRuns.TwiceTheLimitIsReached` | internal/middleware/rate_limiter.go:31-134 | around every boundary between windows of a second or more twice the limit really can get through |
| `ConcurrencyLimiting.ConcurrencyLimiter.Enter` | internal/middleware/rate_limiter.go:206-233 | counts the arrival, renews the minute if that command comes through, and rejects above the cap; an unreachable store lets it pass uncounted |
| `ConcurrencyLimiting.ConcurrencyLimiter.Leave` | internal/middleware/rate_limiter.go:220-228 | gives the slot back, or changes nothing and says nothing |
| `ConcurrencyLimiting.CounterIsExactExactlyWhen` | internal/middleware/rate_limiter.go:206-243 | in every interleaving, whichever commands fail, the counter equals the counted requests in flight, rejected ones included, exactly when it never lapses while any is in flight and no release is lost |
| `ConcurrencyLimiting.AdmittedExactlyBelowTheCap` | internal/middleware/rate_limiter.go:206-243 | as long as the counter is exact a request is admitted exactly while fewer than the cap are in flight |
| `ConcurrencyLimiting.CounterLivesAMinute` | internal/middleware/rate_limiter.go:216-228 | an arrival adds one and lets the counter live a minute more, a release takes one |
| `ConcurrencyLimiting.NeverTooManyRunning` | internal/middleware/rate_limiter.go:206-243 | while the counter does not lapse over a request in flight, releases lost or not, at most maxConcurrent handlers run at once beside those let through during an outage |
| `ConcurrencyLimiting.SlowHandlerIsForgotten` | internal/middleware/rate_limiter.go:206-243 | one handler that outlives the counter lets a second one in beside it |
| `ConcurrencyLimiting.LostReleaseTakesASlot` | internal/middleware/rate_limiter.go:220-241 | one release that fails shuts the caller out of a cap of one, with nothing in flight |
| `ViewTracking.DedupeKeysSeparate` | internal/service/view_tracker.go:83-93 | keys of different videos or viewers differ |
| `ViewTracking.ViewersAreToldApart` | internal/service/view_tracker.go:48-57 | a signed-in viewer is told by the user alone, an anonymous one by the session, and who has neither is nobody |
| `ViewTracking.AnalyticsRepository.RecordView` | internal/repository/postgres/analytics_repository.go:445-478 | row and counter change together or not at all, wherever the transaction breaks off |
| `ViewTracking.ViewTracker.TrackView` | internal/service/view_tracker.go:48-108 | counts unless the viewer's key is live, and deletes the key, whosever it is, when the view could not be stored and Redis answers |
| `ViewTracking.CountedViewsAreFarApart` | internal/service/view_tracker.go:83-108 | in every interleaving, slow inserts and outages included, two counted views of one video by one viewer are half an hour apart, unless one was counted without Redis or a release took a key that was not its own |
| `ViewTracking.SpacedExactlyWhenNoKeyIsStolen` | internal/service/view_tracker.go:83-108 | claims of one key are a window apart, and hold it for a window, throughout a run exactly when no release finds a key live that is not its own; with the views let through during outages included, exactly when there are none of those either |
| `ViewTracking.TimelyInsertsStealNothing` | internal/service/view_tracker.go:83-108 | while Redis answers every claim and no insert takes a whole window, all views of one viewer and video are spaced |
| `ViewTracking.OutageDoubleCounts` | internal/service/view_tracker.go:85-90 | a view whose claim cannot reach Redis is counted beside one counted at the same instant |
| `ViewTracking.StolenKeyDoubleCounts` | internal/service/view_tracker.go:99-105 | after a release that takes the key of a counted view, the same viewer's next view is counted within the window |
| `ViewTracking.RefusedOnlyBesideAClaim` | internal/service/view_tracker.go:83-108 | in every interleaving a viewer is refused only beside a call that claimed the key less than a window ago and has not given it back, so a failed insert uses up the window only if its DEL is lost |
| `ViewTracking.ViewCountsAlwaysMatch` | internal/repository/postgres/analytics_repository.go:445-478 | view_count equals the number of committed rows at every point of every interleaving |
| `ViewTracking.ViewCountsAreCommits` | internal/repository/postgres/analytics_repository.go:445-478 | view_count grows by one with each view counted of that video, and in no other way |
| `ViewTracking.LateFailureDoubleCounts` | internal/service/view_tracker.go:99-105 | an insert that fails after its window frees a key that is no longer its own, and a view is counted twice |
| `LikePattern.EscapedPatternMeansContains` | internal/repository/postgres/search_repository.go:218-234 | for every typed text the escaped LIKE pattern matches exactly the titles that contain it (section 9.7.1 of the PostgreSQL manual) |
| `LikePattern.EscapedPatternMeansContainsIgnoringCase` | internal/repository/postgres/search_repository.go:218-234 | the same under a per-character case fold for ILIKE |
| `LikePattern.PatternNeverErrs` | internal/repository/postgres/search_repository.go:218-234 | the pattern never ends in an unpaired backslash |
| `Sql.CompiledMeansAll` | internal/repository/postgres/search_repository.go:117-170 | in three-valued logic the compiled clause with its arguments selects exactly the rows on which every clause holds |
| `Sql.PagedQueryIsASlice` | internal/repository/postgres/video_repository.go:183-210 | LIMIT and OFFSET bind to the two arguments appended last and disturb none before |
| `QueryBuilding.Builder.Add` | internal/repository/postgres/search_repository.go:124-130 | binds the value and numbers the condition by it |
| `VideoRepository.BuildFilter` | internal/repository/postgres/video_repository.go:154-181 | renders exactly the set fields, a search of only blanks not being one |
| `VideoRepository.FilterKeepsItsMeaning` | internal/repository/postgres/video_repository.go:154-181 | the WHERE clause selects a row exactly when the filter wants it |
| `VideoRepository.List` | internal/repository/postgres/video_repository.go:183-210 | the rows returned are the page of the listing asked for |
| `VideoRepository.Count` | internal/repository/postgres/video_repository.go:212-220 | counts exactly the wanted rows |
| `VideoRepository.TrimmedExactlyWhen` | internal/repository/postgres/video_repository.go:169 | a search text is none exactly when it is all spaces, and unchanged exactly when it has none at its ends |
| `VideoRepository.TrimmingCutsSpaces` | internal/repository/postgres/video_repository.go:169 | trimming cuts off spaces at the ends, all of them and nothing else |
| `VideoRepository.ListedExactlyWhen` | internal/repository/postgres/video_repository.go:150-210 | a listing is an in-order selection of the table with every row that meets the fields set, and no other |
| `SearchRepository.BuildSearchWhere` | internal/repository/postgres/search_repository.go:117-170 | renders the fixed clauses and the set filters, the query text bound first |
| `SearchRepository.TextIsTheFirstArgument` | internal/repository/postgres/search_repository.go:113-127 | whatever filters follow, $1 is bound to the query text and the text condition refers to it |
| `SearchRepository.PresetsShareOnlyTheirBounds` | internal/domain/search.go:121-132 | two of the three named duration presets select one video exactly when it lasts 240 or 1200 seconds |
| `SearchRepository.SearchKeepsItsMeaning` | internal/repository/postgres/search_repository.go:117-170 | the WHERE clause finds a row exactly when the search wants it, public and ready always included |
| `SearchRepository.FoundExactlyWhen` | internal/repository/postgres/search_repository.go:117-170 | what a search finds is an in-order selection of the table with every public, ready, matching row that meets each filter set, and no other |
| `SearchRepository.Search` | internal/repository/postgres/search_repository.go:190-216 | the total is the number of rows found and the rows are the page asked for |
| `Pagination.OffsetIsRightUnlessItOverflows` | internal/handler/video_handler.go:285-300 | the offset is the intended one exactly when the product fits in 63 bits |
| `Pagination.PagesAskedFor` | internal/handler/video_handler.go:285-300 | anything but a number from 1 up asks for page 1 and 20 rows, and more than 100 rows are cut to 100 |
| `Pagination.PageNumberIsRightExactlyWhen` | internal/handler/video_handler.go:285-317 | a page is answered under its own number exactly when its offset fits in 63 bits |
| `Pagination.HugePageNumberIsAnsweredWithPageOne` | internal/handler/video_handler.go:285-317 | page 2^62 + 1, four rows a page, is answered as page one |
| `Pagination.PagesCoverTheListing` | internal/handler/video_handler.go:305-317 | pages 1 to TotalPages, end to end, are the whole listing |
| `Pagination.MetaTellsTheTruth` | internal/handler/video_handler.go:285-317 | page number, HasNext, HasPrevious and TotalPages agree with the rows on every page that does not overflow |
| `Storage.KeysAreConfined` | internal/storage/local.go:40-49 | every accepted key resolves to the segments of its root or mount followed by the names it spells |
| `Storage.EscapesAreRefused` | internal/storage/storage.go:72-86 | a step up is refused wherever it stands, and so are absolute keys, drive letters, backslashes and the empty key |
| `Storage.PlacesOfKeys` | internal/storage/local.go:40-49 | a key goes below what its area is mounted on, or below the root, and into its area's bucket |
| `Storage.CleanKeysPrintBack` | internal/storage/storage.go:66-86 | the clean keys are exactly the valid ones cleaning leaves unchanged |
| `Storage.MountsUnderTheRootAreDisjoint` | internal/storage/local.go:28-36 | areas mounted under their own names below the root never contain each other |
| `Storage.CleanKeysHaveTheirOwnPlace` | internal/storage/minio.go:89-99 | both backends send distinct clean keys to distinct places |
| `Storage.UncleanKeysCollideLocally` | internal/storage/local.go:40-49 | other keys share a file exactly when they spell the same names, while objects stay apart |
| `Storage.BackendsDeleteTheSameKeys` | internal/storage/local.go:136-146 | deleting a prefix removes the same keys on both backends, save the object named by the prefix |
| `Storage.DeletingOneVideoSparesOthers` | internal/storage/minio.go:168-193 | deleting one video's prefix touches another's file exactly when the ids are equal, however they begin |
| `StorageBackends.Local.Save` | internal/storage/local.go:53-88 | stores the content, or fails and leaves nothing under the key, or the part that arrived if that cannot be removed |
| `StorageBackends.SaveSucceedsExactlyWhen` | internal/storage/local.go:53-88 | a save succeeds exactly when the key is valid, the file could be created, and all of the content arrived in the size announced; the key then reads just that content |
| `StorageBackends.SavingSparesOtherKeys` | internal/storage/local.go:53-88 | whether it succeeds or fails, every other clean key reads as before |
| `StorageBackends.FailedSaveKeepsContentExactlyWhen` | internal/storage/local.go:53-88 | a failed save keeps what the key held exactly when the file was never created, or was removed where there was nothing, or was left just as it had been |
| `StorageBackends.FailedSaveKeepsThemAlikeExactlyWhen` | internal/storage/local.go:53-88 | and exactly then the disk still holds the same as the object store, which a failed save leaves alone |
| `StorageBackends.Local.DeletePrefix` | internal/storage/local.go:136-146 | removes what can be removed at or below the prefix and nothing else, and succeeds exactly when that is all of it |
| `StorageBackends.MinIO.Save` | internal/storage/minio.go:101-113 | stores the content or changes nothing |
| `StorageBackends.PutSucceedsExactlyWhen` | internal/storage/minio.go:101-113 | a save to the object store that goes through makes the key read the content, one that fails changes nothing, and no other clean key is touched |
| `StorageBackends.MinIO.DeletePrefix` | internal/storage/minio.go:168-193 | only objects under the prefix go, as many as there are requests before the one that fails; success means none is left, and that no request failed |
| `StorageBackends.SavingKeepsThemAlikeExactlyWhen` | internal/storage/minio.go:101-113 | after the same save to both, succeeding or failing on both, the two stores hold the same under every clean key exactly if it went through or the failure on disk did no harm |
| `StorageBackends.DeletingKeepsThemAlike` | internal/storage/minio.go:156-166 | so does deleting one |
| `StorageBackends.PrefixDeletionKeepsThemAlikeWhen` | internal/storage/minio.go:168-193 | deleting a prefix does so exactly when no object is named by the prefix itself |
| `MasterPlaylist.GenerateMasterPlaylist` | internal/service/transcoding_service.go:418-469 | writes one variant per quality whose playlist exists, in order |
| `MasterPlaylist.PlayersFindEveryQuality` | internal/service/transcoding_service.go:418-469 | reading the file by section 4.3.4.2 of RFC 8216 gives back exactly the variants written |
| `MasterPlaylist.AttributesReadBack` | internal/service/transcoding_service.go:451-462 | the bandwidth, width and height a player reads from a stream tag are the ones written, each in its place |
| `MasterPlaylist.PlayersLearnThePicture` | internal/service/transcoding_service.go:431-458 | players read 640x360, 854x480, 1280x720 and 1920x1080, at 0.8, 1.4, 2.8 and 5 Mbit/s |
| `MasterPlaylist.UrisNameTheRung` | internal/service/transcoding_service.go:350-358 | a rung is announced at the playlist in the directory its segments are written to |
| `MasterPlaylist.StreamsIdentifyQualities` | internal/service/transcoding_service.go:451-462 | different qualities are announced under different paths |
| `VideoRecords.VideoTable.MarkAsReady` | internal/repository/postgres/video_repository.go:251-259 | sets status, qualities, thumbnail and full progress of one row |
| `Transcoding.TranscodingService.ClimbLadder` | internal/service/transcoding_service.go:149-188 | makes exactly the rungs that fit and encode, in order, reporting progress that never goes back |
| `Transcoding.TranscodingService.Finish` | internal/service/transcoding_service.go:195-264 | publishes the streams and, if that can be written, makes the row ready with progress 100 |
| `Transcoding.TranscodingService.ProcessVideo` | internal/service/transcoding_service.go:92-271 | starts only from uploading or failed, ends as the outcomes and the success of each write decide, with progress within 0 to 100 that never decreases |
| `Transcoding.ProgressSteps` | internal/service/transcoding_service.go:147-258 | progress goes 0, 16, 33, 50, 66, 83 |
| `TranscodingRuns.StuckExactlyWhenStranded` | internal/service/transcoding_service.go:92-271 | between executions a video is in processing exactly when an execution that had started died or lost its closing status write; every other one ends ready or failed |
| `TranscodingRuns.StrandedForGood` | internal/service/transcoding_service.go:107-117 | a row left in processing stays there whatever is redelivered or retried |
| `TranscodingRuns.ReadyIsWatchable` | internal/service/transcoding_service.go:149-193 | in every run a ready video has an in-order, non-empty selection of rungs none taller than the source |
| `TranscodingRuns.ReadyIsForGood` | internal/handler/admin_handler.go:65-84 | no redelivery, death, admin retry or normalisation takes ready or a rendition away |
| `TranscodingRuns.ReadyExactlyWhenARungIsMade` | internal/service/transcoding_service.go:119-264 | a started execution makes the video ready exactly when probe, directory and the ready write succeed and some rung fits and encodes; it ends ready or failed exactly when its closing write succeeds |
| `TranscodingRuns.ReadyRowsTellWhatThereIs` | internal/service/transcoding_service.go:119-264 | a row made ready has exactly the rungs that fit and encoded, a master playlist under its key exactly if one was written, the thumbnail made, what was probed, and nothing else changed |
| `TranscodingRuns.AnswersTellTheStatus` | internal/service/transcoding_service.go:107-264 | the answer is Ok exactly when the execution has made the row ready, and WrongStatus exactly on a row that may not start, which is left alone |
| `TranscodingRuns.FailedVideosCanBeRetried` | internal/handler/admin_handler.go:65-84 | a failed video retried at an admin's word becomes ready if the execution goes well |
| `TranscodingRuns.ReadySourcesReachTheLowestRung` | internal/service/transcoding_service.go:153-164 | whatever gets ready is at least 360 lines tall |
| `TranscodingRuns.MasterAnnouncesMadeRenditions` | internal/service/transcoding_service.go:203-237 | the master playlist announces, in order, exactly the made renditions that were segmented and are present |
| `Worker.KeysAreDistinct` | internal/queue/handlers.go:167-216 | no two local files share a storage key |
| `Worker.KeysAreWhereReadersLook` | internal/queue/handlers.go:167-216 | the master playlist is filed where the row names it, the thumbnail and every output under the video's id |
| `Worker.VideosDoNotShareKeys` | internal/queue/handlers.go:167-216 | no output of one video is filed under a key of another's, whatever the raw files are called |
| `Worker.VideoProcessingHandler.StageRawFile` | internal/queue/handlers.go:130-162 | the staged file is the raw object exactly when no different file was there; a failed copy leaves the disk as it was exactly when its part could be removed |
| `Worker.VideoProcessingHandler.UploadOutputs` | internal/queue/handlers.go:198-234 | in any order and up to any failure writes only outputs as they are on disk; success means all of them |
| `Worker.VideoProcessingHandler.SyncOutputsToStore` | internal/queue/handlers.go:167-196 | removes local copies only after every upload succeeded |
| `Worker.VideoProcessingHandler.NormalizeThumbnailPath` | internal/queue/handlers.go:258-281 | rewrites the thumbnail path of a ready row and nothing else |
| `Worker.NormalizingChanges` | internal/queue/handlers.go:258-281 | only the path of a ready row with a thumbnail is changed, to the one with forward slashes |
| `Worker.VideoProcessingHandler.StageAndTranscode` | internal/queue/handlers.go:88-107 | stages, transcodes if the row may start, and reports either failure |
| `Worker.StoredExactlyWhen` | internal/queue/handlers.go:167-216 | after a complete upload from any disk an output is stored with a given content exactly when the disk held it so, or held none of it and the store had it |
| `Worker.VideoProcessingHandler.ProcessTask` | internal/queue/handlers.go:53-125 | success puts every output, and all ffmpeg made, where readers look, and the row is ready; failure leaves every output on disk; a ready row is only uploaded; the raw object is never touched |
| `WorkerRuns.OutputsSurviveExactlyWhen` | internal/queue/handlers.go:53-234 | on whatever hosts the job runs, through every failure, death and redelivery, an output is on some disk or in the store exactly when no stale version of it has been uploaded over its only copy |
| `WorkerRuns.LeftoversBuryOutputs` | internal/queue/handlers.go:167-196 | what a failed attempt left on one host is uploaded over what another host made and stored |
| `WorkerRuns.NoFailurePointLosesAnOutput` | internal/queue/handlers.go:53-234 | while all deliveries run on one host, at every step each output is on its disk or in the store |
| `WorkerRuns.SuccessMeansStored` | internal/queue/handlers.go:109-125 | when the handler returns nil there every output is in the store |
| `WorkerRuns.StoredForGood` | internal/queue/handlers.go:85-125 | and there it stays through all later redeliveries |
| `WorkerRuns.TranscodesWhatWasUploadedExactlyWhen` | internal/queue/handlers.go:130-162 | in every run over any hosts what a host transcodes is the uploaded object exactly when no copy to that host has been cut short before, by a death or by an error after which the part could not be removed |
| `WorkerRuns.CutShortCopyIsTranscoded` | internal/queue/handlers.go:127-162 | after either the next delivery there transcodes the part that was copied |
| `WorkerRuns.NilReturnStoresExactlyWhen` | internal/queue/handlers.go:109-234 | a redelivery of a ready video to any host that returns nil leaves an output stored as produced exactly when the disk held it so, or held no version of it and the store had it |
| `WorkerRuns.AnotherHostReturnsWithoutOutputs` | internal/queue/handlers.go:198-201 | a redelivery of a ready video to a host without its outputs returns nil and stores nothing |
| `Playlists.ListingIsInOrder` | internal/repository/postgres/social_repository.go:518-545 | positions strictly increase along the listing and no video occurs twice |
| `Playlists.InsertingAppends` | internal/repository/postgres/social_repository.go:475-481 | a row beyond all others is listed last and moves nothing |
| `Playlists.DeletingStrikes` | internal/repository/postgres/social_repository.go:502-513 | deleting a video's row strikes it from the listing and keeps the order of the rest |
| `Playlists.StrikingKeepsTheRest` | internal/repository/postgres/social_repository.go:502-513 | what is left is the others, all of them, in the order they had |
| `Playlists.NextPositionIsBeyond` | internal/repository/postgres/social_repository.go:475-481 | the position given is 0 for the first row, and the one after the last for any other |
| `Playlists.SocialRepository.AddPlaylistVideo` | internal/repository/postgres/social_repository.go:454-497 | appends a new video to the listing, refuses a duplicate or a missing playlist unchanged |
| `Playlists.SocialRepository.RemovePlaylistVideo` | internal/repository/postgres/social_repository.go:502-513 | strikes a listed video and reports one that is not |
| `Playlists.SocialRepository.CountPlaylistVideos` | internal/repository/postgres/social_repository.go:547-549 | is the length of the listing |
| `PlaylistRuns.OnlyDuplicatesAreRefused` | internal/repository/postgres/social_repository.go:449-490 | under the lock the position is always free, so only a listed video is refused |
| `PlaylistRuns.ListingRefinesSequence` | internal/repository/postgres/social_repository.go:454-513 | in every interleaving the unique constraints hold and each step does to the listing what it would do to a duplicate-free sequence |
| `PlaylistRuns.InsertsAreRefusedExactlyWhenListed` | internal/repository/postgres/social_repository.go:483-490 | in every interleaving an insert is refused exactly when the video is listed, changing no row; else it takes the next position |
| `PlaylistRuns.LockIsGrantedExactlyWhen` | internal/repository/postgres/social_repository.go:454-473 | a transaction gets the lock exactly when it is free and the playlist exists, and ends if it does not |
| `PlaylistRuns.AppendingAlone` | internal/repository/postgres/social_repository.go:454-497 | a transaction that runs alone has its video listed last, unless it was listed |
| `ClientRefresh.Client.StoreTokens` | clients/typescript/src/client.ts:151-154 | replaces both tokens |
| `ClientRefresh.Client.RefreshTokens` | clients/typescript/src/client.ts:214-221 | joins the call in flight, or starts one with the held token, or rejects |
| `ClientRefresh.Client.RefreshAnswered` | clients/typescript/src/client.ts:218-236 | a pair is stored, a refusal drops the refresh token, and the call is over in every case |
| `ClientRefresh.Client.FirstResponse` | clients/typescript/src/client.ts:242-252 | decides as FirstResponseAwaitsExactlyWhen says, and changes nothing but the call in flight |
| `ClientRefreshRuns.SingleFlight` | clients/typescript/src/client.ts:144-149 | in every interleaving one refresh call at most is outstanding, and a request sends at most twice and joins at most once |
| `ClientRefreshRuns.FirstResponseAwaitsExactlyWhen` | clients/typescript/src/client.ts:242-252 | a request awaits a refresh exactly on a 401, if it may refresh and a refresh token is held; otherwise it is over |
| `ClientRefreshRuns.OnlyUnauthorizedRequestsRefresh` | clients/typescript/src/client.ts:242-268 | over any run a request joins a refresh or is sent twice only if its first response was a 401 and it may refresh |
| `ClientRefreshRuns.OtherResponsesEndTheRequest` | clients/typescript/src/client.ts:242-268 | any other first response ends the request for good, with one send, no join and no refresh call |
| `ClientRefreshRuns.WaitersResumeExactlyWhen` | clients/typescript/src/client.ts:245-248 | a waiter is sent again exactly when the refresh it awaited succeeded; a failed one ends it |
| `ClientRefreshRuns.ManualRefreshAwaitsExactlyWhen` | clients/typescript/src/client.ts:214-221 | a manual refresh joins the call in flight, else starts one with the token held, else fails at once |
| `ClientRefreshRuns.AnswersSettle` | clients/typescript/src/client.ts:218-236 | a pair replaces both tokens, a refusal drops the refresh token only, a broken answer keeps both, and the call is over |
| `ClientRefreshRuns.EveryRequestEnds` | clients/typescript/src/client.ts:214-268 | a termination measure: a request costs four steps at most, a manual refresh three |
| `ClientRefreshRuns.SomethingCanMove` | clients/typescript/src/client.ts:214-268 | while anything is pending some answer can still move it |
| `ClientRefreshRuns.WaitersRetryWithAFreshToken` | clients/typescript/src/client.ts:242-252 | without logout or setTokens a waiter retries with the token of the refresh it awaited or a later one |
| `ClientRefreshRuns.RefusedTokenIsNeverSentAgain` | clients/typescript/src/client.ts:223-227 | a refused refresh token is never sent again, provided nobody hands it out again |
| `ClientRefreshRuns.RefusalsDropTheRefusedTokenExactlyWhen` | clients/typescript/src/client.ts:223-227 | while a call is outstanding the token held, which a refusal drops, is the one it sent exactly as long as the application has not changed the tokens |
| `ClientRefreshRuns.StaleRefusalDropsANewToken` | clients/typescript/src/client.ts:223-227 | after a sign-in during a refresh, its refusal drops the new token |
| `ClientRefreshRuns.LogoutHoldsExactlyWhen` | clients/typescript/src/client.ts:413-421 | after a logout no token comes back and no refresh call starts until the next sign-in, whatever happens, exactly when no refresh call was in flight |
| `ClientRefreshRuns.LateAnswerUndoesLogout` | clients/typescript/src/client.ts:413-421 | after a logout during a refresh, its answer signs the client in again |

## Left out

- HTTP routing and decoding, header parsing, JSON envelopes, permissions of roles, audit logs and metrics: they add only members with one branch.
- Signatures, bcrypt, SHA-256, random bytes and UUID generation: assumed. A token counts as signed when it is in the mint log, digests come from an abstract function, and their distinctness is a hypothesis where it matters.
- SQL text and its parser: conditions are tests with numbered placeholders, and full-text matching is any predicate. The order of rows is that of the table passed in, so ties in ORDER BY are not modelled.
- Races inside one operation of the authentication and email services (two reads or writes of one user row crossing): each is one atomic step there.
- Races between a cache read and a concurrent write of the same key: each cache operation is one atomic step.
- Database reads, and writes of user rows, that fail through no fault of their arguments (a lost connection): such a call returns the error and changes nothing. Only that the time of a login could not be written is modelled, as it does not stop the login.
- What a username, address or password must look like, and the user's columns that no operation here reads.
- Redis failing between two commands of one pipeline, a command that takes effect although its reply is lost, and negative or KeepTTL durations.
- WorkerRuns.NoFailurePointLosesAnOutput: is about runs on one host, or on hosts that share a disk; in general an output survives as OutputsSurviveExactlyWhen says, and what a delivery stores is NilReturnStoresExactlyWhen.
- RateLimiterRuns.CounterIsExactExactlyWhen: a request made while Redis cannot be reached is let through uncounted, so it is no request of these runs, nor of the limits and bounds proved about them.
- Overlapping executions of one video's job: each starts when the one before is over.
- In the client every answer to a refresh other than 200 with a JSON body, a passing 503 included, is one kind of refusal, as it is in the code.
- Worker.VideoProcessingHandler.UploadOutputs: visits the outputs in any order rather than in that of the directory walk, and takes relative paths as already clean.
- The retry and the segment count inside the HLS conversion, the thumbnail's seek time, and ffmpeg arguments: one yes-or-no outcome each.
- Playlist rows removed by a trigger or a cascade behave like a removal; that the delete trigger waits for the playlist's lock, and that PostgreSQL may abort one of two transactions in a deadlock, is covered by letting removals land and transactions abort at any point.
- ListPlaylistVideos paging, watch history, likes, comments, subscriptions, notifications, trending and analytics aggregates, and the Redis view counters beside view_count.
- The worker with a local store, where nothing is staged or uploaded, and uploads and deletions of videos by their owners.
- The file-system case in which a key is both a file and a directory.
- Uploads through XMLHttpRequest and empty access tokens in the client.
- Suggest's ordering and limit: only its pattern is modelled.
