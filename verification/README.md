# A verified model of the api_free_demo service

The service is a small HTTP API: accounts with JWT logins, user profiles with optimistic
concurrency, and rate limiting. This project models its stateful core in Dafny and proves what
holds of every call, every run and every interleaving.

| file | what it models |
|---|---|
| `Limiter.dfy`, `RateLimitMiddleware.dfy` | the in-memory token bucket limiter, and the filter that chains a limiter per address and one per user |
| `TokenManager.dfy` | issuing, checking and rotating refresh tokens, call by call, against the history of what was handed out and spent |
| `TokenInterleaving.dfy` | the same calls split at each load, store and delete of the shared store, interleaved in any way |
| `Sql.dfy` | the SQL subset the repositories write, with positional placeholders, and its meaning |
| `ProfileModel.dfy`, `ProfileStatements.dfy`, `ProfileRepository.dfy` | the profile table, what each statement is meant to do, the statements and the repository that runs them |
| `ProfileService.dfy` | validation, sanitising, the PATCH whitelist, version checks, bulk creation |
| `ProfileRuns.dfy` | profile calls split at their statements, interleaved in any way |
| `Paging.dfy`, `ProfileListing.dfy`, `UserListing.dfy` | LIMIT/OFFSET answers, the list queries and their answers, the handler's cursor, walks through the pages |
| `UserModel.dfy`, `UserRepository.dfy`, `UserService.dfy`, `UserRuns.dfy` | accounts: the calls, and their statements interleaved in any way |
| `Strings.dfy`, `Config.dfy` | trimming, splitting and joining; comma-separated settings |
| `LogBuffer.dfy` | the ring of recent log lines |
| `Common.dfy` | optional values, results, identifiers, time |

## Conventions

- Time is in nanoseconds and enters as a parameter, as do the UUIDs a call draws, the salt of a
  password hash, and whether the database fails a statement (`fault`). A failed statement changes
  nothing.
- The limiter's tokens are exact: they are counted in units of one 60,000,000,000th of a token, so
  that `limit` tokens a minute are `limit` units a nanosecond.
- A signed token is a value made of its claims and the secret, so that signing is injective. Expiry
  is that of section 4.1.4 of RFC 7519; `jti` uniqueness (section 4.1.7) is the assumption that an
  id drawn for a new token has not been drawn before.
- bcrypt is an ideal oracle. The sanitiser, the validators, the date parser and LIKE are arbitrary
  functions. Lowering a letter is any function that lowers to the same result when applied twice
  and neither makes nor removes white space; the database and the service lower alike.
- Each SQL statement is one atomic step on a map from primary keys to rows. The database orders times by
  time; how it compares other values (its collation, and where NULL goes) is an arbitrary relation. The order in which
  rows that tie come back is left open, and so is the order in which a map is iterated.
- In the interleaved models the fields that record the past (what was stored, revoked, deleted, won)
  are never consulted by a call, and neither is what an account was last set to.

## Where the code differs from what one might expect

- A denied call of the limiter stores the refilled tokens but not the time, so the next refill counts
  that interval again. The usual bound (capacity plus limit times elapsed time) therefore fails for every
  limit below one token a nanosecond (`Limiter.PlainBoundIff`), and the bound that does hold depends on
  the number of denials between admissions (`Limiter.RateBound`).
- A key's first call reports `limit - 1` tokens remaining although the burst is there too
  (`Limiter.RemainderIsHonestIff`).
- Registration locks its user out. The insert leaves `last_password_hash` NULL, nothing ever writes it, and every
  read of the row fails on it, because NULL cannot be read into a string. So whoever registers is never logged in,
  refreshed or updated again, and breaks the admin listing's pages (`UserRuns.RegisteredAreLockedOut`,
  `UserRuns.UnreadableIsFrozen`, `UserRuns.RegisteredBreakListings`). Credentials keep working exactly for
  accounts that have a value there (`UserRuns.LoginOutcomeIff`).
- A refresh token passes as bearer token when both secrets are equal, because parsing an access token does not ask for
  its type (`TokenManager.PairIsGood`).
- A refresh token is single-use only if calls do not overlap: two rotations of one token that both
  load before either revokes both succeed (`TokenInterleaving.RaceSpendsTwice`). In a run no token passes twice
  exactly when none is loaded again between passing the check and its revoke step (`TokenInterleaving.SingleUseIff`);
  calls that do not overlap on a token are of that kind (`TokenInterleaving.FollowedThroughIsSingleUse`).
- A rotation that stalls between its checks and its signature extends its session by as long as it
  stalls (`TokenInterleaving.StallExtendsSession`).
- PUT writes without a version guard, so a PUT that reads early and writes late takes the version
  back (`ProfileRuns.StalePutWinsTwice`); `ProfileRuns.EachVersionWonOnceIff` says when that does not happen.
- The API description calls PUT "Replace profile", but optional fields that the request leaves out keep
  their stored values; the model follows the code (`ProfileService.EditedCells`).
- PATCH does not ask whether the profile is deleted: it changes, and answers with, a deleted profile whose
  version matches (`ProfileService.PatchAnswersDeleted`).
- Soft bulk deletion leaves versions alone, stamps profiles deleted before once more, and counts them.
- A walk by `next_cursor` loses the rows that share a second with a page's last row and are not on that page
  (`ProfileListing.WalkMissesExactlySkipped`), and `ProfileListing.WalkShowsAllIff` says on which creation times it
  loses none; with a cursor, `total` counts only what is older than it.
- Bulk creation answers with the same profiles whether or not the batch was committed.
- Logins and updates write back the whole user they read, so they undo what was set in between
  (`UserRuns.LoginUndoesRename`, `UserRuns.UpdateUndoesImage`); `UserRuns.NoUpdateLostIff` says when no update is lost.

## Model

| member | source | states |
|---|---|---|
| Limiter.MemoryLimiter.Allow | internal/infrastructure/ratelimit/limiter.go:47-65 | one call changes the bucket of its key as `Charge` says and leaves every other bucket alone; the answer shows the limit, a reset one minute on, and nothing remaining when denied |
| Limiter.TokensStayInRange | internal/infrastructure/ratelimit/limiter.go:57-62 | after any run tokens lie between empty and the capacity, and the stored time between the first call and now |
| Limiter.SimulatesTextbook | internal/infrastructure/ratelimit/limiter.go:52-64 | after any run, admissions plus tokens at hand are no fewer than those of the textbook bucket whose clock moves on every call |
| Limiter.AdmitsAtLeastTextbook | internal/infrastructure/ratelimit/limiter.go:52-64 | in every prefix of every run at least as many calls are admitted as the textbook bucket admits |
| Limiter.AgreesUntilFirstDenial | internal/infrastructure/ratelimit/limiter.go:52-64 | up to and including the first denial, state and decisions are those of the textbook bucket |
| Limiter.Ledger | internal/infrastructure/ratelimit/limiter.go:57-64 | admitted plus remaining tokens never exceed the capacity plus what was refilled, each interval counted at most once more for each denial |
| Limiter.ExactLedger | internal/infrastructure/ratelimit/limiter.go:56-64 | while the bucket never overflows, admitted plus remaining tokens are exactly the capacity plus the limit for the time every call waited since the admission before it |
| Limiter.UndeniedLedger | internal/infrastructure/ratelimit/limiter.go:56-63 | without denials that is the limit for the time since the first call, to the nanosecond |
| Limiter.RateBound | internal/infrastructure/ratelimit/limiter.go:47-65 | with at most k denials between admissions, admissions number at most the capacity plus (k+1) times the limit for the elapsed time |
| Limiter.PlainBoundIff | internal/infrastructure/ratelimit/limiter.go:57-64 | the plain bound holds on all runs if and only if the limit is at least one token a nanosecond |
| Limiter.OverrunBreaksPlainBound | internal/infrastructure/ratelimit/limiter.go:57-64 | for every smaller limit and every burst, a run that exceeds the plain bound |
| Limiter.RemainderIsHonestIff | internal/infrastructure/ratelimit/limiter.go:53-64 | the reported remainder is the whole tokens left if and only if the call is not a key's first or there is no burst |
| Limiter.KeyIsolation | internal/infrastructure/ratelimit/limiter.go:52-58 | in any run over many keys, a key's bucket is that of a fresh limiter fed only that key's calls |
| Limiter.KeyDecision | internal/infrastructure/ratelimit/limiter.go:47-65 | and so is every decision |
| RateLimitMiddleware.RateLimit | internal/app/middleware/ratelimit.go:14-42 | the filter consults the address limiter, aborts if denied, then consults the user limiter if there is a user; buckets, verdict and headers as `Filter` says, or as `SharedFilter` says when one limiter stands in both places |
| RateLimitMiddleware.ClientSees | internal/app/middleware/ratelimit.go:17-60 | the headers show the answer of the last limiter asked, with its own limit and its own reset; a refusal carries the reset of the limiter that denied |
| RateLimitMiddleware.IpProjection | internal/app/middleware/ratelimit.go:18-28 | an address's bucket is that of a limiter of its own fed with its requests |
| RateLimitMiddleware.UserProjection | internal/app/middleware/ratelimit.go:29-40 | a user's bucket is that of a limiter of its own fed with only those of its requests that got past the address limiter |
| RateLimitMiddleware.PassesIff | internal/app/middleware/ratelimit.go:14-42 | a request passes if and only if the address's own bucket admits it and, if it names a user, the user's own bucket does |
| RateLimitMiddleware.SharedDecidesAsTwo | internal/app/middleware/ratelimit.go:14-42 | one limiter standing in both places decides and answers every request of every run as two limiters of its rate would |
| TokenManager.Manager.IssueTokens | internal/infrastructure/auth/jwt_manager.go:40-53 | the new pair is good for the user, its refresh token is stored under its id, and the store stays the image of the history |
| TokenManager.PairIsGood | internal/infrastructure/auth/jwt_manager.go:96-142 | the access token parses with the access secret exactly until its lifetime is over, to the whole second, yields user, role and type, and is never taken for rotation; the refresh token is taken from this user exactly until its lifetime is over, and passes as bearer token if and only if the secrets are equal; the announced lifetime is that of the access token in seconds |
| TokenManager.ParsesIff | internal/infrastructure/auth/jwt_manager.go:144-162 | a token parses if and only if it was signed by HMAC with this secret, is not expired, and has the current secret version |
| TokenManager.Manager.RefreshTokens | internal/infrastructure/auth/jwt_manager.go:56-80 | succeeds if and only if the history says the token is redeemable; swaps it for its successor in a pair that is good for the user, or changes nothing |
| TokenManager.Manager.EnsureRefreshValid | internal/infrastructure/auth/jwt_manager.go:173-192 | passes if and only if the token was handed out, is unspent and has this id; missing if and only if no unspent token has the id; revoked if and only if another one has it |
| TokenManager.ChecksMatchHistory | internal/infrastructure/auth/jwt_manager.go:57-66 | signature, expiry, secret version, owner, type and store checks together pass if and only if the token was returned, is unspent, the caller's own and not expired |
| TokenManager.RotateRefines | internal/infrastructure/auth/jwt_manager.go:56-80 | a rotation keeps the store the image of the history |
| TokenManager.RunMatchesHistory | internal/infrastructure/auth/jwt_manager.go:40-80 | in every run of whole calls, every rotation is decided by the history before it |
| TokenManager.AtMostOnce | internal/infrastructure/auth/jwt_manager.go:64-78 | in every run of whole calls a token is rotated at most once |
| TokenManager.StoreSizeIsLogins | internal/infrastructure/auth/jwt_manager.go:49-78 | the store holds as many tokens as there were logins |
| TokenInterleaving.StoreSizeIsStoredLessRevoked | internal/infrastructure/auth/jwt_manager.go:49-78 | in every interleaving the store holds as many tokens as were stored less the tokens revoked, so that each race leaves one more |
| TokenInterleaving.StepKeepsInv | internal/infrastructure/auth/jwt_manager.go:56-80 | each step of any call keeps: entries under the id of the token they hold, stored unrevoked tokens present, a revoked token succeeded in its lineage, users unchanged along lineages |
| TokenInterleaving.LatestOfLineageIsLive | internal/infrastructure/auth/jwt_manager.go:75-78 | in every interleaving the token of a lineage that was stored last is in the store |
| TokenInterleaving.SessionsStayAlive | internal/infrastructure/auth/jwt_manager.go:49-78 | in every reachable state after a login's store step, some token of its lineage is in the store |
| TokenInterleaving.RevocationIsPermanent | internal/infrastructure/auth/jwt_manager.go:194-201 | once a rotation's delete step has run, every later check of that token finds no entry |
| TokenInterleaving.LoadPassesIff | internal/infrastructure/auth/jwt_manager.go:173-192 | in every interleaving the store check passes if and only if the token was stored and not revoked yet |
| TokenInterleaving.SecondLoadPassesIff | internal/infrastructure/auth/jwt_manager.go:64-78 | in every interleaving a token that has passed the store check passes again if and only if no revoke step of it has run in between |
| TokenInterleaving.SingleUseIff | internal/infrastructure/auth/jwt_manager.go:64-78 | for every run: no token passes the store check twice if and only if no token that has passed is loaded again before its revoke step has run |
| TokenInterleaving.FollowedThroughIsSingleUse | internal/infrastructure/auth/jwt_manager.go:64-78 | in a run where each rotation that passes reaches its own revoke step before its token is loaded again, no token passes twice |
| TokenInterleaving.RaceSpendsTwice | internal/infrastructure/auth/jwt_manager.go:64-78 | two rotations of one token that both load before either revokes both complete, and both successors are stored |
| TokenInterleaving.RaceIsReachable | internal/infrastructure/auth/jwt_manager.go:56-64 | a concrete run that reaches that situation |
| TokenInterleaving.SequentialCallIsAtomic | internal/infrastructure/auth/jwt_manager.go:56-80 | with nothing in between, a rotation's steps do to the store what the one-call model does |
| TokenInterleaving.SessionLifetime | internal/infrastructure/auth/jwt_manager.go:61-71 | a rotation of a descendant n rotations deep was presented less than n+1 lifetimes and n signing delays after its login, by the user who logged in |
| TokenInterleaving.StallExtendsSession | internal/infrastructure/auth/jwt_manager.go:64-71 | a rotation that stalls after its checks can be followed by an accepted rotation of its successor, which is outside the lifetime, for whatever delay is allowed for, if and only if the stall lasted to the end of that lifetime |
| Sql.MatchesAppend | internal/infrastructure/db/profile_repository.go:155-167 | conditions appended together with their arguments keep placeholders aligned and mean the conjunction |
| Sql.AssignedBinds | internal/infrastructure/db/profile_repository.go:74-79 | binding listed columns writes exactly those columns, in whatever order they are listed |
| ProfileStatements.PatchMeans | internal/infrastructure/db/profile_repository.go:71-94 | for all whitelisted fields and every iteration order, statement and arguments mean: set the fields, the time and version + 1 on the row with this id, owner and version |
| ProfileStatements.PatchNeedsWhitelist | internal/infrastructure/db/profile_repository.go:74-79 | the statement is well formed if and only if the fields name neither the time nor the version |
| ProfileStatements.PutMeans | internal/infrastructure/db/profile_repository.go:56-69 | PUT's statement writes the editable columns, the time and the version on the caller's row at any version |
| ProfileStatements.DeleteMeans | internal/infrastructure/db/profile_repository.go:96-117 | soft and hard deletion hit exactly the row with this id, owner and version |
| ProfileStatements.BulkDeleteMeans | internal/infrastructure/db/profile_repository.go:119-140 | bulk deletion hits exactly the caller's rows among the ids; the soft form leaves versions alone |
| ProfileRepository.Repository.BulkCreate | internal/infrastructure/db/profile_repository.go:35-54 | all rows are inserted or none, and which is decided by: ids new and distinct, no insert failed, the commit succeeded |
| ProfileRepository.InsertAllAdds | internal/infrastructure/db/profile_repository.go:47-53 | a committed batch adds exactly its profiles and leaves all other rows alone |
| ProfileRepository.Repository.BuildPatch | internal/infrastructure/db/profile_repository.go:72-82 | the loop over the field map builds the statement and arguments of some enumeration of the fields |
| ProfileRepository.Repository.Patch | internal/infrastructure/db/profile_repository.go:71-94 | outcome and table of PATCH for every fault; a version conflict changes nothing, nor does a field that would make a name NULL |
| ProfileRepository.Repository.GetByID | internal/infrastructure/db/profile_repository.go:142-153 | finds exactly the caller's undeleted row |
| ProfileService.Service.AssignOptionalFields | internal/domain/profile/service.go:198-229 | only a date that is given, not blank and unreadable fails; otherwise exactly the columns the request sets are written |
| ProfileService.OptionalSets | internal/domain/profile/service.go:199-226 | those columns, one by one: biography, phone and location sanitised and trimmed, images and website as given, the date read, the rest kept |
| ProfileService.Service.Create | internal/domain/profile/service.go:39-60 | succeeds if and only if the request is valid, its date reads, the id is new and the insert does not fail; the stored row is given column by column, its texts through the sanitiser and the trimming |
| ProfileService.FilledMeans | internal/domain/profile/service.go:199-226 | writing the optional fields one by one adds up to the columns the request sets |
| ProfileService.MadeIsNewProfile | internal/domain/profile/service.go:44-52 | a created profile has the drawn id, the caller as owner, version 1, and is not deleted |
| ProfileService.Service.BulkCreate | internal/domain/profile/service.go:63-91 | one error slot for each payload, filled if it is not valid or its date does not read; the profiles are those of the accepted payloads in order, column by column, whatever becomes of the batch; the table gets all of them if and only if ids are new and distinct, no insert fails and the commit succeeds, and else none |
| ProfileService.Service.Update | internal/domain/profile/service.go:111-136 | PUT succeeds if and only if valid, visible, at the given version and with a readable date; then the row is as `EditedCells` says, and nothing else changes |
| ProfileService.EditedCells | internal/domain/profile/service.go:125-131 | PUT column by column: names, version and time new, texts through the sanitiser and the trimming, omitted optional columns kept |
| ProfileService.Service.Patch | internal/domain/profile/service.go:139-173 | PATCH succeeds if and only if one of the nine columns is named, none makes a name NULL, and the row is at the version; then the row is given column by column, every text through the sanitiser and the trimming |
| ProfileRuns.TextsStayClean | internal/domain/profile/service.go:231-233 | under every interleaving of whatever clients send, every stored name, biography, phone and location that is a text is trimmed sanitiser output, and no name is NULL |
| ProfileService.PatchAnswersDeleted | internal/infrastructure/db/profile_repository.go:82-93 | PATCH answers with a deleted row if and only if the row was deleted, raises its version, sets its fields and undeletes nothing |
| ProfileService.Service.Delete | internal/domain/profile/service.go:176-188 | DELETE succeeds if and only if the row is visible at the version, and nobody sees it afterwards |
| ProfileRuns.RowFate | internal/infrastructure/db/profile_repository.go:56-140 | under every interleaving a row's id, owner, creation time and deletion stay, and a row that is gone never comes back |
| ProfileRuns.DeletedStaysHidden | internal/infrastructure/db/profile_repository.go:96-153 | under every interleaving a profile is never visible again after a successful soft or hard, single or bulk deletion, stale PUT writes included |
| ProfileRuns.DeletedIsNeverListed | internal/infrastructure/db/profile_repository.go:96-178 | under every interleaving no response to any later list request shows a deleted profile |
| ProfileRuns.OthersRowsUntouched | internal/infrastructure/db/profile_repository.go:56-140 | no step of a call by one user changes another user's row |
| ProfileRuns.VersionsCountWritesIff | internal/domain/profile/service.go:111-188 | all versions equal 1 + the successful PUT, PATCH and DELETE calls throughout a run if and only if every PUT write finds the version its read found |
| ProfileRuns.EachVersionWonOnceIff | internal/domain/profile/service.go:111-188 | for every run: at most one PUT, PATCH or DELETE succeeds for each profile and version if and only if every PUT write finds the version its read found |
| ProfileRuns.WholePutsNeverWinTwice | internal/domain/profile/service.go:111-188 | every run whose PUTs are whole calls, and so every run without PUT, is of that kind: versions count the writes and none is won twice |
| ProfileRuns.WholePutIsFaithful | internal/domain/profile/service.go:115-132 | a PUT whose write directly follows its read is of that kind |
| ProfileRuns.WholePutIsServicePut | internal/domain/profile/service.go:111-136 | and it does to the table what the service's PUT does |
| ProfileRuns.StalePutWinsTwice | internal/infrastructure/db/profile_repository.go:57-60 | a late PUT takes the version back and the same version is won twice |
| Paging.OneOrder | internal/infrastructure/db/profile_repository.go:167-168 | rows that do not tie have one order only |
| Paging.OffsetPages | internal/infrastructure/db/profile_repository.go:167-168 | pages at offsets o, o+L, o+2L, ... of rows that do not tie concatenate to the ordered list from o on |
| ProfileListing.BuildList | internal/infrastructure/db/profile_repository.go:155-178 | for every filter both queries have as many arguments as placeholders; on every table the page query answers the filtered rows sorted newest first and sliced, and the count query their number before slicing |
| ProfileListing.ListAnswers | internal/infrastructure/db/profile_repository.go:167-171 | a page answers the built query (its WHERE, ORDER BY, LIMIT and OFFSET evaluated on the arguments) if and only if it is that slice of the wanted rows, newest first |
| ProfileListing.ListCounts | internal/infrastructure/db/profile_repository.go:174-177 | the count query counts all wanted rows |
| ProfileListing.ResponseMeans | internal/domain/profile/handler.go:92-125 | a response to a request holds only the client's undeleted profiles that match its search and precede its cursor, none twice, newest first, as many as the page size asked for (20, at most 100) has room for; and the total counts them all |
| ProfileListing.SomeResponse | internal/infrastructure/db/profile_repository.go:167-171 | every request has a response |
| ProfileListing.ResponsesAreVisible | internal/infrastructure/db/profile_repository.go:155-178 | a response holds only rows of the table that are the caller's and not deleted |
| ProfileListing.OffsetPagesShowAll | internal/infrastructure/db/profile_repository.go:155-178 | responses to requests with offsets 0, L, 2L, ... show each profile the request is about once, newest first, when creation times differ |
| ProfileListing.CursorWalk | internal/domain/profile/handler.go:92-118 | responses to requests by `next_cursor` show only profiles the request is about, none twice, newer to older, are no more than there are rows, and show all of them if and only if no page boundary splits a second of the creation times |
| ProfileListing.WalkStaysBefore | internal/domain/profile/handler.go:99-103 | every row of a walk by cursor is older than the cursor it started from |
| ProfileListing.WalkDescends | internal/domain/profile/handler.go:92-118 | a walk by cursor never repeats a row and goes from newer to older, however ties are ordered |
| ProfileListing.WalkTerminates | internal/domain/profile/handler.go:109-112 | a walk has no more pages than there are rows |
| ProfileListing.WalkShowsAllIff | internal/domain/profile/handler.go:97-118 | a finished walk with any page size shows every row if and only if, page after page, the rows in and after the second of the oldest row that fits the page fit the page too: a condition on creation times and page size alone |
| ProfileListing.WalkMissesExactlySkipped | internal/domain/profile/handler.go:97-118 | a finished walk misses a row if and only if the row shares the second of some page's last row and is not on that page |
| ProfileListing.WalkIsComplete | internal/domain/profile/handler.go:97-118 | with creation seconds pairwise distinct a finished walk shows every row |
| ProfileListing.SingleStepWalkIff | internal/domain/profile/handler.go:97-118 | with one row to a page that condition is also necessary |
| UserListing.BuildList | internal/infrastructure/db/user_repository.go:69-92 | for every filter placeholders and arguments agree; on every table the page query answers the filtered users in the asked-for order and sliced, and the count query their number before slicing |
| UserListing.ListAnswers | internal/infrastructure/db/user_repository.go:76-86 | a page answers the built query if and only if limit and offset are not negative and it is that slice of the wanted users in that order |
| UserListing.ListCounts | internal/infrastructure/db/user_repository.go:87-91 | the count query counts all wanted users |
| UserListing.SelectionMeans | internal/domain/user/handler.go:127-141 | a page holds only active users that match the request's search, none twice, as many as the page size asked for (50, at most 200) has room for; and the total counts them all |
| UserListing.SelectionOrder | internal/infrastructure/db/user_repository.go:76-79 | a page is by name if the sort parameter says "name" anywhere, and newest first if not |
| UserListing.SomeSelection | internal/infrastructure/db/user_repository.go:76-84 | every request has an answer, as long as the database can rank the users |
| UserListing.OffsetPagesShowAll | internal/infrastructure/db/user_repository.go:76-84 | the pages answered at offsets 0, L, 2L, ... show each wanted user once, in order, when no two tie; and all of them are read without error if and only if no wanted user has a NULL `last_password_hash` |
| UserListing.UnreadablePageFails | internal/infrastructure/db/user_repository.go:80-84 | a page on which a user with a NULL `last_password_hash` appears is an error |
| UserRepository.ByEmailIsOne | internal/infrastructure/db/user_repository.go:43-46 | the WHERE of a lookup by any spelling of a stored email selects that one user |
| UserRepository.Repository.GetByEmail | internal/infrastructure/db/user_repository.go:43-54 | answers a selected user only if the row can be read; a NULL `last_password_hash` is an error, no row is none |
| UserRepository.Repository.GetByID | internal/infrastructure/db/user_repository.go:56-67 | finds exactly the active user whose row can be read |
| UserService.Service.Register | internal/domain/user/service.go:56-105 | succeeds if and only if signup is open, the trimmed and sanitised request is valid and hashable, and nobody has the email in any letter case; adds exactly the new user, given column by column with role "user", and answers with a good token pair |
| UserService.Service.Login | internal/domain/user/service.go:108-135 | succeeds if and only if an active user whose row can be read has this email up to case and blanks and a hash made from this very password, and answers invalid credentials otherwise; changes only that user's login and update times, and answers with a good token pair |
| UserService.Service.Refresh | internal/domain/user/service.go:140-154 | succeeds if and only if the token's owner is active, the owner's row can be read, and the token is redeemable by its owner; answers with a good token pair |
| UserService.Service.UpdateMe | internal/domain/user/service.go:166-183 | succeeds if and only if valid and the caller is active with a row that can be read; changes only the caller's name, image and update time |
| UserRuns.AccountsNeverChange | internal/infrastructure/db/user_repository.go:36-41 | under every interleaving an account stays, and its id, email, role and password hash never change |
| UserRuns.EmailsStayDistinct | internal/domain/user/service.go:56-97 | under every interleaving stored emails are canonical, and no two users share one up to case and blanks |
| UserRuns.LoginOutcomeIff | internal/domain/user/service.go:108-122 | for every account, at every later state of every interleaving: a login as that account is accepted if and only if the email (in any spelling) is the account's, the stored hash was made from this password, and `last_password_hash` is not NULL; no other account answers |
| UserRuns.RegisteredAreLockedOut | internal/infrastructure/db/user_repository.go:24-54 | every insert that goes through is a valid registration's, its credentials stay right at every later state, and every login with them is refused |
| UserRuns.UnreadableIsFrozen | internal/infrastructure/db/user_repository.go:36-67 | under every interleaving the row of an account that cannot be read never changes |
| UserRuns.RegisteredBreakListings | internal/infrastructure/db/user_repository.go:79-84 | at every state after an insert, a page of the listing on which the new user appears is an error |
| UserRuns.EmailRegistersOnce | internal/infrastructure/db/user_repository.go:24-34 | of interleaved registrations of one email only one inserts |
| UserRuns.WholeLoginIsServiceLogin | internal/domain/user/service.go:115-127 | with nothing in between, the steps of a login do to the table what the service's call does |
| UserRuns.WholeRegistrationIsServiceRegistration | internal/domain/user/service.go:56-97 | and likewise the steps of a registration |
| UserRuns.NoUpdateLostIff | internal/infrastructure/db/user_repository.go:36-41 | for every run: names (and likewise images) are always what they were last set to if and only if every write-back by a call not asked to set them finds in the table what its copy holds |
| UserRuns.LoginUndoesRename | internal/domain/user/service.go:124-127 | a login brings back the name from before a rename made between its read and its write-back |
| UserRuns.UpdateUndoesImage | internal/domain/user/service.go:166-183 | an update without an image brings back the image from before one set in between |
| Config.SplitAndTrim | internal/config/config.go:237-250 | the parser's loop yields the trimmed, non-blank pieces between commas, in order |
| Config.ItemsAreClean | internal/config/config.go:243-248 | every item it yields is non-empty, trimmed and free of commas |
| Config.WordsAreFound | internal/config/config.go:237-250 | whatever blanks stand before and after the words between the commas, the words are found, in order |
| Config.ParsePrinted | internal/app/middleware/cors.go:18-19 | printing clean items with ", " and parsing gives them back |
| Config.ParsePrintParse | internal/config/config.go:237-250 | for every setting, parse, print and parse again equals the first parse |
| Diagnostics.LogBuffer.Append | internal/app/diagnostics/logbuffer.go:21-28 | the buffer stays the suffix of the whole history that fits |
| Diagnostics.LogBuffer.Snapshot | internal/app/diagnostics/logbuffer.go:31-37 | a new array with the last entries of the history, in order |
| Diagnostics.RingIsSuffixOfHistory | internal/app/diagnostics/logbuffer.go:24-27 | dropping the head before each append keeps exactly the suffix, for every sequence of appends |

## Left out

- The Redis limiter and the Redis branches of the token manager: they rest on the server's command semantics.
- Floating-point rounding in the limiter: tokens are exact here.
- The Go runtime's clock going backwards: limiter runs assume call times that do not decrease.
- JWT wire format, cryptography, bcrypt internals, HTML sanitising and validator tags: arbitrary functions here.
- Seconds printed by the cursor are modelled as the instant itself; calendars, time zones and URL escaping are not.
- SQL engine details: isolation levels, LIKE wildcards, collation, driver differences in counting affected rows and in reading timestamps, rewriting of placeholders.
- Column types: a PATCH value of another type than its column's is refused or converted by the database; a refusal is one of the faults.
- The column `password_reset_at`, which no modelled code writes or looks at.
- Database failures are one flag for each statement; partial effects of a failed connection are not modelled.
- JSON keys that name no column reach the repository only as "unknown", which the whitelist drops.
- A PATCH without a `fields` object is an empty one here; both are errors, with different texts.
- HTTP plumbing, logging, metrics, bearer extraction, admin checks, error-to-status mapping and environment parsing other than lists.
- `RefreshVersion`, the OAuth stub and `TenantID`, which the modelled code does not read.
- Reading a profile or user through `Get`, `GetMe` and the list calls of the services: they forward to the repository members above.
