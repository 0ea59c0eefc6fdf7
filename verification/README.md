# 2v2 table-football matchmaking and MMR rating, modelled in Dafny

This project models the core of a system for office 2v2 matches. It covers
five areas:

- **Matchmaking.** Players join a queue. Four eligible entries form a pending
  match that every drawn player must accept. The accepted match is promoted
  to an active match with shuffled seats. The active match is then cancelled
  or its result submitted. A background sweep declines pending matches that
  were not accepted in time.
- **Rating pipeline of the .NET services.** This covers submission
  validation, the ten-minute duplicate check and the winner flags. It also
  covers each player's prior rating, the MMR delta rule, the per-match
  `CalculateMMR`, the batched recalculation of the current service and the
  one-match-at-a-time recalculation of the older one. The supporting
  selectors are the latest history per player and the current season.
- **Rating service (Go).** It checks that a request names four distinct
  players and seats them, carrying ratings over from the previous season. In
  a batch, ratings are threaded from each match to the later ones. It also
  generates the most even 2v2 split of four players.
- **Small utilities and lifecycles.** These are:
  - the base-4 colour codes;
  - streaks and the leaderboard projection;
  - match flags;
  - personal access tokens and the bearer-header authentication handler;
  - the front end's season link helper.

The store is one immutable record (`Entities.Db`). Each service method is a
pure transition from a store to an `Outcome`:

- `Done(db)` means the writes were committed.
- `Rejected(e)` means the method threw before writing anything.
- `Aborted(db, e)` means it threw after some writes had already been saved.

The model takes these as parameters: the clock (`now`), the random shuffle
and token suffix, the SHA-256 digest, the rating engine (an oracle whose
`None` is a failed call), OpenSkill's `Rate`, `PredictWin` and display
value, and the match mapper of the flag list.

Modules:

| module | models |
|---|---|
| `Wrappers`, `Ordering`, `Text` | option/result types; ordering a set by a key, with ties broken by id; decimal text, prefixes, `Trim` |
| `Entities`, `EngineApi` | the tables and the soft-delete filter; the .NET ↔ engine request and response |
| `Users`, `Seasons` | `UserService` (latest history, claiming), `SeasonService` (current season with its cache) |
| `Matches`, `RatingBatch`, `MatchesLegacy` | both `MatchesService.cs` versions |
| `Matchmaking`, `ExpirySweep` | `MatchMakingService.cs` and the background sweep |
| `Statistics`, `MatchFlags`, `AccessTokens`, `TokenAuth`, `ColorCode`, `Url` | the services and helpers of the same names |
| `Calculation`, `TeamBalance` | `calculation_controller.go`, `match_making.go` |

The code does the following, and the model follows it:

- Promotion to an active match does not delete the pending match or its
  queue rows. Only cancel and submit delete them.
- The new pending match's `ExpiresAt` is never assigned in the code. The
  model takes it as an input.
- A batch request is built from the ratings stored before the batch. Only
  the deltas are taken against histories written earlier in the same batch.

## Model

| member | source | states |
|---|---|---|
| Matchmaking.EntryOfPlayer | backend-dotnet/MMRProject.Api/Services/MatchMakingService.cs:41-46 | the entry found is eligible and belongs to the player (no pending match, or a declined one); none exactly when no eligible entry does |
| Matchmaking.Enqueue | backend-dotnet/MMRProject.Api/Services/MatchMakingService.cs:31-63 | fails "user not linked" exactly for an unknown identity; a player with an eligible entry changes nothing; otherwise one fresh entry is added and the quorum check runs |
| Matchmaking.Dequeue | backend-dotnet/MMRProject.Api/Services/MatchMakingService.cs:65-80 | removes only the caller's eligible entry and nothing else; a no-op when there is none |
| Matchmaking.EnqueueThenDequeue | backend-dotnet/MMRProject.Api/Services/MatchMakingService.cs:31-80 | below quorum, joining and leaving the queue restores the store exactly |
| Matchmaking.QueueStatusOf | backend-dotnet/MMRProject.Api/Services/MatchMakingService.cs:82-118 | the count is the number of eligible entries; the caller is in the queue iff some entry is theirs; an assigned match is the non-declined pending match of the caller's newest entry |
| Matchmaking.EnqueuedCallerIsQueued | backend-dotnet/MMRProject.Api/Services/MatchMakingService.cs:31-118 | after a successful enqueue the status reports the caller as queued |
| Matchmaking.QuorumCheck | backend-dotnet/MMRProject.Api/Services/MatchMakingService.cs:120-140 | fewer than four eligible entries change nothing; otherwise one new pending match holds the four oldest eligible entries |
| Matchmaking.QuorumTakesFour | backend-dotnet/MMRProject.Api/Services/MatchMakingService.cs:120-140 | after a draw, exactly the drawn entries lose eligibility and they are exactly the new match's entries |
| Matchmaking.QuorumKeepsEntries | backend-dotnet/MMRProject.Api/Services/MatchMakingService.cs:120-140 | the draw changes no entry except for its pending-match link, and no table but the queue and pending matches |
| Matchmaking.QuorumCountsDown | backend-dotnet/MMRProject.Api/Services/MatchMakingService.cs:120-140 | a draw lowers the eligible count by exactly four |
| Matchmaking.PendingStatus | backend-dotnet/MMRProject.Api/Services/MatchMakingService.cs:142-158 | "match not found" exactly when the caller has no entry in the match; otherwise the stored status |
| Matchmaking.RecordAcceptance | backend-dotnet/MMRProject.Api/Services/MatchMakingService.cs:180-192 | the caller's entry records the match; the match becomes Accepted iff every entry of the match has accepted it |
| Matchmaking.Accept | backend-dotnet/MMRProject.Api/Services/MatchMakingService.cs:160-198 | "not found" iff the caller is not in the match, "not pending" iff it is not Pending; on success the match is Accepted iff all others had accepted, and only then is it promoted |
| Matchmaking.AcceptIsIdempotent | backend-dotnet/MMRProject.Api/Services/MatchMakingService.cs:160-198 | accepting again while the match is still pending leaves the store as it was |
| Matchmaking.Decline | backend-dotnet/MMRProject.Api/Services/MatchMakingService.cs:200-228 | same two guards as accept; removes only the caller's entry and marks only this match Declined at `now` |
| Matchmaking.DeclineRequeuesOthers | backend-dotnet/MMRProject.Api/Services/MatchMakingService.cs:220-227 | the other entries of a declined match are eligible again; entries of other matches keep their eligibility |
| Matchmaking.Shuffle | backend-dotnet/MMRProject.Api/Services/MatchMakingService.cs:317-318 | the seat order is a permutation of the match's entries |
| Matchmaking.Promote | backend-dotnet/MMRProject.Api/Services/MatchMakingService.cs:307-331 | fails unless the match has exactly four entries; otherwise adds one active match seated in shuffled order and links it from the pending match |
| Matchmaking.PromotionSeatsThePlayers | backend-dotnet/MMRProject.Api/Services/MatchMakingService.cs:307-331 | a match with four entries is promoted, and its four seats are exactly the players of those entries |
| Matchmaking.ActiveMatches | backend-dotnet/MMRProject.Api/Services/MatchMakingService.cs:230-254 | one view per active match, whose two teams are seats 1-2 and 3-4 |
| Matchmaking.ReadActiveMatch | backend-dotnet/MMRProject.Api/Services/MatchMakingService.cs:333-364 | found exactly when the match exists and the caller holds one of its seats |
| Matchmaking.RemoveActive | backend-dotnet/MMRProject.Api/Services/MatchMakingService.cs:264-273 | drops the active match, its linked pending match and exactly that match's queue entries |
| Matchmaking.Cancel | backend-dotnet/MMRProject.Api/Services/MatchMakingService.cs:256-273 | "not found" unless the caller is seated; otherwise removes the match state |
| Matchmaking.PromoteThenCancel | backend-dotnet/MMRProject.Api/Services/MatchMakingService.cs:256-331 | when one of its players cancels a freshly promoted full match, the active table is restored and the pending match and its entries are removed |
| Matchmaking.SubmissionFor | backend-dotnet/MMRProject.Api/Services/MatchMakingService.cs:286-297 | the submitted teams are the seats in order, with the given scores |
| Matchmaking.Submit | backend-dotnet/MMRProject.Api/Services/MatchMakingService.cs:275-305 | "not found" unless seated, "no active season" without a current season; a rejected submission writes nothing, and the match state is removed only after the match is saved and rated |
| ExpirySweep.ExpirePending | api/MMRProject.Api/BackgroundServices/MatchMakingBackgroundService.cs:47-59 | exactly the examined overdue matches become Declined; every other pending match is unchanged |
| ExpirySweep.ExpireQueue | api/MMRProject.Api/BackgroundServices/MatchMakingBackgroundService.cs:55-59 | exactly the entries of an expired match that did not accept it are removed |
| ExpirySweep.CheckEach | api/MMRProject.Api/BackgroundServices/MatchMakingBackgroundService.cs:40-62 | the loop stops with nothing saved when cancellation is seen; otherwise it expires every examined match, independent of order |
| ExpirySweep.Sweep | api/MMRProject.Api/BackgroundServices/MatchMakingBackgroundService.cs:24-65 | no pending match gives false and no change; otherwise true, with the whole pending set expired unless cancelled |
| ExpirySweep.SweepSparesSettledMatches | api/MMRProject.Api/BackgroundServices/MatchMakingBackgroundService.cs:30-59 | accepted, declined and not yet overdue matches are untouched, and so is every entry that accepted its match |
| ExpirySweep.SweepDeclinesOverdue | api/MMRProject.Api/BackgroundServices/MatchMakingBackgroundService.cs:47-59 | an overdue match ends Declined at `now` and none of its non-accepting entries remain |
| ExpirySweep.StepExtendsExpire | api/MMRProject.Api/BackgroundServices/MatchMakingBackgroundService.cs:40-60 | handling one more match in the loop equals expiring the enlarged set at once |
| ExpirySweep.Round | api/MMRProject.Api/BackgroundServices/MatchMakingBackgroundService.cs:11-22 | the next sweep follows after one second exactly when this one went through with some match Pending, and then it expired them; otherwise after twenty seconds with nothing changed |
| Matches.CheckExistingMatch | api/MMRProject.Api/Services/MatchesService.cs:395-424 | true iff some live match created within the last ten minutes has the same members and scores, in either orientation |
| Matches.SameGameIsSameTeams | api/MMRProject.Api/Services/MatchesService.cs:395-424 | for four distinct players, the member-by-member query means the same two teams as sets with the same scores, either way round |
| Matches.NewMatch | api/MMRProject.Api/Services/MatchesService.cs:426-462 | the new match holds the request's members in order, its scores, the season and the creation time |
| Matches.WinnerFlags | api/MMRProject.Api/Services/MatchesService.cs:426-439 | a team wins iff its score is strictly higher; a tie gives no winner and otherwise exactly one team wins |
| Matches.PlayerRatingFor | api/MMRProject.Api/Services/MatchesService.cs:352-369 | the rating sent is the latest history's mu and sigma; "previous season" is null without history and otherwise the negation of "history is from the target season" |
| Matches.MmrDelta | api/MMRProject.Api/Services/MatchesService.cs:331-350 | null iff the result omits the player; zero for a history from another season or without MMR; otherwise old MMR plus delta is the new MMR |
| Matches.CalculateMmr | api/MMRProject.Api/Services/MatchesService.cs:254-329 | fails with no writes iff the engine fails, or on a repeated result id; otherwise records exactly the engine response's rows |
| Matches.RecordRating | api/MMRProject.Api/Services/MatchesService.cs:296-329 | one history row per returned player and one calculation row with the four deltas; no other table changes |
| Matches.SubmitMatch | api/MMRProject.Api/Services/MatchesService.cs:60-94 | "players must be unique", "match already exists" and "players not found" (a deleted player is not found) exactly under their conditions, in that order and before any write; otherwise the match is saved and rated by `CalculateMmr`: done exactly when the engine answers with distinct ids, then one calculation row and history rows for the new match only; a rating failure keeps the saved match and reports the rating error |
| Matches.ResubmissionIsRejected | api/MMRProject.Api/Services/MatchesService.cs:60-94 | a submission that passed the checks makes the same one a duplicate for the next ten minutes |
| RatingBatch.BatchUsers | api/MMRProject.Api/Services/MatchesService.cs:194-207 | exactly the members of the batch's matches |
| RatingBatch.BatchRatings | api/MMRProject.Api/Services/MatchesService.cs:371-393 | one entry per requested player with a latest history, carrying that history and its season flag |
| RatingBatch.BatchRatingIsSingleRating | api/MMRProject.Api/Services/MatchesService.cs:245-252 | the rating looked up in the batch map equals the one the single-match path computes |
| RatingBatch.BatchRequests | api/MMRProject.Api/Services/MatchesService.cs:209-243 | one request per match, in order, built from the pre-batch ratings |
| RatingBatch.FirstRequestIsMatchRequest | api/MMRProject.Api/Services/MatchesService.cs:96-101 | the batch's first request is the request the single-match path sends |
| RatingBatch.UpdateSeats | api/MMRProject.Api/Services/MatchesService.cs:161-178 | after a match, each returned player's in-memory latest history is that match's new row, marked current season; others keep theirs |
| RatingBatch.Replay | api/MMRProject.Api/Services/MatchesService.cs:108-190 | fails iff a response repeats a player id; otherwise appends rows only for the batch's matches, with calculation rows in match order |
| RatingBatch.CalculateMmrOfBatch | api/MMRProject.Api/Services/MatchesService.cs:96-192 | no matches, or a response count that differs from the request count, writes nothing; an engine failure is an error; otherwise one calculation row per match, in order |
| RatingBatch.BatchOfOneIsSingle | api/MMRProject.Api/Services/MatchesService.cs:96-329 | a batch of one match writes what the single-match `CalculateMMR` writes, given engines that agree |
| RatingBatch.ClearMmrCalculations | api/MMRProject.Api/Services/MatchesService.cs:494-521 | soft-deletes exactly the live history and calculation rows of the season's matches from the given match on; every other row is unchanged |
| RatingBatch.ClearLeavesNoRatingsInScope | api/MMRProject.Api/Services/MatchesService.cs:494-521 | after clearing, no live row is in scope and every live row out of scope survives |
| RatingBatch.ScopeIds | api/MMRProject.Api/Services/MatchesService.cs:475-485 | exactly the in-scope matches, in increasing id order |
| RatingBatch.Chunk | api/MMRProject.Api/Services/MatchesService.cs:485-491 | the chunks concatenate back to the input, every chunk but the last is full, and none is empty |
| RatingBatch.LatestSeasonId | api/MMRProject.Api/Services/MatchesService.cs:466-471 | the greatest live season id, or none when there is no season |
| RatingBatch.Recalculate | api/MMRProject.Api/Services/MatchesService.cs:464-492 | refused iff the season is not the latest; otherwise clears, then only adds live rows for in-scope matches |
| RatingBatch.HonestBatchRatesEveryMatch | api/MMRProject.Api/Services/MatchesService.cs:96-192 | with an engine that answers one response per request and no repeated player id, a batch writes one calculation row per match in batch order, or fails only because the call failed; with an engine that never fails it always writes |
| RatingBatch.HonestRunRatesInOrder | api/MMRProject.Api/Services/MatchesService.cs:485-491 | with such an engine the batches all write, their calculation rows in the order of the concatenated batches, or the run stops at the first batch whose call fails, with the batches before it saved whole and nothing after |
| RatingBatch.RecalculateRatesEveryMatch | api/MMRProject.Api/Services/MatchesService.cs:464-492 | for the latest season and such an engine, every match in scope is re-rated, one calculation row per match in id order, unless a call fails; then the run stops at that batch with the earlier batches kept |
| MatchesLegacy.RateEach | backend-dotnet/MMRProject.Api/Services/MatchesService.cs:301-306 | rating the matches one after another only appends rows, and only for those matches |
| MatchesLegacy.RateEachWritesInOrder | backend-dotnet/MMRProject.Api/Services/MatchesService.cs:301-306 | the calculation rows appear in the order the matches were rated |
| MatchesLegacy.RecalculateLegacy | backend-dotnet/MMRProject.Api/Services/MatchesService.cs:280-307 | refused iff the season is not the latest; otherwise clears, then adds live in-scope rows, one calculation per in-scope match in id order |
| MatchesLegacy.VersionsClearAlike | backend-dotnet/MMRProject.Api/Services/MatchesService.cs:309-336 | both versions leave the rows that existed before the run in the same state |
| Users.LatestPlayerHistory | api/MMRProject.Api/Services/UserService.cs:91-105 | the row with the greatest match id among the player's live rows, with its season; none without rows or when that match has no season |
| Users.LatestPlayerHistories | api/MMRProject.Api/Services/UserService.cs:107-119 | at most one entry per requested player, equal to the single-player answer |
| Users.ClaimPlayer | api/MMRProject.Api/Services/UserService.cs:63-89 | an unknown or deleted player is not found and a player bound to another identity is refused; a player already bound to the caller is returned unchanged; otherwise the save fails exactly when another player, deleted or not, already holds the caller's identity, and else only that player becomes bound |
| Users.ClaimKeepsIdentitiesUnique | api/MMRProject.Api/Data/ApiDbContext.cs:174 | on a store where no two players share an identity, a successful claim keeps it so, and the claimed player is the only one bound to the caller's identity |
| Users.ClaimIdempotent | api/MMRProject.Api/Services/UserService.cs:73-76 | claiming twice is claiming once |
| Users.ClaimIsExclusive | api/MMRProject.Api/Services/UserService.cs:78-88 | after a claim, any other identity's claim is refused |
| Entities.PlayerOfIdentityIsTheBoundPlayer | api/MMRProject.Api/Services/UserService.cs:56-60 | where no two players share an identity, the lookup by identity finds exactly the live player bound to it |
| Seasons.CurrentSeasonId | api/MMRProject.Api/Services/SeasonService.cs:24-31 | none iff no live season has a start at or before `now`; otherwise a started season with the latest start; a season whose start is null never counts |
| Seasons.UnscheduledIsNeverStarted | api/MMRProject.Api/Services/SeasonService.cs:24-41 | a season whose start is null is neither current nor listed, since `StartsAt <= now` is never true for NULL |
| Seasons.CurrentSeasonIdAsync | api/MMRProject.Api/Services/SeasonService.cs:17-32 | a cached id is returned without reading; otherwise the computed id is returned and becomes the cache |
| Seasons.CachedIdIsSticky | api/MMRProject.Api/Services/SeasonService.cs:19-30 | once a call on an instance returns an id, every later call returns that id |
| Seasons.NullIsNotCached | api/MMRProject.Api/Services/SeasonService.cs:19-30 | while calls have returned null, each call computes afresh from its own store and time |
| Seasons.AllSeasons | api/MMRProject.Api/Services/SeasonService.cs:34-41 | exactly the live seasons with a start at or before `now`, latest start first |
| Seasons.AllSeasonsStartWithCurrent | api/MMRProject.Api/Services/SeasonService.cs:17-41 | the list is empty iff there is no current season, and otherwise begins with it |
| Statistics.LeadingRun | api/MMRProject.Api/Services/StatisticsService.cs:119-134 | the length of the maximal leading run of groups with the given outcome |
| Statistics.CalculateStreak | api/MMRProject.Api/Services/StatisticsService.cs:112-135 | (0, winning) for no groups; otherwise the first group's outcome and the results in the leading run sharing it |
| Statistics.StreakIgnoresLaterGroups | api/MMRProject.Api/Services/StatisticsService.cs:119-134 | groups after the first change of outcome do not change the streak |
| Statistics.SingleMatchStreak | api/MMRProject.Api/Services/StatisticsService.cs:112-135 | with one result per group, the streak is the length of the leading run |
| Statistics.Leaderboard | api/MMRProject.Api/Services/StatisticsService.cs:89-99 | one entry per query row, in order, keeping id, name, wins and losses |
| Statistics.EntryShowsOneStreak | api/MMRProject.Api/Services/StatisticsService.cs:96-98 | at most one of the two streaks is non-zero and it is the row's streak of that kind; the MMR shows iff the player has ten games |
| Statistics.PlayerHistory | api/MMRProject.Api/Services/StatisticsService.cs:137-163 | exactly the season's selected rows of players with at least ten such rows, ordered by match id |
| Statistics.OccurrencesCountRows | api/MMRProject.Api/Services/StatisticsService.cs:152-158 | counting a player's ids in the listed rows equals the number of that player's selected rows |
| MatchFlags.CreateFlag | api/MMRProject.Api/Services/MatchFlagService.cs:21-54 | fails "match not found" for a missing match and "already flagged" while the player has a pending flag on it; otherwise adds one pending flag with the given match, flagger and reason |
| MatchFlags.ResolveFlag | api/MMRProject.Api/Services/MatchFlagService.cs:107-131 | fails iff the flag is unknown; otherwise only that flag becomes Resolved with resolver, note and time, keeping its report |
| MatchFlags.FlagBlocksUntilResolved | api/MMRProject.Api/Services/MatchFlagService.cs:29-36 | a pending flag blocks a second one by the same player, and resolving it unblocks |
| MatchFlags.SecondResolutionWins | api/MMRProject.Api/Services/MatchFlagService.cs:115-124 | resolving an already resolved flag overwrites the first resolution |
| MatchFlags.ListedFlags | api/MMRProject.Api/Services/MatchFlagService.cs:58-76 | exactly the pending flags whose match is live and maps and whose flagger is a player, not deleted, with a name; newest first |
| MatchFlags.PendingFlags | api/MMRProject.Api/Services/MatchFlagService.cs:56-105 | only pending flags with a live, mappable match and a live named flagger, each of them once, newest first; each entry copies the flag's match id, reason, flagger id, creation time, note and resolution time, with the flagger's name and the resolver's name when the resolver is found |
| AccessTokens.GenerateToken | api/MMRProject.Api/Services/PersonalAccessTokenService.cs:26-51 | the plaintext starts with `pat_`; one new row stores its digest and the given owner, name and expiry; other rows are unchanged |
| AccessTokens.RevokeToken | api/MMRProject.Api/Services/PersonalAccessTokenService.cs:53-68 | succeeds iff the id exists, belongs to the player and that player is not deleted, and then removes only that row |
| AccessTokens.ListTokens | api/MMRProject.Api/Services/PersonalAccessTokenService.cs:70-76 | exactly the player's tokens, newest first; none for a deleted player |
| AccessTokens.UseToken | api/MMRProject.Api/Services/PersonalAccessTokenService.cs:78-101 | null for an unknown digest, a token of a deleted player or a token expired before `now`; otherwise the matching row, whose last use alone is stamped |
| AccessTokens.GeneratedTokenRedeems | api/MMRProject.Api/Services/PersonalAccessTokenService.cs:26-101 | a freshly issued token is redeemed as its own row until it expires, unless its owner is deleted |
| AccessTokens.RevokedTokenIsRejected | api/MMRProject.Api/Services/PersonalAccessTokenService.cs:53-101 | after revocation the token is no longer accepted |
| AccessTokens.UseTwiceIsUseOnce | api/MMRProject.Api/Services/PersonalAccessTokenService.cs:78-101 | using a token twice at the same time is using it once |
| TokenAuth.BearerToken | api/MMRProject.Api/Auth/PersonalAccessTokenAuthenticationHandler.cs:25-39 | a token exactly for a non-empty header beginning with `Bearer ` in any letter case; it is the trimmed rest |
| TokenAuth.Authenticate | api/MMRProject.Api/Auth/PersonalAccessTokenAuthenticationHandler.cs:23-74 | no result exactly when there is no bearer token or it lacks `pat_`; failures are "Invalid token" or "Token expired" and write nothing; a sign-in is always for a live owner of the matching row |
| TokenAuth.HandlerAgreesWithService | api/MMRProject.Api/Auth/PersonalAccessTokenAuthenticationHandler.cs:43-60 | for a `pat_` token the handler signs in exactly when the service would, leaves the same store, and reports an unknown digest as "Invalid token" |
| TokenAuth.ClaimsIdentifyPlayer | api/MMRProject.Api/Auth/PersonalAccessTokenAuthenticationHandler.cs:58-73 | the name-identifier and subject claims read back as the player id and the token claim as the row id |
| TokenAuth.SchemeIgnoresCase | api/MMRProject.Api/Auth/PersonalAccessTokenAuthenticationHandler.cs:31-35 | `bearer` and `BEARER` headers are handled as `Bearer` |
| TokenAuth.TokenPrefixIsCaseSensitive | api/MMRProject.Api/Auth/PersonalAccessTokenAuthenticationHandler.cs:37-41 | a `PAT_` token is not this scheme's business |
| ColorCode.ToIntId | api/MMRProject.Api/Helpers/ColorCodeHelper.cs:11-32 | rejects a length other than four and any digit outside 0-3; a valid code gives 1 + its base-4 value, in 1-256 |
| ColorCode.ToCode | api/MMRProject.Api/Helpers/ColorCodeHelper.cs:43-60 | rejects ids outside 1-256; otherwise four digits in 0-3, most significant first |
| ColorCode.IdRoundTrip | api/MMRProject.Api/Helpers/ColorCodeHelper.cs:3-60 | every id in range reads back from its code |
| ColorCode.CodeRoundTrip | api/MMRProject.Api/Helpers/ColorCodeHelper.cs:3-60 | every valid code is the code of its id |
| Url.WithSeasonParam | frontend/src/lib/util/url.ts:1-5 | no season or season 0 leaves the path alone; the path is always a prefix of the result |
| Url.SeasonParamReadsBack | frontend/src/lib/util/url.ts:3-4 | the separator is `&` iff the path already had a query, then `season=` and text that parses back to the id |
| Calculation.FirstRepeat | backend/controllers/calculation_controller.go:117-135 | none iff the ids are distinct; otherwise the first id seen before |
| Calculation.EnsurePlayers | backend/controllers/calculation_controller.go:117-145 | no abort iff four distinct ids; a "not four" abort iff distinct but not four; a duplicate abort only for repeated ids |
| Calculation.CreatePlayer | backend/controllers/calculation_controller.go:148-169 | a rating learnt earlier in the batch wins; a missing mu or sigma gives the default rating; otherwise the request's values, carried over when from a previous season |
| Calculation.Seated | backend/controllers/calculation_controller.go:90-108 | fails (the handler's panic) unless both teams have two players and a score; otherwise seats in request order with 16-bit scores |
| Calculation.Rate | backend/controllers/calculation_controller.go:108-112 | ids and scores kept; each player's new rating is the one the library gives for that seat |
| Calculation.TeamResultOf | backend/controllers/calculation_controller.go:172-189 | echoes the score; the team's two players in seat order with their new mu and sigma |
| Calculation.SubmitOne | backend/controllers/calculation_controller.go:25-41 | answers iff both teams are complete, and the abort flag is exactly the player check's |
| Calculation.SingleUsesRequestRatings | backend/controllers/calculation_controller.go:36 | the single-match endpoint rates from the request's own ratings |
| Calculation.Learn | backend/controllers/calculation_controller.go:68-73 | adds the four players' new ratings and keeps every other entry |
| Calculation.SubmitBatch | backend/controllers/calculation_controller.go:53-78 | answers iff every request is complete, one reply per request, equal to the request-by-request replay |
| Calculation.BatchReplyIsStep | backend/controllers/calculation_controller.go:62-77 | reply i is the single step on request i from the ratings the earlier requests left; reply 0 is the single-match answer |
| Calculation.LaterRequestsSeeNewRatings | backend/controllers/calculation_controller.go:62-77 | after request i of four distinct players, every rating shown in its reply is what the next request starts from |
| Calculation.BatchStopsAtCrash | backend/controllers/calculation_controller.go:90-108 | one incomplete request makes the whole batch fail |
| Calculation.ScoreNarrowing | backend/controllers/calculation_controller.go:99 | scores in 16-bit range pass unchanged; larger ones wrap |
| TeamBalance.Combinations | mmr-api/mmr/match_making.go:14-29 | three splits, player one always in team one, partnered in turn with players two, three and four |
| TeamBalance.SplitsArePartitions | mmr-api/mmr/match_making.go:14-29 | in each split of four distinct players the teams share no one and together hold all four |
| TeamBalance.CombinationsAreAllSplits | mmr-api/mmr/match_making.go:14-29 | every pairing of player one occurs and no two splits agree |
| TeamBalance.Abs | mmr-api/mmr/match_making.go:62-67 | non-negative and equal to x or -x |
| TeamBalance.MostEven | mmr-api/mmr/match_making.go:45-57 | the first position of least imbalance below one, else the first position |
| TeamBalance.GenerateTeams | mmr-api/mmr/match_making.go:42-60 | the teams of one of the three splits, the one the selection rule picks |
| TeamBalance.ProbabilitiesPickFirstMostEven | mmr-api/mmr/match_making.go:49-57 | when predictions are probabilities, the pick has the least imbalance and every earlier split is strictly worse |
| Text.IntToStringRoundTrip | frontend/src/lib/util/url.ts:4 | decimal rendering of an integer parses back to it |

## Left out

- Races and locking: every service method is one atomic transition. No claim is made about interleavings.
- The hosted loop, `Task.Delay` and cancellation tokens are left out. Only the sweep's delay choice is kept. A cancellation seen during the loop is the input `cancelAt`.
- The clock, `Guid.NewGuid()`, the seat shuffle and the random token suffix are inputs. A new Guid is a key not yet in its table. The shuffle is any permutation, computed by sorting on an arbitrary key function.
- `FirstOrDefault` without an ordering picks the least key. Ties in ORDER BY are broken by id. The recalculation query has no ORDER BY and is read in id order.
- SHA-256 and `RandomNumberGenerator` are left out. The digest is an arbitrary function. Where a property needs digests not to collide, its premise says so.
- `MatchMapper` in the pending-flag list is the parameter `mapsMatch`. The mapper's code is not part of this model.
- The leaderboard and time-distribution SQL is left out. Only the C# projection over the query's rows is modelled.
- `Statistics.CalculateStreak` is modelled on its own. In the code it is declared but not called by the leaderboard, which reads the streak from SQL.
- Letter case is folded for ASCII only, and `StartsWith` is ordinal. The .NET culture rules are not modelled.
- The JSON binding and transport between the services and the engine are left out. A request arrives typed, with nulls as `None`.
- gin's `AbortWithStatusJSON` does not stop the Go handlers. It is modelled as a flag on the reply, and the rating still happens.
- The Go handlers' nil-pointer and index panics are the `Crash` error. No response is modelled for them.
- OpenSkill's `Rate`, `PredictWin` and display value are parameters. The library's default mu is taken as 25, with sigma 5 from `NewDefaultRating`.
- `Calculation.CreatePlayer`: models `RatingForPlayer` of mmr-api/mmr/calc.go only for its reachable call, where mu and sigma are both present.
- Mu, sigma and probabilities are exact reals. Float rounding, NaN and infinities are not modelled.
- `Url.WithSeasonParam`: takes the season as an integer or none. JavaScript's falsy NaN and the rendering of fractional or exponent-form numbers are not modelled.
- `Calculation.Seated`: models the 16-bit score narrowing as written, as a two's-complement wrap. Scores beyond 16 bits are not claimed to be an error.
- `Matchmaking.Enqueue`: a player whose only entry is in a Pending or Accepted match gets a second entry, as the code does. No property forbids it.
- `Matchmaking.Promote`: does not delete the pending match or its entries, as the code does. They are deleted on cancel or submit.
- The query filter also hides the queue entries and active matches of a deleted player. The matchmaking model does not restate this. Its service is the `backend-dotnet` one, whose context is not part of this model; its player lookups are taken to hide deleted players like the `api` context does.
- `RatingBatch.CalculateMmrOfBatch`: the deltas of later matches in a batch are stated through `RatingBatch.UpdateSeats`. There is no closed formula over the whole batch.
- `ExpirySweep.CheckEach`: the whole loop uses one `now`. The code reads `DateTime.UtcNow` again for each match, so a match whose window closes during the loop may be declined there and not in the model.
- `Seasons.CurrentSeasonIdAsync`: the cache lives as long as the service instance, and in the code that is one request. The model threads the instance through calls explicitly.
- The .NET controllers, `MMRCalculationApiClient`, the role and claims plumbing, the EF Core context and migrations, and the generated front-end clients are not part of this model.
- The Go `view` request types and the `backend/models` package are not part of this model.
