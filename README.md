# FrensChain core, modelled in Dafny

FrensChain is a dating and social app for Solana wallets. This project models its backend and its on-chain program:

- the authentication middleware and the `/api/auth` routes (login by wallet, registration, `/me`);
- the profile routes (profile update, discovery, counters);
- the like/match routes, with the mutual-like matching rule;
- the chat service and chat routes: encrypted storage, paged history, counters;
- the payment service and payment routes: premium periods, history, status, price list;
- the gamification routes: badges, referrals, referral statistics, the referrer leaderboard;
- the Anchor program: configuration, profiles, initial and monthly subscriptions, match accounts.

The Prisma database is the class `Store.Db`. It holds one sequence per table, and a row's id is its position in that sequence.

- Handlers that write the store are methods. Each `modifies` only the tables it writes and states the new tables in full.
- The like, payment and badge-award handlers are also given as pure step functions, and the methods are proved equal to them. The lemmas about those functions carry the invariants: one match per mutual pair of likes, badge awards are idempotent, names stay unique.
- Read-only handlers are functions over the tables.
- The HTTP answer of a handler is a `Result`: a value, or a `Failure` that holds the status code and the exact error message.
- `orderBy createdAt desc` is the reverse of insertion order. Rows are appended in creation order, so this holds as long as the clock does not go back.

Outside services are parameters:

- the Solana transaction check is `string -> bool`;
- JWT signing and verification are `Claims -> string` and `string -> Option<Claims>`;
- the AES cipher is a pair of functions. The predicate `RoundTrips` says decryption undoes encryption.

The clock is an `int` argument: milliseconds in the backend, Unix seconds on chain.

The on-chain program is the class `Frenschain.Program`. Its fields are the configuration account, the profile accounts keyed by wallet, the match accounts keyed by their seeds, the wallets' lamports and the lamports paid in. An instruction that fails leaves every account unchanged. The program's u32 counter and i64 timestamps are subset types. An overflow is a failure, as it is when the program is built with Cargo's `overflow-checks` enabled in the release profile.

## Model

| member | source | states |
|---|---|---|
| AuthMiddleware.FindFrom | backend/src/middleware/auth.ts:17 | the first occurrence of the pattern at or after a position, or None when there is none |
| AuthMiddleware.ReplaceFirst | backend/src/middleware/auth.ts:17 | `String.replace` with a string pattern: only the first occurrence is replaced, and a string without the pattern is unchanged |
| AuthMiddleware.BearerToken | backend/src/middleware/auth.ts:17-21 | no header gives no token; an empty token counts as missing |
| AuthMiddleware.BearerRoundTrip | backend/src/middleware/auth.ts:17 | a header `Bearer <t>` with a non-empty t gives back t |
| AuthMiddleware.BareHeaders | backend/src/middleware/auth.ts:17-21 | a header without `Bearer ` is used whole as the token; the header `Bearer ` alone carries no token |
| AuthMiddleware.Reconcile | backend/src/middleware/auth.ts:40-47 | a period that has ended is cleared along with the premium flag; a period still running leaves the row unchanged; identity fields never change |
| AuthMiddleware.ReconcileIdempotent | backend/src/middleware/auth.ts:40-47 | running the expiry check twice changes nothing more, and a later check agrees with the earlier one |
| AuthMiddleware.ReconciledFlag | backend/src/middleware/auth.ts:40-47 | after the check, a premium flag that stays set has no period or one that has not ended |
| AuthMiddleware.Authenticate | backend/src/middleware/auth.ts:15-55 | 401 with the message for a missing token, a token that fails verification, or an unknown user; otherwise only that user's row may change (the expiry check) and the request carries that user |
| AuthRoutes.Login | backend/src/routes/auth.ts:10-50 | 400 without a wallet or a signature; 404 for an unknown wallet; otherwise a token signed over the user's id and wallet, and that user's account view |
| AuthRoutes.SignatureIgnored | backend/src/routes/auth.ts:14-19 | any two non-empty signatures give the same login answer |
| AuthRoutes.Register | backend/src/routes/auth.ts:53-128 | 400 when a field is missing or the wallet or username is taken, with the store unchanged; otherwise one user is appended with interests equal to the names given and a token for them, the interest table only grows, every interest row added carries one of the names given, and no other user's interest links change; username, wallet and interest-name uniqueness are kept |
| AuthRoutes.NewUserKeepsUnique | backend/src/routes/auth.ts:61-73 | a user created only when no user has the wallet or the username keeps wallets and usernames unique |
| AuthRoutes.NewUserKeepsKeys | backend/src/routes/auth.ts:86-96 | the created user takes the next id and every interest link, old or new, names an existing user |
| AuthRoutes.NewUserInterests | backend/src/routes/auth.ts:87-104 | the created user's interests are exactly the upserted rows, in order: no earlier link can name the new id |
| AuthRoutes.OthersKeepLinks | backend/src/routes/auth.ts:91-95 | creating the new user's links leaves every other user's links as they were |
| AuthRoutes.RegisteredCanLogIn | backend/src/routes/auth.ts:87-111 | a user just registered logs in with their wallet and receives the token for their own account |
| AuthRoutes.MeHandler | backend/src/routes/auth.ts:131-168 | no user on the request gives a 500; an unknown id gives 404; otherwise every field of the profile: the user's id, wallet, username, premium flag and period, image, creation time, interests and badges |
| AuthRoutes.MeAsMounted | backend/src/index.ts:74 | `/me` mounted without the authentication middleware always fails |
| AuthRoutes.MeAsMountedAlwaysFails | backend/src/routes/auth.ts:134 | every call of `/me` as mounted is the generic 500, whatever the store holds |
| AuthRoutes.Me | backend/src/routes/auth.ts:131-168 | `/me` behind the middleware succeeds exactly for an existing caller; the answer carries every field of their row, their id, interests and badges |
| AuthRoutes.RegisteredSeesProfile | backend/src/routes/auth.ts:153-163 | right after registration `/me` shows the new account with the interest names it registered with |
| ChatRoutes.MessagesRoute | backend/src/routes/chat.ts:10-44 | 404 unless the caller belongs to the match and it is active; then the service's page with defaults page 1 and limit 50, or the generic 500 |
| ChatRoutes.InactiveMatchWritableNotReadable | backend/src/routes/chat.ts:17-30 | once a match is inactive its users may still send to it but no longer read it |
| ChatRoutes.MarkReadRoute | backend/src/routes/chat.ts:47-59 | the read-receipt route always answers success |
| ChatRoutes.Stats | backend/src/routes/chat.ts:62-93 | the message count is the number of messages the caller sent and the active-match count the number of active matches the caller is in; unread is always 0; each count is 0 exactly when there is no such row |
| ChatRoutes.SendCountsOnce | backend/src/routes/chat.ts:67-69 | a stored message adds one to its sender's count and nothing to anyone else's |
| ChatRoutes.UnmatchCountsOnce | backend/src/routes/match.ts:246-275 | deactivating a match takes one from the active-match count of each of its members when it was active, and leaves every other count alone |
| ChatService.Deliver | backend/src/services/chatService.ts:74-78 | a delivered message is the stored row with its content decrypted, with a sender summary exactly when the sender exists |
| ChatService.DeliverAll | backend/src/services/chatService.ts:120-124 | every message of a page is decrypted, in order |
| ChatService.Stored | backend/src/services/chatService.ts:51-62 | the stored row holds the encrypted content and the encryption flag |
| ChatService.SendMessage | backend/src/services/chatService.ts:29-85 | a sender outside the match is refused with nothing stored; otherwise exactly one encrypted row is appended and returned decrypted, so the caller gets back what was sent when the cipher round-trips |
| ChatService.MessagesOf | backend/src/services/chatService.ts:104-105 | the rows of a match are exactly the messages with that match id |
| ChatService.GetMessages | backend/src/services/chatService.ts:87-131 | a reader outside the match is refused; otherwise the page is the slice of the ascending history that ends `skip` messages before its end, decrypted, at most `limit` long |
| ChatService.SentMessageReadBack | backend/src/services/chatService.ts:104-126 | the message just sent is the last message of page 1 and reads back with its content and sender |
| ChatService.MarkMessagesAsRead | backend/src/services/chatService.ts:133-142 | marking as read reports success |
| Common.CountIsPositions | backend/src/routes/chat.ts:67-69 | a `count` query is the number of positions whose row satisfies its `where` clause |
| Consistency.PricesMatchProgram | backend/src/routes/payment.ts:71-108 | the published SOL prices are the lamport prices the program charges |
| Consistency.InitialPeriodAgrees | backend/src/services/paymentService.ts:44-46 | an initial payment grants the same six months in the backend and on chain |
| Consistency.MonthlyRenewalAgrees | backend/src/services/paymentService.ts:47-55 | a monthly payment extends the period identically in the backend and on chain, including when the period ends exactly now |
| Frenschain.Utf8Width | smart-contracts/programs/frenschain/src/lib.rs:32 | a character takes 1 to 4 UTF-8 bytes |
| Frenschain.Utf8Len | smart-contracts/programs/frenschain/src/lib.rs:32 | a string's byte length lies between its length and four times it, and equals its length for ASCII |
| Frenschain.ProfileCheck | smart-contracts/programs/frenschain/src/lib.rs:32-33 | the username check comes first, then the interest count; a profile passes iff the name has at most 32 bytes and there are at most 5 interests |
| Frenschain.UsernameBounds | smart-contracts/programs/frenschain/src/lib.rs:32 | more than 32 characters never fit; 8 characters always do |
| Frenschain.InitialPrice | smart-contracts/programs/frenschain/src/lib.rs:58-67 | each offer is sold iff fewer users than its limit exist, at its own price, else refused with its own error |
| Frenschain.EarlyBirdWithinRegular | smart-contracts/programs/frenschain/src/lib.rs:14-17 | under the launch configuration whoever may buy early bird may buy regular, at twice the price |
| Frenschain.RenewedUntil | smart-contracts/programs/frenschain/src/lib.rs:108-113 | a monthly renewal ends at least a month after both now and the current end |
| Frenschain.Program.Initialize | smart-contracts/programs/frenschain/src/lib.rs:10-21 | creates the configuration with the launch limits and prices, once |
| Frenschain.Program.CreateProfile | smart-contracts/programs/frenschain/src/lib.rs:24-46 | refuses an existing profile, a missing configuration, the two checks and a counter overflow; otherwise adds the non-premium profile and counts one more user |
| Frenschain.Program.SubscribeInitial | smart-contracts/programs/frenschain/src/lib.rs:49-87 | a premium profile is refused; the offer's limit, the payer's balance and i64 overflow are checked in order; success moves the price to the configuration account and grants six months from now |
| Frenschain.Program.SubscribeMonthly | smart-contracts/programs/frenschain/src/lib.rs:90-118 | the monthly price moves to the configuration account and the period is renewed by `RenewedUntil`, unless funds are short or the end overflows an i64 |
| Frenschain.Program.CreateMatch | smart-contracts/programs/frenschain/src/lib.rs:121-131 | the account seeded by (user1, user2) is created active once; a second attempt fails |
| Frenschain.InitialSubscriptionIsOnce | smart-contracts/programs/frenschain/src/lib.rs:56 | after one initial subscription a second one is always refused as already premium, even after the period has ended |
| Frenschain.TwoMatchAccountsForOnePair | smart-contracts/programs/frenschain/src/lib.rs:223 | the same two wallets can open two match accounts, one per order |
| Gamification.EarnedRows | backend/src/routes/gamification.ts:13-19 | exactly the caller's user-badge rows, most recent first |
| Gamification.UserBadges | backend/src/routes/gamification.ts:9-30 | one entry per earned row, most recent first, each with its badge |
| Gamification.EveryEarnedBadgeListed | backend/src/routes/gamification.ts:13-19 | every badge row of the caller appears on the list |
| Gamification.BadgeFor | backend/src/routes/gamification.ts:177-196 | exactly the four known badge types award a badge; any other type awards nothing |
| Gamification.KnownBadgeTypes | backend/src/routes/gamification.ts:177-196 | the name and description each known type awards: Early Supporter, Referrer, Referred, Active User |
| Gamification.Rarity | backend/src/routes/gamification.ts:205 | a badge is legendary iff its type is `early_supporter`, common otherwise |
| Gamification.BadgeNamesDistinct | backend/src/routes/gamification.ts:177-196 | distinct badge types award distinctly named badges |
| Gamification.UpsertBadge | backend/src/routes/gamification.ts:199-207 | returns the existing badge of that name, or appends a new one with the type's description and rarity |
| Gamification.UpsertHeld | backend/src/routes/gamification.ts:210-222 | adds one award row unless the user already holds the badge |
| Gamification.AwardStep | backend/src/routes/gamification.ts:172-226 | an unknown type changes nothing; otherwise at most one badge row and one award row are appended, after which the user holds the badge |
| Gamification.AwardIdempotent | backend/src/routes/gamification.ts:199-222 | awarding the same badge to the same user again changes nothing |
| Gamification.AwardKeepsBadges | backend/src/routes/gamification.ts:199-222 | awarding never takes a badge away from anyone |
| Gamification.AwardPreservesUnique | backend/src/routes/gamification.ts:199-222 | one badge per name and one award per (user, badge) are kept |
| Gamification.UpsertBadgeKeepsUnique | backend/src/routes/gamification.ts:199-207 | the badge upsert by name never creates a second badge with the same name |
| Gamification.UpsertHeldKeepsUnique | backend/src/routes/gamification.ts:210-222 | the award upsert on `userId_badgeId` never creates a second award of one badge to one user |
| Gamification.UpsertsHoldBadge | backend/src/routes/gamification.ts:199-222 | after both upserts on a keyed badge table, the user holds a badge with the type's name |
| Gamification.AwardBadges | backend/src/routes/gamification.ts:172-226 | the store's badge tables afterwards are exactly `AwardStep` of the old ones |
| Store.Db.CreateBadge | backend/src/routes/gamification.ts:199-207 | `badge.create` appends the row at the next id and keeps the store consistent |
| Store.Db.CreateUserBadge | backend/src/routes/gamification.ts:210-222 | `userBadge.create` appends the row at the next id and keeps the store consistent |
| Gamification.ReferralTarget | backend/src/routes/gamification.ts:116-145 | the checks in order: code required, code already used by the caller, unknown user, self-referral; otherwise the user the code names |
| Gamification.SelfReferralRefused | backend/src/routes/gamification.ts:143-145 | giving one's own username is refused as a self-referral unless the code was already used |
| Gamification.ReferralCodeAsWritten | backend/src/routes/gamification.ts:111-169 | after validation the referral row is saved and the answer is the generic 500, with no badge awarded |
| Gamification.ReferralCode | backend/src/routes/gamification.ts:111-169 | after validation the referral row is saved with reward 0.01, the referrer and the referred user both hold their badges, the referrer's referral count grows by one and their total by 0.01, and the answer reports success |
| Gamification.SumOfEqualRewards | backend/src/routes/gamification.ts:93-96 | rewards that are all equal sum to that reward times their count |
| Gamification.AwardsCounted | backend/src/routes/gamification.ts:91 | the badge `count` counts exactly the positions of the user's award rows |
| Gamification.ReferralsCounted | backend/src/routes/gamification.ts:92 | the referral `count` counts exactly the positions of the referrals the user made, and is zero just when there are none |
| Gamification.EqualRewardsSum | backend/src/routes/gamification.ts:93-96 | when every referral carries the standard reward, the `_sum` is that reward times the user's referral count |
| Gamification.Stats | backend/src/routes/gamification.ts:86-108 | the badge count is the number of the user's award rows, the length of their `/badges` list; the referral count is the number of referrals they made, the count the leaderboard shows; the total is 0 without referrals and 0.01 times the count when every reward is 0.01 |
| Gamification.SumRewardsAppend | backend/src/routes/gamification.ts:93-96 | the `_sum` of rewards grows by the reward of an appended referral |
| Gamification.AwardCountsOnce | backend/src/routes/gamification.ts:91 | an award adds one to the awarded user's badge count exactly when it writes a new award row, and nothing to anyone else's |
| Gamification.ReferralCountsOnce | backend/src/routes/gamification.ts:92-96 | a saved referral adds one to the referrer's referral count and 0.01 to their total, and nothing to anyone else's |
| Gamification.InsertDesc | backend/src/routes/gamification.ts:62-66 | insertion keeps descending order and adds exactly the new entry |
| Gamification.SortDesc | backend/src/routes/gamification.ts:62-66 | the result is sorted by referral count, descending, and is a permutation of the input |
| Gamification.Entries | backend/src/routes/gamification.ts:51-61 | one entry per user with their referral count |
| Gamification.Ranked | backend/src/routes/gamification.ts:70-76 | ranks start at 1 and follow the order; each entry keeps its user's fields and count |
| Gamification.Ranking | backend/src/routes/gamification.ts:51-68 | all users with their referral counts, sorted by count descending, as a permutation |
| Gamification.Leaderboard | backend/src/routes/gamification.ts:49-76 | the first min(limit, users) of the ranking, limit 10 by default, ranked from 1, counts non-increasing, each entry a real user with their true count |
| Gamification.LeaderboardIsTop | backend/src/routes/gamification.ts:62-67 | a user missing from the board has no more referrals than anyone on it |
| Gamification.WriteThrough | backend/src/routes/gamification.ts:47 | a response object answers what it is given; `next` in its place answers nothing, assuming Express 4 and a build without type checking |
| Gamification.LeaderboardNeverAnswers | backend/src/routes/gamification.ts:47 | the leaderboard route as written never answers |
| Gamification.LeaderboardAsWritten | backend/src/routes/gamification.ts:47-83 | the leaderboard handler as declared never gives the answer the intended handler gives |
| Gamification.LeaderboardRoute | backend/src/routes/gamification.ts:47-83 | with `res` bound to the response, the route answers the leaderboard |
| MatchRoutes.FirstLikeIffExists | backend/src/routes/match.ts:28-37 | the existing-like lookup finds a row iff such a like exists |
| MatchRoutes.LikeStep | backend/src/routes/match.ts:9-93 | self-like 400, unknown receiver 404 and duplicate like 400 leave the tables unchanged; otherwise the like is appended, and a match is created iff the receiver had liked the sender; the answer carries that match with the summaries (id, username, profile image) of both users |
| MatchRoutes.EmptyAffinity | backend/src/routes/match.ts:9-93 | empty like and match tables satisfy the affinity invariant |
| MatchRoutes.LikeExistsAppend | backend/src/routes/match.ts:48-53 | after appending a like, a like exists iff it existed before or is the new one |
| MatchRoutes.LikePreservesAffinity | backend/src/routes/match.ts:9-93 | likes made one after another keep the invariant: no duplicate likes, every match backed by two likes, one match per mutual pair |
| MatchRoutes.NewLikeKeepsLikesSane | backend/src/routes/match.ts:14-45 | a like created after the self-like and duplicate checks keeps likes non-reflexive and one per ordered pair |
| MatchRoutes.AppendedLikes | backend/src/routes/match.ts:40-45 | after the like is created, a like from x to y exists exactly when it existed before or is the new one |
| MatchRoutes.NewMatchBacked | backend/src/routes/match.ts:47-80 | a match created on finding the mutual like is backed by likes both ways, as are all earlier matches |
| MatchRoutes.NewMatchMutuals | backend/src/routes/match.ts:47-80 | creating the match for the new mutual pair keeps every mutual pair matched |
| MatchRoutes.OneSidedLikeMutuals | backend/src/routes/match.ts:47-56 | a like with no like back creates no mutual pair, so no match is owed |
| MatchRoutes.NoMatchWithoutLike | backend/src/routes/match.ts:28-37 | while the like from x to y is absent no match of the pair exists, so the match created next is the pair's only one |
| MatchRoutes.NewMatchKeepsPairsUnique | backend/src/routes/match.ts:55-80 | a match for a pair with no match yet keeps one match per unordered pair |
| MatchRoutes.AcceptedLikeKeepsAffinity | backend/src/routes/match.ts:40-80 | the like created, with the match created exactly when the like back exists, keeps the whole invariant |
| MatchRoutes.MutualLikesHaveOneMatch | backend/src/routes/match.ts:47-82 | under the invariant, two mutual likes have exactly one match |
| MatchRoutes.TwoLikesMakeOneMatch | backend/src/routes/match.ts:47-82 | A likes B without a match, then B likes A and exactly one match of A and B exists |
| MatchRoutes.DeactivatePreservesAffinity | backend/src/routes/match.ts:265-268 | deactivating a match keeps the invariant |
| MatchRoutes.SamePairsSameAffinity | backend/src/routes/match.ts:265-268 | an update that keeps every match's two users keeps the invariant |
| MatchRoutes.PostLike | backend/src/routes/match.ts:9-93 | the like and match tables and the answer are exactly `LikeStep` |
| MatchRoutes.DeleteMatch | backend/src/routes/match.ts:246-275 | 404 unless the caller belongs to the match; otherwise only that match becomes inactive |
| MatchRoutes.NewestMessage | backend/src/routes/match.ts:126-134 | the newest message of the match, or None iff the match has no message |
| MatchRoutes.ViewOf | backend/src/routes/match.ts:142-156 | shows the other user of the match and the newest message, flagged as the caller's own iff the caller sent it |
| MatchRoutes.ListMatches | backend/src/routes/match.ts:96-163 | defaults page 1 and limit 20; exactly the window `skip = (page-1)·limit`, `take = limit` of the caller's active matches newest first, each shown as its view, so every entry is an active match of the caller |
| MatchRoutes.LikesReceived | backend/src/routes/match.ts:166-203 | defaults page 1 and limit 20; exactly the window of the likes the caller received, newest first, each shown with its sender |
| MatchRoutes.LikesSent | backend/src/routes/match.ts:206-243 | defaults page 1 and limit 20; exactly the window of the likes the caller sent, newest first, each shown with its receiver |
| MatchRoutes.EveryActiveMatchListed | backend/src/routes/match.ts:101-138 | every active match of the caller is shown on some page, whatever the page size |
| MatchRoutes.EveryReceivedLikeListed | backend/src/routes/match.ts:171-191 | every like the caller received is shown on some page, whatever the page size |
| MatchRoutes.EverySentLikeListed | backend/src/routes/match.ts:211-231 | every like the caller sent is shown on some page, whatever the page size |
| Paging.PageWindow | backend/src/services/chatService.ts:116-117 | `skip = (page - 1) * limit` and `take = limit`; None exactly when either would be negative |
| Paging.FirstPageWindow | backend/src/services/chatService.ts:116 | page 1 skips nothing |
| Paging.SliceFacts | backend/src/services/chatService.ts:116-117 | a page holds `min(take, n - min(skip, n))` items of the result, in order; a page past the end is empty |
| Paging.ShowSlice | backend/src/routes/match.ts:136-138 | showing each item of a `skip`/`take` slice gives exactly that page of the result, item `skip + k` in place `k` |
| Paging.PageOfItem | backend/src/routes/match.ts:101 | page `i / limit + 1` starts at the multiple of `limit` at or below `i` |
| Paging.ItemOnItsPage | backend/src/routes/match.ts:101-138 | no item of an ordered result is skipped: item `i` is item `i % limit` of page `i / limit + 1` |
| Paging.HistoryPageIsAscendingSlice | backend/src/services/chatService.ts:115-126 | paging newest first and reversing gives the ascending slice that ends `skip` items before the end |
| Paging.HistoryPageFacts | backend/src/services/chatService.ts:115-126 | a history page has at most `take` messages and is empty past the history |
| Paging.PagesUpToIsSuffix | backend/src/services/chatService.ts:115-126 | pages k down to 1 are the last k·limit messages in ascending order, nothing lost or repeated |
| Paging.PagesReassembleHistory | backend/src/services/chatService.ts:115-126 | once the pages cover the history, they reassemble it exactly |
| Paging.PageOfFilter | backend/src/routes/match.ts:103-138 | every item of a newest-first page of a filtered query is a table row that passes the filter |
| PaymentRoutes.ValidatePayment | backend/src/routes/payment.ts:14-20 | missing or falsy fields give 400 first, then a type other than initial or monthly gives 400; it succeeds exactly otherwise |
| PaymentRoutes.AsServerError | backend/src/routes/payment.ts:34-37 | a service failure becomes a 500 with its message, or the generic one when the message is empty |
| PaymentRoutes.ProcessRoute | backend/src/routes/payment.ts:9-38 | a rejected request leaves the store unchanged; a valid one does exactly what `PaymentStep` says, and a failure is reported as a 500 |
| PaymentRoutes.HistoryRoute | backend/src/routes/payment.ts:41-52 | answers the caller's payment history: every payment of the caller, only theirs, newest first |
| PaymentRoutes.Pricing | backend/src/routes/payment.ts:69-108 | three offers in SOL with the same four features, the two initial ones for six months, the monthly one for a month, and monthly < early-bird < regular in price; `Consistency.PricesMatchProgram` ties the prices to the program's lamports |
| PaymentRoutes.StatusRoute | backend/src/routes/payment.ts:55-66 | the service's status, or the generic 500 for an unknown user |
| PaymentService.RemainingMs | backend/src/services/paymentService.ts:49 | time is left iff a period exists and ends after now |
| PaymentService.NewPremiumUntil | backend/src/services/paymentService.ts:41-56 | initial: six months from now; monthly: 30 days after the later of now and the current end |
| PaymentService.MonthlyStacks | backend/src/services/paymentService.ts:49-55 | a monthly payment never loses paid time |
| PaymentService.InitialRestartsPeriod | backend/src/services/paymentService.ts:44-46 | an initial payment restarts the period, so more than six months left ends up shorter |
| PaymentService.PaymentStep | backend/src/services/paymentService.ts:6-73 | an unverified transaction changes nothing; otherwise a confirmed payment is recorded before the user lookup, and for a known user only their row changes: premium, with the new end |
| PaymentService.ProcessPayment | backend/src/services/paymentService.ts:6-73 | the user and payment tables and the answer are exactly `PaymentStep` |
| PaymentService.PaymentHistory | backend/src/services/paymentService.ts:75-87 | exactly the user's payments, newest first |
| PaymentService.DaysRemaining | backend/src/services/paymentService.ts:109-111 | `Math.ceil` of the remaining days: `DAY·(d-1) < until - now <= DAY·d` |
| PaymentService.CheckSubscriptionStatus | backend/src/services/paymentService.ts:89-117 | unknown user fails; premium iff flagged and the period has not ended; days 0 without a period, otherwise the `Math.ceil` of the days left, which is negative once the period is over by a day, and positive iff the period ends after now |
| PaymentService.PaymentGrantsPremium | backend/src/services/paymentService.ts:58-64 | right after a payment the payer's status is premium with at least 30 days left, and exactly 180 after an initial payment |
| Store.UserById | backend/src/routes/match.ts:19-21 | finds a user iff the id exists, and returns that row |
| Store.MatchFor | backend/src/services/chatService.ts:37-45 | finds the match iff it exists and the user is one of its two users |
| Store.BadgesOf | backend/src/routes/auth.ts:141-145 | one badge row per award row of the user whose badge exists, in award order, none missing |
| Store.EveryAwardShown | backend/src/routes/auth.ts:141-145 | every badge the user was awarded is in their profile |
| Store.Names | backend/src/routes/user.ts:106 | the names of the interest rows, in order |
| Store.LinksTo | backend/src/routes/user.ts:82-87 | one link from the user to each given interest row |
| Store.InterestsOfOthers | backend/src/routes/user.ts:66-68 | links of other users give the user no interests |
| Store.InterestsOfAppend | backend/src/routes/user.ts:82-87 | appending links appends their interests |
| Store.InterestsOfLinks | backend/src/routes/auth.ts:91-95 | linking a user to stored interest rows gives back exactly those rows as the user's interests |
| Store.UpsertInterests | backend/src/routes/user.ts:72-80 | one row per name, each with that name; the table only grows, the appended rows carry names from the list, and name uniqueness is kept |
| UserRoutes.ReplaceInterests | backend/src/routes/user.ts:64-89 | the caller's interest names become exactly the list given; the interest table only grows and every row added carries one of the names given; other users' links are unchanged |
| UserRoutes.UpdateProfile | backend/src/routes/user.ts:42-113 | a username taken by another user is 400 with nothing changed; interest rows are added only when a list is given, and each carries one of its names; otherwise the username is set when given, the interests are replaced when given, and uniqueness of usernames, wallets and interest names is kept |
| UserRoutes.InterestFilter | backend/src/routes/user.ts:172-180 | the query filters by interests iff it is an array |
| UserRoutes.LikedIds | backend/src/routes/user.ts:159-164 | an id is listed iff the caller has liked that user |
| UserRoutes.Discoverable | backend/src/routes/user.ts:167-194 | exactly the other users the caller has not liked who share a filtered interest, newest first |
| UserRoutes.Discover | backend/src/routes/user.ts:151-207 | defaults page 1 and limit 10; exactly the window of the discoverable profiles newest first, so every card is of an eligible user; an invalid window is the generic 500 |
| UserRoutes.FirstPageIsNewest | backend/src/routes/user.ts:182-194 | the first page is the newest `limit` eligible profiles |
| UserRoutes.EveryEligibleProfileListed | backend/src/routes/user.ts:156-193 | every profile the caller may discover is shown on some page, whatever the page size |
| UserRoutes.SingleInterestIgnored | backend/src/routes/user.ts:172 | a single `interests` value answers the same as no filter |
| UserRoutes.Stats | backend/src/routes/user.ts:210-239 | likesSent and likesReceived are exactly the number of like rows sent and received by the caller; matches is exactly the number of match rows the caller is in, inactive ones included, so 0 iff there are none and at least the chat's active count; messages equals the chat count; all are bounded by the tables |
| UserRoutes.LikesCounted | backend/src/routes/user.ts:215-216 | the two like `count` queries count exactly the positions of the like rows the user sent and received |
| UserRoutes.MatchesCounted | backend/src/routes/user.ts:217-221 | the match `count` query counts exactly the positions of the match rows the user is in, active or not |
| UserRoutes.LikeMovesCounters | backend/src/routes/user.ts:214-221 | a like adds one to the sender's sent count and the receiver's received count, a new match one to both users' match counts, and nothing to anyone else |

## Findings

| source | as written | input that shows it | evidently intended | confidence | as-written member | corrected member |
|---|---|---|---|---|---|---|
| backend/src/index.ts:74 | `/api/auth` is mounted without the authentication middleware, yet `/me` reads `req.user!.id` | any `GET /api/auth/me`, even with a valid token | `/me` runs behind the middleware and answers the caller's profile | high, not executed | AuthRoutes.MeAsMountedAlwaysFails | AuthRoutes.Me |
| backend/src/routes/gamification.ts:157-158 | `this.awardBadges` inside a module-level arrow function, where `this` holds no `awardBadges` | any valid referral code | award the referrer and referred badges and answer success | high, not executed | Gamification.ReferralCodeAsWritten | Gamification.ReferralCode |
| backend/src/routes/gamification.ts:47 | the handler declares `(req, AuthRequest, res)`, so `res` is Express's `next`; on Express 4, in a build that skips type checking, no answer is sent (Express 5 would pass the rejection to the error handler and answer 500, and a type-checked build rejects `res.json` on a `NextFunction`) | any `GET /leaderboard/referrers` | `(req: AuthRequest, res)` answering the ranked leaderboard | medium, not executed | Gamification.LeaderboardNeverAnswers | Gamification.LeaderboardRoute |

## Left out

- Socket.IO delivery, logging, rate limiting, CORS and the other Express middleware: I/O with no effect on the stored state.
- The AES cipher, JWT signing and verification, and the Solana RPC check are parameters. Token expiry (`JWT_EXPIRES_IN`) is part of the verification function.
- The profile-image upload (`POST /profile-image`): it is file-system and image-processing I/O.
- `GET /badges/available`: ordering by name depends on the database's string collation, which is not modelled.
- Concurrency: the handlers run one at a time. The `Promise.all` upserts happen in list order, and races between requests are not modelled.
- Floating point: amounts and rewards are `real`. JavaScript's rounding of `0.01 * n` is not modelled.
- Query strings are already-parsed integers. `Number()` of a non-numeric string (NaN) is not modelled.
- Paging.PageWindow: a negative skip or take is a refused query (a 500). Prisma would instead read a negative take from the other end.
- Gamification.Leaderboard: the limit is a natural number, and among users with equal counts the order is the insertion sort's. The database's tie order is unspecified.
- Gamification.SortDesc: ties keep the order given by the insertion sort, not the database's.
- UserRoutes.UpdateProfile: an `interests` body that is not an array is not modelled, because the JavaScript call `.map` on it would throw.
- AuthRoutes.Register: interests must be a list of names. A truthy non-array value is not modelled.
- Store uniqueness constraints (username, wallet, interest name, one award per user and badge) are stated as predicates the handlers preserve. The database's own rejection of duplicates is not modelled.
- `createdAt` ordering is insertion order. Rows created in the same millisecond keep their insertion order.
- Frenschain.Program.SubscribeInitial: the configuration account is not declared mutable, so the runtime would reject the lamport transfer into it. The model lets the transfer succeed.
- Frenschain.Program.SubscribeMonthly: the configuration account is not declared mutable, so the same runtime rejection applies. The model lets the transfer succeed.
- On chain, `is_premium` is never cleared and a wallet's period in the backend is separate. Nothing links the two stores beyond the lemmas of `Consistency`.
- ChatService.SendMessage: `messageType` is a required argument. The source's default `'text'` only matters to callers that omit it, the socket handlers, which are not modelled.
- PaymentService.CheckSubscriptionStatus: with the premium flag set and no period, the source's `isPremium` is `null` rather than `false`; the model answers `false`. No modelled write produces that state.
- Anchor account rent, the `bump` fields and signer checks other than the paying wallet are not modelled.
