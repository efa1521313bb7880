# TRi: what the trading journal's hard parts guarantee

A model in Dafny of the logic of TRi, a multi-tenant trading journal (Next.js, Prisma, PostgreSQL),
with proofs of what it promises its users. `dafny verify dfyconfig.toml` checks everything.

The model follows the program's own shape. Loops are loops with invariants, rows and browser
state are fields of classes, and each method is proved equal to a function of its inputs or of
the old state; the laws are then lemmas about those functions and about whole runs of them.

| files | what they model |
|---|---|
| `Bits`, `Int32`, `Base32`, `Base32Facts`, `Base32Laws`, `Totp` | base32 over an overflowing 32-bit accumulator, HOTP, the verification window and the replay guard |
| `SignIn`, `EnrolmentLaws`, `FactorLaws`, `SignInLaws`, `AccountTimeline`, `Overlap`, `ChallengeTimeline`, `ChallengeOverlap`, `SupersessionLaws` | password, challenge and second factor, request by request and with requests that overlap |
| `RateLimit` | the fixed-window limiter and its hourly prune |
| `Sessions`, `SessionLaws`, `LiveTabs`, `LiveTabLaws` | the rolling session on the server and the tabs that keep it alive |
| `AnalyticsTypes`, `Metrics`, `Drawdown`, `Underwater`, `ConcentrationFacts`, `Concentration` | the figures of a book and the shape of its equity curve |
| `Grouping`, `Dimensions`, `Labels`, `DayLoadFacts`, `DayLoads`, `BarLaws`, `Periods`, `PeriodFacts`, `PeriodLaws` | breakdowns, calendar and period returns, and what they add up to |
| `Layout`, `LayoutFacts`, `LayoutLaws` | the dashboard layout: reading anything that is stored, editing, saving |
| `ManualTrades`, `ManualTradeFacts`, `ManualTradeLaws` | concurrent entry of typed trades over a unique index |
| `ResetTokens`, `ResetTokenLaws` | concurrent creation and redemption of password-reset links |
| `Supersession` | rows that a newer one of the same user replaces, when creations overlap |

Money and percentages are `real`, instants are integers in milliseconds, JavaScript's 32-bit
operators are written out with their wrap-around. HMAC-SHA1, token and recovery-code hashes, the
wall clock, string case mapping and collation are parameters, so every statement holds for any of
them.

Where the code and what is written about it differ, the model follows the code:

- The comment on the layout's scan cap (`src/lib/dashboard/layout.ts:123-125`) says a longer list
  cannot contain anything worth keeping. It can (`CapCanLoseAnEntry`);
  `CapIsHarmlessExactly` says when it makes no difference.
- The header of the dimensions (`src/lib/analytics/dimensions.ts:6-13`) calls every dimension a
  partition. Weekday and heat map are not one for weekend trades, and strategy and mood are not
  one when a label equals the reserved key; the iff statements on `ByWeekday`, `ByStrategy`,
  `ByRating` and `ByMood` draw the line.
- The comment on starting balances (`src/lib/analytics/periods.ts:88-102`) wants no percentage
  without one. The year rows do not follow it (`YearPercentOverBlankMonths`).
- The comments on single use (`src/lib/auth/two-factor.ts:94-96`, `src/lib/db/two-factor.ts:105-113`)
  and on the five attempts (`src/lib/auth/two-factor.ts:90-92`) are true of requests one after
  another, and of any that enter one and the same recovery code (`SameCodeWinsOnce`). Of
  overlapping requests in general they are not: a step or a recovery code is spent once exactly
  under the conditions of `StepsSpentOnceExactly` and `CodesSpentOnceExactly`; a challenge gives one
  session and five guesses exactly under those of `OneSessionExactly` and `FiveGuessesExactly`,
  and `OneChallengeTwoSessions` and `SixthGuessSignsIn` are requests for which it does not.
- The comments on newer challenges and links ending the older ones (`src/lib/db/two-factor.ts:169-171`,
  `src/lib/db/reset-tokens.ts:9`) are true of creations one after another. Each is a transaction that
  deletes and inserts at the database's default isolation, so of creations that overlap they are true
  exactly under the condition of `OneLiveExactly` and `OneChallengeExactly`;
  `TwoChallengesOfOneUser` and `TwoLinksRedeem` are creations for which they are not.
- The comment on the decoder (`src/lib/auth/totp.ts:63-66`) speaks of padding, spaces and lower
  case. It also takes ten characters outside ASCII, such as the sharp s, for letters of the
  alphabet (`DecodeAccepts`).

## Model

| member | source | states |
|---|---|---|
| `Base32.Base32Encode` | `src/lib/auth/totp.ts:45-61` | the loop over an accumulator that overflows 32 bits and is never masked returns the bytes' bits cut into fives, zero-padded, in the RFC 4648 alphabet |
| `Base32.Base32Decode` | `src/lib/auth/totp.ts:67-85` | the same accumulator read eight bits at a time gives the whole octets of the letters left after upper-casing and dropping blanks and `=`, or the error when any other character is left |
| `Base32Laws.RoundTrip` | `src/lib/auth/totp.ts:45-85` | decoding the encoding of any bytes gives those bytes |
| `Base32Laws.EncodedShape` | `src/lib/auth/totp.ts:45-61` | n bytes become ceil(8n/5) letters, all of the alphabet |
| `Base32Laws.EncodingIsInjective` | `src/lib/auth/totp.ts:45-61` | different bytes have different encodings |
| `Base32Laws.DecodeAccepts` | `src/lib/auth/totp.ts:67-85` | decoding succeeds exactly when every character is a letter, a digit from 2 to 7, a blank, `=`, or one of ten characters outside ASCII whose capitals are letters; five bits a letter, whole octets only |
| `Base32Laws.CanonicalText` | `src/lib/auth/totp.ts:45-85` | for text of the alphabet, encoding what it decodes to gives it back exactly when it has no spare quintet and its spare bits are zero |
| `Base32Laws.RetypedDecodes` | `src/lib/auth/totp.ts:67-85` | a secret typed back in any case, with blanks or padding anywhere, decodes to the original bytes |
| `Base32Laws.FormattingDecodesAlike` | `src/lib/auth/totp.ts:204-206` | the key grouped in fours for typing decodes to what the key decodes to |
| `Base32Laws.Rfc4648Example` | `src/lib/auth/totp.ts:45-61` | the byte of "f" is encoded as "MY", as section 10 of RFC 4648 has it, padding aside |
| `Int32.ShiftInAppends` | `src/lib/auth/totp.ts:50-51` | shifting and or-ing into the wrapped 32-bit value appends bits to the low w bits, whatever has overflowed, as long as w fits in 32 |
| `Int32.OrIsPlus` | `src/lib/auth/totp.ts:50-51` | the bitwise OR of a shifted value and a small number has the bits of their sum: the small number falls into bits the shift has cleared |
| `Int32.ShiftOutReads` | `src/lib/auth/totp.ts:53-55` | a shifted and masked read of the signed value equals the read of an unbounded one: only low bits are ever looked at |
| `Totp.CounterBuffer` | `src/lib/auth/totp.ts:102-108` | two 32-bit writes fill the eight bytes of the counter message |
| `Totp.CounterMessageReads` | `src/lib/auth/totp.ts:102-108` | read big-endian, the message is the counter |
| `Totp.HotpCode` | `src/lib/auth/totp.ts:102-119` | the code is the truncated HMAC modulo a million, padded to six characters, with the secret's and the counter's errors first |
| `Totp.TruncationIs31Bits` | `src/lib/auth/totp.ts:110-118` | dynamic truncation reads inside the twenty bytes and gives a 31-bit number (section 5.3 of RFC 4226) |
| `Totp.HotpIsSixDigits` | `src/lib/auth/totp.ts:102-119` | every code is exactly six decimal digits and reads back as the truncated value modulo a million |
| `Totp.HotpReadsAtNibble` | `src/lib/auth/totp.ts:102-119` | whatever offset the low four bits of the digest's last byte spell, the code reads as the four bytes there, big-endian, without the top bit, modulo a million; the offset is quantified, not computed |
| `Totp.HotpExists` | `src/lib/auth/totp.ts:102-119` | there is a code exactly for a secret that decodes and a counter that fits in 64 bits |
| `Totp.Rfc4226Example` | `src/lib/auth/totp.ts:102-119` | for the digest that appendix D of RFC 4226 gives for counter 0 the code is 755224 |
| `Totp.StepIsThirtySeconds` | `src/lib/auth/totp.ts:92-94` | an instant falls into step n exactly from 30 000 n ms on and before 30 000 (n + 1) ms |
| `Totp.VerifyTotp` | `src/lib/auth/totp.ts:144-165` | the loop over the window's offsets is the scan in ascending steps, negative steps skipped |
| `Totp.VerdictByLeastMatch` | `src/lib/auth/totp.ts:144-165` | accepted(step), replayed and wrong each hold exactly under their condition on the least step of the window that shows the code |
| `Totp.BlanksMakeNoDifference` | `src/lib/auth/totp.ts:144-148` | a blank typed anywhere makes no difference, and what has none is malformed exactly unless it is six digits |
| `Totp.GenuineCodeAccepted` | `src/lib/auth/totp.ts:144-165` | the code shown at a step no more than one away is accepted while no step from the window on has been spent |
| `Totp.AcceptedStepsIncrease` | `src/lib/auth/totp.ts:126-165` | over any run whose caller stores each accepted step, accepted steps strictly increase, even when the clock goes backwards |
| `SignIn.AuthStore.SignInAction` | `src/app/(auth)/actions.ts:97-187` | a right password opens a challenge, and no session, when the second factor is on at its reading; it starts a session otherwise; others may run at every await; the whole new state |
| `SignIn.AuthStore.StartChallenge` | `src/lib/db/two-factor.ts:173-188` | when the transaction commits, the user's challenges that were there at its deletion are gone and the new one is there; anything may run in between |
| `SignIn.AuthStore.ConsumeRecoveryCodeHash` | `src/lib/db/two-factor.ts:114-126` | wins exactly when the code is in the list it reads and still in the row when it writes, and then puts back the list it read without the code; anything may run in between, an account that is gone included |
| `SignIn.AuthStore.FailChallenge` | `src/lib/db/two-factor.ts:220-232` | counts a wrong code, and throws when the challenge is gone; the fifth deletes it in a second statement, with anything in between |
| `SignIn.AuthStore.AnswerChallenge` | `src/lib/auth/two-factor.ts:98-144` | recovery code, authenticator code or neither, statement by statement with anything running in between: the outcome and the whole new state, a challenge or an account that has gone meanwhile included |
| `SignIn.AuthStore.VerifyTwoFactorAction` | `src/app/(auth)/actions.ts:260-330` | no live challenge of this tenant leads back to the password; otherwise the answer is judged and a pass starts a session; others may run at every await |
| `SignInLaws.NextKeepsInv` | `src/lib/auth/two-factor.ts:98-144` | every request, one after another, and every settings change keeps the invariant: live challenges are well-formed, sessions stand on used-up factors, no two share a challenge or a factor |
| `SignInLaws.EachSessionItsOwnFactor` | `src/lib/auth/two-factor.ts:83-144` | over every run of requests one after another no challenge yields two sessions, no TOTP step or recovery code starts two, and each challenged session belongs to the user whose password had verified less than five minutes before |
| `SignInLaws.SessionsArePaidFor` | `src/lib/auth/two-factor.ts:98-135` | a request starts at most one session; at the code step the factor was still good before and is used up after, and none is taken exactly when the second factor has been turned off meanwhile |
| `SignInLaws.FiveWrongCodesAtMost` | `src/lib/db/two-factor.ts:156-232` | over every run of requests one after another one verified password allows at most five wrong codes |
| `SignInLaws.FifthWrongCodeDestroys` | `src/lib/db/two-factor.ts:219-232` | and the wrong code that destroys a challenge is its fifth, never an earlier one |
| `SignInLaws.OneChallengePerUser` | `src/lib/db/two-factor.ts:166-188` | over every run of requests one after another a user has at most one live challenge |
| `EnrolmentLaws.ConfirmedIsProtected` | `src/app/(auth)/actions.ts:174-186` | over every run, from an accepted confirmation of the set-up until the user next begins a set-up, turns the factor off or deletes the account: no password starts a session of his, a right one opens a challenge, and no session of his stands on the password alone |
| `EnrolmentLaws.UnconfirmedSignsIn` | `src/app/(auth)/actions.ts:174-186` | over every run, an account that was never confirmed signs in with the right password alone |
| `EnrolmentLaws.PasswordStepReadsColumns` | `src/lib/auth/two-factor.ts:45-48` | the password step with anything in its pauses opens a challenge or starts a session by the columns `confirmed` and `secret` as it read them |
| `EnrolmentLaws.CodeStepReadsColumns` | `src/lib/auth/two-factor.ts:98-144` | and the code step passes without a factor exactly by those columns as it read them |
| `FactorLaws.AuthenticatorSignsIn` | `src/lib/auth/two-factor.ts:98-134` | over every run from a set-up begun with some secret and confirmed: what is no recovery code signs in exactly when that secret accepts it after the step of the last session paid with one, or of the confirmation |
| `FactorLaws.RecoveryCodeSignsIn` | `src/lib/db/two-factor.ts:86-130` | over every run from the moment recovery codes are given: one signs in exactly when it is among those given and no session has been paid with it |
| `FactorLaws.TurnedBackExactly` | `src/lib/db/two-factor.ts:196-217` | a code is turned back to the password, with nothing changed, exactly when its token names no challenge, an expired one, or one of another tenant's user |
| `FactorLaws.SweepTakesTheExpired` | `src/lib/db/two-factor.ts:244-249` | a sweep takes exactly the challenges that expired before it, and turns nobody back who was not already |
| `FactorLaws.TurnedOffStaysOff` | `src/lib/db/two-factor.ts:139-149` | once turned off, the factor stays off, whatever is confirmed, until a set-up is begun |
| `FactorLaws.ClosedForGood` | `src/lib/auth/two-factor.ts:98-144` | over every run an account that was deleted has no challenge and starts no session |
| `FactorLaws.NoChallengeWithoutAccount` | `src/lib/db/two-factor.ts:173-188` | however the statements of requests and account deletions interleave, no challenge is left without its account |
| `Overlap.StepsSpentOnceExactly` | `src/lib/auth/two-factor.ts:98-134` | when requests of one account interleave: each step starts at most one session whatever is typed, exactly if no two requests have both read the row before either writes it |
| `Overlap.CodesSpentOnceExactly` | `src/lib/db/two-factor.ts:105-126` | when they interleave: each recovery code is spent at most once whatever is entered, exactly if no request writes back a list read before another's code was spent, with a third to enter it |
| `Overlap.SameCodeWinsOnce` | `src/lib/db/two-factor.ts:105-126` | of any number of requests entering one and the same code, at most one wins, however they interleave |
| `Overlap.OverlapSpendsTwice` | `src/lib/db/two-factor.ts:101-103` | two overlapping requests showing one code both pass: the recorded step is written unconditionally |
| `ChallengeOverlap.AloneIsSerial` | `src/app/(auth)/actions.ts:260-330` | with nothing in between, a request's statements come to the single step that the laws over serial runs are about |
| `ChallengeOverlap.EveryPassIsPaidFor` | `src/lib/auth/two-factor.ts:98-144` | whatever others do in any of its pauses, a request that signs in has found a live challenge of that user and a factor still good when it read it, a recovery code also when it wrote it off |
| `ChallengeOverlap.OneChallengeTwoSessions` | `src/lib/auth/two-factor.ts:94-121` | from any state with two unused recovery codes, a request that runs within another one leaves two sessions on one challenge |
| `ChallengeOverlap.SixthGuessSignsIn` | `src/lib/auth/two-factor.ts:90-92` | after five wrong answers have destroyed a challenge, a request that had looked it up before still signs in |
| `ChallengeOverlap.OneStepTwoSessions` | `src/lib/auth/two-factor.ts:102-134` | from any state in which a code would be accepted, a whole request with that code after another has read the account leaves two sessions on one and the same step |
| `ChallengeOverlap.OneSessionExactly` | `src/lib/db/two-factor.ts:196-236` | for any number of requests on a challenge and whatever is typed: at most one right code is judged, exactly if no two of them look the challenge up, while it is there, before either settles |
| `ChallengeOverlap.FiveGuessesExactly` | `src/lib/db/two-factor.ts:155-232` | whatever is typed, at most five guesses are judged, exactly if no request that settles after five others looks the challenge up before the fifth or a later one has dropped it |
| `ChallengeOverlap.OneAfterAnotherIsSafe` | `src/lib/db/two-factor.ts:196-236` | requests that run one after another meet both conditions |
| `ChallengeOverlap.AnyVerdictsHappen` | `src/lib/db/two-factor.ts:114-126` | however requests overlap on the account's row, some codes make any of them right and any wrong |
| `SupersessionLaws.SignInAloneIsSerial` | `src/app/(auth)/actions.ts:97-187` | with nothing in between, a sign-in's statements come to the single step of the laws over serial runs |
| `SupersessionLaws.TwoChallengesOfOneUser` | `src/lib/db/two-factor.ts:166-188` | a sign-in that runs between another's deletion and its commit leaves two live challenges of one user |
| `SupersessionLaws.OneChallengeExactly` | `src/lib/db/two-factor.ts:166-188` | however the sign-ins of an account are timed, the table never holds two challenges of it, exactly if none commits between the deletion of another and its commit |
| `SupersessionLaws.TablesFollow` | `src/lib/db/two-factor.ts:173-188` | after every instant the table holds the challenges of exactly the live creations of the timeline |
| `Supersession.OneLiveExactly` | `src/lib/db/reset-tokens.ts:4-14` | of rows created by deleting a user's earlier ones and inserting, challenges and reset links alike, two are never there at once, exactly if no two creations overlap |
| `Supersession.LatestIsLive` | `src/lib/db/reset-tokens.ts:4-14` | and the one committed last is there whatever overlaps |
| `RateLimit.RateLimits.ConsumeRateLimit` | `src/lib/db/rate-limit.ts:22-53` | one atomic upsert: a fresh row when none is live, one more on a live one; the verdict, what remains and the wait |
| `RateLimit.RateLimits.ResetRateLimit` | `src/lib/db/rate-limit.ts:56-58` | removes the key's row and no other |
| `RateLimit.RateLimits.PruneExpiredRateLimits` | `src/lib/db/rate-limit.ts:60-63` | removes exactly the expired rows and counts them |
| `RateLimit.PruneIsUnobservable` | `src/lib/db/rate-limit.ts:30-63` | two runs that differ only in prunes, put anywhere, give the same answers to every call |
| `RateLimit.PruneRemovesTheForgotten` | `src/lib/db/rate-limit.ts:60-63` | a row is removed exactly if from then on no call could tell that it is gone |
| `RateLimit.WindowsHoldTheLimit` | `src/lib/db/rate-limit.ts:22-53` | over every run on a key, at most `limit` calls are allowed per window and successive windows start at least a window apart |
| `RateLimit.SlidingBound` | `src/lib/db/rate-limit.ts:22-53` | any interval of one window's length, however placed, holds at most twice the limit of allowed calls |
| `RateLimit.SlidingBoundIsReached` | `src/lib/db/rate-limit.ts:22-53` | and for every limit some run reaches twice the limit |
| `RateLimit.AdvisedWaitIsExact` | `src/lib/db/rate-limit.ts:30-53` | after a refusal every earlier call is refused too and the first one after the advised wait is allowed, however many came between |
| `RateLimit.VerdictFromHistory` | `src/lib/db/rate-limit.ts:22-53` | over any run with any limits, windows, resets and prunes, the verdict on a call told from the events alone: the n-th call of its window is allowed exactly while n is within the limit, with the limit less n remaining, and refused until the window closes |
| `RateLimit.WindowsCountCalls` | `src/lib/db/rate-limit.ts:22-53` | and without resets n counts the calls on the key since the window opened |
| `Sessions.SessionTable.StartSession` | `src/lib/auth/session.ts:85-101` | adds a row good for an hour, and nothing else |
| `Sessions.SessionTable.GetSession` | `src/lib/auth/session.ts:31-63` | answers for a live row of the tenant younger than twelve hours; moves its expiry to an hour from now when more than five minutes of the hour are used, and changes nothing else; others may run before the write, which throws when the row is gone |
| `Sessions.SessionTable.DeleteOtherUserSessions` | `src/lib/db/sessions.ts:141-149` | removes exactly the user's other sessions and counts them |
| `Sessions.SessionTable.PruneExpiredSessions` | `src/lib/db/sessions.ts:156-167` | removes exactly the rows past either deadline and counts them |
| `Sessions.PruneRemovesTheDead` | `src/lib/db/sessions.ts:63-167` | pruning removes exactly the rows that `findSession` refuses to everyone |
| `Sessions.PruneIsUnobservable` | `src/lib/db/sessions.ts:156-167` | prunes put anywhere into a run change no answer |
| `Sessions.ExpiryTracksUse` | `src/lib/auth/session.ts:31-63` | over every run the stored expiry stays between 55 and 60 minutes past the last authenticated request, and the creation time never moves |
| `Sessions.IdleOrOldIsRefused` | `src/lib/auth/session.ts:31-63` | an hour without use, or twelve hours of age, and the token is refused to every tenant |
| `Sessions.SteadyUseSurvives` | `src/lib/auth/session.ts:31-63` | uses less than 55 minutes apart are all answered until the twelve-hour cap |
| `Sessions.FiftyFiveMinutesCanBeTooLong` | `src/lib/auth/session.ts:42-63` | a run in which a gap of 55 minutes exactly loses the session |
| `Sessions.RequestAloneIsStep` | `src/lib/auth/session.ts:39-46` | with nothing in between, look-up and write come to the single step of the laws over runs |
| `Sessions.RequestFailsExactly` | `src/lib/auth/session.ts:39-46` | a request ends in an error exactly if it is due to write and its row has gone since the look-up |
| `Sessions.LateTouchExactly` | `src/lib/auth/session.ts:42-46` | a write overtaken by others' requests moves the expiry forward by more than five minutes exactly if none of them wrote it meanwhile, for pauses of up to five minutes |
| `Sessions.OverlapWritesTwice` | `src/lib/auth/session.ts:42-46` | two requests that both find the session before either writes it write it twice at once |
| `Sessions.TouchMovesForward` | `src/lib/auth/session.ts:42-63` | over requests one after another a write moves the expiry forward by more than five minutes |
| `Sessions.FewWrites` | `src/lib/auth/session.ts:42-63` | over any run of requests one after another one session is written fewer than 144 times |
| `SessionLaws.AnsweredWithinItsHour` | `src/lib/db/sessions.ts:63-101` | over every run a token is answered only as its user, to its tenant, within 3 600 000 ms of its last use and 43 200 000 ms of the sign-in, and always within 3 300 000 ms of that use |
| `SessionLaws.EndedForGood` | `src/lib/db/sessions.ts:124-126` | after a sign-out the token is never answered again, and every other one as if nothing had happened |
| `SessionLaws.EndedElsewhere` | `src/lib/db/sessions.ts:141-149` | after signing out everywhere else none of the user's other tokens is ever answered again, and the one kept and everybody else's are as if nothing had happened |
| `LiveTabs.Tab.MarkActivity` | `src/components/shell/activity.ts:43-51` | writes the shared stamp at most every five seconds a tab |
| `LiveTabs.Tab.OnTimer` | `src/components/shell/live-refresh.tsx:58-72` | polls when visible, while anyone was active in the last two minutes, and not within the minimum gap |
| `LiveTabs.Tab.OnVisibilityChange` | `src/components/shell/live-refresh.tsx:74-84` | coming back asks at once, outside the minimum gap, without touching the stamp |
| `LiveTabs.AbandonedTabsDie` | `src/components/shell/live-refresh.tsx:58-81` | with any number of tabs, every reachable state has the server's expiry within 62 minutes of the last human event, so nothing authenticates later than that or than twelve hours after sign-in |
| `LiveTabs.PollWindow` | `src/components/shell/activity.ts:43-69` | a visible tab polls for as long as any tab was touched in the last 115 seconds, and never two minutes after the last human event |
| `LiveTabLaws.PollIsSent` | `src/components/shell/live-refresh.tsx:58-81` | over every run a poll is sent by a page that shows and has not woken in the last five seconds while anybody touched any page in the last 115 seconds; none by a hidden page or two minutes after anybody did anything |
| `LiveTabLaws.PollWithoutStorage` | `src/components/shell/activity.ts:62-69` | where storage does not read, a page polls for the two minutes after it was opened and no longer |
| `LiveTabLaws.TouchingSends` | `src/components/shell/live-refresh.tsx:58-84` | opening a page or clicking always sends a request; coming back does unless the page woke within five seconds |
| `LiveTabLaws.RefreshesKeepApart` | `src/components/shell/live-refresh.tsx:58-64` | no two refreshes of one page within five seconds, whatever woke it |
| `LiveTabLaws.WritesKeepApart` | `src/components/shell/activity.ts:43-51` | no two writes of the shared stamp by one page within five seconds |
| `LiveTabLaws.RequestsAreAnswered` | `src/lib/auth/session.ts:31-63` | while nobody signs out, whatever a page sends within fifty-five minutes of the last answer and twelve hours of the sign-in is answered, and nothing an hour after |
| `LiveTabLaws.SignedOutForAll` | `src/lib/auth/session.ts:117-122` | once somebody has signed out, no page of the session is answered |
| `Metrics.ComputeMetrics` | `src/lib/analytics/metrics.ts:36-78` | the one pass yields the figures of the additive tally of the trades |
| `Metrics.TallyAppend` | `src/lib/analytics/metrics.ts:36-78` | the tally of two lists together is the sum of their tallies |
| `Metrics.MetricsCohere` | `src/lib/analytics/metrics.ts:36-90` | wins and losses make the count, gross win less gross loss is the net, the averages weigh back to it, and the profit factor is infinite exactly for a book that won and never lost |
| `Metrics.FiguresFromTrades` | `src/lib/analytics/metrics.ts:36-78` | wins are the trades with a profit and gross win their sum, losses the others and gross loss theirs, and `avgRr` times the trades that have a ratio is the sum of the ratios |
| `Metrics.EquityCurve` | `src/lib/analytics/metrics.ts:98-107` | point i is the starting balance plus the net of the first i+1 trades |
| `Drawdown.MaxDrawdown` | `src/lib/analytics/metrics.ts:142-170` | the amount is the greatest fall over all pairs of balances, the start included; the dates are those of the first fall that deep and of the peak it fell from, the percentage is of that peak; no dates when there is none |
| `Drawdown.MaxRunUp` | `src/lib/analytics/metrics.ts:184-207` | the amount is the greatest climb over all pairs, with the trough and the peak that witness it |
| `Drawdown.RunUpIsDrawdownNegated` | `src/lib/analytics/metrics.ts:184-207` | a run-up is the drawdown of the negated balances |
| `Drawdown.WorstFallIsUnique` | `src/lib/analytics/metrics.ts:142-170` | the all-pairs definition has one value only |
| `Drawdown.WorstFallOfConcatenation` | `src/lib/analytics/metrics.ts:142-170` | of two windows end to end it is the greatest of both drawdowns and the fall from the first's maximum to the second's minimum |
| `Drawdown.BestClimbOfConcatenation` | `src/lib/analytics/metrics.ts:184-207` | and of two windows the run-up is the greatest of both and of the climb from the first's minimum to the second's maximum |
| `Drawdown.NetIsBracketed` | `src/lib/analytics/metrics.ts:142-207` | last balance minus start lies between minus the drawdown and the run-up |
| `Underwater.ComputeUnderwater` | `src/lib/analytics/consistency.ts:204-277` | the one pass reports the maximum over all recovered spells and the unfinished one, with the dates of the first that long; a recovered spell wins a tie |
| `Underwater.LongestIsLongest` | `src/lib/analytics/consistency.ts:233-249` | among the first n points no recovered spell is longer than the one held, and it is the first of its length |
| `Underwater.DaysAreWhole` | `src/lib/analytics/consistency.ts:236-262` | a stretch is d days long exactly when 86 400 000 d ms have passed and not yet 86 400 000 (d + 1) |
| `Underwater.LengthIsItsDates` | `src/lib/analytics/consistency.ts:236-242` | the reported length of a recovered spell is the whole days from one reported date to the other |
| `Underwater.LongestWithinSpan` | `src/lib/analytics/consistency.ts:204-277` | on a curve in closing order the length never exceeds the curve's own span |
| `Underwater.NoFallNoSpell` | `src/lib/analytics/consistency.ts:204-277` | a curve whose drawdown is zero reports no spell at all |
| `Concentration.TopIsOptimal` | `src/lib/analytics/consistency.ts:140-164` | the sum behind `topShare` is the most any selection of at most `topCount` trades makes, and a selection of winners makes it |
| `Concentration.NetWithoutBestIsLeast` | `src/lib/analytics/consistency.ts:151-152` | dropping at most one trade cannot leave less than `netWithoutBest`, and can leave exactly that |
| `Concentration.RestsOnOneTradeExactly` | `src/lib/analytics/consistency.ts:162` | true exactly when the book is profitable and some one trade's removal leaves it not so |
| `Concentration.TopShareRange` | `src/lib/analytics/consistency.ts:149-159` | missing exactly without winners; otherwise within 0 and 100, and 100 exactly when it counts every winner |
| `Concentration.SortIsPermutation` | `src/lib/analytics/consistency.ts:145-148` | the sorted winners are the winners, every pair in descending order |
| `Concentration.AgreesWithMetrics` | `src/lib/analytics/consistency.ts:144-149` | net and gross win are those of `computeMetrics` |
| `Dimensions.BucketBy` | `src/lib/analytics/dimensions.ts:22-39` | one bucket a key, in order, each with the metrics of exactly the trades of that key |
| `Dimensions.PartitionExactly` | `src/lib/analytics/dimensions.ts:5-39` | for distinct keys the buckets' count, net, wins, losses, gross win, gross loss and RR coverage add up to the book's exactly when every trade's key is listed |
| `Dimensions.BucketsSumToKept` | `src/lib/analytics/dimensions.ts:22-39` | in general they add up to the metrics of the trades that are listed |
| `Dimensions.BySession` | `src/lib/analytics/dimensions.ts:69-71` | adds up to the book, whatever the clock |
| `BarLaws.SessionBarsAreHours` | `src/lib/time/zone.ts:157-161` | the three bars show exactly the trades opened before nine, from nine to before sixteen, and from sixteen on |
| `Dimensions.ByDirection` | `src/lib/analytics/dimensions.ts:73-75` | adds up to the book |
| `Dimensions.ByStyle` | `src/lib/analytics/dimensions.ts:77-79` | adds up to the book |
| `Dimensions.ByAssetClass` | `src/lib/analytics/dimensions.ts:81-83` | adds up to the book |
| `Dimensions.ByHour` | `src/lib/analytics/dimensions.ts:64-67` | adds up to the book |
| `Dimensions.HoursAscend` | `src/lib/analytics/dimensions.ts:65` | every hour in use once, in clock order |
| `Dimensions.BySymbol` | `src/lib/analytics/dimensions.ts:153-156` | adds up to the book |
| `Dimensions.ByWeekday` | `src/lib/analytics/dimensions.ts:55-61` | adds up to the trades opened Monday to Friday, hence to the book exactly without weekend trades |
| `BarLaws.WeekdayBarIsItsDay` | `src/lib/analytics/dimensions.ts:55-60` | the i-th bar, Monday first, shows exactly the trades opened on that day |
| `Dimensions.Heatmap` | `src/lib/analytics/dimensions.ts:164-181` | fifteen cells in order, each with the net and count of its trades |
| `BarLaws.SquareIsDayAndHours` | `src/lib/analytics/dimensions.ts:164-181` | a square shows exactly the trades opened on its weekday within its session's hours |
| `Dimensions.HeatRowIsWeekday` | `src/lib/analytics/dimensions.ts:55-61` | each row of the heat map adds up to that weekday's bar |
| `Dimensions.HeatmapAddsUp` | `src/lib/analytics/dimensions.ts:164-181` | the fifteen cells add up, in count and net, to the trades opened Monday to Friday, and to the number of all trades exactly without weekend trades |
| `Labels.ByStrategy` | `src/lib/analytics/dimensions.ts:94-100` | adds up to the book exactly unless some trade is unlabelled while another is labelled with the reserved key |
| `BarLaws.StrategyBarIsItsTrades` | `src/lib/analytics/dimensions.ts:96-100` | a strategy's bar shows exactly its trades, and the reserved bar those without one, unless a label is the reserved key |
| `Labels.ReservedStrategyCountsTwice` | `src/lib/analytics/dimensions.ts:94-100` | two trades for which the bars do not add up |
| `Labels.ByRating` | `src/lib/analytics/dimensions.ts:113-122` | adds up to the book exactly when every rating given is 1 to 5 |
| `BarLaws.RatingBarsExactly` | `src/lib/analytics/dimensions.ts:113-122` | there is a bar for a rating exactly if it is 1 to 5 and some trade has it, and the bars ascend |
| `Labels.ByMood` | `src/lib/analytics/dimensions.ts:132-151` | adds up to the book exactly unless some trade has no mood while another's is the reserved key and no earlier mood folds to the same |
| `BarLaws.MoodBarIsItsTrades` | `src/lib/analytics/dimensions.ts:134-151` | a mood's bar shows exactly the trades whose mood, trimmed, is that one up to case |
| `BarLaws.NoMoodBarIsItsTrades` | `src/lib/analytics/dimensions.ts:143-151` | the reserved bar shows exactly the trades without a mood, unless somebody's mood is the reserved key |
| `Labels.MoodsFoldCase` | `src/lib/analytics/dimensions.ts:135-150` | two moods share a bucket exactly when they agree up to case |
| `DayLoads.DailyTotals` | `src/lib/analytics/dimensions.ts:199-212` | one entry a closing date in order of appearance, each with the net, count and wins of its trades |
| `DayLoads.DaysConserve` | `src/lib/analytics/dimensions.ts:199-212` | over the days, net, count and wins add up to the book's |
| `BarLaws.DayIsItsTrades` | `src/lib/analytics/dimensions.ts:191-212` | a day shows the net, count and wins of exactly the trades closed on it |
| `DayLoads.ComputeDayLoads` | `src/lib/analytics/consistency.ts:308-340` | the two groupings and the sort give the chart of loads in use |
| `DayLoads.LoadsConserve` | `src/lib/analytics/consistency.ts:308-340` | load times days adds up to the number of trades, the nets to the book's net and the days to the days traded |
| `DayLoads.BarsAscend` | `src/lib/analytics/consistency.ts:308-340` | one bar for each load in use, in strictly ascending order, each of exactly that load's days |
| `Periods.MonthlyReturns` | `src/lib/analytics/periods.ts:70-114` | the rows of the months traded, sorted, each opened at the balance rolled forward |
| `Periods.YearlyReturns` | `src/lib/analytics/periods.ts:128-151` | for any list of months: one row a year in ascending order, its months summed, opened with its first month's balance |
| `Periods.MonthGrid` | `src/lib/analytics/periods.ts:167-178` | a row a year, twelve cells, the year's total |
| `PeriodLaws.OpeningIsEarlierProfit` | `src/lib/analytics/periods.ts:104-111` | each month opens with the starting balance plus all profit closed in earlier months |
| `PeriodLaws.RowsAreLedger` | `src/lib/analytics/periods.ts:81-113` | the rows of every book form a ledger: months ascend, each opens where the one before closed, and has a percentage exactly when start and opening balance are positive |
| `PeriodLaws.MonthRates` | `src/lib/analytics/periods.ts:70-114` | every month shows the trades and wins of its own trades; its win rate times the trades is 100 times the wins, and its percentage of the opening balance is its net |
| `PeriodLaws.YearRates` | `src/lib/analytics/periods.ts:128-151` | and every year the rates of its own figures |
| `PeriodLaws.LedgerCompounds` | `src/lib/analytics/periods.ts:81-148` | in any ledger, months of a year that all have a percentage compound to the year's net over its opening balance |
| `PeriodLaws.Compounding` | `src/lib/analytics/periods.ts:15-151` | when every month of a year has a percentage, the product of (1 + month%) is 1 + year% |
| `PeriodLaws.YearPercentOverBlankMonths` | `src/lib/analytics/periods.ts:103-148` | a year has a percentage over all-blank months exactly when the start is not positive and the year opens above zero |
| `PeriodLaws.YearPercentOverBlankMonthsHappens` | `src/lib/analytics/periods.ts:103-148` | a book of two trades in which that happens |
| `PeriodLaws.YearsSumToBook` | `src/lib/analytics/periods.ts:70-151` | the years' nets add up to the net of `computeMetrics` |
| `PeriodLaws.GridHoldsTheMonths` | `src/lib/analytics/periods.ts:167-178` | the months of a ledger, and nothing else, stand in the grid |
| `PeriodLaws.GridHoldsEachMonthOnce` | `src/lib/analytics/periods.ts:167-178` | no month stands in two cells |
| `PeriodLaws.GridRowsAddUp` | `src/lib/analytics/periods.ts:116-178` | in the grid of a ledger every row's total is the sum of its cells |
| `Layout.SnapSpan` | `src/lib/dashboard/layout.ts:94-101` | the loop finds the snapped width; anything but a finite number has none |
| `Layout.NormalizeLayout` | `src/lib/dashboard/layout.ts:117-140` | the two loops give the first entries to name a widget among the first 64, then the missing widgets |
| `Layout.SnapIsNearest` | `src/lib/dashboard/layout.ts:94-101` | the snapped width is the nearest on the ladder, ties to the wider, and the only such one |
| `LayoutLaws.SnapsAtMidpoints` | `src/lib/dashboard/layout.ts:94-101` | widths are snapped at 2.5, 3.5, 5, 7 and 10, each of these to the wider side |
| `LayoutLaws.NormalizedIsNormal` | `src/lib/dashboard/layout.ts:103-140` | any stored value at all becomes every widget once, each at a width on the ladder |
| `LayoutLaws.NormalizedKeepsOrder` | `src/lib/dashboard/layout.ts:117-140` | the stored order and widths of first entries within the scanned prefix are kept; missing widgets follow in default order |
| `LayoutLaws.RoundTripExactly` | `src/lib/dashboard/layout.ts:117-140` | a layout read back is itself exactly when it is normal |
| `LayoutLaws.NormalizingIsIdempotent` | `src/lib/dashboard/layout.ts:117-140` | normalising twice is normalising once |
| `LayoutLaws.SaveThenLoad` | `src/app/(app)/dashboard/layout-actions.ts:30-37` | what is saved loads as what would have been shown, the default stored as nothing included |
| `LayoutLaws.EditedLayoutSurvives` | `src/lib/dashboard/layout.ts:111-211` | after any sequence of moves, resizes and resets a layout is normal and saving and loading it loses nothing |
| `LayoutLaws.CapIsHarmlessExactly` | `src/lib/dashboard/layout.ts:85-126` | the cap changes nothing exactly when the entries past it that first name a widget ask, in order and at the usual widths, for the first of the widgets missing before it |
| `LayoutLaws.CapCanLoseAnEntry` | `src/lib/dashboard/layout.ts:123-126` | a list of 65 entries whose only usable one the cap drops |
| `LayoutLaws.ReorderDetectsChange` | `src/lib/dashboard/layout.ts:161-179` | unchanged is returned exactly when the edited sequence would be equal |
| `LayoutLaws.ReorderRefuses` | `src/lib/dashboard/layout.ts:161-189` | a missing widget or an index that is no finite number changes nothing |
| `LayoutLaws.ReorderLandsExactly` | `src/lib/dashboard/layout.ts:161-179` | a widget sent to a number stands at its whole part, or at the end it overshoots, and the others are in the order they were in |
| `LayoutLaws.MoveLandsExactly` | `src/lib/dashboard/layout.ts:182-189` | a widget moved by a number of places is sent that many places on from where it stands |
| `LayoutLaws.MovingBackRestores` | `src/lib/dashboard/layout.ts:161-179` | moving a widget back to its old index restores the layout |
| `LayoutLaws.OppositeMovesCancel` | `src/lib/dashboard/layout.ts:182-189` | a move and the opposite one cancel, away from the ends |
| `LayoutLaws.ResizeDetectsChange` | `src/lib/dashboard/layout.ts:192-216` | a resize reports a change exactly when it makes one, which is exactly when `canResize` says so |
| `LayoutLaws.ResizeIsOneRung` | `src/lib/dashboard/layout.ts:192-211` | only the named widget changes, by one rung |
| `LayoutLaws.ResizeIsUndone` | `src/lib/dashboard/layout.ts:192-211` | a resize that changed something is undone by the opposite one |
| `ManualTrades.TradeTable.CreateManualTrade` | `src/lib/db/manual-trades.ts:126-190` | find, write, and after a collision find and write again, with any statements of others in between |
| `ManualTrades.TradeTable.Create` | `src/lib/db/manual-trades.ts:174-178` | the insert collides exactly when a row has the key, and otherwise fails exactly when the account is gone |
| `ManualTrades.TradeTable.UpdateManualTrade` | `src/lib/db/manual-trades.ts:223-251` | corrects the user's own typed row and nothing else |
| `ManualTrades.TradeTable.DeleteManualTrade` | `src/lib/db/manual-trades.ts:274-280` | deletes the user's own typed row and nothing else |
| `ManualTradeLaws.RunKeeps` | `src/lib/db/manual-trades.ts:145-190` | over every interleaving no two rows have one key |
| `ManualTradeLaws.TurnTouchesOnlyItsRow` | `src/lib/db/manual-trades.ts:126-190` | a caller's statement leaves every row of another key and every journal as it was, and writes its whole input |
| `ManualTradeLaws.CallersNeverTouchTheBrokers` | `src/lib/db/manual-trades.ts:18-53` | no statement of a caller changes a synced row |
| `ManualTradeLaws.ConcurrentEntryConverges` | `src/lib/db/manual-trades.ts:145-190` | any number of interleaved callers, no deletion or correction between: after four statements a caller holds the id of the one row of its ticket, whose facts are one caller's input |
| `ManualTradeLaws.ErrorsComeFromDeletions` | `src/lib/db/manual-trades.ts:174-189` | without deletions no caller that has an account ends in an error |
| `ManualTradeLaws.ErrorsExactly` | `src/lib/db/manual-trades.ts:174-189` | a caller ends in an error exactly when, at one of its turns, a deletion has taken away the row it had found, or the one it had collided with and nobody has entered anew; or when it had found none and its account is gone |
| `ManualTradeLaws.SubmittingAgainIsHarmless` | `src/lib/db/manual-trades.ts:122-143` | submitting a trade again changes nothing and returns the same id |
| `ManualTradeLaws.CallIsARun` | `src/lib/db/manual-trades.ts:165-190` | the method with any pauses is a run of two to four of its statements among those of others, up to where it is done or has failed and no further |
| `ManualTradeLaws.FoundIsCorrected` | `src/lib/db/manual-trades.ts:165-173` | a caller that finds its row, and finds it still there when it writes, is through with two statements, and the row has its input |
| `ManualTradeLaws.SameRowExactly` | `src/lib/db/manual-trades.ts:98-112` | over every interleaving without deletions, two callers that are done hold one row exactly if their users are equal and the hash agrees on what identifies their trades |
| `ManualTradeLaws.NewTradeIsNewRow` | `src/lib/db/manual-trades.ts:165-181` | after any run from a table without typed rows, a trade nobody entered becomes a new row with its whole input and every other row stays as it is |
| `ManualTradeLaws.TicketsStartWithManual` | `src/lib/db/manual-trades.ts:35-39` | a typed trade's ticket is `manual:` and then the hash |
| `ManualTradeLaws.OnlyOwnTypedRows` | `src/lib/db/manual-trades.ts:223-280` | a correction or a deletion reaches exactly the row named, and only if that user typed it |
| `ResetTokens.ResetStore.CreateResetToken` | `src/lib/db/reset-tokens.ts:4-14` | when the transaction commits, the user's unused tokens that were there at its deletion are gone and the new one is there; nothing for an account that is gone; anything may run in between |
| `ResetTokens.ResetStore.FindValidResetToken` | `src/lib/db/reset-tokens.ts:26-42` | an unused, unexpired token of this hash and tenant, if there is one |
| `ResetTokens.ResetStore.RedeemResetToken` | `src/lib/db/reset-tokens.ts:61-81` | claim, password and session revocation together, or nothing at all |
| `ResetTokens.ResetStore.CompleteResetAction` | `src/app/(auth)/actions.ts:434-455` | find, then redeem, with anything running in between |
| `ResetTokenLaws.RedeemedAtMostOnce` | `src/lib/db/reset-tokens.ts:48-81` | of any number of callers holding one token at most one redeems it, over every interleaving |
| `ResetTokenLaws.WhyRedemptionFails` | `src/lib/db/reset-tokens.ts:61-81` | from finding its link on, whatever runs in between: a caller's redemption succeeds exactly if nobody else has redeemed the token, no newer link whose creation has seen it has been made and the account is still there; a failed one changes nothing |
| `ResetTokenLaws.WhatEndsAToken` | `src/lib/db/reset-tokens.ts:4-81` | over any run a token stays unused exactly until somebody redeems it, a newer link whose creation has seen it is made for its user, or his account is deleted |
| `ResetTokenLaws.SupersededRedeemsNothing` | `src/lib/db/reset-tokens.ts:9-13` | once a newer link is created whose deletion has seen an older one of the user, the older one redeems nothing, however the run goes on |
| `ResetTokenLaws.AloneLeavesOneLink` | `src/lib/db/reset-tokens.ts:9-13` | a link created with nobody in between is the only one its user can redeem |
| `ResetTokenLaws.TwoLinksRedeem` | `src/lib/db/reset-tokens.ts:9-13` | a link created between another's deletion and its commit: both redeem, one after the other |
| `ResetTokenLaws.PasswordIsLastSet` | `src/lib/db/reset-tokens.ts:72-75` | while the account is there, its password is the one set last, by the latest winner or by the user himself |
| `ResetTokenLaws.NoOldSessionSurvives` | `src/lib/db/reset-tokens.ts:76-78` | no session that existed at the claim is ever the user's again |
| `ResetTokenLaws.FindsExactly` | `src/lib/db/reset-tokens.ts:26-42` | the search finds something exactly when some row has this hash, is unused, expires after now and belongs to a user of this tenant, and what it finds is such a row |
| `ResetTokenLaws.DeadLinkChangesNothing` | `src/app/(auth)/actions.ts:434-455` | a link that is used, expired, of another tenant or unknown changes nothing |
| `ResetTokenLaws.HeldLinkWasIssued` | `src/lib/db/reset-tokens.ts:4-42` | over any run, what a request finds was created with this hash for a user of this tenant, and its expiry is still to come |
| `ResetTokenLaws.WinnerWasIssued` | `src/app/(auth)/actions.ts:434-455` | over any run a reset succeeds only for a hash some link was created with, for a user of that tenant, and only for a request strictly before that link's expiry |
| `ResetTokenLaws.SessionLastsExactly` | `src/lib/db/reset-tokens.ts:61-81` | over any run a session lasts exactly until it is signed out, a link of its user is redeemed or its account is closed |
| `ResetTokenLaws.UsedTokensStay` | `src/lib/db/reset-tokens.ts:9-13` | over any run a used token stays on record, as it is, until its account is closed |
| `ResetTokenLaws.TokensKeepUsers` | `src/lib/db/reset-tokens.ts:9-13` | over any run no token is left without its account |

## Left out

Contracts that say less than the code does:

- `Base32.Base32Decode`: does not model what `toUpperCase` makes of characters that it leaves outside the alphabet; they are refused either way.
- `Layout.SnapSpan`: does not model numbers so large that every distance rounds to the same double.
- `Overlap.StepsSpentOnceExactly`: takes a request for its one read and one write of the account's row, with a code that matches one step.
- `Overlap.CodesSpentOnceExactly`: takes a request for its one read and one write of the account's row.
- `PeriodLaws.Compounding`: asks that every month of the year has a percentage, because a product has no meaning over a blank month.
- `PeriodLaws.RowsAreLedger`: asks that the wall clock reads months 1 to 12.
- `Periods.MonthlyReturns`: orders months by number; the string keys order alike for years of four digits.
- `Concentration.TopIsOptimal`: takes `topCount` to be a natural number.
- `ManualTrades.TradeTable.CreateManualTrade`: does not model the single columns; the facts a ticket is hashed from and all the others are one value each.
- `ResetTokens.ResetStore.RedeemResetToken`: does not model the error when the user row is gone at the claim; the transaction is rolled back and the model answers false.
- `ResetTokens.ResetStore.CompleteResetAction`: does not model the length and strength checks on the new password, which change nothing.
- `SignIn.AuthStore.SignInAction`: does not model the lookup by address, the limiter's refusal, audit lines and cookies; the user found and the password's verdict are inputs, and a refusal changes no row modelled here.
- `SignIn.AuthStore.VerifyTwoFactorAction`: does not model the limiter's refusal, audit lines and cookies; a request reads the clock once, and reads its account again and starts the session in one step.
- `SignInLaws.NextKeepsInv`: takes requests one after another; `Overlap` and `ChallengeOverlap` say what is left when they overlap.
- `SignInLaws.EachSessionItsOwnFactor`: takes requests one after another, because it is false of overlapping ones; `OneSessionExactly`, `StepsSpentOnceExactly` and `CodesSpentOnceExactly` say when it still holds of them.
- `SignInLaws.FiveWrongCodesAtMost`: takes requests one after another, because it is false of overlapping ones; `FiveGuessesExactly` says when it still holds of them.
- `SignInLaws.OneChallengePerUser`: takes requests one after another, because it is false of overlapping ones; `OneChallengeExactly` says when it still holds of them.
- `EnrolmentLaws.ConfirmedIsProtected`: takes requests one after another; `PasswordStepReadsColumns` and `CodeStepReadsColumns` say what overlapping ones do with the columns they read.
- `FactorLaws.AuthenticatorSignsIn`: takes requests one after another; `StepsSpentOnceExactly` says what overlapping ones share.
- `FactorLaws.RecoveryCodeSignsIn`: takes requests one after another; `CodesSpentOnceExactly` says what overlapping ones share.
- `SupersessionLaws.OneChallengeExactly`: does not model answers, sweeps or account deletions meanwhile, which only remove challenges.
- `ResetTokenLaws.SupersededRedeemsNothing`: asks that the newer link's deletion has seen the older one, because the promise is false of creations that overlap (`TwoLinksRedeem`).
- `Sessions.ExpiryTracksUse`: takes each request as one step, as do all laws over runs of `Sessions`; `LateTouchExactly` and `OverlapWritesTwice` say what an overtaken write does.
- `Sessions.FewWrites`: takes each request as one step, because overlapping requests can each write the row (`OverlapWritesTwice`).
- `ChallengeOverlap.OneSessionExactly`: does not model the five minutes of the challenge, nor a sweep or a newer sign-in that removes it; they only end it sooner.
- `ChallengeOverlap.FiveGuessesExactly`: does not model the five minutes of the challenge, nor a sweep or a newer sign-in that removes it; they only end it sooner.
- `Totp.GenuineCodeAccepted`: asks that no step from the window on has been spent, because a spent step of the window can turn a genuine code into a replay.
- `LiveTabs.AbandonedTabsDie`: does not model how long a request is on its way; asking and being answered are one instant.

Idealised everywhere:

- Sums and percentages are exact: the last digits of floating-point results are not captured.
- The bounds over runs of `RateLimit` take one limit and window per key; its laws over runs take a clock that does not go back, and its methods anything.
- The laws over runs of `Sessions` and `LiveTabs` that say so take one clock, the server's and every browser's, that does not go back. A browser clock set back keeps its tabs polling.
- `keys` and `sheets` of a user in `SignIn` are no columns; they number secrets and sets of recovery codes, so that factors have names across re-enrolments.
- A sync in `ManualTrades` replaces all facts of its row; keeping an old risk or excursion when the new one is unknown is not captured. Row ids are positions in the table, in `ResetTokens` too.

Not modelled at all:

- `riskConsistency`, `computeCosts`, `holdTimes`, `computeExcursions`, `recentDailyR`, `bestConditions`, `returnFromStart`: read off one formula, or a square root.
- Timing-safe comparison, QR URIs, secret generation and encryption: no functional content.
- `describe.ts`, charts, markup, styles and translations: presentation.
- Broker synchronisation, MetaApi, file import, excursions and contract specifications: other cores of their own.
- Finance, budgets, goals, learning, snapshots, exchange rates, consents and data export: one scoped statement each.
- Tenant resolution, middleware, headers, mail, password hashing and strength: foreign code behind the decisions modelled here.
