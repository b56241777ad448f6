# Eventify: a verified model of its stateful cores

Eventify sells seats. This project models, in Dafny, the parts of it whose correctness depends on
what happened before: the booking, cancellation and waitlist-promotion protocol; refresh-token
rotation and family revocation; the cache-aside events service with its single-flight fetches; the
fixed-window rate limiter; and the hand-written cookie reader.

`dafny verify dfyconfig.toml` checks everything.

## How it is built

| files | contents |
|---|---|
| `Wrappers`, `Principal` | optional values; who is behind a request |
| `BookingTable`, `BookingService` | the booking rows and the decisions over them; the repository and the three booking operations as methods over a database updated in place |
| `BookingProtocol`, `SerialBookings`, `WaitlistOrder` | the protocol with whole calls as steps: no stranded seat, first come first promoted, repeated promotion equals batch promotion |
| `SplitBookings` | the protocol with calls cut into start, snapshot, commit or abort, cancel-read, cancel-write and capacity edit: no oversell, bounded retries |
| `BookingRefinement` | the interleaved protocol simulated by the serial one, refusals included, under a stricter commit rule |
| `CoverRuns`, `CoverLimits` | under the rule of `SplitBookings` alone: exactly which commits, cancellations and edits break seat cover, and executions in which each kind does |
| `TokenTable`, `AuthService` | the token table; login, rotation and the link-following revocation as methods |
| `TokenRuns`, `TokenRaces` | login families over whole runs; what survives when rotation is split, exactly what a split commit or a split revocation breaks, and executions in which they do |
| `Text`, `EventKeys` | string splitting, decimal printing and the injectivity of the cache keys |
| `EventRows`, `EventCache`, `EventsService` | the cached service against the bare database, as functions and as a class |
| `SingleFlight`, `CacheStaleness` | coalescing of concurrent misses; bounded staleness of events and list pages under any interleaving |
| `RateLimit`, `SharedLimits`, `RefreshCookie` | the limiter and its retry advice; several limiters on one cache; the cookie reader against the grammar of section 4.2.1 of RFC 6265 |

The imperative code is modelled by classes and methods. Each is proved against a function or relation
on values, and the theorems are lemmas about those. Fresh ids and hashes, the clock, the errors the
database raises, what other transactions do between attempts, and whether the cache or queue is
reachable are parameters.

What is assumed of the database in the split protocol is stated at the head of `SplitBookings`: a
serializable transaction that confirms a row commits only if no other serializable transaction has
confirmed a row of the same event since its snapshot, and a transaction writes only rows that are as
its snapshot has them. Two such transactions each read what the other writes, so Postgres aborts one.
A database that aborts more is covered too, since it has fewer runs; without the rule one seat is sold twice
(`SplitBookings.WriteSkewWouldOversell`).
`BookingRefinement` assumes more: that nothing the transaction read has changed when it commits. Postgres promises
serializable transactions some serial order among themselves; this rule makes that order the order of commits. And
`cancelBooking` writes outside any such transaction, so a cancellation that changes what a transaction has read does not
stop its commit in Postgres, as it does under this rule. `CoverRuns` does without the rule and says exactly what breaks.

## Where the prose and the code part ways

The code is followed.

- `PR_BODY.md:52-54` says promotion happens if the event is still full; it happens when confirmed seats
  are below capacity (`src/jobs/promote.ts:38`).
- `PR_BODY.md:48-49` says every newly confirmed booking queues an e-mail; only a promotion does
  (`src/jobs/promote.ts:49-50`).
- `PR_BODY.md:135-139` says invalidation follows the write; in `updateEvent` and `deleteEvent` it precedes it
  (`src/events/events.service.ts:252-253`, `263-264`). So exact agreement with the database is proved for
  whole calls, and bounded staleness for interleaved ones.
- `README.md:52` says writes instantly invalidate the list caches. That needs the invalidation to reach the
  cache, and each list read to have read the version it uses: `EventCache.ListTransparentIff`.

## What turned out false, and exactly when it holds

- Seat cover under interleaving: a step keeps a covered state covered if and only if it meets the condition of its kind,
  and so a run strands no seat if and only if all its steps do (`CoverRuns.StepKeepsCoverIff`, `RunCoveredIff`). A commit
  that lets a user wait must find a job for every free seat, one that ends a job with nobody promoted while somebody
  waits must find a job to spare (`CommitKeepsCoverIff`), and so must a cancellation that gives up a seat it had not
  read as taken while somebody waits. An edit must leave no more free seats than jobs where somebody waits.
  With constant capacities and whole cancellations alone the condition fails in
  `CoverLimits.CancelUnderBookingStrands`: a booking sees the event full, the seat is given up, its job finds nobody
  waiting, and the booking commits to the waitlist.
- Seat cover under a split `cancelBooking`: every reachable covered state is kept covered if and only if the write does
  not take the seat of a row that had been read as waiting (`CoverLimits.SplitCancelKeepsCoverIff`; the execution that
  breaks it is in `CancelAfterPromotionStrands`).
- Seat cover under a capacity edit: every reachable covered state is kept covered if and only if the edit does not raise
  the capacity (`CoverLimits.EditKeepsCoverIff`; the execution that breaks it is in `RaisedCapacityStrands`; one in
  which the edit overtakes a booking that has read the old capacity is in `RaiseDuringBookingStrands`).
- Rotation chains and dead families under a split `rotateRefresh`: a commit keeps both if and only if its row is still
  live when it writes (`TokenRaces.CommitSafeIff`).
- One live token per family under a split `rotateRefresh`: a commit keeps it if and only if its row is still live when it
  writes or every row of its family has been revoked (`TokenRaces.CommitKeepsOneLiveIff`).
- Single use under a split `rotateRefresh`: a commit is a second exchange of its token if and only if its row already has
  a successor when it writes (`TokenRaces.SecondExchangeIff`; two racing rotations that are both honoured are in
  `DoubleExchange`).
- Family revocation when the walk and the update of `revokeFamily` are split: the family is left without a live token if
  and only if every token issued to it since the walk has been revoked by then (`TokenRaces.OvertakenWalkIff`; a replay
  overtaken by the exchange of the live successor is in `OvertakenReplay`).
- Fresh event entries under the invalidate-then-write order of the writers: a reader who comes between leaves a stale
  entry if and only if it reaches the cache and the write alters the row (`EventCache.ReaderBetweenIff`).
- Right reads by id after an invalidation that does not reach the cache: kept if and only if the write finds no entry of
  its row or does not alter it (`EventCache.UnseenWriteIff`).
- Right list reads after an invalidation that does not reach the cache: kept if and only if the write alters the answer
  to no query that has a page at the version the counter stands at (`EventCache.UnseenWritePagesIff`).
- Right list reads after the version counter is lost from the cache: after `n` further increments they hold if and only if
  the surviving pages of version `n` equal their queries, since the counter starts again from zero
  (`EventCache.LostCounterIff`; a run in which the next creation revives an old page is in `LostCounterRevives`).
- List transparency when the cache comes up in the middle of a read: kept if and only if the page is not looked up
  after the version lookup was skipped (`EventCache.ListTransparentIff`).
- The limiter's retry advice lands in the next window for all times if and only if the window is a whole number of
  seconds (`RateLimit.RetryLandsIff`; with one of 1,500 ms it misses at 3 s, `RaggedWindow`).

## Model

| member | source | states |
|---|---|---|
| BookingTable.BookingMeaning | src/bookings/service.ts:58-105 | all eight outcomes: refused exactly for a confirmed row, or a waiting row while a seat is free; otherwise one row for the pair, confirmed exactly when a seat was free, only that row changed, seat counts moved by at most that seat |
| BookingTable.BookingWaitlist | src/bookings/service.ts:66-104 | a booking adds its row to the waitlist of a full event and touches no other waitlist |
| BookingTable.PromotionMeaning | src/jobs/promote.ts:34-44 | a promotion moves one waiting row into one seat of a not-full event; otherwise it is full or nobody waits and nothing changes |
| BookingTable.FlipCounts | src/bookings/repository.ts:30-39 | a status flip moves each seat count by at most one, in the direction of the statuses |
| BookingService.Database.FindOldestWaitlisted | src/bookings/repository.ts:75-85 | answers a waiting row of least creation time, and nothing exactly when nobody waits |
| BookingService.BookingTransaction | src/bookings/service.ts:58-105 | the transaction body takes the specified decision and performs that one write |
| BookingService.CreateBooking | src/bookings/service.ts:42-135 | with anything happening between at most eight attempts, the call answers as its first attempt that is no serialization failure, with that write alone: errors marked P2034, 40001 or TransactionWriteConflict are retried, P2002 is a conflict, any other ends the call at once; if all eight are retried, it fails with the last error and writes nothing |
| BookingService.ConflictsAreRetried | src/bookings/service.ts:23-33 | the retried attempts are exactly the leading ones whose error has one of the four marks and is no unique violation |
| BookingService.RefusalsUnique | src/bookings/service.ts:56-132 | the number of retried attempts is the index of the first one not retried |
| BookingService.CancelBooking | src/bookings/service.ts:147-173 | who may cancel what, that only the status changes, and that a promotion is queued exactly when a seat was freed, for the event of the row |
| BookingService.PromoteWaitlisted | src/jobs/promote.ts:24-56 | a step of the protocol: confirms an oldest waiting row of a not-full event and queues an e-mail for it alone; a missing event or an aborted transaction changes nothing |
| SerialBookings.RunKeepsUnique | prisma/schema.prisma:77-79 | no run ever has two rows for one user and event |
| SerialBookings.RunKeepsRows | src/bookings/repository.ts:30-102 | over any stretch of a run no row disappears or changes owner, event or creation time |
| SerialBookings.NoStrandedSeat | src/bookings/service.ts:161-170 | over all runs with a lossless queue, in which no edit raises the capacity of an event somebody waits for and no booking goes by less than the event still has, free seats never outnumber pending jobs while somebody waits; a drained event is full or has no waitlist |
| SerialBookings.OnlyPromotionConfirms | src/bookings/service.ts:99-100 | a waiting row becomes confirmed only by a promotion that picks it as oldest |
| SerialBookings.FirstComeFirstPromoted | src/jobs/promote.ts:38-42 | of two rows waiting together the strictly younger is promoted only after the older was promoted or cancelled |
| SerialBookings.RejoinKeepsPlace | src/bookings/service.ts:76-80 | a cancelled user who rejoins keeps the original creation time, hence the original place |
| WaitlistOrder.RepeatedIsBatch | src/jobs/promote.ts:24-56 | k promotions confirm exactly the first min(k, free, waiting) rows of the queue, answer them in order, then answer nothing and change nothing |
| WaitlistOrder.QueueExists | src/bookings/repository.ts:80-85 | with distinct creation times the waiting rows form one queue |
| WaitlistOrder.PromotionsExist | src/jobs/promote.ts:24-56 | any number of consecutive promotions is possible from any table |
| SplitBookings.StepKeepsBounds | src/bookings/service.ts:57-109 | in every step an open snapshot still bounds the seats taken, unless a rival has confirmed since |
| SplitBookings.NoOversell | src/bookings/service.ts:44-109 | in every state of every interleaving, with stale capacity reads, free cancellations and edits, the seats taken never exceed the largest capacity the event has had |
| SplitBookings.NoOversellOfFixedCapacity | src/bookings/service.ts:66-70 | hence never its capacity, if that was never lowered |
| SplitBookings.WriteSkewWouldOversell | src/bookings/service.ts:106-108 | without serializable commits it would: a reachable state in which the second of two commits, were it let through, sells one seat twice |
| SplitBookings.BoundedRetries | src/bookings/service.ts:53-134 | each call begins at most eight transactions and commits at most once, never if it fails; every step that is neither a commit with a write nor a cancellation leaves all rows alone |
| SplitBookings.EightAttempts | src/bookings/service.ts:53-134 | an execution in which a booking begins eight transactions, is aborted in each and fails, so the bound is reached |
| SplitBookings.PromotionBeginsOnce | src/jobs/promote.ts:27-47 | a promotion job begins at most one transaction |
| BookingRefinement.PlanDependsOnReads | src/bookings/service.ts:60-104 | what a transaction decides depends on nothing but the rows it reads |
| BookingRefinement.StepSimulated | src/bookings/service.ts:57-109 | if commits are stopped whenever something read has changed, by a cancellation too, each interleaved step is one whole call or invisible |
| BookingRefinement.Simulation | src/bookings/service.ts:53-134 | under that commit rule every interleaved run is simulated by the serial run of the calls it shows, bookings accepted and refused, promotions, cancellations and edits, with the same decisions; aborts and retries are stutters |
| BookingRefinement.RefusalIsShown | src/bookings/service.ts:73-97 | a booking refused inside its transaction is shown once, while it is in progress, and its refusal is the decision of the whole call on the table at its last begin |
| BookingRefinement.InterleavedCallsStrandNoSeat | src/jobs/promote.ts:27-47 | under that commit rule, which also stops a commit whose reads a cancellation has changed, the guarantee against stranded seats carries over to interleaved calls, unless an edit raises the capacity of an event that somebody waits for or is booking |
| CoverRuns.CommitKeepsCoverIff | src/bookings/service.ts:66-104 | without that rule, a commit keeps a covered state covered iff a waitlisting finds a job for every free seat, and a promotion that ends its job with nobody promoted finds one to spare while somebody waits |
| CoverRuns.StepKeepsCoverIff | src/bookings/service.ts:57-170 | every step of the interleaved protocol keeps a covered state covered iff it meets the condition of its kind |
| CoverRuns.RunCoveredIff | src/jobs/promote.ts:24-56 | in every interleaving, with split cancellations, edits and stale reads, all states up to any moment are covered iff all steps up to it meet their conditions |
| CoverRuns.SafeRunStrandsNoSeat | src/bookings/service.ts:161-170 | and then an event without pending jobs is full or nobody waits for it |
| CoverRuns.UnsafeWaitIsOvertaken | src/bookings/service.ts:58-88 | a booking that unsafely waits has been overtaken since its snapshot by the loss of a seat, or goes by less than the capacity |
| CoverLimits.CancelUnderBookingStrands | src/bookings/service.ts:57-170 | an execution on one seat, with the capacity constant and no cancellation split, in which a booking that began while the event was full waits beside a free seat with no job |
| CoverLimits.SplitCancelKeepsCoverIff | src/bookings/service.ts:148-170 | a cancel-write keeps every reachable covered state covered iff it does not give up the seat of a row its call had read as waiting |
| CoverLimits.CancelAfterPromotionStrands | src/bookings/service.ts:148-170 | an execution on one seat in which a cancellation racing a promotion ends with a free seat, somebody waiting and no job |
| CoverLimits.EditKeepsCoverIff | src/events/repository.ts:86-98 | an edit between positive capacities keeps every reachable covered state covered iff it does not raise the capacity |
| CoverLimits.RaisedCapacityStrands | src/events/repository.ts:86-98 | for any two positive capacities, an execution that fills an event, lets one more user wait, and is uncovered by the edit from the smaller to the larger |
| CoverLimits.RaiseDuringBookingStrands | src/bookings/service.ts:44-70 | an execution in which the edit finds nobody waiting but overtakes a booking that has read the old capacity, which then waits beside a free seat |
| TokenTable.DescendantsAreReached | src/auth/service.ts:84-97 | the walk collects precisely the rows reachable by one or more links |
| TokenTable.RevokingDescendants | src/auth/service.ts:99-104 | the bulk update revokes exactly the still-live rows reached, and overwrites no time of revocation |
| AuthService.RevokeFamily | src/auth/service.ts:83-105 | the loop ends and its update is the revocation of the presented row's descendants |
| AuthService.RotateRefresh | src/auth/service.ts:36-79 | a token is honoured exactly when its row is live and unexpired; then one new row of its user that expires in seven days, the old one revoked and linked to it, and nothing else; a revoked one revokes its descendants |
| AuthService.Login | src/auth/service.ts:10-34 | an unknown user is refused; a known one gets one new live row that expires in seven days |
| TokenRuns.Then | src/auth/service.ts:48-75 | after every run each login family is one acyclic chain of one user, rotated rows are revoked, and only a family's last row may be live |
| TokenRuns.LaterMemberIsDescendant | src/auth/service.ts:81-97 | in a reachable table the descendants of a row are exactly the later rows of its family |
| TokenRuns.OneLiveRow | src/auth/service.ts:64-75 | a family has at most one live token |
| TokenRuns.SingleUse | src/auth/service.ts:48-75 | a token that was exchanged is never accepted again in any continuation |
| TokenRuns.LifeIsBounded | prisma/schema.prisma:109-111 | no token is accepted more than seven days after it was issued, in any run, rotated or not |
| TokenRuns.UsableForSevenDays | src/auth/service.ts:48-75 | a token whose row has not been revoked is accepted up to seven days after its issue, in any run |
| TokenRuns.StaysLive | src/auth/service.ts:43-105 | a live row stays as it is through any run that presents no token of its family |
| TokenRuns.HonouredUntilPresented | src/auth/tokens.ts:9-11 | so an issued token is honoured for seven days unless it or another of its family is presented first |
| TokenRuns.ReplayKillsForever | src/auth/service.ts:50-55 | replaying a revoked token leaves its family without a live token, forever, with no token of it accepted again, and touches no other family |
| TokenRuns.LiveTokensConserved | src/auth/service.ts:24-30 | live tokens number the logins less the size of the set of families killed by a replay |
| TokenRaces.ShapeSurvivesRaces | src/auth/service.ts:43-75 | with lookup and commit split, links stay forward, injective and within one user and family, and rows with a successor stay revoked |
| TokenRaces.CommitSafeIff | src/auth/service.ts:66-75 | a split commit keeps the chains and keeps dead families dead iff its row is still live when it writes |
| TokenRaces.CommitKeepsOneLiveIff | src/auth/service.ts:66-75 | a split commit leaves every family at most one live token iff its row is live when it writes or its whole family is revoked |
| TokenRaces.SecondExchangeIff | src/auth/service.ts:43-75 | in every interleaving a commit is a second exchange of its token iff its row has a successor when it writes |
| TokenRaces.DoubleExchange | src/auth/service.ts:43-75 | an execution in which two calls look one token up, both commit, and one login is left with two live tokens |
| TokenRaces.BulkRevokeKillsIff | src/auth/service.ts:99-104 | the bulk update kills a family iff the walk has collected every live row of it |
| TokenRaces.OvertakenWalkIff | src/auth/service.ts:81-104 | in every interleaving, a walk from a revoked row, carried out later, kills the family iff every token issued to it in between has been revoked |
| TokenRaces.OvertakenReplay | src/auth/service.ts:48-104 | an execution in which a replay's walk is overtaken by the exchange of the live successor, and the family keeps a live token |
| EventKeys.ListKeyInjective | src/events/events.service.ts:98-114 | equal list keys of validated queries come from one version and from equal venue, from, to, page and limit, after the defaults 1 and 20, for venues of any characters |
| EventKeys.NormalFillsDefaults | src/events/events.service.ts:155-156 | a query is asked as it stands, but that a missing page is 1 and a missing limit 20 |
| EventKeys.ValidatedQueries | src/events/schema.ts:23-29 | every query of a non-empty venue and UTC date-times is covered |
| EventKeys.FamiliesDisjoint | src/events/events.service.ts:24-26 | event keys, list keys and the version key never collide |
| EventKeys.EventKeyInjective | src/events/events.service.ts:88-90 | distinct events have distinct keys |
| EventKeys.KeysSpelt | src/events/events.service.ts:88-114 | every key is spelt as other processes on the cache spell it, defaults included |
| Text.DecimalInjective | src/events/events.service.ts:106-113 | distinct numbers print differently in a key |
| Text.DecimalStandsFor | src/events/events.service.ts:106-113 | a number prints as the digits that stand for it, without leading zeros |
| EventCache.GetIsTransparent | src/events/events.service.ts:205-240 | from a coherent state a read by id answers the row itself and stays coherent, whichever cache operations fail |
| EventCache.ListIsTransparent | src/events/events.service.ts:148-203 | and a list read answers the query itself |
| EventCache.BumpForgetsPages | src/events/events.service.ts:127-135 | one increment of the counter puts every cached page out of reach, whatever happens to the rows |
| EventCache.ModifyIsTransparent | src/events/events.service.ts:242-289 | an update or delete whose invalidation reaches the cache answers and writes as the bare database does, spelt out: owner or administrator, patch or removal; and stays coherent, whatever its own lookup reaches |
| EventCache.ModifyThenRead | src/events/repository.ts:86-103 | after an accepted patch by somebody who may modify, the next read answers the patched row, after an accepted removal none, otherwise the row as it was; no other row changes |
| EventCache.CreateThenRead | src/events/events.service.ts:142-146 | a created event is what the next read answers; a taken id keeps its row |
| EventCache.CacheIsTransparent | src/events/events.service.ts:142-277 | over every sequential run, with any expiries and outages under reads, the writers' own lookups included, every answer is that of the database alone |
| EventCache.GetFillsCache | src/events/events.service.ts:210-236 | a read of an existing row is answered from the cache from then on, whatever the database; a missing row is never cached |
| EventCache.ListFillsCache | src/events/events.service.ts:158-202 | and so is a page while the version stands |
| EventCache.InvalidationHidesAll | src/events/events.service.ts:268-277 | after an invalidation neither the event nor any page of any query can be hit |
| EventCache.ReaderBetweenIff | src/events/events.service.ts:250-253 | a reader between invalidation and write leaves a stale entry iff it reaches the cache and the write alters the row |
| EventCache.UnseenWriteIff | src/events/events.service.ts:268-277 | after a write whose invalidation is missed, all reads by id answer rightly iff no entry of its row is cached or the row is unaltered |
| EventCache.UnseenWritePagesIff | src/events/events.service.ts:268-277 | and all list reads do iff the write alters the answer to no query with a page at the counter's version |
| EventCache.LostCounterIff | src/events/events.service.ts:117-135 | if the counter is lost, all list reads after n further increments answer rightly iff the surviving pages of version n equal their queries |
| EventCache.LostCounterRevives | src/events/events.service.ts:117-135 | a run after which the next creation makes a page of one event current beside three |
| EventCache.ListTransparentIff | src/events/events.service.ts:158-174 | a list read is right from every coherent state iff it does not look up the page after failing to look up the version |
| EventsService.Service.GetEventById | src/events/events.service.ts:205-240 | the method is the specified read, counts a hit exactly when it answers from the cache and a miss otherwise, and is transparent |
| EventsService.Service.ListEvents | src/events/events.service.ts:148-203 | the method is the specified list read, counts a hit exactly when it answers from the cache, and asks the query with page 1 and limit 20 for missing ones |
| EventsService.Service.ModifyEvent | src/events/events.service.ts:242-277 | the method looks up as far as the cache is reachable, checks, invalidates, then writes; what the next read answers after each outcome is spelt out |
| SingleFlight.After | src/events/events.service.ts:74-86 | in every interleaving the map holds exactly the fetches not yet cleaned up, and joiners are answered with their fetch's outcome |
| SingleFlight.AtMostOneFetch | src/events/events.service.ts:76-86 | at most one fetch per key, none for a key not in the map, one outcome for all who joined |
| SingleFlight.CleanUpRemovesOwnEntry | src/events/events.service.ts:81-84 | the clean-up by key removes its own fetch's entry and no other |
| SingleFlight.Coalescer.Coalesce | src/events/events.service.ts:76-86 | joins the fetch in flight or starts the only one |
| CacheStaleness.BoundedStaleness | src/events/events.service.ts:76-86 | every value delivered under a key was what the database held for it at an instant no later than delivery and no earlier than 74 s and the fetch bound before, in every interleaving and for any read |
| CacheStaleness.EventStaleness | src/events/events.service.ts:205-240 | so an event answer is the row itself as it was within that time |
| CacheStaleness.PageStaleness | src/events/events.service.ts:158-202 | and a list page is the query's own answer as it was within that time, however stale the version it was asked under |
| CacheStaleness.BoundIsReached | src/events/events.service.ts:137-140 | the bound is reached to the millisecond, for every entry life from 60 to 74 s: a run whose answer nothing has held since that long ago |
| CacheStaleness.StepKeepsFresh | src/events/events.service.ts:205-240 | the invariant behind it: samples are genuine and not from the future, held fetches are young, entries expire in time |
| RateLimit.Limiter.Handle | src/infra/rate-limit.ts:32-71 | refused exactly when counted over the maximum, told 1 to windowSec seconds; passes when the cache is down or the first hit's EXPIRE fails, which leaves a counter without expiry |
| RateLimit.KeyInjective | src/infra/rate-limit.ts:46 | within a limiter, distinct identities or windows have distinct counters, whatever characters an identity has |
| RateLimit.KeySpelt | src/infra/rate-limit.ts:46 | and every counter is named as other processes name it |
| RateLimit.CounterIsExact | src/infra/rate-limit.ts:45-54 | a window's counter is the number of its requests, never expires inside the window and is gone within another window and a second |
| RateLimit.WindowIsExact | src/infra/rate-limit.ts:45-66 | each identity is let through exactly min(max, requests) times in each window |
| RateLimit.BurstBound | src/infra/rate-limit.ts:45-64 | in any interval of L ms at most max times (L over the window, rounded up, plus one) requests pass |
| RateLimit.BurstOfOneWindow | src/infra/rate-limit.ts:45-64 | at most twice the maximum in any interval as long as a window |
| RateLimit.RetryLandsIff | src/infra/rate-limit.ts:57-61 | waiting as told lands in the next window at all times iff the window is a whole number of seconds |
| RateLimit.AdviceIsExact | src/infra/rate-limit.ts:57-61 | the advice is the least positive number of seconds after which the clock shows a multiple of the window's seconds |
| RateLimit.AdviceIsShortest | src/infra/rate-limit.ts:57-61 | for a whole-second window any shorter wait is still in the window of the refusal |
| RateLimit.RaggedWindow | src/infra/rate-limit.ts:57-61 | a window of 1,500 ms: told at 3 s to wait 1 s, the client is still in the window it was refused in |
| SharedLimits.KeysApartIff | src/infra/rate-limit.ts:46 | two limiters never share a counter, whatever the identities, iff neither label after its colon ends the other |
| SharedLimits.ServiceLimitsApart | src/auth/routes.ts:14-19 | the login and booking limiters never do |
| SharedLimits.SharingIsInvisible | src/infra/rate-limit.ts:45-66 | on one cache, each of any number of limiters so kept apart lets through exactly what it would alone |
| SharedLimits.SharedWindowIsExact | src/bookings/routes.ts:14-19 | with both limiters of the service on one cache, an address is let through to login min(5, requests) times a minute, a user to booking min(10, requests) times |
| RefreshCookie.GetRefreshCookie | src/auth/controller.ts:34-46 | answers the value of the first part that names the cookie, nothing exactly when no part does |
| RefreshCookie.ReadInvertsPrint | src/auth/controller.ts:38-45 | on every header of the Cookie grammar the answer is the value of the first pair of that name, or nothing exactly when there is none |
| RefreshCookie.SplitInvertsPrint | src/auth/controller.ts:38 | splitting a printed header gives back its pairs |
| RefreshCookie.TokenComesBack | src/auth/controller.ts:34-46 | a base64url token comes back from any grammatical header that carries it as refreshToken among other cookies |
| RefreshCookie.PaddedPairGivesValue | src/auth/controller.ts:39-43 | a part gives the value however name and value are padded with white space |
| RefreshCookie.TrimCuts | src/auth/controller.ts:41-42 | trimming cuts nothing but white space, from the two ends |
| RefreshCookie.TrimStrips | src/auth/controller.ts:41-42 | and all of it |

## Left out

- Routing, handlers, schemas, the OpenAPI document and error mapping: plumbing; validated inputs are preconditions.
- Venues, event field mapping, role checks beyond the owner guard: single-branch facts.
- The ordering and paging of event lists: ties of `startsAt` are left to the database, so the list query is any function of the rows and the query.
- JWT signing, SHA-256 and random bytes: a hash stands for its token; new hashes and ids are parameters.
- The mailer, worker start-up and shutdown, metrics logging and Redis connection handling: input and output.
- BullMQ: the queue is a multiset of jobs. A job may be redelivered; one that BullMQ drops after three failed attempts is a lost job, which the guarantee against stranded seats excludes.
- JSON in the cache: an entry is the value it encodes, so a date that a hit returns as text and a miss as a date is one value.
- SerialBookings.NoStrandedSeat: for whole calls that add no seat behind anybody's back, because the code queues no promotion for a seat an edit adds; `CoverRuns` says exactly where it stops when calls interleave.
- BookingRefinement.InterleavedCallsStrandNoSeat: assumes that a commit fails when anything it read has changed, by a cancellation too. Postgres does not enforce that against a writer outside serializable transactions, and without it the guarantee is false (`CoverLimits.CancelUnderBookingStrands`); `CoverRuns.RunCoveredIff` gives the exact condition without it.
- BookingRefinement.Simulation: under the same assumption.
- BookingRefinement.StepSimulated: under the same assumption.
- EventCache.CacheIsTransparent: writes reach the cache with their invalidation and the version counter is never evicted, because the code has no remedy when they do not; `UnseenWriteIff` and `UnseenWritePagesIff` say exactly which reads a missed invalidation breaks, `LostCounterIff` which a lost counter does, and `CacheStaleness` bounds for how long.
- CacheStaleness.PageStaleness: the rows and the total of a page are taken to be read at one instant; the service reads them by two queries.
- CacheStaleness.BoundedStaleness: the moment the cache receives an entry is taken to be the moment the fetch sends it.
- RateLimit.WindowIsExact: each request's INCR and EXPIRE are taken as one step, and the cache is up; with it down requests pass uncounted, as `Handle` states.
- TokenRuns.ReplayKillsForever: for replays whose revocation the store accepts; the service swallows a failure there, and then nothing is revoked.
- Token ids: a row's id is its position in the order of creation, so that a successor is created later is a matter of position.
