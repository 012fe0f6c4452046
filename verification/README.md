# crudauth: the shared state behind authentication, in Dafny

crudauth keeps its authentication state in stores that expire and that concurrent requests change:
session records and their per-user index, CSRF tokens, one-time tokens, login counters and
lockouts, MFA challenges, and the credential epoch of an account. This project models that state
and proves what the code and its documentation promise about it.

A protocol that several requests run at once is a state machine: a `State`, atomic `Step`s (a step
that is not enabled changes nothing), `Next`, and `After(run)` for the state a sequence of steps
leads to. One step is one database statement, one Redis `MULTI`, or one atomic store call; between
two steps of a request anything may happen. Fields that only record what happened (logs, ids used)
are history. Code that runs in one process is a class whose methods follow the source's statements
and loops, tied to functions on plain maps, about which the laws are proved. Times are integers
(milliseconds unless a comment says otherwise). Hashes, HMACs, signatures and random ids are
injective or fresh.

For each protocol two kinds of law are proved over every run: what never goes wrong, and what each call
does answer. The second kind takes a request from its first step to its last with any steps of
other requests between them, and says exactly when it succeeds and what it leaves behind.

| file | what it models |
|---|---|
| `Basics.dfy` | optional values, the larger and the smaller, the size of a subset |
| `RedisIndex.dfy` | the session record and the per-user index entry, written in two steps |
| `RedisAnswers.dfy` | what each Redis call leaves behind, run to its end |
| `DatabaseRow.dfy` | one row of the database store: versioned compare-and-set, claim once, consume once |
| `DatabaseAnswers.dfy` | what each call on the row is answered, by the log and the clock |
| `Purge.dfy` | batched purging of expired rows and the write counter that triggers it |
| `PurgeRaces.dfy` | purging while other requests write and other purges run |
| `Counters.dfy` | expiring counters: the plain map, the memory backend, the database upsert |
| `Lockout.dfy` | the escalating lockout policy over seven counter families |
| `LockoutAnswers.dfy` | what each policy call is answered and leaves on the counters |
| `IpPressure.dfy` | conservation of an address's failures across its usernames |
| `LockHold.dfy` | how long a lockout holds and how lockouts escalate |
| `AttemptBudget.dfy` | the attempt budget of a username under concurrency |
| `FixedWindow.dfy` | fixed-window rate limiting |
| `CsrfRotation.dfy` | creation, rotation and termination of CSRF tokens under races |
| `CsrfEnded.dfy` | the tokens that outlive their session |
| `SessionManager.dfy` | in-memory stores and the session manager: cap, eviction, aligned expiry |
| `SessionTrace.dfy` | what a run of operations says about each session, and the stores that follow it |
| `PrincipalResolver.dfy` | the per-request cache of the authenticated principal |
| `Epoch.dfy` | `token_version` and everything stamped with it |
| `EpochAnswers.dfy` | who is issued what, and what changes, refreshes, challenges and setups leave behind |
| `PasswordRow.dfy` | the password an account accepts, set by resets and rewritten by rehashing logins |
| `EmailTokens.dfy` | signed email tokens: minting, checking, marking used, applying |
| `EmailAnswers.dfy` | which email tokens pass and redeem, and what they write |
| `MfaChallenge.dfy` | one login challenge answered by many requests |
| `SecondFactor.dfy` | TOTP step claims and recovery codes on the user row |
| `RecoveryCodes.dfy` | which enrollments are confirmed and which recovery codes are accepted |
| `Totp.dfy` | the TOTP code, its normal form, and the drift-window search |

## Where the code and a promise part

Each has a lemma with a run in which the promise fails, and a lemma with the condition under which
it holds: an exact one wherever "exactly when" is written.

- Redis: `extend` writes no index, so an extended record outlives its entry exactly when its new
  deadline is past the index's (`RedisIndex.ExtendOutlivesIndex`); a write that keeps the record's
  deadline re-indexes for the storage default only, which is too short exactly for a record with
  more time left than that and the buffer (`RedisIndex.RepairLapsesIff`,
  `RedisIndex.KeepTtlRepairIsShort`).
- Database `modify`: versions restart at one when a row is inserted again, so a guarded update read
  from the old row can match the new one and drop its value (`DatabaseRow.ReinsertionLosesAnUpdate`;
  exactly when: `DatabaseRow.AcceptedCommitFaithfulIff`). Giving up does not need a writer in a tight
  loop: the reads use the clock of the call's start, the guarded updates the current one, so a row
  that expires in between is read and refused fifty times (`DatabaseRow.LoneCallerGivesUp`; exactly
  when: `DatabaseRow.GivesUpAloneIff`).
- Purging: purges in flight together may select the same expired rows and delete them once between
  them, and cleanup can fall behind by any number of rows (`PurgeRaces.OverlapFallsBehind`); purges
  that never overlap keep up (`PurgeRaces.OneAtATimeKeepsUp`).
- Fixed windows: a call whose increment comes later after its clock read than the window's first
  increment came into the window may start the count again and pass beyond the limit
  (`FixedWindow.LateCallExceeds`; exactly when: `FixedWindow.DelayToleratedIff`).
- Lockout with database counters: the time left is rounded up, so a pair counter can outlive the
  address counter and a success can leave the address a negative count
  (`IpPressure.RoundingUpGoesNegative`, `IpPressure.PairWithinIpWindowIff`).
- Lockout take-backs: a success of the same pair between an attempt and its take-back lets the
  take-back erase another username's failure (`IpPressure.SuccessInTheGap`; exactly when:
  `IpPressure.TakeBackConservesIff`).
- Lockout holds: with memory counters the time left is rounded down, so in the last second of a lock the
  next lockout is announced but not armed (`LockHold.MemoryLockNotRearmed`, `LockHold.TripArmsIff`).
  With either backend the same happens to failures that overlap in time
  (`LockHold.OverlappingTripNotArmed`; exactly when: `LockHold.JudgedArmsIff`).
- CSRF: a rotation between a termination's read of the session and its deletes leaves a token that
  validates for the session that is gone (`CsrfEnded.RotationOutlivesTermination`; exactly when:
  `CsrfEnded.EndedTokens`).
- Epoch: a request that answers a challenge, and a login that rehashes or enrols, read the row again
  after their check and stamp the version they then see, so a bump in that gap does not reach the
  credential (`Epoch.ChallengeRace`, `Epoch.RehashRace`; exactly when: `Epoch.OutlivesBumpIff`). A
  pending authenticator secret checked before a bump is confirmed after it all the same
  (`Epoch.SecretRace`; exactly when: `Epoch.ConfirmedStaleIffRaced`). A session in the middle of its
  own password change outlives a reset that comes before the change reads the row again
  (`Epoch.ChangeOutlivesReset`; exactly when: `Epoch.ReboundAcceptedIff`).
- Reset: a login that verified the old password before a reset and rehashes it after brings it back
  (`PasswordRow.RehashUndoesReset`; exactly when: `PasswordRow.InForceIffNoStale`).
- MFA: a setup restarted between the confirming code's claim and the confirmation is confirmed all
  the same, and the confirming step is accepted again (`SecondFactor.RestartForgetsConfirmingStep`;
  exactly which steps are accepted: `SecondFactor.AcceptedIffNewest`).
- Email tokens: a redemption that passes its check in time but marks the token only after an earlier
  mark lapsed redeems it again (`EmailTokens.LateSecondRedemption`; exactly when:
  `EmailTokens.RedeemsIff`); two different reset tokens checked before either is applied both apply
  (`EmailTokens.OverlappingResetsBothApply`; exactly when: `EmailTokens.StillAppliesIff`).

## Model

| member | source | states |
|---|---|---|
| RedisIndex.LiveIsIndexed | crudauth/storage/backends/redis.py:110-224 | over every interleaving of creates, updates, modifies and deletes with fresh ids and each operation's two writes less than half the buffer apart, a live record is in its owner's live index |
| RedisIndex.MissingWasProbedInCreation | crudauth/storage/backends/redis.py:261-269 | with pruning added, a live session missing from its index was probed between its creation's index write and record write |
| RedisIndex.SuspectWasProbed | crudauth/transports/session/manager.py:552-561 | every session under suspicion has such a probe in the run |
| RedisIndex.UpdateRepairs | crudauth/storage/backends/redis.py:128-153 | the index write of a deadline-moving update completed after the prune was acted on puts the session back |
| RedisIndex.RepairedStaysIndexed | crudauth/storage/backends/redis.py:80-93 | a session out of suspicion and past its creation stays indexed while live, in every continuation, late prunes of other enumerations included |
| RedisIndex.NeverCreatedAgain | crudauth/storage/backends/redis.py:110-120 | a session past its creation is never back inside one |
| RedisIndex.ExtendOutlivesIndex | crudauth/storage/backends/redis.py:226-228 | an extended record is at some time live and unindexed iff its new deadline is past the index's |
| RedisIndex.ExtendOutlivesIndexInARun | crudauth/storage/backends/redis.py:226-228 | a session created and extended that does outlive its entry |
| RedisIndex.RepairLapsesIff | crudauth/storage/backends/redis.py:150-152 | in every run, an index write leaves a live session to outlive its entry iff the record has more time left than the write's time to live plus the buffer and the owner's index was not good for longer; never after a write that moved the deadline |
| RedisIndex.KeepTtlRepairIsShort | crudauth/storage/backends/redis.py:155-196 | a run in which a keep-TTL modify re-indexes a pruned session and the entry lapses under the live record |
| RedisIndex.StepKeeps | crudauth/storage/backends/redis.py:80-224 | every atomic step keeps the invariant: each live record is covered by an index deadline or a pending index write that comes in time |
| RedisIndex.RunKeeps | crudauth/storage/backends/redis.py:80-224 | the invariant holds after every run |
| RedisAnswers.CreateAnswered | crudauth/storage/backends/redis.py:110-120 | a creation run to its end, whatever comes between its writes: the session is the user's, listed at once for its time and the buffer, and its record is live for exactly the time given |
| RedisAnswers.UpdateAnswered | crudauth/storage/backends/redis.py:141-149 | an update is answered for a live session only, and gives it exactly the time asked for, or keeps its deadline |
| RedisAnswers.ReindexAnswered | crudauth/storage/backends/redis.py:150-153 | its index write, whenever it comes, lists the session for that time and the buffer |
| RedisAnswers.RecordFrame | crudauth/storage/backends/redis.py:110-228 | only a session's own creation, deadline-moving write or deletion touches its record |
| RedisAnswers.OverForGood | crudauth/storage/backends/redis.py:135-149 | a session that expired or was deleted is never live again, whatever updates race with its end |
| RedisAnswers.SettledForGood | crudauth/storage/backends/redis.py:198-224 | with no index write of it still to come, a session that is over is not listed again once it is not |
| RedisAnswers.DeleteAnswered | crudauth/storage/backends/redis.py:213-224 | a delete ends a live session for good and no other; run to its end with no update caught between its writes, no entry is left either |
| RedisAnswers.ProbeAnswered | crudauth/transports/session/manager.py:552-561 | a probe is acted on exactly if the session is not live, and then unlists a settled one for good |
| RedisAnswers.LateReindexRelists | crudauth/storage/backends/redis.py:150-152 | an update that wrote its record before the end and its index after it lists a session that is over |
| DatabaseRow.NoLostUpdate | crudauth/storage/backends/database.py:407-494 | the stored value and version are the committed changes applied in commit order, as long as no guarded update matched a re-inserted row |
| DatabaseRow.NotReinsertedLosesNothing | crudauth/storage/backends/database.py:440-494 | on a key inserted at most once in the run no update is lost, with no further condition |
| DatabaseRow.CommitAppliesToCurrent | crudauth/storage/backends/database.py:473-493 | a successful modify wrote its change of the value current at its commit, at the next version, and returns it |
| DatabaseRow.AcceptedCommitFaithfulIff | crudauth/storage/backends/database.py:487-493 | an accepted guarded update keeps the log faithful iff it read the row it matched or its change makes the same of both values |
| DatabaseRow.ReinsertionLosesAnUpdate | crudauth/storage/backends/database.py:518-545 | a run in which a consume and a new claim between read and commit lose the claimed value |
| DatabaseRow.GivingUpExplained | crudauth/storage/backends/database.py:471-494 | a modify that gives up made fifty tries one after another, each overtaken by a write or removal of its own between its read and its guarded update, or met there by an expired row |
| DatabaseRow.GivesUpAloneIff | crudauth/storage/backends/database.py:472-494 | with nothing committed between a call's start and end, it gives up iff its first guarded update found the row expired at a deadline after the call's start, the clock all its reads use |
| DatabaseRow.RefusedAloneIffExpired | crudauth/storage/backends/database.py:487-493 | a guarded update with nothing committed since its read is refused iff the row has expired |
| DatabaseRow.LoneCallerGivesUp | crudauth/storage/backends/database.py:472-494 | the run of a single caller, no other writer, that gives up after fifty tries on a row that expired |
| DatabaseRow.InsertionsBalance | crudauth/storage/backends/database.py:496-563 | insertions equal removals plus the row that is there, and consumptions never outnumber insertions |
| DatabaseRow.ClaimOnce | crudauth/storage/backends/database.py:518-545 | two winning claims of a key have its expiry or removal between them |
| DatabaseRow.ConsumeOnce | crudauth/storage/backends/database.py:547-563 | a value is handed to a caller iff that caller's own delete removed the row holding it, and only once |
| DatabaseRow.RunKeeps | crudauth/storage/backends/database.py:407-563 | what every run keeps: each reader holds a value and version its row had, versions only grow within one insertion, and every refused try is accounted for |
| DatabaseAnswers.RunStores | crudauth/storage/backends/database.py:407-563 | in every run the stored deadline is the one the last write or extension gave, and none after a removal |
| DatabaseAnswers.ReplayedIsStored | crudauth/storage/backends/database.py:407-494 | and the stored value and version are what the log of commits replays to, when no stale match occurred |
| DatabaseAnswers.ConsumeAnswered | crudauth/storage/backends/database.py:551-555 | a consume is handed the value committed last iff the key's deadline is ahead, and the key is then gone; otherwise it finds nothing and changes nothing |
| DatabaseAnswers.PeekAnswered | crudauth/storage/backends/database.py:556-558 | the read of the two-statement consume sees that value iff the deadline is ahead |
| DatabaseAnswers.ConsumePeekedAnswered | crudauth/storage/backends/database.py:559-560 | its guarded delete hands it over iff the deadline is ahead and the value is still the one seen |
| DatabaseAnswers.ConsumedInTime | crudauth/storage/backends/database.py:547-563 | every consumption of a run came before the deadline the key had |
| DatabaseAnswers.ClaimAnswered | crudauth/storage/backends/database.py:518-545 | a claim wins iff no deadline of the key is ahead, clearing out a row that lapsed |
| DatabaseAnswers.WriteAnswered | crudauth/storage/backends/database.py:407-512 | a create always stores; an update and an extension reach a key iff its deadline is ahead, and keep or reset the deadline as asked |
| DatabaseAnswers.RemovalAnswered | crudauth/storage/backends/database.py:496-504 | a delete takes the key, live or not; a purge only one whose deadline has come |
| DatabaseAnswers.CommitAnswered | crudauth/storage/backends/database.py:480-493 | a guarded update is accepted iff the deadline is ahead and the version is the one read, and stores the change, keeping or resetting the deadline as asked |
| DatabaseAnswers.ReadAnswered | crudauth/storage/backends/database.py:472-477 | the read of a modify sees the key iff its deadline is after the call's start |
| Purge.PurgingKeepsUp | crudauth/storage/backends/database.py:265-310 | over every trace, after an automatic purge a table is no larger than its start or the most live rows any purge found, and between purges it exceeds that by less than the purge interval |
| Purge.TraceKeepsUp | crudauth/storage/backends/database.py:265-282 | the sharper bound: peak plus the writes counted since the last purge |
| Purge.BatchesCover | crudauth/storage/backends/database.py:278-278 | the batches a purge may run cover the writes that triggered it, for every interval and batch size |
| PurgeRaces.PurgingKeepsUp | crudauth/storage/backends/database.py:265-310 | whatever writes, purges and other requests interleave, the rows no purge is about to delete number at most the peak, the writes not yet answered by a purge, what the purges in flight still owe and the selections lost to overlaps |
| PurgeRaces.AtRestKeptUp | crudauth/storage/backends/database.py:265-310 | with no purge in flight the bound is on the whole table |
| PurgeRaces.OneAtATimeKeepsUp | crudauth/storage/backends/database.py:265-310 | if no two purges of a table are ever in flight together, then with none in flight the table exceeds the peak by less than the purge interval and the writes still to be counted, whatever other requests wrote meanwhile |
| PurgeRaces.OneAtATimeLosesNothing | crudauth/storage/backends/database.py:296-307 | such purges never select a key twice |
| PurgeRaces.OverlapFallsBehind | crudauth/storage/backends/database.py:296-307 | for every n, a run of overlapping purges from an empty table that leaves n expired rows behind, with nothing in flight, unanswered or live |
| PurgeRaces.StepKeeps | crudauth/storage/backends/database.py:274-310 | each step of a write, a purge or another request keeps the bound |
| PurgeRaces.LiveRowsStay | crudauth/storage/backends/database.py:295-309 | the live rows are always those the requests wrote, whatever purges selected and deleted in between |
| Purge.DatabaseStore.PurgeBatch | crudauth/storage/backends/database.py:295-309 | one select and delete: every selected key goes, and a short batch means nothing expired is left |
| Purge.DatabaseStore.PurgeTable | crudauth/storage/backends/database.py:289-310 | the loop terminates, deletes only expired rows, and leaves none that had expired at its start unless it ran out of batches having filled each |
| Purge.DatabaseStore.PurgeExpired | crudauth/storage/backends/database.py:254-263 | the unbounded purge drains both tables and counts what it deleted |
| Purge.DatabaseStore.NoteWrite | crudauth/storage/backends/database.py:265-288 | a counted write purges both tables within the quota exactly at the interval, and otherwise changes only the count |
| Purge.DatabaseStore.Write | crudauth/storage/backends/database.py:407-433 | a row write followed by its count is one step of the trace relation |
| Purge.DatabaseStore.Remove | crudauth/storage/backends/database.py:496-504 | a delete takes that key from that table and is an uncounted step |
| Purge.Table.SelectExpired | crudauth/storage/backends/database.py:296-297 | the batch holds keys whose deadline has come only, all of them if it is short |
| Counters.RunMemory | crudauth/ratelimit/backends/memory.py:29-84 | over every operation sequence with a non-decreasing clock, the memory backend with lazy collection and sweeping answers as the plain expiring map |
| Counters.RunDatabase | crudauth/ratelimit/backends/database.py:62-170 | so does the database upsert, in any mix of dialects |
| Counters.BackendsAgree | crudauth/ratelimit/backends/memory.py:29-75 | off the deadlines the two backends give the same answers |
| Counters.LeftToRightAgrees | crudauth/ratelimit/backends/database.py:94-99 | assigning count then expiry left to right equals assigning both at once |
| Counters.OtherOrderAgreesIff | crudauth/ratelimit/backends/database.py:94-99 | the other order would agree iff the row held nothing or its new expiry leaves its liveness as it was |
| Counters.CounterBackend.Increment | crudauth/ratelimit/base.py:34-48 | whichever backend is configured, the plain map's increment and its count |
| Counters.CounterBackend.IncrementAndRefreshTtl | crudauth/ratelimit/base.py:50-63 | whichever backend is configured, the plain map's refreshing increment and its count |
| Counters.CounterBackend.Delete | crudauth/ratelimit/base.py:73-75 | the key is gone; a live counter is sure to be reported as having existed |
| Counters.MemoryCounters.Gc | crudauth/ratelimit/backends/memory.py:29-33 | collection is invisible and leaves the key exactly when it is live |
| Counters.MemoryCounters.MaybeSweep | crudauth/ratelimit/backends/memory.py:35-43 | a sweep is invisible |
| Counters.MemoryCounters.Increment | crudauth/ratelimit/backends/memory.py:45-53 | the plain map's increment, expiry armed on first touch only, and its count |
| Counters.MemoryCounters.IncrementAndRefreshTtl | crudauth/ratelimit/backends/memory.py:55-64 | the plain map's refreshing increment and its count |
| Counters.MemoryCounters.GetCount | crudauth/ratelimit/backends/memory.py:66-68 | the live count, with nothing visibly changed |
| Counters.MemoryCounters.GetTtl | crudauth/ratelimit/backends/memory.py:70-75 | the seconds left, rounded down |
| Counters.MemoryCounters.Delete | crudauth/ratelimit/backends/memory.py:80-84 | the key is gone; an uncollected dead key still counts as having existed |
| Counters.DatabaseCounters.Upsert | crudauth/ratelimit/backends/database.py:71-145 | in every dialect the plain map's increment or refreshing increment, and its count |
| Counters.DatabaseCounters.GetCount | crudauth/ratelimit/backends/database.py:147-150 | the live count |
| Counters.DatabaseCounters.GetTtl | crudauth/ratelimit/backends/database.py:152-159 | the seconds left, rounded up |
| Counters.DatabaseCounters.Delete | crudauth/ratelimit/backends/database.py:164-170 | the key is gone; the answer is whether it was live |
| Lockout.LockoutPolicy.CheckAndRecord | crudauth/ratelimit/policy.py:89-157 | the verdict and the counters are those of the policy function on the counters before the call |
| Lockout.LockoutPolicy.ClearAfterSuccess | crudauth/ratelimit/policy.py:126-133 | a success clears the username and takes its own failures back off the address |
| Lockout.LockoutPolicy.TakeBackOwn | crudauth/ratelimit/policy.py:129-132 | the pair counter goes and its count, if not zero, comes off the address |
| Lockout.LockoutPolicy.RecordAttempt | crudauth/ratelimit/policy.py:139-145 | the three counters move and the larger count is returned |
| Lockout.LockoutPolicy.RecordPair | crudauth/ratelimit/policy.py:141-144 | the pair counter follows the address counter's remaining window |
| Lockout.LockoutPolicy.LockOut | crudauth/ratelimit/policy.py:150-157 | locks armed for min(base*2^rounds, max) and rounds counted |
| Lockout.LockoutPolicy.ForgetAttempt | crudauth/ratelimit/policy.py:164-181 | each counter that is positive goes down by one |
| Lockout.RunPolicy | crudauth/ratelimit/policy.py:89-181 | a whole run of policy calls over fresh counters of either backend gives the answers, and the counters as anyone sees them, of the run of the policy function |
| Lockout.RunNext | crudauth/ratelimit/policy.py:89-181 | each further call keeps the policy's counters indistinguishable from the run's |
| Lockout.AttemptFrame | crudauth/ratelimit/policy.py:113-122 | an attempt touches no counter of another address and username |
| Lockout.JudgedCongruent | crudauth/ratelimit/policy.py:135-157 | equal live counters give equal verdicts and equal live counters after |
| LockoutAnswers.AttemptAnswered | crudauth/ratelimit/policy.py:135-148 | an attempt is refused by a lock iff seconds are left on one; otherwise both its counters go up by one and it is allowed iff neither the count it leaves on the address nor the one on the username is above the maximum, with the rest of the larger one's budget remaining |
| LockoutAnswers.LockoutLasts | crudauth/ratelimit/policy.py:150-151 | a lockout lasts the base doubled once for every round on the books of address or username, whichever has more, up to the maximum |
| LockoutAnswers.PairAnswered | crudauth/ratelimit/policy.py:141-144 | under "clear_all", with seconds left on the address counter, the pair counter goes up by one, a new one armed for those seconds; otherwise it stays |
| LockoutAnswers.LockoutBooked | crudauth/ratelimit/policy.py:152-157 | a lockout books both locks for the time it announces and both rounds for the retention |
| LockoutAnswers.SuccessAnswered | crudauth/ratelimit/policy.py:126-133 | a success leaves the username no attempts, lock or rounds, and under "clear_all" takes the pair's failures off the address |
| LockoutAnswers.SuccessSpares | crudauth/ratelimit/policy.py:126-133 | and leaves everything else as it was |
| LockoutAnswers.ForgetAnswered | crudauth/ratelimit/policy.py:173-179 | a take-back lowers each of the attempt's counters that is positive by one, and nothing else |
| LockoutAnswers.AllowedWithinLife | crudauth/ratelimit/policy.py:139-148 | over every run, within one life of a username's counter at most the maximum plus the take-backs are allowed, from whatever addresses |
| IpPressure.RunConserves | crudauth/ratelimit/policy.py:126-148 | over every run with memory counters (or whole-second instants) in which a take-back finds its attempt neither cleared by a success nor lapsed, however many calls lie between, every live pair counter is backed by a live address counter expiring no earlier, and the address count is at least the sum of its live pair counts, which is never negative |
| IpPressure.RunFunds | crudauth/ratelimit/policy.py:164-181 | the stronger law behind it: the address also covers every granted attempt that may still be taken back |
| IpPressure.ConservedCarries | crudauth/ratelimit/policy.py:126-181 | the law carries to any counters that cannot be told from the run's, such as those the policy leaves |
| IpPressure.SuccessTakesBackItsOwn | crudauth/ratelimit/policy.py:129-132 | a success lowers the address by exactly that username's failures, leaves every other username's, and never goes negative |
| IpPressure.AttemptFunds | crudauth/ratelimit/policy.py:139-148 | an attempt keeps every address funded, the attempt itself included if it was granted |
| IpPressure.SuccessFunds | crudauth/ratelimit/policy.py:126-133 | a success keeps every address funded |
| IpPressure.ForgetFunds | crudauth/ratelimit/policy.py:164-181 | taking back an attempt that is still out keeps every address funded |
| IpPressure.TakeBackConservesIff | crudauth/ratelimit/policy.py:176-179 | a take-back keeps the law iff the address has one failure more than the other usernames need, or nothing to take |
| IpPressure.SuccessInTheGap | crudauth/core.py:183-211 | a run in which a second login's success between an attempt and its take-back erases another username's failure |
| IpPressure.PairWithinIpWindowIff | crudauth/ratelimit/backends/database.py:152-159 | a new pair counter stays within the address counter iff times are rounded down or whole seconds are left |
| IpPressure.RoundingUpGoesNegative | crudauth/ratelimit/policy.py:129-144 | a run with database counters that ends with an address count of minus one |
| LockHold.LockoutHolds | crudauth/ratelimit/policy.py:126-157 | after any history with database counters, a lockout tripped at t for r seconds refuses every attempt on its address until t + r, and on its username until t + r or its own success, without counting it, and is gone at t + r |
| LockHold.TripHolds | crudauth/ratelimit/policy.py:150-157 | a database lockout arms both locks for exactly the time it announces |
| LockHold.HeldRefuses | crudauth/ratelimit/policy.py:135-137 | while a lock is held, attempts are refused for at least the time left and change nothing |
| LockHold.RunKeepsLock | crudauth/ratelimit/policy.py:126-157 | no run of calls moves a held lock, short of the username's own success |
| LockHold.LockoutsEscalate | crudauth/ratelimit/policy.py:150-156 | with no success and each lockout within the last one's round TTL, the k-th from zero lasts at least min(base*2^k, max) and never more than max, whatever others do |
| LockHold.TripEscalates | crudauth/ratelimit/policy.py:150-156 | one more lockout has the length its rounds call for and is remembered for the round TTL |
| LockHold.JudgedArmsIff | crudauth/ratelimit/policy.py:139-157 | the part of an attempt after its lock check, on whatever counters it meets, arms the address for the announced time iff no lock of it is live then or one ends just then |
| LockHold.TripArmsIff | crudauth/ratelimit/policy.py:153-154 | so a lockout holds its address for the announced time iff no lock of it was live as it tripped, which database counters guarantee |
| LockHold.OverlappingTripNotArmed | crudauth/ratelimit/policy.py:135-154 | two failures that overlap in time: with either backend the second announces two minutes that nothing holds |
| LockHold.MemoryLockNotRearmed | crudauth/ratelimit/backends/memory.py:70-75 | a run of three failures after which two minutes are announced and half a second is held |
| AttemptBudget.AllowedWithinBudget | crudauth/ratelimit/policy.py:135-148 | over every interleaving, the attempts allowed in one lifetime of a username's counter number at most the maximum plus its take-backs |
| AttemptBudget.GrantsWithinBudget | crudauth/ratelimit/policy.py:176-179 | the same of any log in which each count is increments less take-backs so far |
| AttemptBudget.RunKeeps | crudauth/ratelimit/base.py:34-48 | every run logs exactly the counter's increments and take-backs, lifetime by lifetime |
| AttemptBudget.AttemptCounts | crudauth/ratelimit/policy.py:140-140 | an attempt's increment adds one to what stands on the username's counter, whatever came in between |
| AttemptBudget.AttemptAnswered | crudauth/ratelimit/policy.py:139-148 | an attempt run to its end is allowed iff neither the count its address counter gave it nor the one its increment left on the username's is over the maximum |
| FixedWindow.CounterTallies | crudauth/ratelimit/base.py:114-118 | for as long as a window's calls find the counter its first increment started, it holds exactly their number |
| FixedWindow.FirstIsInWindow | crudauth/ratelimit/base.py:114-118 | that counter is never started before its window, so it cannot expire inside it |
| FixedWindow.DelayToleratedIff | crudauth/ratelimit/base.py:114-118 | every call delayed by at most d between clock read and increment finds its counter iff d is no more than how far into the window the counter was started (a millisecond more for memory counters) |
| FixedWindow.PromptIsInTime | crudauth/ratelimit/base.py:114-118 | calls without such a delay always do |
| FixedWindow.CountIsRankIff | crudauth/ratelimit/base.py:118-123 | the count a call gets is its rank in its window iff its increment still finds the window's counter; otherwise it is one |
| FixedWindow.WindowBound | crudauth/ratelimit/base.py:114-123 | exactly the first `limit` calls of each window pass, if their increments find its counter |
| FixedWindow.LateCallExceeds | crudauth/ratelimit/base.py:118-123 | after `limit` calls, one that comes too late for its counter passes beyond the limit |
| FixedWindow.SpanBound | crudauth/ratelimit/base.py:114-123 | any span of one period then lets at most twice the limit pass |
| FixedWindow.RetryIsNextWindow | crudauth/ratelimit/base.py:121-123 | the clock read plus retry_after is exactly the next window's start |
| PasswordRow.InForceIffNoStale | crudauth/core.py:183-207 | at every moment of a run the account accepts the password last set and no other iff no login wrote a new hash across a setting for another password |
| PasswordRow.RehashUndoesReset | crudauth/core.py:206-207 | a login verified before a reset and rehashed after it brings the old password back |
| PasswordRow.RunKeeps | crudauth/email/service.py:465-467 | without such a rehash, every login in flight that verified since the last setting holds the password set |
| PasswordRow.LoginAnswered | crudauth/core.py:183-207 | a login is accepted iff its password is the account's when checked, and run to its end leaves the account accepting it if a new hash was due, and otherwise as it is |
| CsrfRotation.ValidatesOnlyNamedOrInFlight | crudauth/transports/session/manager.py:402-477 | over every interleaving, a token that validates for a live session is the one it names or the not yet installed or not yet deleted token of a rotation in flight |
| CsrfRotation.QuietSessionHasOneToken | crudauth/transports/session/manager.py:421-460 | with nothing in flight, exactly the named token validates |
| CsrfRotation.NamedTokenIsNeverDeleted | crudauth/transports/session/manager.py:275-281 | no step of any call deletes the token a live session names |
| CsrfRotation.GoneForGood | crudauth/transports/session/manager.py:263-281 | a session once gone never comes back |
| CsrfRotation.RunKeeps | crudauth/transports/session/manager.py:179-186 | the invariant behind these, after every run |
| CsrfEnded.EndedTokens | crudauth/transports/session/manager.py:275-281 | once a session is gone and nothing is in flight on it, a token validates for it iff the session named it last, it has not expired by itself, and no termination ever found the session naming it |
| CsrfEnded.TerminationLeavesNothing | crudauth/transports/session/manager.py:263-281 | once a termination has read the token a session names last, nothing validates for it |
| CsrfEnded.RunLeft | crudauth/transports/session/manager.py:421-460 | what every run keeps of the tokens named last and those a termination read |
| CsrfEnded.LoginRunToEnd | crudauth/transports/session/manager.py:179-186 | a login gives the session a token that validates, and touches no other session |
| CsrfEnded.RotationRunToEnd | crudauth/transports/session/manager.py:435-460 | a rotation leaves the session naming the new token, which validates, and the old one gone |
| CsrfEnded.TerminationRunToEnd | crudauth/transports/session/manager.py:263-281 | a termination leaves neither the session nor its token |
| CsrfEnded.RotationOutlivesTermination | crudauth/transports/session/manager.py:270-281 | for every run, a rotation between a termination's read and its deletes leaves a token that validates for the session that is gone |
| SessionManager.RunKeeps | crudauth/transports/session/manager.py:161-229 | after any run of logins, activity, rotations and revocations, and at any later moment, every user is within the cap and every live session's named CSRF token is live with the same deadline |
| SessionManager.StepKeeps | crudauth/transports/session/manager.py:161-281 | each operation keeps the cap and the aligned expiry |
| SessionManager.SortSorts | crudauth/transports/session/manager.py:582-582 | sorting by activity orders the same sessions |
| SessionManager.RunManager | crudauth/transports/session/manager.py:132-585 | any sequence of requests on a new manager leaves its stores within the cap, with aligned expiry, and as a legal run of operations leaves them |
| SessionManager.Handle | crudauth/transports/session/manager.py:132-460 | each request is one legal operation on the stores' live contents, or nothing if a new id was in use |
| SessionManager.Manager.CreateSession | crudauth/transports/session/manager.py:161-186 | a login opens a live session, ends the presented one, and otherwise ends only sessions of its own user none of which was more recently active than one of theirs that stays; all others are left as they were |
| SessionManager.Manager.EnforceSessionLimit | crudauth/transports/session/manager.py:579-585 | evicts just enough of the user's least recently active sessions with their tokens |
| SessionManager.Manager.UserSessions | crudauth/transports/session/manager.py:552-561 | exactly the user's live sessions, once each |
| SessionManager.Manager.ValidateSession | crudauth/transports/session/manager.py:188-229 | returns the session iff it is live and within both timeouts, slides session and token together, and ends an idle or too old one |
| SessionManager.Manager.RegenerateCsrfToken | crudauth/transports/session/manager.py:421-460 | installs the new token with the session's new deadline and removes the old one |
| SessionManager.Manager.Install | crudauth/transports/session/manager.py:446-459 | the new token and the session share a deadline and the replaced token is gone |
| SessionManager.Manager.Terminate | crudauth/transports/session/manager.py:275-281 | removes the session and the token it names |
| SessionManager.Manager.Revoke | crudauth/transports/session/manager.py:350-367 | removes the session iff it is live and the owner matches |
| SessionManager.Manager.TerminateAllUserSessions | crudauth/transports/session/manager.py:283-297 | removes exactly the user's live sessions but the excluded one, and counts them |
| SessionManager.MemoryStorage.CheckExpiry | crudauth/storage/backends/memory.py:39-46 | lazy eviction removes exactly an expired entry and is invisible |
| SessionManager.MemoryStorage.MaybeSweep | crudauth/storage/backends/memory.py:48-57 | the sweep is invisible |
| SessionManager.MemoryStorage.Create | crudauth/storage/backends/memory.py:59-68 | the live entries gain exactly the new one |
| SessionManager.MemoryStorage.Get | crudauth/storage/backends/memory.py:70-77 | the live value, with nothing visibly changed |
| SessionManager.MemoryStorage.Update | crudauth/storage/backends/memory.py:79-93 | replaces a live value, keeping or resetting its deadline, and refuses a dead one |
| SessionManager.MemoryStorage.Delete | crudauth/storage/backends/memory.py:95-102 | removes the entry; the answer also counts an expired one |
| SessionManager.MemoryStorage.Extend | crudauth/storage/backends/memory.py:104-110 | moves a live entry's deadline only |
| SessionManager.MemoryStorage.Keys | crudauth/storage/backends/memory.py:125-149 | every live key, once each |
| SessionTrace.RunTraced | crudauth/transports/session/manager.py:157-229 | in every run a stored session has the owner and birth of its login, the last touch of its login or latest answered validation with activity, and the deadline and token its latest login, touch or rotation gave |
| SessionTrace.ValidationAnswered | crudauth/transports/session/manager.py:203-217 | a validation returns a session iff it is live, was touched no longer ago than the window its remember flag calls for, and was born no longer ago than the absolute timeout |
| SessionTrace.EndsAnswered | crudauth/transports/session/manager.py:157-399 | which live sessions each operation ends: the presented and the evicted ones, one past its window, one revoked by its owner, all of a user but the excluded one |
| SessionTrace.LoginEvictsLeastRecentlyTouched | crudauth/transports/session/manager.py:161-164 | what a login evicts for the limit was touched no later than any session of the user it keeps |
| SessionTrace.NeverEndedAsIdle | crudauth/transports/session/manager.py:122-129 | without explicit times to live, a session stored and asked for within its window is live, is returned and stays |
| SessionTrace.RunNoOrphans | crudauth/transports/session/manager.py:275-281 | after every run the tokens there are exactly those the live sessions name |
| SessionTrace.RunCoversWindow | crudauth/transports/session/manager.py:174-229 | without explicit times to live, every deadline covers the window from the last touch |
| PrincipalResolver.Resolver.Resolve | crudauth/resolution.py:48-89 | a session principal returned with CSRF enforcement on an unsafe method had its check pass in this request, one returned with activity enforcement had its session slid, its user was read through the given DB session and vouched for by its transport in this request; a failure leaves nothing to reuse, and a first resolution without a principal had every transport decline |
| PrincipalResolver.Resolver.ResolveEach | crudauth/resolution.py:48-89 | the same over every sequence of resolutions with any flags and DB sessions |
| PrincipalResolver.Resolver.ResolveAnew | crudauth/resolution.py:61-70 | the transports are asked in order: the first that names a principal is cached with what it checked and nothing else, an exception is the first refusal, and no principal means that all declined |
| PrincipalResolver.Resolver.Reuse | crudauth/resolution.py:72-89 | a reuse makes up for what was skipped, returns the same principal, or drops the entry because the user or the session is gone; an exception means the CSRF check failed |
| PrincipalResolver.Resolver.CatchUp | crudauth/resolution.py:80-89 | the skipped checks asked for now are made and recorded, or the entry is dropped for a lost session, or kept as it was on a failed CSRF check |
| PrincipalResolver.Resolver.Reload | crudauth/resolution.py:72-78 | another DB session reloads the user, or drops the entry because the user is gone there |
| PrincipalResolver.Resolver.AuthenticateSession | crudauth/transports/session/transport.py:298-333 | a session principal is the cookie's owner, current, with every check its flags ask for; none means no cookie, no session or a user that moved on, and an exception a failed CSRF check |
| PrincipalResolver.Resolver.Revalidate | crudauth/transports/session/transport.py:335-345 | success means the skipped checks were made; a false answer means the session was not found, an exception that the CSRF check failed |
| PrincipalResolver.Resolver.EnforceCsrf | crudauth/transports/session/transport.py:347-363 | passing on an unsafe method means the token validated; safe methods are exempt |
| Epoch.HeldCredentialsEvicted | crudauth/transports/session/transport.py:313-326 | a credential held before a bump is accepted after it only if a password change rebound it after the bump, to the version now current |
| Epoch.EvictedForGood | crudauth/email/service.py:459-472 | once the version moved, a credential resting on a password checked before, whenever issued, is accepted only if rebound since, or if a call on its way read the row again since, across a bump from its own version check |
| Epoch.OutlivesBumpIff | crudauth/mfa/service.py:451-483 | a never rebound credential outlives a bump after its password check iff some call on its way had a bump between version check and row refresh and none came after that refresh; rebound ones are the next rows' subject |
| Epoch.StampMovedIffRaced | crudauth/repository.py:476-520 | its stamp differs from the version of that check iff there was such a refresh |
| Epoch.AcceptedIffUnmoved | crudauth/transports/bearer/transport.py:143-155 | a credential is accepted iff the version has not moved since the row read its stamp came from |
| Epoch.ChallengeRace | crudauth/mfa/service.py:451-483 | a run in which a reset falls between a challenge's version check and the row refresh, and the session issued is accepted |
| Epoch.RehashRace | crudauth/core.py:183-207 | the same for a login that rehashes |
| Epoch.SecretPassesIffUnmoved | crudauth/mfa/service.py:209-235 | a pending authenticator secret passes its check iff none is confirmed and the version has not moved since the setup or login row it was bound by was read |
| Epoch.ConfirmedStaleIffRaced | crudauth/mfa/service.py:257-292 | a confirmed secret is of an earlier version than the account's at its confirmation iff a bump fell between its check and its confirmation |
| Epoch.SecretRace | crudauth/mfa/service.py:463-483 | a run in which a reset falls into that gap and the old secret is confirmed |
| Epoch.ReboundAcceptedIff | crudauth/account/router.py:143-147 | a rebound session is accepted iff no bump came at or after its change's row re-read; it outlives every earlier one |
| Epoch.ChangeOutlivesReset | crudauth/repository.py:459-474 | a run in which a reset falls between the bump and the re-read of a password change and the changer's session outlives it |
| Epoch.OnlyTheChangersSessionSurvives | crudauth/account/router.py:140-148 | whatever a step rebinds is the session that made that password change, while accepted |
| Epoch.StepKeeps | crudauth/transports/bearer/routes.py:70-82 | every step keeps each stamp tied to the row read and the check it came from |
| Epoch.VersionGrows | crudauth/repository.py:455-474 | the version never falls |
| EpochAnswers.LoginAnswered | crudauth/core.py:183-212 | a login is issued what it asks for, of the version its password was checked under, and no other credential changes |
| EpochAnswers.RefreshAnswered | crudauth/transports/bearer/routes.py:67-82 | a refresh is issued an access credential, and that alone, iff it presented a refresh token of the current version; what it gets carries that version |
| EpochAnswers.ChallengeAnswered | crudauth/mfa/service.py:450-474 | a challenge is taken iff it was one of the current version when checked and is still there, and is then gone |
| EpochAnswers.AnswerIssues | crudauth/mfa/service.py:450-483 | only then is its call issued what it asks for, of the version the challenge was checked under |
| EpochAnswers.IssuedBy | crudauth/transports/bearer/routes.py:67-82 | over every run, each credential was issued, as the kind it is, to a call that had checked a password, a challenge good then, or for an access credential a refresh token good then |
| EpochAnswers.AdmittedBy | crudauth/mfa/service.py:450-458 | whoever may issue was admitted by such a check |
| EpochAnswers.RereadAnswered | crudauth/repository.py:493-495 | a call that writes the row and reads it again issues under the version it then finds |
| EpochAnswers.ResetEvicts | crudauth/email/service.py:465-468 | right after a reset or an OAuth claim no credential there is passes |
| EpochAnswers.ChangeBumps | crudauth/account/router.py:140-143 | a password change raises the version by one iff its credential was good when it began |
| EpochAnswers.ChangeRebinds | crudauth/account/router.py:143-147 | its last step gives the caller's own session, if still there, the version read after the bump, and touches no other credential |
| EpochAnswers.SetupAnswered | crudauth/mfa/service.py:203-220 | a setup stores its secret iff its credential was good, bound to the version of then |
| EpochAnswers.ConfirmAnswered | crudauth/mfa/service.py:257-292 | a pending secret is confirmed iff it was good when checked and none is confirmed by then |
| EmailTokens.AcceptedMatchesMinting | crudauth/email/service.py:199-266 | a token that passes was minted before, has not expired, and the active account's fingerprinted state equals the one read for minting |
| EmailTokens.RedeemsIff | crudauth/email/service.py:269-279 | in every run, a call that passed its check redeems the token iff it was never redeemed or a whole lifetime has passed since its last redemption |
| EmailTokens.SecondRedemptionIsTooLate | crudauth/email/service.py:269-279 | a second redemption of a token comes a whole lifetime after the first, when the token has expired; so none redeemed in time is redeemed twice |
| EmailTokens.LateSecondRedemption | crudauth/email/service.py:384-386 | for every purpose, a run in which two calls that checked in time both redeem, the second after the first mark lapsed |
| EmailTokens.ResetKillsOutstanding | crudauth/email/service.py:459-472 | once a reset's hash is written, no reset or email-change token bound to an earlier hash passes in any continuation, even one signed later from an earlier read |
| EmailTokens.ResetKillsMinted | crudauth/email/service.py:231-240 | in particular every such token minted so far, the redeemed one included |
| EmailTokens.AppliedAfterResetWasChecked | crudauth/email/service.py:459-467 | whoever redeems an earlier reset or email-change token after a reset's write had passed its check before that write |
| EmailTokens.StillAppliesIff | crudauth/email/service.py:459-467 | a request for another reset token, run to its end after a reset's write, sets its password iff its check came before that write and its mark was free |
| EmailTokens.OverlappingResetsBothApply | crudauth/email/service.py:459-467 | a run in which two reset tokens checked before either is applied both apply, and the later write stands |
| EmailTokens.RunKeepsMarks | crudauth/email/service.py:269-279 | a token is marked exactly if redeemed, for one lifetime from its last redemption, and redemptions of one token are that far apart |
| EmailTokens.MintFits | crudauth/transports/bearer/tokens.py:179-186 | a minted token keeps its purpose and expires within its lifetime |
| EmailAnswers.CheckAnswered | crudauth/email/service.py:199-266 | a check passes iff the token was minted for this purpose within its lifetime, the account is active and unchanged in what the purpose binds, and an email change proposes an address |
| EmailAnswers.MintAnswered | crudauth/email/service.py:231-240 | a request for a token is signed for the row it read, with what it asked for, at the time of signing |
| EmailAnswers.MintedAreSigned | crudauth/transports/bearer/tokens.py:179-186 | every minted token of a run carries its row's state and the whole second its lifetime ends in |
| EmailAnswers.WinsIff | crudauth/email/service.py:269-279 | a request wins its token iff it passes and its mark is free when marked, whatever came in between |
| EmailAnswers.ResetAnswered | crudauth/email/service.py:459-467 | a password reset run to its end writes the new hash and nothing else of the row iff it won its token |
| EmailAnswers.BumpAnswered | crudauth/email/service.py:468-468 | and then raises the version by one |
| EmailAnswers.ChangeAnswered | crudauth/email/service.py:559-569 | an email change run to its end writes the address the token proposes, and nothing else, iff it won its token |
| MfaChallenge.ChallengeBudget | crudauth/mfa/service.py:422-488 | over every interleaving of answers to one challenge, at most the maximum reach a code check and at most one issues a credential |
| MfaChallenge.ExhaustedChallengeIsDead | crudauth/mfa/service.py:438-440 | once the maximum had their check, no step of any request reaches another |
| MfaChallenge.RunKeeps | crudauth/storage/base.py:124-195 | every counted attempt has a number of its own and the challenge pays for at most one credential |
| MfaChallenge.IssuedBy | crudauth/mfa/service.py:422-483 | over every run, each request that issued a credential had in this order its own same-site read, counted attempt within the limit, admission by lockout and account, right code, and claim that found the challenge there |
| MfaChallenge.RequestAnswered | crudauth/mfa/service.py:422-475 | a request run to its end, whatever comes in between, issues iff it is not cross-site, its attempt is within the limit, lockout and account let it pass, its code is right and the challenge is still there when it claims |
| MfaChallenge.StillThereIff | crudauth/mfa/service.py:437-475 | the challenge is there iff no step of the run expired it, deleted it for a refused request, or claimed it with a right code |
| MfaChallenge.RefusedBy | crudauth/mfa/service.py:439-472 | a refusal, which deletes the challenge for everyone, is always an attempt over the limit, a lockout, an account that moved on, or a wrong code on the last attempt |
| MfaChallenge.WrongCodeAnswered | crudauth/mfa/service.py:470-473 | a wrong code fails its request, and refuses it only on the last attempt |
| SecondFactor.StepsAreOneTime | crudauth/repository.py:476-495 | over every interleaving, accepted TOTP steps strictly increase until the row is cleared |
| SecondFactor.AcceptedIffNewest | crudauth/repository.py:485-495 | a claim is accepted iff its step is above every step accepted since the last clearing |
| SecondFactor.ConfirmingStepComesFirst | crudauth/mfa/service.py:257-267 | steps accepted after a confirmation are above the step that confirmed it, unless the row was cleared since that step's claim |
| SecondFactor.ConfirmationsAreEarned | crudauth/mfa/service.py:269-292 | every confirmation follows the accepted code that earned it |
| SecondFactor.RestartForgetsConfirmingStep | crudauth/mfa/service.py:203-220 | a run in which a restarted setup is confirmed and its confirming step accepted again |
| SecondFactor.CodesAreOneTime | crudauth/mfa/service.py:167-191 | between renewals of the list each recovery code is accepted at most once |
| SecondFactor.RunSpends | crudauth/repository.py:497-520 | every code accepted since the last renewal is off the stored list |
| SecondFactor.WithoutRemoves | crudauth/mfa/service.py:178-178 | the list written back lacks the code and nothing else |
| RecoveryCodes.CodeAnswered | crudauth/mfa/service.py:170-191 | a recovery code is accepted at the first try iff it is one handed out last to an enrolled user and not spent, and nobody writes another list in between |
| RecoveryCodes.CodeSpent | crudauth/mfa/service.py:170-191 | with nobody in between, a code is accepted iff it is good, and is good no more |
| RecoveryCodes.RetryAnswered | crudauth/mfa/service.py:173-191 | a call that lost a write tries again iff its code is still good and it lost fewer than three |
| RecoveryCodes.RunLists | crudauth/mfa/service.py:312-322 | in every run, exactly the codes handed out last and not accepted since are on the list |
| RecoveryCodes.RunEnrolls | crudauth/mfa/service.py:269-310 | the row is confirmed iff the log holds a confirmation that nothing cleared since |
| RecoveryCodes.EnableAnswered | crudauth/mfa/service.py:257-292 | a setup whose code was claimed is confirmed and its codes stored iff no confirmation is in force by then |
| Totp.CodeIsSixDigits | crudauth/mfa/totp.py:30-35 | a code is six digits denoting the truncated 31-bit value modulo a million (section 5.3 of RFC 4226) |
| Totp.TruncationMasksFirstByte | crudauth/mfa/totp.py:33-34 | dropping the word's sign bit is masking its first byte, as section 5.3 of RFC 4226 writes it |
| Totp.CodesAgreeIff | crudauth/mfa/totp.py:30-35 | two codes are equal iff their truncated values agree modulo a million |
| Totp.TypedCodeReadsBack | crudauth/mfa/totp.py:38-41 | a code reads back as itself, also with a space typed anywhere in it |
| Totp.MatchingStep | crudauth/mfa/totp.py:44-58 | the newest step of the drift window the code belongs to; none iff it is malformed or belongs to none; an overflow iff a step cannot be hashed |
| Totp.CodeFoundInTime | crudauth/mfa/totp.py:44-58 | a code shown within one step of the moment it is typed is found (section 5.2 of RFC 6238) |
| Totp.CodeFoundInSeconds | crudauth/mfa/totp.py:44-58 | a code shown at most thirty seconds before or after it is typed is found, and a step found began less than sixty seconds before and at most thirty after |

## Left out

- Backend failures: the lockout's fail-open and fail-closed answers, failing purges, deadlock and integrity-error retries; every store operation succeeds.
- Several processes purging with their own write counters: `PurgeRaces` counts the writes of one process.
- Email tokens without a token store: the code then lets every redemption through; `EmailTokens` always has a store.
- Email change: that the new address is free, checked before the token is marked and again by a unique constraint; and the verified flags.
- Redis `WATCH` retries: a successful `modify` is one atomic write followed by its index write.
- The Redis rate limiter and its single-call window check: same laws as the counters modelled here.
- Sessions not bound to a `token_version`, and user models without that column: the epoch law promises nothing for them.
- `SessionManager` runs each call at one clock instant in one process; its races are `CsrfRotation`'s and `RedisIndex`'s subject.
- Concurrent resolutions of one request: `PrincipalResolver` takes them one after another.
- Totp.MatchingStep: does not model the keyed hash itself or the constant-time comparison; digests are a function of the step.
- LockHold.LockoutHolds: each policy call happens at one instant; calls that overlap are `LockHold.JudgedArmsIff`'s and `AttemptBudget`'s subject.
- Float clocks: times are integers, so a fraction of a millisecond is not modelled.
- Base32 secrets, provisioning URIs, recovery-code generation and parsing, key shortening, glob prefixes: easy or foreign.
- HTTP routers, cookies, OAuth providers, hooks, delivery channels, password policy, sudo mode, configuration: no shared-state law of their own here.
