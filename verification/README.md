# A verified model of the control plane's state

This project models the parts of the control plane where correctness is hardest to see from the code:
the enrolment protocol over its four tables, address allocation under interference, the rate limiter,
sessions, schema migrations, the first start of an installation, and the texts that carry keys and
password hashes. Every property below is proved for all inputs, all runs, or all reachable states, or for exactly those its row names.

`dafny verify dfyconfig.toml` checks everything.

## How it is organised

| file | component |
|---|---|
| `Tables.dfy` | the four tables, what they promise each other, and every change as one atomic step |
| `Enrolment.dfy` | Register, Enroll and Revoke as concurrent transactions, statement by statement, refining `Tables` |
| `EnrolmentProgress.dfy`, `EnrolmentOrigins.dfy` | that what the tables allow gets done, and when a statement fails; whose request each device is |
| `DeviceStore.dfy` | the device store as an object that changes its tables in place and rolls back |
| `Addressing.dfy`, `Allocator.dfy` | prefixes, pools, the highest address of a prefix; choosing and claiming an address |
| `RateLimit.dfy`, `RateLimitExact.dfy` | the token buckets, their sweep, and the ideal limiter they imitate; exactly which configurations keep its laws |
| `Sessions.dfy`, `SessionRaces.dfy` | sessions with a lazily written idle clock; lookups racing each other, statement by statement |
| `Migrations.dfy`, `MigrationRaces.dfy`, `MigrationFiles.dfy` | one migration run; concurrent and crashing runs; loading the files |
| `FirstRun.dfy` | claiming the installation and giving it an identity |
| `Logging.dfy` | the handler that replays its decorations |
| `Base64.dfy`, `Decimal.dfy`, `Keys.dfy`, `Password.dfy`, `KeyStore.dfy` | printers and parsers, and the key file under failing input and output |
| `Common.dfy`, `Division.dfy` | result types and division facts |

The enrolment protocol is modelled twice. `Tables` has one atomic step per transaction. `Enrolment` has
one step per SQL statement: a transaction keeps its writes to itself, sees committed data and its own
writes, waits for rows and unique values that others have written, and commits or rolls back at any
point. `StepRefines` shows that every interleaving changes the committed tables only by enabled atomic
steps, so each invariant of `Tables` holds in every reachable state, and `RunAdvances` lifts what no step
undoes to whole runs. `EnrolmentProgress` adds the other half: whatever the tables allow and no other
transaction stands in the way of runs to its commit, and leaves rows that are written out field by field.
`EnrolmentOrigins` ties every device of every run to the one call that asked for it.

## Assumptions

- Isolation is READ COMMITTED with row locks and unique-value locks held to the end of the transaction; a
  statement runs atomically on the latest committed rows once its locks are free. SQLite, which
  serialises writers, shows a subset of these interleavings.
- The tables of a run start empty, with all migrations in place. (Migration 0007 gives devices enrolled
  before it no credential on purpose, so agreement between credentials and devices is claimed only for
  databases created with it.)
- Identifiers are fresh; SHA-256 is injective; the text of an address determines it; the pools of a
  deployment do not change during a run.
- The traces of `Sessions` treat a lookup as one event, and the clock of its callers as one that does not go
  backwards. `SessionRaces` splits the lookup into its two statements and assumes no order of times.
- The SQL of a migration may fail at any execution.
- Reads made before a transaction begins may be stale; only the existence of the row is kept from them.
- The limiter is computed in exact integers, and its clock, like that of sessions, does not go backwards.
- A file's permissions are one bit: private or not.

## Where the code and its documentation or configuration disagree

- `internal/storage/migrate.go:68-69` says that two servers on one database converge rather than
  conflict. The schema does converge (`LedgerIsTheHistory`, `FinishedMeansMigrated`), but, crashes
  and SQL that fails of itself apart, a server's start ends in an error exactly when another records one of the
  migrations it had read as missing (`EndsInErrorIff`). The error comes from the migration's own SQL, a plain `CREATE TABLE` on tables that
  exist by then (`RacersConflict`), or, where that goes through, from the ledger's primary key.
- Forgetting idle clients is invisible if and only if an idle bucket has had time to fill
  (`SweepInvisibleIff`), in practice `burst <= 10 * requestsPerMinute`. `internal/config/config.go:566-596`
  does not require it. The same condition decides whether admissions stay within burst plus rate
  (`AdmissionBoundIff`) and whether each client is answered as if it were alone (`IndependentIff`); that
  refused calls cost nothing holds exactly under it or where a nanosecond pays for a request
  (`RefusalsAreFreeIff`).
- `Retry-After` is rounded down. Waiting as long as it says is enough exactly when less than a second or a
  whole number of seconds was missing (`HeaderIsEnoughIff`); one more second is always enough.
- The unique index on public keys compares texts, and the decoder is lenient about the spare bits of the
  last letter, so one key can be registered under two texts (`TextIsNotBytes`); among canonical texts it
  cannot (`OneCanonicalText`).
- The readiness probe compares the highest recorded version only. On its own that does not say that
  everything is applied: a verified ledger is complete exactly when the probe passes and no recorded version
  stands above an unrecorded one (`CompleteIff`), and a run by an older build can leave such a gap for a
  newer build that has not migrated (`ProbeCanMissOne`). A server answers the probe only after its own
  `Migrate` (apps/server/main.go:111); from then on nothing of its build is missing, and the probe passes
  exactly when no newer version has been recorded (`ProbeAfterFinish`).
- A caller that loses an address race treats the lost address as taken after its refresh. So after a lost
  race "pool exhausted" is answered exactly when no address but the lost one is free, and is true exactly when
  that one is still taken (`AllocateFrom`); `ExhaustedWithOneFree` is a call that gets it wrong.
- A lookup that has read a session's clock before another lookup moved it can delete the session that was
  just accepted. A lookup deletes a session its own clock would still let in exactly when the row it read was
  idle but within its lifetime and other lookups of the session were accepted and moved the clock in between,
  the last of them less than the idle timeout before (`LiveDeletionIsALostRace`). This can happen exactly where
  the idle timeout exceeds the touch interval by more than a nanosecond and is below the lifetime
  (`LiveDeletionPossibleIff`).
- `internal/wireguard/keystore.go:208-238` removes the file of a save that failed, so that no failure leaves
  one. It leaves one exactly when the removal fails too or when only the very last close fails, whose error is
  returned with the complete key on disk (`FailedSaveLeaves`); the next call then returns that key
  (`FailedCreateIsFound`).
- `internal/config/config.go:440-463` tests the IPv4 and IPv6 pools for overlap; prefixes of different
  families never overlap (`FamiliesNeverOverlap`).
- The consuming UPDATE and the Go predicate `Redeemable` agree for caps that are not negative; for
  negative ones they differ exactly as `GuardIsRedeemable` says. Creation refuses negative caps.

## Model

| member | source | states |
|---|---|---|
| `Enrolment.StepRefines` | internal/devices/device.go:217-263 | every statement, commit or rollback of concurrent Register, Enroll and Revoke transactions keeps the invariant, and changes the committed tables only by committing exactly one enabled atomic step; so a failed enrolment leaves all four tables as they were |
| `Enrolment.CommitIsAtomic` | internal/storage/storage.go:232-254 | a finished transaction's private writes, laid over whatever is committed by then, equal one enabled atomic step of the tables |
| `Enrolment.CommitSparesOthers` | internal/devices/device.go:194-264 | a commit leaves true everything the other transactions in flight have established so far |
| `Enrolment.StatementKeeps` | internal/devices/device.go:217-263 | a statement that succeeds leaves its transaction with exactly the writes its progress calls for, and with all it relies on true of the committed tables |
| `Enrolment.StatementLocks` | internal/devices/device.go:225-257 | a statement that did not have to wait leaves all transactions' lock sets disjoint, public keys and secrets included |
| `Enrolment.OneRevocationAtATime` | internal/devices/device.go:340-359 | two revocations of one live device never both get past the release of its addresses |
| `Enrolment.RunKeepsInvariant` | internal/network/ipam.go:129-212 | in every reachable state of every interleaving: each live device owns exactly the addresses in its columns, one per enabled family; revoked devices own none; no allocation lacks a live device; each key's uses are the devices it enrolled and respect its cap; exactly live enrolled devices have credentials |
| `Enrolment.RunAdvances` | internal/devices/device.go:331-370 | between any two points of a run no row disappears or changes identity, revoked rows are frozen, no credential is replaced or handed out later, and counters only grow |
| `Enrolment.RevocationIsFinal` | internal/devices/device.go:331-370 | once a revocation is committed the row, with its revocation time and last-seen time, never changes, no token authenticates the device, and every later insert of its public-key text is refused |
| `Enrolment.KeyRevocationIsFinal` | internal/devices/setupkey.go:245-302 | once a setup key is revoked its first revocation time stands and it never enrols another device |
| `EnrolmentProgress.RegisterSucceeds` | internal/devices/device.go:160-264 | in any state that satisfies the invariant, if the pools have a free address, the public key is new and no transaction in flight has written what it needs, a Register runs to its commit, which adds exactly one row, of this user, with the lowest free address of each enabled family |
| `EnrolmentProgress.EnrollSucceeds` | internal/devices/device.go:173-264 | the same for Enroll, if the key is not revoked, not expired and has enrolled fewer devices than its cap; the device is its creator's, one more use is counted, and the credential is stored |
| `EnrolmentProgress.RevokeSucceeds` | internal/devices/device.go:331-360 | the same for Revoke of a live device: its row is stamped, its addresses and its credential go, and nothing else changes |
| `EnrolmentProgress.StatementFailsIff` | internal/devices/device.go:217-259 | in every reachable state a statement ends its transaction exactly when the committed tables refuse it: the key revoked, expired or used up, an address lost for the 32nd time, the public key or the secret taken, the device revoked already |
| `EnrolmentProgress.ReadingSees` | internal/network/ipam.go:197-206 | after its read a transaction takes for taken exactly what is committed by then and the address it has just lost |
| `EnrolmentProgress.LostRaceRetries` | internal/network/ipam.go:176-207 | an insert of an address nobody has claims it; a lost race before the 32nd attempt is followed by another read that keeps the lost address out, and the 32nd ends the transaction |
| `EnrolmentProgress.SingleStatementsRun` | internal/devices/setupkey.go:245-259 | creating or revoking a setup key and stamping a device run whenever no transaction in flight has written that row, and change that row alone |
| `EnrolmentOrigins.DeviceIsAsRequested` | internal/devices/device.go:206-215 | in every reachable state every device was asked for by exactly one call of the run, and belongs to the user of that Register or to the creator of that Enroll's key, with that call's public key, key and time |
| `Tables.StepKeepsConsistent` | internal/devices/device.go:194-264 | every atomic step keeps addresses, public keys, key counters and credentials consistent |
| `Tables.StepAdvances` | internal/devices/device.go:340-370 | no atomic step undoes a revocation, replaces a credential or lowers a counter |
| `Tables.GuardIsRedeemable` | internal/devices/setupkey.go:103-114 | the SQL guard and the Go predicate accept the same keys if and only if the cap is not negative, or the key fails or passes both anyway; with such a cap the guard admits exactly keys not revoked, not expired and used fewer times than it |
| `Tables.RedeemableIs` | internal/devices/setupkey.go:89-114 | in consistent tables both are about devices: revocation first, then expiry, then as many devices enrolled as the cap |
| `Tables.MintedTokenIsValid` | internal/devices/token.go:19-25 | every credential made from 32 random bytes passes the shape check |
| `Tables.DeviceTokensAre` | internal/devices/token.go:19-25 | the shape check accepts exactly the tokens that 32 random bytes could have minted |
| `Tables.CredentialAgreement` | apps/web/src/lib/devices.ts:26-28 | the web client's rule holds of a device exactly when some token authenticates it, and no token authenticates two devices |
| `Tables.AddressesAreExclusive` | internal/network/ipam.go:163-212 | a live device holds an address exactly when the address is in one of its columns, and no other device lists it |
| `Tables.EmptyIsConsistent` | internal/storage/migrations/sqlite/0006_devices.sql:21-37 | freshly created tables are consistent |
| `DeviceStore.Store.constructor` | internal/network/ipam.go:105-120 | a store over empty tables, with the broadcast address of its pool worked out, is valid |
| `DeviceStore.Store.ConsumeSetupKey` | internal/devices/setupkey.go:268-302 | counts one use exactly when the key is not revoked, not expired and has enrolled fewer devices than its cap; otherwise changes nothing and names the first reason that applies |
| `DeviceStore.Store.Allocate` | internal/network/ipam.go:129-160 | claims the lowest free address of each enabled family, or fails exactly when a pool has none |
| `DeviceStore.Store.InsertRows` | internal/devices/device.go:236-257 | the unique indexes alone decide whether the device and its credential go in |
| `DeviceStore.Store.CreateInTx` | internal/devices/device.go:217-259 | succeeds exactly when key, pools and unique indexes allow it, and has then performed the atomic creation step |
| `DeviceStore.Store.CreateDevice` | internal/devices/device.go:194-264 | all or nothing: the exact success condition, the new row field by field on success, unchanged tables on every error |
| `DeviceStore.Store.Register` | internal/devices/device.go:160-165 | registers exactly when inputs, pools and the public key allow it; the device is this user's, as of now, not seen, not revoked, enrolled with no key, and has no credential |
| `DeviceStore.Store.SetupKeyByToken` | internal/devices/setupkey.go:203-212 | a token finds the one key with its hash |
| `DeviceStore.Store.Enroll` | internal/devices/device.go:173-191 | for the key this token names: enrols exactly when it is not revoked, not expired and has enrolled fewer devices than its cap and device, pools and unique indexes allow it; each rejection has its exact condition; the device is the key's creator's, field by field, and the returned credential authenticates it; a failure spends nothing |
| `DeviceStore.Store.EnrollWith` | internal/devices/device.go:178-191 | the same once the key has been found |
| `DeviceStore.Store.Revoke` | internal/devices/device.go:331-360 | a device that is not there, or is another user's and the caller no administrator, is not found; the owner and an administrator are told of an earlier revocation or revoke it: the row stamped, addresses and credential gone, nothing else changed |
| `DeviceStore.Store.RecordSeen` | internal/devices/device.go:363-370 | stamps a live device and nothing else |
| `DeviceStore.Store.Authenticate` | internal/devices/token.go:29-47 | returns a device exactly when the token is its credential and it is live |
| `DeviceStore.Store.Heartbeat` | internal/devices/token.go:52-70 | stamps exactly the device the token authenticates; any other token changes nothing |
| `DeviceStore.Store.CreateSetupKey` | internal/devices/setupkey.go:145-197 | refuses a missing user and negative limits; the created key field by field; it is redeemable exactly until its expiry, seven days by default |
| `DeviceStore.Store.RevokeSetupKey` | internal/devices/setupkey.go:245-259 | revoking twice is not an error and keeps the first time |
| `Allocator.FreeAddresses` | internal/network/ipam.go:239-258 | lists the lowest free addresses in ascending order, all of them unless cut off at the limit |
| `Allocator.PickCandidate` | internal/network/ipam.go:215-235 | offers the lowest free address, or when scattering the one of the lowest 256 that the random number picks; exhausted exactly when none is free |
| `Allocator.CandidatesAre` | internal/network/ipam.go:215-235 | the candidates are exactly the free addresses with fewer than 256, or without scattering no, free address below them |
| `Allocator.FirstCandidateIsLowest` | internal/network/ipam.go:215-235 | without scattering the only candidate is the lowest free address |
| `Allocator.LostRaceIsACommit` | internal/network/ipam.go:163-212 | an attempt is lost only if another transaction committed between its read and the next |
| `Allocator.AllocateFrom` | internal/network/ipam.go:163-212 | under any interference: what is handed out is usable and absent at its insert; giving up takes 32 foreign commits; the first attempt takes the lowest; exhaustion is answered at the first attempt exactly when none is free, later exactly when none is free but the address just lost, and is then true exactly when that one is still taken |
| `Allocator.ExhaustedWithOneFree` | internal/network/ipam.go:197-206 | whenever a pool's only free address is taken at the insert and released before the refresh, the call answers exhausted with that address free |
| `Allocator.AllocateQuietly` | internal/network/ipam.go:163-212 | without interference the lowest free address, or exhaustion exactly when every usable one is taken |
| `Addressing.ContainsIsInterval` | internal/network/ipam.go:239-258 | comparing leading bits is membership in an interval |
| `Addressing.PrefixFitsFamily` | internal/network/ipam.go:366-378 | a prefix never runs past its address space |
| `Addressing.OverlapIsIntersection` | internal/config/config.go:497-502 | two prefixes overlap exactly when they share an address |
| `Addressing.ParsePool` | internal/config/config.go:466-510 | accepts exactly canonical prefixes of the right family and length that share no address with a reserved range; each error is given exactly when its check is the first to fail |
| `Addressing.HandedOutIsNeverReserved` | internal/config/config.go:408-431 | no usable address of an accepted pool lies in a reserved range |
| `Addressing.ReservedIPv4Are` | internal/config/config.go:408-414 | the reserved IPv4 addresses are exactly 0.0.0.0/8, 127.0.0.0/8, 169.254.0.0/16 and everything from 224.0.0.0 |
| `Addressing.ReservedIPv6Are` | internal/config/config.go:416-421 | the reserved IPv6 addresses are exactly ::, ::1, fe80::/10 and ff00::/8 |
| `Addressing.FamiliesNeverOverlap` | internal/config/config.go:440-463 | the overlap test between the two pools of one configuration never fires |
| `Addressing.Capacity` | internal/network/ipam.go:239-258 | an accepted pool has /8 to /30 or /16 to /120 and holds 2^h - 2 devices for IPv4 and 2^h - 1 for IPv6, never fewer than two |
| `Addressing.UsableMeans` | internal/network/ipam.go:239-258 | usable is every address of the prefix but the lowest and, for IPv4, the highest |
| `Addressing.WithLowBitsAdds` | internal/network/ipam.go:366-378 | or-ing ones into the clear low h bits of a byte slice adds 2^h - 1 to its value |
| `Addressing.FillHostBits` | internal/network/ipam.go:366-378 | the in-place byte loop sets exactly the low host bits |
| `Addressing.LastAddr` | internal/network/ipam.go:366-378 | the loop's result is the highest address of every prefix |
| `RateLimit.Limiter.SweepLocked` | internal/httpapi/ratelimit.go:121-131 | removes exactly the idle buckets, at most once per interval |
| `RateLimit.Limiter.Admit` | internal/httpapi/ratelimit.go:82-117 | state and answer are those of the limiter's specification |
| `RateLimit.IdleMeansFullIs` | internal/config/config.go:566-596 | the burst condition in configuration terms: at most ten minutes' worth of requests |
| `RateLimit.SimulationRun` | internal/httpapi/ratelimit.go:82-131 | where an idle bucket has had time to fill, the sweeping limiter and the ideal one answer every trace from related states alike |
| `RateLimit.SweepInvisibleIff` | internal/httpapi/ratelimit.go:121-131 | sweeping changes no answer of any trace if and only if an idle bucket has had time to fill |
| `RateLimit.MemoryIsBounded` | internal/httpapi/ratelimit.go:121-131 | after every call of every trace no bucket is older than the idle time plus one sweep interval |
| `RateLimit.AdmissionBound` | internal/httpapi/ratelimit.go:82-117 | where an idle bucket has had time to fill, a client is admitted at most its burst plus the rate over every window of every trace, whatever others do |
| `RateLimitExact.AdmissionBoundIff` | internal/httpapi/ratelimit.go:82-131 | that bound holds of all windows, traces and clients if and only if an idle bucket has had time to fill |
| `RateLimit.ClientsAreIndependent` | internal/httpapi/ratelimit.go:82-117 | where an idle bucket has had time to fill, each client is answered as if it were alone |
| `RateLimitExact.IndependentIff` | internal/httpapi/ratelimit.go:82-131 | every client in every trace is answered as if alone if and only if an idle bucket has had time to fill |
| `RateLimit.RefillsCompose` | internal/httpapi/ratelimit.go:101-106 | refilling in two stages equals refilling once |
| `RateLimit.RefusalsAreFree` | internal/httpapi/ratelimit.go:101-117 | where an idle bucket has had time to fill, leaving out all refused calls changes no other answer |
| `RateLimitExact.RefusalsAreFreeIff` | internal/httpapi/ratelimit.go:82-131 | leaving them out changes no other answer of any trace if and only if an idle bucket has had time to fill or a single nanosecond pays for a request |
| `RateLimit.WaitIsEnough` | internal/httpapi/ratelimit.go:107-117 | a client refused with a wait is admitted at any instant past it, whatever others do and without the burst condition |
| `RateLimit.WaitIsNeeded` | internal/httpapi/ratelimit.go:107-117 | the wait is a second, or else a nanosecond less would not do |
| `RateLimit.HeaderPlusOneSecond` | internal/httpapi/middleware.go:179-186 | one second more than the header says covers the wait |
| `RateLimit.HeaderIsEnoughIff` | internal/httpapi/middleware.go:179-186 | the header's own seconds are enough if and only if less than a second, or a whole number of seconds, was missing |
| `RateLimit.HeaderCanBeShort` | internal/httpapi/middleware.go:179-186 | at seven requests a minute the header says 8 and a client that waits 8 seconds is refused again |
| `Sessions.SessionStore.constructor` | internal/auth/session.go:149-159 | thirty days where no lifetime is given, and no idle timeout where it is negative |
| `Sessions.SessionStore.IssueSession` | internal/auth/session.go:166-207 | adds one session, last used now and expiring after the lifetime; refuses a missing user |
| `Sessions.SessionStore.LookupSession` | internal/auth/session.go:213-253 | accepts exactly sessions neither past expiry nor idle and returns the stored row, its clock moved only when more than a minute old; deletes the others and touches nobody else's |
| `Sessions.SessionStore.RevokeSession` | internal/auth/session.go:264-274 | the token is not accepted afterwards at any time |
| `Sessions.SessionStore.RevokeAllForUser` | internal/auth/session.go:279-290 | removes exactly that user's sessions, leaves the rest as they are and reports how many |
| `Sessions.SessionStore.DeleteExpiredSessions` | internal/auth/session.go:298-309 | removes exactly the sessions past their absolute expiry, leaves the rest as they are and reports how many |
| `Sessions.TraceTracks` | internal/auth/session.go:213-253 | after every trace the recorded last use trails the true one by at most a minute, and no expiry has moved |
| `Sessions.LazyClockIsSafe` | internal/auth/session.go:213-260 | after every trace a session truly idle for the timeout or past its lifetime is refused, and one issued, never ended on purpose, truly idle for less than the timeout minus a minute and not past its lifetime is accepted |
| `Sessions.SessionIsItsUsers` | internal/auth/session.go:166-253 | after every trace a session that is let in belongs to the user it was issued to and to nobody else |
| `Sessions.SignedOutEverywhere` | internal/auth/session.go:276-290 | after a user is signed out everywhere, no token issued to that user before is let in at any later point of any trace |
| `Sessions.OthersStaySignedIn` | internal/auth/session.go:276-290 | and no session issued to another user is touched |
| `Sessions.RejectionIsFinal` | internal/auth/session.go:213-290 | a token once refused as expired, or revoked, is never accepted again |
| `Sessions.HousekeepingIsInvisible` | internal/auth/session.go:298-309 | deleting expired sessions anywhere in any trace changes no other verdict |
| `SessionRaces.AcceptanceIsSound` | internal/auth/session.go:213-260 | however lookups interleave, an accepted one returns the user the session was issued to and is within the lifetime and within the idle timeout of an earlier real use |
| `SessionRaces.LoneLookupIsAtomic` | internal/auth/session.go:213-253 | a lookup that nothing comes between accepts, returns and leaves exactly what the atomic one does |
| `SessionRaces.GoneForGood` | internal/auth/session.go:236-251 | no late write of any lookup brings a deleted session back |
| `SessionRaces.GoneIsRefused` | internal/auth/session.go:222-230 | a lookup that reads after a session is gone is refused |
| `SessionRaces.LiveDeletionIsALostRace` | internal/auth/session.go:213-253 | a lookup deletes a session its own clock would still let in if and only if the row it read was idle and within its lifetime, other lookups of the session were accepted and moved the clock between its read and its write, and the last of them was less than the idle timeout ago |
| `SessionRaces.LiveDeletionPossibleIff` | internal/auth/session.go:213-260 | some run of a configuration has such a deletion if and only if the idle timeout exceeds the touch interval by more than a nanosecond and is below the lifetime |
| `SessionRaces.StaleLookupDeletes` | internal/auth/session.go:236-251 | for every configuration whose idle timeout lies between the touch interval and the lifetime, two lookups one nanosecond apart of which the earlier is accepted and the later deletes the session |
| `Migrations.VerifyLedger` | internal/storage/migrate.go:176-199 | accepts exactly ledgers whose every version this build has with an equal checksum; each error names a version at fault |
| `Migrations.Database.ApplyOne` | internal/storage/migrate.go:118-128 | change and record together, or neither |
| `Migrations.Database.Migrate` | internal/storage/migrate.go:70-112 | applies the missing migrations in order and counts them; stops at the first that fails with everything before it applied and nothing of it; refuses a ledger it cannot verify before touching anything |
| `Migrations.Database.ApplyMissing` | internal/storage/migrate.go:95-111 | the loop of such a run: applies the missing migrations in order and stops at the first whose SQL does not run |
| `Migrations.SecondRunAppliesNothing` | internal/storage/migrate.go:65-112 | after a successful run the ledger is what this build has, and the next run finds nothing missing |
| `MigrationRaces.LedgerIsTheHistory` | internal/storage/migrate.go:70-128 | in every run of concurrent, crashing callers of any builds, each version is in the schema at most once and the ledger records exactly what is in the schema |
| `MigrationRaces.OnlyWholeSteps` | internal/storage/migrate.go:114-128 | only commits change schema or ledger, each by its caller's next migration in both together; a caller that fails or crashes leaves no part of a step |
| `MigrationRaces.LedgerStays` | internal/storage/migrate.go:118-128 | what is recorded stays recorded as it is for the rest of a run |
| `MigrationRaces.FinishedMeansMigrated` | internal/storage/migrate.go:95-112 | from the moment a caller finishes every migration of its build is recorded with its checksum |
| `MigrationRaces.UndisturbedFinishes` | internal/storage/migrate.go:70-112 | from any state whose ledger it can verify, a caller that nobody holds up can run to the end, and schema and ledger have then grown by exactly its missing migrations, in order |
| `MigrationRaces.RecordedByAnother` | internal/storage/migrate.go:90-98 | a version is recorded though the caller neither read it nor recorded it exactly when another caller has committed it since the start |
| `MigrationRaces.EndsInErrorIff` | internal/storage/migrate.go:65-112 | a call does not finish if and only if it crashes, its SQL fails on a version nobody has recorded, or another caller, while it was at work, recorded a migration it had read as missing |
| `MigrationRaces.RacersConflict` | internal/storage/migrate.go:68-69 | two servers started together on an empty database: the second's SQL fails on the first's tables and its run ends in an error |
| `MigrationRaces.HistoryIsAPrefix` | internal/storage/migrate.go:70-128 | if every build is a prefix of one history, so is the schema in every reachable state, in order |
| `MigrationRaces.InserterIsAtTheFront` | internal/storage/migrate.go:118-128 | then a caller holding an uncommitted ledger row stands exactly at the end of the recorded history |
| `MigrationRaces.InsertIsRefusedIff` | internal/storage/migrate.go:123-126 | then an insert into the ledger is refused exactly when the history has passed its caller |
| `MigrationRaces.SchemaVersion` | internal/storage/migrate.go:273-283 | the highest recorded version, zero for none |
| `MigrationRaces.SchemaIsReady` | internal/server/routes.go:176-196 | the probe passes exactly when the newest known version is the highest recorded |
| `MigrationRaces.ProbeMeansNewestRecorded` | internal/server/routes.go:184-196 | on a verified ledger the probe passes exactly when the newest migration is recorded |
| `MigrationRaces.CompleteIff` | internal/server/routes.go:184-196 | a verified ledger has everything exactly when the probe passes and no recorded version stands above an unrecorded one |
| `MigrationRaces.ProbeAfterFinish` | apps/server/main.go:111-135 | once a server's own run has finished, in every later state nothing of its build is missing and its probe passes exactly when no newer version is recorded |
| `MigrationRaces.ProbeCanMissOne` | internal/server/routes.go:190-196 | a run by an older build after which a newer build, not having migrated, verifies the ledger and passes the probe with a migration missing |
| `MigrationRaces.ProbeIsExactInRuns` | internal/server/routes.go:190-196 | if every build is a prefix of one history there are never gaps, and the newest migration is recorded exactly when all of a build's are applied, in order |
| `MigrationFiles.FilenameRoundTrip` | internal/storage/migrate.go:255-269 | a migration's file name leads back to its version and name |
| `MigrationFiles.NameIsParsed` | internal/storage/migrate.go:255-269 | a name is accepted only as a positive number, an underscore and something more |
| `MigrationFiles.LoadMigrations` | internal/storage/migrate.go:210-253 | succeeds exactly when every file is named, filled and versioned on its own, and returns them all, ascending |
| `FirstRun.ClaimedOnce` | internal/server/auth.go:60-87 | in every reachable state of racing bootstraps at most one has committed, and there are no users exactly when the installation is not claimed |
| `FirstRun.StillClaimable` | internal/server/auth.go:69-87 | while none has committed, and no claim is pending, an acceptable account can still claim the installation |
| `FirstRun.MetadataStays` | internal/storage/metadata.go:66-101 | a metadata row once committed never changes |
| `FirstRun.OneIdentityForever` | internal/storage/metadata.go:66-101 | all successful identity calls of a run, racing first starts included, return the one value that is stored |
| `FirstRun.IdentityIsGiven` | internal/storage/metadata.go:66-101 | a call that nobody stands in the way of is answered: the stored identity if there is one, else its own, which is then stored |
| `FirstRun.Installation.ClaimBootstrap` | internal/storage/metadata.go:117-132 | claims exactly when unclaimed |
| `FirstRun.Installation.ClaimFor` | internal/server/auth.go:69-87 | claim and account together or neither; the error tells which was at fault |
| `FirstRun.Installation.InstanceId` | internal/storage/metadata.go:66-101 | the stored identity if there is one, else the new one, stored; no other row changes |
| `Logging.Append` | internal/logging/logging.go:240-242 | appending in place only into spare room, else into fresh memory |
| `Logging.AppendingTwiceCollides` | internal/logging/logging.go:240-242 | without the clip, two handlers derived from any parent whose slice has spare room overwrite each other's record |
| `Logging.ContextHandler.WithAttrs` | internal/logging/logging.go:232-245 | records one operation in fresh memory; the new handler's inner one is the replay of its record on the root, and no existing handler changes |
| `Logging.ContextHandler.WithGroup` | internal/logging/logging.go:247-257 | the same for a group |
| `Logging.ReplaySnoc` | internal/logging/logging.go:239-244 | decorating a replayed handler once more is replaying one more operation |
| `Logging.FlatRender` | internal/logging/logging.go:206-217 | with no group open, decorations come out at the top level in order and the record after them |
| `Logging.GroupRender` | internal/logging/logging.go:219-229 | an open group takes in everything recorded after it, and the record |
| `Logging.ContextHandler.Handle` | internal/logging/logging.go:206-230 | the undecorated output with the request id added at the top level, group open or not |
| `Logging.AppendedAtTop` | internal/logging/logging.go:211-217 | with no group open an attribute added to the record lands at the top level |
| `Logging.HiddenInGroup` | internal/logging/logging.go:175-182 | with a group open it does not, so the replay is needed |
| `Base64.RoundTrip` | internal/wireguard/key.go:300-306 | every byte string survives encoding and decoding in every variant |
| `Base64.AlphabetsAre` | internal/wireguard/key.go:300-306 | the two alphabets, as tables 1 and 2 of RFC 4648 list them |
| `Base64.TestVectors` | internal/wireguard/key.go:300-306 | the test vectors of section 10 of RFC 4648 |
| `Base64.StrictIsCanonical` | internal/auth/password.go:174-210 | the strict decoder accepts exactly the encoder's own texts, up to line breaks |
| `Base64.RawLength` | internal/devices/token.go:19-25 | the length of an unpadded encoding |
| `Base64.PaddedLength` | internal/wireguard/keystore.go:14-22 | the length of a padded encoding |
| `Keys.ValidatePublicKey` | internal/devices/device.go:95-124 | accepts exactly texts that decode to 32 bytes, not all zero |
| `Keys.AcceptedIs` | internal/devices/device.go:95-124 | the text of some bytes is accepted exactly when there are 32 of them, not all zero |
| `Keys.SecondSpelling` | internal/devices/device.go:101-108 | every byte string with a two-byte tail has a second text that decodes to it |
| `Keys.TextIsNotBytes` | internal/devices/device.go:244-248 | every acceptable key has two different acceptable texts, so the unique index does not make keys unique |
| `Keys.OneCanonicalText` | internal/devices/device.go:95-124 | each key has exactly one canonical text |
| `Keys.Clamp` | internal/wireguard/key.go:129-133 | clamps the scalar in place |
| `Keys.ClampIsAccepted` | internal/wireguard/key.go:129-142 | a clamped scalar is accepted, and clamping changes exactly the scalars that are not |
| `Keys.ClampedIs` | internal/wireguard/key.go:129-142 | accepted are exactly the multiples of 8 between 2^254 and 2^255, and clamping changes nothing but the five bits that say so |
| `Keys.KeyFileRoundTrip` | internal/wireguard/key.go:250-306 | a scalar survives being written to the key file and parsed back exactly when it is clamped |
| `Keys.KeyFileLength` | internal/wireguard/keystore.go:14-22 | a key file has 45 characters, within the size limit |
| `Decimal.PrintValue` | internal/auth/password.go:104-127 | reading a printed number gives it back |
| `Decimal.PaddedValue` | internal/storage/migrate.go:53-55 | so does reading one padded with zeros |
| `Password.PrintedFields` | internal/auth/password.go:118-127 | a printed hash splits into the six fields it was printed from |
| `Password.HashRoundTrip` | internal/auth/password.go:174-210 | parsing a printed hash recovers parameters, salt and key |
| `Password.DecodedIsWellFormed` | internal/auth/password.go:174-210 | the parser accepts only six fields, Argon2id, version 19 and parameters that hashing would have accepted; another version has its own error |
| `Password.HashRefuses` | internal/auth/password.go:104-147 | when a password is not hashed and why: parameters below the floor, fewer than 12 or more than 1024 characters; the default parameters |
| `Password.RightPasswordVerifies` | internal/auth/password.go:104-171 | the right password always verifies against its hash and asks for a rehash exactly when the parameters are weaker than the default; another verifies only if the key derivation collides |
| `KeyStore.SavedKeyIsReadable` | internal/wireguard/keystore.go:106-139 | what is saved for a key reads back as that key |
| `KeyStore.Store.Load` | internal/wireguard/keystore.go:106-139 | returns the key in a private, well-formed file, and tells missing and insecure files apart; never changes the file |
| `KeyStore.Store.Save` | internal/wireguard/keystore.go:181-241 | never touches an existing file, removes its own file after a failure if removal works, except after a failing last close, and leaves a complete file on success |
| `KeyStore.FailedSaveLeaves` | internal/wireguard/keystore.go:208-240 | a failed save leaves a file exactly when it had been created and its removal failed too, or only the last close failed, and then it is the complete key |
| `KeyStore.FailedCreateIsFound` | internal/wireguard/keystore.go:147-178 | after a creation that failed only at the last close, the next call returns that very key as one already there |
| `KeyStore.Store.Create` | internal/wireguard/keystore.go:147-156 | a fresh clamped key, on disk before it is returned; an existing file is an error |
| `KeyStore.Store.LoadOrCreate` | internal/wireguard/keystore.go:164-178 | creates only when there is no file; a corrupt or insecure one is an error and stays |
| `KeyStore.PerformKeeps` | internal/wireguard/keystore.go:106-241 | no call, whatever random bytes it draws and whichever steps fail, changes a file that was there; a success returns the key then on disk, and says created exactly when there was no file |
| `KeyStore.PerformSucceeds` | internal/wireguard/keystore.go:106-178 | without faults each call succeeds exactly when it should: loading a usable file, creating where there is none, and either of the two |
| `KeyStore.FileStays` | internal/wireguard/keystore.go:106-241 | over every sequence of Load, Create and LoadOrCreate calls with any faults, a file that is there is never altered or removed |
| `KeyStore.OneKeyPerMachine` | internal/wireguard/keystore.go:106-178 | all successful calls of such a sequence return one key, and at most one says it created it |

## Left out

- User and setup-key deletion cascades: no product code deletes either.
- Foreign-key locks, deadlock detection and driver error classification: any transaction may fail at any statement instead.
- Releasing addresses and reading them back outside a transaction, and rows the address scan cannot parse: a claimed address is always one the model wrote.
- Free-text fields (name length limits apart from emptiness, operating system, host name, tags, description, user agent): none of them takes part in an invariant.
- Argon2, SHA-256, Curve25519 multiplication, the random source and constant-time comparison: parameters or injective constructors; timing is not modelled.
- RateLimit.Limiter.Admit: exact integers instead of float64, so rounding of the token count is not modelled; the map's iteration order is left open.
- Password.RightPasswordVerifies: line breaks inside the text given to fmt.Sscanf, and version numbers wider than 64 bits (a different error), are not modelled; printed hashes have neither.
- Addressing.ParsePool: the text parser of net/netip is not modelled; its result is the method's input.
- KeyStore.Store.Load: Unix modes and Windows access lists are one bit, and the wiping of buffers has no observable effect.
- FirstRun.ClaimedOnce: accounts are created by bootstrap only, and SetMetadata, which no product code calls, is not an action.
- MigrationRaces.LedgerIsTheHistory: a migration's SQL is one opaque change that succeeds or fails as a whole; creating the ledger table, and the lock on a table another transaction is still creating, are not modelled (such a wait is one of the schedules allowed).
- Sessions.RejectionIsFinal: about lookups one after another; a lookup that had read the row before another deleted it may still be accepted.
- DeviceStore.Store.Revoke: the row locks of a concurrent revocation are in `Enrolment`, not in this sequential form.
- HTTP routing, cookies, middleware other than the Retry-After arithmetic, configuration loading, health folding, the command line and the web interface: plumbing or presentation.
