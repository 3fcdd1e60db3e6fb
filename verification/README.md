# Veil: a verified model of the credential broker

Veil lends credentials to agents without showing them. An agent asks the broker
to *use* an item; the broker decides from grants and approvals, commits an audit
row, injects the secret into the upstream request and censors the response. This
project models the protocols behind that and proves what they promise.

| file | what it models |
|---|---|
| `Protocol.dfy`, `Grant.dfy` | the values passed around, and the decision function |
| `Store.dfy`, `StoreLaws.dfy`, `Memory.dfy` | the store's calls as functions on its contents, what they mean for one another, and the in-memory store as a class proved against them |
| `Broker.dfy`, `Server.dfy` | Use as a step machine with any number of calls and owner's calls interleaving, and the broker's own code as a run of it |
| `UseSafety.dfy`, `Issuing.dfy`, `Revocation.dfy`, `Sweeping.dfy` | what every run keeps: audit and authorization before release, accounting and leases, sessions and grants as they were asked for, permanent revocation, sweeping as a bisimulation |
| `SqliteSessions.dfy` | the session statements of the SQLite store, and its two-statement renewal |
| `Audit.dfy`, `AuditWorker.dfy` | the buffered auditor: appenders, worker and closers as a step machine, and the worker's loop |
| `Sealing.dfy`, `OwnerKeys.dfy` | symbolic authenticated encryption, and replicas racing to make an owner's key |
| `Vault.dfy`, `Sqlite.dfy`, `History.dfy`, `Rewrapping.dfy` | the sealed item tables, their class with failing database calls, item history, and the legacy rewrap |
| `Confirming.dfy`, `FillHost.dfy`, `Nonce.dfy` | the fill host: prompts, fill/generate/save/enroll, reply nonces |
| `Replica.dfy` | the fill host's cache file and its crash states |
| `Scrub.dfy`, `Passgen.dfy` | censoring secrets, and passwords from rules |
| `Migration.dfy`, `Proxy.dfy` | the copy into PostgreSQL, and the proxy's lookup against its gate |

Conventions. A store call is one atomic step unless a file says otherwise. Times
are integers in nanoseconds. What the network, the clock, the human, the random
source, the operating system and the database decide is an argument, so each
theorem holds for all of their choices. Encryption is symbolic: a box opens under
the key it was sealed with and under no other. A step that is not due leaves the
state alone, so "every run" includes every schedule. Session ids are assumed
unique, and data keys different from the master key, where a contract says so.

## Where code and comments differ

The model follows the code. These differences are stated as lemmas:

- `internal/broker/broker.go:248-251` says no credential leaves unaudited. On the
  agent path that is as good as the auditor: the buffered one answers nil when the
  row is only queued (`AsyncAudit.AcceptedIsNotStored`); when it is stored,
  exactly, is `AsyncAudit.AcceptedIsStoredIff`.
- `internal/store/store.go:114-118` says sweeping does not affect expiry
  semantics. It holds for uses at times from the cutoff on (`Sweeping.SameAnswers`, `Sweeping.SnapshotsAgreeIff`);
  the owner's approval can tell (`Sweeping.ApproveSeesSweepIff`).
- Creating a session or grant checks the agent and writes in two calls, so a
  revocation in between leaves a row for a revoked agent (`Revocation.IssuedIffInFlight`);
  it authorizes nothing (`Revocation.LateSessionIsDead`, `Revocation.LateGrantIsDead`).
- Renewal in the SQLite store is two statements outside a transaction; overlapping
  renewals can lower the expiry, exactly when `SqliteSessions.ExpiryDropsIff` says, not
  break the maximum (`SqliteSessions.RacingRenewalsKeepMaximum`).
- The SQLite store files the current secret before it looks for the version to
  restore, so the number about to be given out is accepted
  (`History.RestoreSucceedsIff`); the in-memory store refuses it.
- The replica writes its rows through JSON, which replaces bytes that are not valid
  text: memory and box agree exactly when all text in them is
  (`Replica.OnDiskIsSameIff`), and different ids may become one
  (`Replica.DiskIsOrderedMapIff`).
- A row the legacy rewrap could not read and skipped can make the next opening fail
  (`Rewrapping.SecondOpenCanFail`), exactly when is `Rewrapping.RerunSucceedsIff`.
- Two parsed URLs compare equal when hostname and port, joined by a colon, give the same
  text, so a hostname with a colon in it can stand for a hostname and a port
  (`Grants.HostAllowedIff`); without such hostnames the comparison is the plain one
  (`Grants.PlainHostAllowedIff`).
- A required class contributes letters outside the allowed ones
  (`Passgen.KeepsToAlphabetIff`).

## Model

| member | source | states |
|---|---|---|
| `AsyncAudit.InvRun` | internal/audit/audit.go:97-214 | In every interleaving of appenders, worker and closers: what was handed to the store, then the batch in hand, then the queue, is the accepted events in order; an event is accepted exactly when its `Append` answers nil, once; batches and queue stay within their sizes; the wait group counts the callers inside; the closing flags rise in order and by one closer. |
| `AsyncAudit.InvStep` | internal/audit/audit.go:97-214 | Each single step of any of the three roles keeps all of that, from every state that has it. |
| `AsyncAudit.AcceptedStep` | internal/audit/audit.go:97-117 | The log of accepted events lists the successful calls and no others, each once, through every step a caller takes. |
| `AsyncAudit.CountedStep` | internal/audit/audit.go:97-117 | The wait group holds exactly the calls between their entry check and their return. |
| `AsyncAudit.WorkerStep` | internal/audit/audit.go:119-197 | The worker ends only with an empty batch on a sealed, drained channel, and its sticky error is set exactly when some write failed. |
| `AsyncAudit.CloserStep` | internal/audit/audit.go:199-214 | Only the closer inside the once raises the flags, in order, and the channel is closed only with nobody left inside; closers that return report the sticky error. |
| `AsyncAudit.NoSendOnSealed` | internal/audit/audit.go:106-116 | After the channel is closed no call can be about to send on it. |
| `AsyncAudit.AcceptedOnlyGrows` | internal/audit/audit.go:106-116 | Acceptance is final and keeps its order over every continuation of a run. |
| `AsyncAudit.StepUsesWork` | internal/audit/audit.go:119-214 | Every step but an arriving call lowers a measure of the work left. |
| `AsyncAudit.ClosingIsBounded` | internal/audit/audit.go:199-214 | Once closing has begun only so many steps can still be taken, under every schedule, however many more `Append` calls come. |
| `AsyncAudit.NoDeadlock` | internal/audit/audit.go:199-214 | While a `Close` is under way and something is unfinished, some step is due that is neither a new call nor a context ending. |
| `AsyncAudit.DueForClose` | internal/audit/audit.go:106-116 | A caller blocked on a full channel during a close is released without its context having to end. |
| `AsyncAudit.CloseCompletes` | internal/audit/audit.go:199-214 | A schedule with nothing left to do has ended with the worker gone, every call answered and every accepted event handed to the store. |
| `AsyncAudit.NilCloseMeansStored` | internal/audit/audit.go:186-214 | A nil `Close` means all accepted events are in the store in order; it returns an error exactly when some batch write failed, and exactly when the store is short of an accepted event. |
| `AsyncAudit.AcceptedIsStoredIff` | internal/audit/audit.go:97-197 | When what was accepted is in the store, for every capacity, interval and run: exactly when the worker has nothing in hand, nothing is queued and no write failed. |
| `AsyncAudit.AcceptedIsNotStored` | internal/audit/audit.go:97-117 | So a nil `Append` by itself means queued: a run in which it has returned and the store holds nothing. |
| `AsyncAudit.RefusedClosedMeansClosed` | internal/audit/audit.go:97-117 | Over every run, a call answered "closed" was answered on an auditor whose closing had begun. |
| `AsyncAudit.RefusedContextWasCancelled` | internal/audit/audit.go:109-114 | Over every run, a call answered with its context's error had a step in which that context ended. |
| `AsyncAudit.ClosedRefusesAll` | internal/audit/audit.go:97-106 | Once closing has begun every call that enters is answered "closed". |
| `AsyncAudit.FirstEventDecides` | internal/audit/audit.go:119-135 | The interval decides how the first event of a batch is taken further: flushed after draining, or waited on. |
| `AsyncAudit.LaterEventsJoin` | internal/audit/audit.go:119-184 | A later event, queued or handed over, joins the batch at its end and the worker goes on as it was. |
| `AsyncAudit.CallerMovesIff` | internal/audit/audit.go:97-117 | Exactly how a caller in its select can go on. |
| `AsyncAudit.WorkerMovesIff` | internal/audit/audit.go:119-184 | At each of its stages exactly which steps the worker can take; it chooses only while it waits out the interval. |
| `AsyncAudit.CloserMovesIff` | internal/audit/audit.go:199-214 | Exactly when each closer can move: one enters the once, the others wait until it is over. |
| `AsyncAudit.WorkIsCounted` | internal/audit/audit.go:119-214 | The work that is bounded is the number of places in the run at which a step was taken that is no arrival. |
| `AsyncAudit.CloseCallsAreCounted` | internal/audit/audit.go:199-199 | And the bound counts the later calls of `Close`. |
| `AsyncAudit.BatchSizeIs` | internal/audit/audit.go:76-95 | Batches are as large as the queue, at least one and at most 256. |
| `AuditWorker.BatchWorker.Loop` | internal/audit/audit.go:119-170 | The worker as written, whenever events arrive and timers fire and whichever writes fail: all events reach the store call in order, in batches of one to the batch size, and the sticky error is set exactly when a write failed. |
| `AuditWorker.BatchWorker.DrainBatch` | internal/audit/audit.go:172-184 | Pulls until the batch is full or nothing is queued; nothing is lost or reordered. |
| `AuditWorker.BatchWorker.Flush` | internal/audit/audit.go:186-197 | Hands over a batch that is not empty, once. |
| `AuditWorker.BatchWorker.Linger` | internal/audit/audit.go:138-164 | Gathers until the batch is full, the channel closed, or the interval over and the queue drained. |
| `Grants.EvaluateMeans` | internal/grant/grant.go:31-82 | What each answer means over every input: allow, need-approval and deny are exactly eligible-and-unlocked, eligible-and-locked, not eligible; a refusal always names a reason. |
| `Grants.AllowedEarlier` | internal/grant/grant.go:31-82 | What is allowed now was allowed, with the same answer, at every earlier time under the same rows. |
| `Grants.ScanHosts` | internal/grant/grant.go:96-118 | The scan over an item's URIs returns the refusal that belongs to membership of the canonical host among them; what that means is `Grants.HostAllowedIff`. |
| `Grants.HostAllowedIff` | internal/grant/grant.go:96-153 | What the comparison compares, in terms of the parsed URLs alone: an item fits a target exactly when one of its URIs has a hostname and port that are the same up to ASCII case and default ports, a colon in a hostname being the one way for two different pairs to coincide. |
| `Grants.PlainHostAllowedIff` | internal/grant/grant.go:96-153 | For hostnames without colons: exactly when some URI has the same hostname up to ASCII case and the same effective port. |
| `Grants.BadTargetIsRefused` | internal/grant/grant.go:96-107 | Which refusal a target gets: missing, invalid or not allowed. |
| `Grants.ActionAllowedIff` | internal/grant/grant.go:84-90 | A grant covers the actions it lists, and `env` when it lists `fetch`. |
| `Grants.ReasonsAreTrue` | internal/grant/grant.go:31-82 | Every reason given for a refusal is the case. |
| `Grants.FirstReasonIsGiven` | internal/grant/grant.go:31-58 | And it is the first one there is, in the source's order. |
| `Grants.LaterReasonIsGiven` | internal/grant/grant.go:56-82 | The same for the later checks: expiry, action, host and level. |
| `Grants.ApprovalIsNamed` | internal/grant/grant.go:64-79 | An answer names an approval exactly when it rests on one, and then that one. |
| `MemoryStore.Memory.PutAgent` | internal/store/memory.go:45-53 | An upsert that keeps a revocation already there. |
| `MemoryStore.Memory.RevokeAgent` | internal/store/memory.go:78-92 | Revokes once, keeping the first time, and files the rows, or reports not found and changes nothing. |
| `MemoryStore.Memory.PutItem` | internal/store/memory.go:124-138 | Files the current secret as a new version before it is overwritten. |
| `MemoryStore.Memory.ArchiveItem` | internal/store/memory.go:177-187 | Archives the item, or reports not found. |
| `MemoryStore.Memory.DeleteItem` | internal/store/memory.go:189-212 | Removes the item, its secret, its versions and its grants; version numbers are not taken back. |
| `MemoryStore.Memory.FilterVersions` | internal/store/memory.go:202-210 | The in-place filter keeps exactly the other items' versions in order and drops the secrets of this item's. |
| `MemoryStore.Memory.RestoreVersion` | internal/store/memory.go:230-264 | Restores a version of that very item after filing the current secret, or reports not found and changes nothing. |
| `MemoryStore.Memory.Secret` | internal/store/memory.go:266-276 | Reads the current secret. |
| `MemoryStore.Memory.UseAuth` | internal/store/memory.go:297-320 | The snapshot of agent, item, grant and live approval. |
| `MemoryStore.Memory.UseAuthSession` | internal/store/memory.go:322-339 | The same through a session that is neither revoked, expired nor used up. |
| `MemoryStore.Memory.ConsumeSessionAudited` | internal/store/memory.go:345-377 | Checks the session and its agent again, counts one use and files the row, all or nothing. |
| `MemoryStore.Memory.RevokeSession` | internal/store/memory.go:528-542 | Stamps the session with that id once, so that one such session is revoked afterwards, or reports not found and changes nothing. |
| `MemoryStore.Memory.RenewSession` | internal/store/memory.go:544-571 | Extends a live lease up to its maximum, never shortening it. |
| `MemoryStore.Memory.AppendAudits` | internal/store/memory.go:431-436 | Appends the rows in order. |
| `MemoryStore.Memory.Sweep` | internal/store/memory.go:573-599 | Leaves exactly the rows that are not terminally dead before the cutoff and reports how many of each went. |
| `StoreLaws.PutIsRead` | internal/store/memory.go:124-138 | A put is read back, and the secret it replaced is filed under the next number, as that item's; other items read as before. |
| `StoreLaws.NewestUndoesPut` | internal/store/memory.go:124-138 | Restoring the version a put filed brings back what was there before it. |
| `StoreLaws.RestoreIsRead` | internal/store/memory.go:230-264 | A restore succeeds exactly for a version of the item itself, brings its secret back and files the one it replaced. |
| `StoreLaws.PutStaysNumbered` | internal/store/memory.go:124-138 | Version numbers stay in order and bounded by the last one given out, each with its secret. |
| `StoreLaws.TakeOffStaysNumbered` | internal/store/memory.go:189-212 | Deleting an item keeps that for the others. |
| `StoreLaws.DeleteTakesAll` | internal/store/memory.go:189-212 | Exactly what a delete takes: item, secret, history and grants of that item and of no other. |
| `StoreLaws.DeleteKeepsOthersHistory` | internal/store/memory.go:202-210 | The versions of other items keep their secrets. |
| `StoreLaws.PutAgentKeeps` | internal/store/memory.go:45-53 | A put agent is there as given, and keeps a revocation the put does not name. |
| `StoreLaws.AuthorizationReads` | internal/store/memory.go:297-320 | What a snapshot holds, field by field: the grant of that pair, its approval exactly while that lasts. |
| `StoreLaws.CheckSessionIff` | internal/store/memory.go:326-336 | A session is usable exactly while not revoked, not expired and not used up; a refusal says which, revocation first. |
| `StoreLaws.ConsumeIsAllOrNothing` | internal/store/memory.go:349-377 | One use is counted and filed together, exactly on a usable session of an agent that stands. |
| `StoreLaws.RenewIff` | internal/store/memory.go:544-571 | A renewal is refused exactly when the session is revoked or over; else it adds the lease, up to the maximum and never less than before. |
| `StoreLaws.SweepLeaves` | internal/store/memory.go:573-599 | Exactly which sessions, grants and approvals a sweep leaves. |
| `Server.Origin.Use` | internal/broker/broker.go:134-154 | The agent-token call, run alone against the store, is a run of the step protocol, with the same final store and answer. |
| `Server.Origin.UseSession` | internal/broker/broker.go:156-180 | The same for the session-token call; every refusal at the snapshot looks alike. |
| `Server.Origin.UseAuthorized` | internal/broker/broker.go:182-302 | Decision, reload, gates, commit, secret and answer happen in that order with those effects. |
| `Server.Origin.AuditRefusal` | internal/broker/broker.go:304-326 | A refusal is answered whether or not its row could be stored. |
| `Server.PlayIsRun` | internal/broker/broker.go:134-302 | One call's stage-by-stage reading equals its steps taken in the protocol. |
| `Server.AllowedIff` | internal/broker/broker.go:182-302 | Completeness: on a store nobody else changes, a call with its row stored and its request made is answered allow exactly when it fetches, the rows permit that, the agent still stands at the reload, the item's kind is none of SSH key, file, passkey, card and identity, and its secret is there. |
| `Server.SnapshotRefusalsIff` | internal/broker/broker.go:156-180 | A session call is answered unauthorized at the snapshot exactly when its session is not usable or its agent unknown. |
| `Server.GatesIff` | internal/broker/broker.go:235-243 | The gates let through exactly an allowed fetch, with a request, of an item of none of those five kinds. |
| `Server.CommitIff` | internal/broker/broker.go:252-270 | A session's commit goes on to the secret, or changes nothing and is refused as a revoked session, in a row of its own. |
| `Server.ReleaseIff` | internal/broker/broker.go:278-302 | How a call that reached the secret ends: missing, not fetched, or answered. |
| `Server.OtherActionIsRefused` | internal/broker/broker.go:235-243 | No other action is ever answered allow. |
| `Broker.CallsBegin` | internal/broker/broker.go:134-180 | A call begins once, as its caller made it, and at no other's expense. |
| `Broker.UseStepKeeps` | internal/broker/broker.go:182-302 | A step of one call touches only the log, one session and that call. |
| `Broker.OwnerStepKeeps` | internal/app/app.go:484-539 | Owner's steps touch no call in flight and never shorten the log. |
| `UseSafety.NoReleaseWithoutRow` | internal/broker/broker.go:252-277 | Over every interleaving, each secret read comes after a committed allow row of the same call, for an item of none of the five kinds that are never injected; in the agent's own name; on the session path that very step found the session live and its agent unrevoked. |
| `UseSafety.NoReleaseWithoutAuthorization` | internal/broker/broker.go:182-277 | Behind each secret read there is an earlier snapshot of the same call at which the store, as it then was, authorized the fetch of that item. |
| `UseSafety.AuthorizedMeans` | internal/grant/grant.go:31-82 | Such an authorization is a stored grant for that agent and item, unexpired, for a matching host, with a live approval where one is needed, the agent not revoked and the item not archived. |
| `UseSafety.AuthorizedIff` | internal/grant/grant.go:31-82 | Exactly when a call is authorized, in the store's own rows. |
| `UseSafety.RowsAreOwn` | internal/broker/broker.go:250-270 | A call commits at most once and no two commits share a row. |
| `UseSafety.CallStep` | internal/broker/broker.go:182-302 | A call keeps its caller, request and clock, moves only forward, and reaches the secret only by committing. |
| `UseSafety.GatedRun` | internal/broker/broker.go:235-243 | A call about to commit was decided allow, asks for a fetch, and its item is none of SSH key, file, passkey, card and identity, written out. |
| `UseSafety.AuditGrows` | internal/store/memory.go:431-436 | Nothing is ever removed from the log or reordered. |
| `UseSafety.SessionsAreAccounted` | internal/store/memory.go:349-377 | Over every run a session's use count is the number of allow rows committed for it since it was minted and never exceeds a positive limit; its expiry is min(created + ttl + k*TTL, created + MaxTTL) after k renewals. |
| `UseSafety.UseCountIsRowCount` | internal/store/memory.go:349-377 | A session's use count is the number of distinct places in the audit log where its uses left their allow rows. |
| `Issuing.SessionWasAskedFor` | internal/app/session.go:89-136 | Every session in the store goes back to one request that was in order, and was born as that asked: its agent, its lifetime as expiry and lease, its limit on uses; from there it is accounted for. |
| `Issuing.GrantWasAskedFor` | internal/app/app.go:1018-1068 | Every grant written is one a request asked for that was in order when it was checked. |
| `Issuing.RequestsAreTakenUpIff` | internal/app/session.go:89-118 | A request is taken up exactly when it is in order, which is written out. |
| `Issuing.RequestsAreWritten` | internal/app/session.go:121-134 | What was taken up is written when its turn comes, once. |
| `Issuing.AgentsAndItemsTakeEffect` | internal/app/app.go:484-539 | After the owner's calls on agents and items what they say is so. |
| `Issuing.OtherCallsTakeEffect` | internal/store/memory.go:379-436 | After an approval, a renewal, a sweep or a log append what they say is so. |
| `UseSafety.LeaseExtends` | internal/store/memory.go:555-564 | One renewal moves the closed form from k to k + 1 and never back. |
| `UseSafety.StepKeepsSessions` | internal/store/memory.go:349-377 | The only ways any step touches a session: a counted use of a live one, a renewal, a revocation. |
| `UseSafety.NoUsePastMaximum` | internal/app/session.go:89-136 | No use is counted at or after creation plus the maximum lifetime, however often the session is renewed. |
| `UseSafety.ExpiryNeverDecreases` | internal/store/memory.go:544-571 | Expiry never moves back in the in-memory store. |
| `Revocation.RevocationIsPermanent` | internal/store/memory.go:45-92 | No run of any steps makes a revoked agent unrevoked. |
| `Revocation.NoCommitForRevoked` | internal/store/memory.go:365-368 | No use of a revoked agent's session is ever committed. |
| `Revocation.UsesStayFrozen` | internal/store/memory.go:349-377 | After the revocation the use counts of its sessions do not change. |
| `Revocation.LaterReloadIsDenied` | internal/broker/broker.go:225-234 | An agent-token call whose reload comes after the revocation is denied whatever it had decided. |
| `Revocation.LaterUseIsRefused` | internal/broker/broker.go:134-154 | Every agent-token call begun after the revocation ends refused and never reads. |
| `Revocation.EndSessionRevokes` | internal/store/memory.go:528-542 | After a session is ended by its id it is revoked. |
| `Revocation.EndedForGood` | internal/store/memory.go:528-542 | Over every later run without a new session under its hash, an ended session stays revoked, commits nothing, and every snapshot through it is unauthorized. |
| `Revocation.EndedNeverCommits` | internal/store/memory.go:349-377 | No step of such a run counts a use of it. |
| `Revocation.IssuedAreInFlight` | internal/app/session.go:107-134 | After the revocation at most the owner's calls that had already passed their check can still write a session or grant. |
| `Revocation.IssuedIffInFlight` | internal/app/app.go:1018-1068 | Some later run issues a session or grant to the revoked agent exactly when such a call was in flight. |
| `Revocation.IssueAfterRevoke` | internal/app/session.go:107-134 | The check-then-write window: from any state passing the check, revoking in between leaves a new session of a revoked agent. |
| `Revocation.SessionForRevokedAgent` | internal/app/session.go:107-134 | Such states are reachable for any agent. |
| `Revocation.LateSessionIsDead` | internal/store/memory.go:322-377 | A session issued late authorizes nothing, at the snapshot or the commit. |
| `Revocation.LateGrantIsDead` | internal/broker/broker.go:225-234 | A grant issued late is refused for every request. |
| `Sweeping.SweepIsUnobservable` | internal/store/memory.go:573-599 | Bisimulation: the swept and the unswept system stay alike over every later run of store steps at times from the cutoff on. |
| `Sweeping.MissingIsUnobservable` | internal/store/sqlite.go:1487-1511 | A sweep stopped between its statements, or any other loss of rows dead by the cutoff, cannot be told either. |
| `Sweeping.SameAnswers` | internal/store/store.go:114-118 | Each call ends with the same outcome on both, only the reason of a refusal allowed to differ, and the log has the same allow rows. |
| `Sweeping.StepAlike` | internal/store/memory.go:297-377 | Every single step keeps the two alike. |
| `Sweeping.SameDecision` | internal/grant/grant.go:31-82 | A grant or approval that was swept could not have allowed anything from the cutoff on. |
| `Sweeping.ConsumeAlike` | internal/store/memory.go:349-377 | Committing a use succeeds on both or on neither. |
| `Sweeping.SnapshotsAgreeIff` | internal/store/memory.go:297-339 | The exact bound on the clock: on every store and for every call the swept and the unswept snapshot agree exactly from the last instant before the cutoff on. |
| `Sweeping.StaleClockSeesSweep` | internal/store/memory.go:573-599 | For every clock older than that some call sees the difference. |
| `Sweeping.ApproveSeesSweepIff` | internal/app/app.go:1118-1133 | The owner's approval, which looks the grant up first, sees a sweep exactly when every grant with that id was swept. |
| `Sweeping.ApprovalLostToSweep` | internal/app/app.go:1118-1133 | And the difference can reach a later decision once the grant is renewed. |
| `SqliteSessions.Database.PutSession` | internal/store/sqlite.go:1109-1135 | An upsert by session id on truncated times; a token hash held by another session is refused, and a new session is stored as in memory. |
| `SqliteSessions.Database.ConsumeSessionAudited` | internal/store/sqlite.go:785-841 | The transaction, rolled back at whatever point it fails, is the in-memory consume: all of it or nothing, on times kept in whole seconds. |
| `SqliteSessions.Database.UseAuthSession` | internal/store/sqlite.go:687-772 | The joined query answers as the in-memory snapshot does wherever the item exists, and refuses in the same cases. |
| `SqliteSessions.Database.Sweep` | internal/store/sqlite.go:1487-1515 | The three statements are the in-memory sweep at the cutoff's whole second; stopped after any of them, what is missing is still only dead rows. |
| `SqliteSessions.StoredIsStricter` | internal/store/sqlite.go:1109-1135 | A session stored in whole seconds allows nothing the given one would not, and loses less than a second. |
| `SqliteSessions.StoredMeans` | internal/store/sqlite.go:1109-1135 | What is stored is the given session, each time brought back to its whole second. |
| `SqliteSessions.DraftIsTheRenewal` | internal/store/sqlite.go:1262-1283 | The first statement of a renewal drafts what the in-memory renewal would make of the row, and is refused when that is. |
| `SqliteSessions.CountIsTheUse` | internal/store/sqlite.go:785-841 | A use in between is counted exactly when the in-memory check lets it. |
| `SqliteSessions.RunIsSane` | internal/store/sqlite.go:1262-1290 | However the two statements of renewals interleave, expiry is one that renewals in a row could have made. |
| `SqliteSessions.RacingRenewalsKeepMaximum` | internal/store/sqlite.go:1262-1290 | So the maximum lifetime holds under races too. |
| `SqliteSessions.RacingRenewalsKeepRevocation` | internal/store/sqlite.go:1262-1290 | A renewal that began before a revocation does not undo it. |
| `SqliteSessions.RevokeTakesEffect` | internal/store/sqlite.go:1246-1260 | A revocation between the two statements takes effect at once: no use is counted after it. |
| `SqliteSessions.Database.RevokeSession` | internal/store/sqlite.go:1246-1260 | One statement by id: the session is stamped once in whole seconds, or not found, and no other is touched. |
| `SqliteSessions.AloneItExtends` | internal/store/sqlite.go:1262-1290 | A renewal not overlapped by another extends the expiry as the in-memory one does. |
| `SqliteSessions.OverlappedRenewalLowersExpiry` | internal/store/sqlite.go:1262-1290 | A renewal overlapped by two others lowers the expiry, for every session one full renewal of which stays below the maximum. |
| `SqliteSessions.ExpiryDropsIff` | internal/store/sqlite.go:1262-1290 | Exactly when "expiry never decreases" fails here: some interleaving lowers it if and only if the session can be extended and one full renewal stays below the maximum. |
| `OwnerKeys.WriteOnce` | internal/store/sqlite.go:1305-1311 | Over every run of racing replicas an owner's wrapped key is written once. |
| `OwnerKeys.ConsistentRun` | internal/store/owner.go:39-88 | Every cache entry and every answer, on every replica, is what the table opens to under that replica's master. |
| `OwnerKeys.ConsistentStep` | internal/store/owner.go:39-88 | Each step of load, create, reload, fill or failure keeps that. |
| `OwnerKeys.RaceConverges` | internal/store/owner.go:39-88 | Replicas sharing a master all answer one key for an owner, whichever creation won. |
| `OwnerKeys.NoneIsExplained` | internal/store/owner.go:39-88 | Over every run from the start, a call that answers nothing was for no proper owner, met a database error, or its owner's row is there and does not open under its master. |
| `OwnerKeys.DoneAnswersTheKey` | internal/store/owner.go:39-88 | A call for a proper owner that is done without a database error answers exactly what its master makes of the row. |
| `OwnerKeys.DoneInFive` | internal/store/owner.go:39-88 | A call is done after at most five steps of its own, whatever the others do in between. |
| `OwnerKeys.CallsBegin` | internal/store/owner.go:39-43 | A call for no proper owner is over as it begins, any other is under way. |
| `OwnerKeys.CachedIsAnswered` | internal/store/owner.go:43-49 | With a cached key, a call left alone answers it and changes nothing else. |
| `OwnerKeys.StoredIsOpened` | internal/store/owner.go:51-87 | Without one it answers what its master makes of the row, and remembers a key. |
| `OwnerKeys.MissingIsMade` | internal/store/owner.go:52-76 | Without a row it answers the key it draws, in a row of its own under its master. |
| `OwnerKeys.ErrorsEndCalls` | internal/store/owner.go:51-80 | A database error ends a call exactly while it is at the table. |
| `OwnerKeys.SealedHereOpensThere` | internal/crypto/box.go:25-51 | What one replica seals for an owner any other opens to the same bytes. |
| `OwnerKeys.TwoMastersNeverBothAnswer` | internal/store/owner.go:76-88 | Under two masters the calls never both answer. |
| `SqliteStore.Sqlite.OwnerDek` | internal/store/owner.go:39-88 | Cache, load, create if absent, load again: the answer is what the table opens to, or a database failure that leaves at most the new key; the cache stays in agreement. |
| `SqliteStore.Sqlite.PutItem` | internal/store/sqlite.go:440-517 | Refuses a change of owner, files the current blob, writes the new one under the owner's key; a database failure at any call leaves items and history as they were. |
| `SqliteStore.Sqlite.FileCurrent` | internal/store/sqlite.go:426-438 | The current blob becomes the next version, or nothing changes. |
| `SqliteStore.Sqlite.RestoreVersion` | internal/store/sqlite.go:632-664 | Files first, then looks the version up; a miss or a database failure rolls back. |
| `SqliteStore.Sqlite.DeleteItem` | internal/store/sqlite.go:584-603 | Removes the item and its versions; the number sequence stays. A failure between the statements leaves the item without its versions. |
| `SqliteStore.Sqlite.Secret` | internal/store/sqlite.go:666-685 | Opens the current blob under the owner's key; a failing call changes no row. |
| `SqliteStore.Sqlite.RewrapRows` | internal/store/sqlite.go:1404-1480 | The loop over one query's rows computes the pass or fails, and on a healthy database fails exactly when the pass does. |
| `SqliteStore.Sqlite.RewrapLegacy` | internal/store/sqlite.go:1333-1402 | A commit leaves what the migration says; any rollback leaves the tables as they were and the cache in agreement with them; on a healthy database it commits exactly when the migration goes through. |
| `Rewrapping.RewrapKeepsMeaning` | internal/store/sqlite.go:1333-1480 | After a commit every item and joined version that could be opened opens under its owner's key to its old plaintext, others are untouched byte for byte, and the mark implies all rows are owner-sealed. |
| `Rewrapping.PassKeepsRows` | internal/store/sqlite.go:1404-1480 | One pass only adds data keys, keeps each row's meaning, and counts all rows only when all are owner-sealed. |
| `Rewrapping.WrongMasterChangesNothing` | internal/store/sqlite.go:1404-1480 | A wrong master alters no row, makes no key and sets no mark. |
| `Rewrapping.RerunChangesNothing` | internal/store/sqlite.go:1333-1402 | A second run, in any row order, rolls back or changes no row and no key; a marked vault is not read. |
| `Rewrapping.RerunSucceedsIff` | internal/store/sqlite.go:1333-1480 | When the opening after a successful one goes through, in any row order: exactly when the vault was marked complete, or every row whose owner's key the master opens is sealed under that key. |
| `Rewrapping.OpenVaultIsMoved` | internal/store/sqlite.go:1333-1480 | A vault all of whose rows open is moved whole at the first run, in any row order, and marked unless it is empty. |
| `Rewrapping.IdleRewrapSucceedsIff` | internal/store/sqlite.go:1404-1480 | The same for any unmarked vault with nothing left under the master. |
| `Rewrapping.SecondOpenCanFail` | internal/store/sqlite.go:1404-1480 | An unreadable row skipped by the first run makes the second fail, and whether the first fails depends on row order. |
| `History.RunRefines` | internal/store/sqlite.go:440-685 | In every reachable state the current blob and all versions are sealed under the owner's key, and the tables are a plaintext vault under another encoding. |
| `History.StepRefines` | internal/store/sqlite.go:440-685 | Each sealed call does to the plaintexts what the plaintext call does. |
| `History.RestoreBringsBack` | internal/store/sqlite.go:632-685 | After a restore the next read is exactly the plaintext current at the one step that took that version. |
| `History.NewestUndoes` | internal/store/sqlite.go:632-664 | Restoring the newest version undoes the last overwrite or restore. |
| `History.PutIsRead` | internal/store/sqlite.go:440-517 | A put is read back, and the blob it replaced becomes the newest version. |
| `History.DeleteIsDelete` | internal/store/sqlite.go:584-603 | A deleted item reads as not found and has no versions left; others are untouched. |
| `History.ReadMeans` | internal/store/sqlite.go:666-685 | A read makes the missing data key and nothing else, and answers what that key makes of the blob. |
| `History.BadOwnersAreRefused` | internal/store/owner.go:40-42 | An owner without kind or id gets no key and no item. |
| `History.VersionsAreSnapshots` | internal/store/sqlite.go:426-438 | Every version holds what was current at the step that took it. |
| `History.NumbersAreNotReused` | internal/store/sqlite.go:426-438 | A version number is given out once, across deletions. |
| `History.OwnerNeverChanges` | internal/store/sqlite.go:440-517 | An item keeps its owner; a put with another is refused and changes neither item nor history. |
| `History.RestoreSucceedsIff` | internal/store/sqlite.go:632-664 | Exactly when a restore succeeds: a version of the item, or the number about to be given out, which changes only history. |
| `Confirming.WaivedIff` | internal/fill/fill.go:680-713 | Over every sequence of calls, one passes without a prompt exactly when it asks for reuse on a named site and the most recent prompt was granted with reuse for that site less than thirty seconds before. |
| `Confirming.WindowIsFromLastPrompt` | internal/fill/fill.go:680-713 | Calls passed without a prompt never extend the window. |
| `Confirming.RefusalShuts` | internal/fill/fill.go:691-700 | The call after a refusal is prompted. |
| `Confirming.PromptDecides` | internal/fill/fill.go:691-713 | A prompt that is put up says what the human said. |
| `FillHost.Host.Confirm` | internal/fill/fill.go:680-713 | The method over the host's two fields gives those verdicts; without a prompt attached it refuses. |
| `FillHost.Host.JsonFill` | internal/fill/json.go:139-237 | What goes out, and exactly when: the reply of the one entry meant, once the human is asked or an earlier prompt vouches for the page's own site; with a card's verification code in it only a granted prompt of its own counts. The item behind it is not archived, of a kind that may be filled, and for the page's own host and port, or a card or identity for no page. |
| `FillHost.Host.JsonMatch` | internal/fill/json.go:117-137 | The entries are those of the items on offer for the page; which those are is `FillHost.MatchesIff`. |
| `FillHost.MatchesAreOffered` | internal/fill/json.go:117-137 | An entry matches exactly when some offered item has it. |
| `FillHost.MatchesIff` | internal/fill/json.go:117-137 | In the items' own fields: an entry matches exactly when some item in the index has it that is not archived, is a sign-in, passkey, card or identity, and has a URI with the page's host and effective port, or is a card or identity without URIs. |
| `FillHost.PickMeans` | internal/fill/json.go:147-165 | Without an id the only match is meant, if it is a sign-in; with one, the first match of that id. |
| `FillHost.Host.JsonGenerate` | internal/fill/json.go:356-398 | Exactly when a password is made and saved; it meets the rules, was confirmed for the site, and is remembered as the last creation; every other outcome remembers nothing. |
| `FillHost.Host.JsonSave` | internal/fill/json.go:409-444 | Exactly when a sign-in is saved, always under a granted prompt of its own, and then remembered. |
| `FillHost.Host.JsonEnrollTotp` | internal/fill/json.go:446-481 | Exactly when a seed is attached: to the item remembered for this very site, still enrollable, under a prompt of its own; the item is then forgotten. |
| `FillHost.SeedGoesToLatest` | internal/fill/json.go:532-554 | Over every run a seed is attached only to the item made most recently by this host, in the same scope, with no other attachment in between. |
| `FillHost.OneSeedPerCreation` | internal/fill/json.go:446-481 | There are never more seeds attached than items made. |
| `FillHost.CreationsAreCounted` | internal/fill/json.go:532-554 | The count is the number of places in the log where an item was made. |
| `FillHost.AttachmentsAreCounted` | internal/fill/json.go:446-481 | The same for seeds attached. |
| `FillHost.Select` | internal/fill/json.go:147-165 | The search finds the first entry with the id, or without an id the only match if it is a sign-in. |
| `FillHost.EnrollTarget` | internal/fill/json.go:483-501 | Whether some item may take the seed from this page. |
| `FillHost.EnrollableIff` | internal/fill/json.go:483-501 | Which items may take a seed from a page, in their own fields. |
| `Nonce.BumpNonce` | internal/fill/fill.go:804-812 | The loop with a running carry computes the increment. |
| `Nonce.BumpIsIncrement` | internal/fill/fill.go:804-812 | It is addition of one to the little-endian number, modulo its size. |
| `Nonce.BumpIsBijective` | internal/fill/fill.go:804-812 | It is a bijection. |
| `Nonce.NoncesReturnIff` | internal/fill/fill.go:804-812 | Two nonces of a series are equal exactly when 2^192 divides the steps between them. |
| `Replica.Vault.Open` | internal/replica/vault.go:47-75 | Opening gives the rows in the box, none when there is no file, and an error for a short key, an unreadable file, a wrong key or a foreign box. |
| `Replica.ReadBoxIff` | internal/replica/vault.go:47-75 | Which box opens to which rows: exactly one sealed under this key, in the vault's own format. |
| `Replica.Vault.Put` | internal/replica/vault.go:117-141 | A put that fails leaves rows and box as they were, one that succeeds changes both, and at every step in between opening gives the rows before or the rows after. |
| `Replica.Vault.Flush` | internal/replica/vault.go:143-161 | Whatever the temporary file goes through, the box changes only at the rename. |
| `Replica.Replaced` | internal/replica/vault.go:121-134 | The search and append give the map update that keeps the order of insertion. |
| `Replica.Vault.Material` | internal/replica/vault.go:105-115 | The first row of that id. |
| `Replica.VaultIsOrderedMap` | internal/replica/vault.go:105-141 | Over any sequence of puts ids stay unique, in order of first insertion, each with the material last put. |
| `Replica.DiskIsOrderedMap` | internal/replica/vault.go:143-161 | As long as ids stay apart under JSON, what opening reads is the same ordered map, of the rows as JSON keeps them. |
| `Replica.DiskIsOrderedMapIff` | internal/replica/vault.go:117-161 | In a vault begun empty that, and uniqueness of ids on disk, hold exactly when no two different ids that were put become one. |
| `Replica.OnDiskIsSameIff` | internal/replica/vault.go:117-152 | Memory equals what opening reads exactly when every text in the rows, ids, names, logins, URIs, tags and material alike, is valid text. |
| `Scrub.Scrub` | internal/scrub/scrub.go:16-29 | The loop replaces the five forms of every non-empty secret in order. |
| `Scrub.ScrubCleansIff` | internal/scrub/scrub.go:16-29 | For bracket-free secrets the output holds none of the patterns, for every input, exactly when no pattern is part of the word "redacted". |
| `Scrub.ScrubIsIdempotent` | internal/scrub/scrub.go:16-29 | And then a second pass changes nothing. |
| `Scrub.ReplacementIsCutAndStrung` | internal/scrub/scrub.go:21-26 | A replacement cuts the text at the pattern, from the left and without overlaps, and strings the pieces together with "[redacted]" in between. |
| `Scrub.FormsAreFive` | internal/scrub/scrub.go:21-26 | The forms looked for are the secret and its base64 in either alphabet, padded before unpadded, no more and no fewer. |
| `Scrub.GroupIsNumber` | internal/scrub/scrub.go:22-26 | Three bytes read as one 24-bit number are the values of their four letters read as one. |
| `Scrub.LastGroupIsNumber` | internal/scrub/scrub.go:22-26 | One or two last bytes are followed by zero bits up to the end of their last letter. |
| `Scrub.LettersAreInOrder` | internal/scrub/scrub.go:22-26 | The two alphabets are those of RFC 4648. |
| `Scrub.ClearIsCensored` | internal/scrub/scrub.go:16-29 | A pattern that cannot be laid over a marker so that the two agree never comes out, whatever the other patterns are, brackets or not. |
| `Scrub.ClearSecretsAreScrubbed` | internal/scrub/scrub.go:16-29 | For any secrets, when all patterns are so, every output is clean and a second pass changes nothing. |
| `Scrub.BracketFreeIsClear` | internal/scrub/scrub.go:14-29 | Without brackets a pattern is so exactly when it is no part of the word. |
| `Scrub.FittingIsNotTheLimit` | internal/scrub/scrub.go:16-29 | With brackets that is not the exact limit: a pattern that fits over a marker, and yet never comes out of its list of secrets. |
| `Scrub.NothingNew` | internal/scrub/scrub.go:21-26 | Replacing one pattern brings none into being that is clear of the marker. |
| `Scrub.NoneLeft` | internal/scrub/scrub.go:21-26 | Replacing a pattern that is clear of the marker leaves none of it. |
| `Scrub.PatternsAreForms` | internal/scrub/scrub.go:18-26 | The patterns are the five forms of the non-empty secrets. |
| `Scrub.BracketSecretReappears` | internal/scrub/scrub.go:21-21 | Brackets matter: a secret that is no part of the word and that censoring brings into being. |
| `Scrub.Base64RoundTrips` | internal/scrub/scrub.go:22-26 | The encodings searched for decode to the secret, in both alphabets. |
| `Scrub.PaddingOnlyAppends` | internal/scrub/scrub.go:22-26 | The padded form is the unpadded one and trailing pads. |
| `Passgen.FromRules` | internal/passgen/passgen.go:21-41 | For every rule string and all random bytes: what is wrong is reported; else the password has length 20 clamped to the two lengths and within 12..128, distinct positions for every required class with repeats, and only permitted bytes or bytes of a required class. |
| `Passgen.ParseRules` | internal/passgen/passgen.go:49-130 | The first fault in the source's order, or the length and an alphabet with exactly the permitted letters. |
| `Passgen.ReadWish` | internal/passgen/passgen.go:54-83 | The loop over the rules, later ones winning, an unreadable number stopping it. |
| `Passgen.SplitJoins` | internal/passgen/passgen.go:54-59 | Splitting rules loses nothing and leaves no separator in a part. |
| `Passgen.RuleMeans` | internal/passgen/passgen.go:59-82 | A rule is the text before its first colon, apart from space and capitals, and the text after it, apart from space. |
| `Passgen.SpellsIff` | internal/passgen/passgen.go:68-69 | A keyword is spelled in capitals or not, and two letters outside ASCII pass as well. |
| `Passgen.ListIsRead` | internal/passgen/passgen.go:132-145 | A list of names, separated by commas or spaces, in brackets or not, is read as those names in that order. |
| `Passgen.CleanedIff` | internal/passgen/passgen.go:138-144 | The classes are the parts, trimmed and in lower case, that are not empty. |
| `Passgen.TrimMeans` | internal/passgen/passgen.go:60-69 | Trimming takes what is to be cut off both ends, and stops there. |
| `Passgen.WrittenIsRead` | internal/passgen/passgen.go:71-80 | A number written in decimal, with a sign or without, is read back while it fits 64 bits and refused beyond. |
| `Passgen.OnlyNumbersAreRead` | internal/passgen/passgen.go:71-80 | Nothing but digits after at most one sign is read as a number. |
| `Passgen.RefusedIff` | internal/passgen/passgen.go:70-80 | The rules' text is refused exactly when one of its lengths is not a number. |
| `Passgen.LastLengthCounts` | internal/passgen/passgen.go:52-80 | The last rule for a length counts; without one it is 12 at least and 128 at most. |
| `Passgen.ClassesAddUp` | internal/passgen/passgen.go:81-84 | The classes required are those some rule requires, and so for those allowed. |
| `Passgen.FaultFreeIff` | internal/passgen/passgen.go:87-129 | The rules are in order exactly when their lengths leave one between 12 and 128 with room for the required classes, every one of which is known and allowed, and something is allowed. |
| `Passgen.PermittedIff` | internal/passgen/passgen.go:103-126 | A letter is permitted by the classes allowed, and where there are none by default or by a required class. |
| `Passgen.PartsAreBetweenSemicolons` | internal/passgen/passgen.go:54-54 | The rules are the stretches of text between semicolons. |
| `Passgen.KnownNames` | internal/passgen/passgen.go:173-188 | Ten names are known, for five classes. |
| `Passgen.CapitalsMean` | internal/passgen/passgen.go:10-15 | The capitals are the ASCII ones without I and O. |
| `Passgen.SmallLettersMean` | internal/passgen/passgen.go:10-15 | The small letters are the ASCII ones without l. |
| `Passgen.DefaultAlphabetMeans` | internal/passgen/passgen.go:10-15 | The default alphabet is the letters and digits of the classes. |
| `Passgen.UnionAlphabet` | internal/passgen/passgen.go:147-171 | The union of letters, each once, the old ones first and in order. |
| `Passgen.Shuffle` | internal/passgen/passgen.go:220-230 | The in-place loop computes the shuffle. |
| `Passgen.ShuffleMoves` | internal/passgen/passgen.go:225-228 | The shuffle takes each byte to a place of its own. |
| `Passgen.ShuffleFills` | internal/passgen/passgen.go:225-228 | And every place is taken: with ShuffleMoves, a permutation of positions. |
| `Passgen.EveryOrderCanCome` | internal/passgen/passgen.go:220-230 | Every permutation comes from some random bytes, for every length the rules allow. |
| `Passgen.GeneratedMeetsRules` | internal/passgen/passgen.go:21-41 | A generated password meets its rules, and there is one exactly when all reads of randomness succeed. |
| `Passgen.KeepsToAlphabetIff` | internal/passgen/passgen.go:30-36 | Passwords keep to the parsed alphabet, whatever is drawn, exactly when it has all letters of every required class. |
| `Passgen.FromAlphabet` | internal/passgen/passgen.go:190-206 | Bounds and empty alphabet are refused; else every byte is drawn from the alphabet. |
| `Passgen.EveryTextCanCome` | internal/passgen/passgen.go:202-205 | Any text over the alphabet comes from some random bytes. |
| `Passgen.PickByte` | internal/passgen/passgen.go:208-218 | A byte of the class, or an error for an unknown one. |
| `Migration.Target.MigrateOneTable` | internal/store/migrate.go:213-274 | A table is copied and counted, read equal to inserted plus skipped, or left as it was. |
| `Migration.Target.Migrate` | internal/store/migrate.go:165-211 | Tables before the first failure are copied, later ones untouched; a migration that succeeds leaves both sequences past every id. |
| `Migration.Target.ResetSequence` | internal/store/migrate.go:198-209 | The next id is greater than every id in the table, and at least one. |
| `Migration.CopyOnlyAdds` | internal/store/migrate.go:233-267 | Rows already in the target are unchanged. |
| `Migration.RerunAddsOnlyNewRows` | internal/store/migrate.go:158-161 | A second pass, over a source whose rows changed, moved or were joined by others and a target written since, adds what it would for the new rows alone, and nothing when every row's keys are known. |
| `Migration.EmptyCopyIsSourceIff` | internal/store/migrate.go:213-274 | A copy into an empty table is the converted source, in order, exactly when no two source rows share a key. |
| `Migration.ConversionKeepsKeys` | internal/store/migrate.go:91-156 | Rows share a key after conversion exactly when they did before. |
| `Migration.TablesAreSound` | internal/store/migrate.go:91-156 | In all ten tables the key columns are copied as they are. |
| `Migration.ClashIff` | internal/store/migrate.go:258-266 | Rows clash exactly when all columns of some key are there and equal; null equals nothing. |
| `Migration.ConvertMeans` | internal/store/migrate.go:32-76 | What each column conversion gives for each value, and which it refuses. |
| `Migration.RerunAddsNothing` | internal/store/migrate.go:158-161 | Over the same source, in any order of its rows, a rerun inserts nothing. |
| `Migration.KnownRowsAreSkipped` | internal/store/migrate.go:258-266 | Rows whose keys the target holds are skipped wherever they come. |
| `Proxy.LookUp` | internal/proxy/proxy.go:270-319 | In whatever order grants are listed: an error for an unknown agent or a missing item, no match, an ambiguous match, or the decision on the one match. |
| `Proxy.CountMatches` | internal/proxy/proxy.go:279-298 | The loop counts the matching grants and has one of them in hand. |
| `Proxy.AgentMayHost` | internal/proxy/proxy.go:179-197 | The gate is open exactly when the agent is not revoked and some unlapsed grant of its own has a matching item not archived. |
| `Proxy.GateOpenIff` | internal/proxy/proxy.go:179-197 | The gate in the store's own rows: not revoked, no unlapsed grant dangling, and an unlapsed grant for an unarchived item with a URI of the page's host and effective port. |
| `Proxy.ItemsForAgent` | internal/app/app.go:1223-1254 | The items of the agent's unlapsed grants, less the archived; none once revoked; an error when one is missing. |
| `Proxy.AllowedMeansUniqueAndOpen` | internal/proxy/proxy.go:270-319 | An allowing lookup found the only matching grant, returns its item, and the gate is open at that state and time. |
| `Proxy.AllowedMeansOnlyGrant` | internal/proxy/proxy.go:270-319 | The grant an allowing lookup returns is, in the store's own rows, the agent's only one for an item that the page is for. |
| `Proxy.AllowedIsApproved` | internal/proxy/proxy.go:305-318 | A grant that wants an approval has a live one of its own, and the answer names it. |
| `Proxy.LookupRefusesIff` | internal/proxy/proxy.go:270-304 | An unknown agent or a missing item is an error, no matching grant and several are refusals of their own. |
| `Proxy.ServesIff` | internal/app/app.go:1223-1254 | Which items are the agent's, in the store's own rows. |
| `Proxy.OpenGateAllowsIff` | internal/proxy/proxy.go:179-319 | Where the gate is open the lookup allows exactly when no other own grant matches, lapsed or archived ones included, none dangles, and the one grant is consistent and approved. |

## Left out

- HTTP, MCP, command line, sockets, native messaging, telemetry, Keychain and Touch ID: plumbing, or calls into code that is not here.
- Cryptography, randomness, JSON and URL parsing: a URL is given as parsed, `registrable` and the reading of timestamps are arguments, encoding is injective but for text that is not valid.
- `internal/store/postgres_sqlc.go` and the in-flight limit, OAuth, TOTP minting and the upstream fetch of the broker.
- Grants.HostAllowedIff: hostnames are lower-cased in ASCII only, where the source lowers every letter; a port holds no colon, as the URL parser has it.
- Outside the replica, names, tags, logins and files of items, and their listings: no property there depends on them. Lists are not truncated.
- AuditWorker.BatchWorker.Loop: termination rests on the channel being closed some day; what the machine does meanwhile is in `Audit.dfy`.
- The use of `ConsumeSession` without an audit row, which no caller in the application makes.
- Broker.OwnerStepKeeps: a grant's checks of agent and item are one step, where the source reads them in two calls.
- SqliteSessions.Database.ConsumeSessionAudited: errors are not told apart, as the broker does not tell them apart but for database failures.
- SqliteStore.Sqlite.DeleteItem: the history theorems treat it as one step, where a failure between its statements leaves an item without its versions.
- SqliteSessions.RunIsSane: follows one session's row; what else happens in the store between the two statements is a use or a revocation of that session.
- Server.Origin.Use: in this class one call runs alone; interleaving is the subject of the step machine.
- Sweeping.SweepIsUnobservable: covers uses, renewals and the store's own steps; the owner's approval is treated apart, and the proxy's lookup counts lapsed grants and is not included.
- Scrub.ScrubCleansIff: for secrets with brackets there is a sufficient condition (`Scrub.ClearSecretsAreScrubbed`) and a proof that it is not the exact one (`Scrub.FittingIsNotTheLimit`); an exact one would depend on how all patterns of the list overlap one another.
- Passgen.ParseRules: letters outside ASCII are lowered only where that can produce a letter of a keyword; text that is not valid UTF-8 is not modelled.
- Replica.Vault.Put: a rename that reports an error has not happened; two processes writing one box, and use after `Close`, are not modelled.
- Migration.Target.Migrate: a sequence is set past the rows there are, so ids of rows deleted in the target can come again, as in the source.
- FillHost.Host.JsonFill: passkey and KeePassXC requests use the same confirmation and are not modelled; unlocking an item is an argument.
- FillHost.Host.JsonEnrollTotp: an attachment that the store made and whose answer was lost counts as not made, as in the source.
- The child environment (`ChildEnv`) and the proxy's injection order audit and secret in their own ways and are not part of the release theorems.
