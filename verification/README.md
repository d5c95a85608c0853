# VaultSend: verified model

VaultSend sends files by link: a browser uploads a file in parts, a shipment is finalized for its recipients,
recipients verify a password and download a limited number of times, organizations share paid seats, and every
security-relevant change leaves a signed audit event. This project models the parts of it where several actors
change shared rows in small steps, together with the arithmetic and the codecs those steps rely on, and proves
what they keep over whole runs.

`dafny verify dfyconfig.toml` checks all of it.

## How the model is made

- A store transaction or statement that runs alone is a method of a class over fields (`Outbox.AuditStore`,
  `Seats.InvitationStore`, `Shipments.ShipmentStore`, `UploadSessions.UploadStore`, `Cleanup.Database`); its
  `ensures` names the whole new state. Services and workers are methods over those classes.
- Concurrency is a step system beside it (`OutboxProtocol`, `SeatProtocol`, `SeatSyncProtocol`,
  `DownloadProtocol`, `VerifyProtocol`, `UploadSessions`, `MultipartUpload`): one action per autocommitted statement or per statement of a transaction that others may
  interleave with, row locks as enabledness, crashes and rollbacks as actions. A run is any sequence of enabled
  actions. A lemma in each ties the steps taken without interruption back to the method.
- `ORDER BY ... LIMIT n` is a function with a proof that its answer is the only correct one (`OrderLimit`).
- Times are integers. Ids, tokens and hashes are values; SHA-256, HMAC, bcrypt, the mail address parser and the
  Unicode functions are parameters, with hypotheses only where a lemma states them.
- Stripe, S3 and the database may fail where the code handles it: the outcomes are parameters or, in the cleanup
  worker, functions of the call number, so that any pattern of failures is covered.

| file | what it covers |
|---|---|
| `Outbox`, `OutboxProtocol`, `OrderLimit` | audit outbox: delivery, retention, draining; the concurrent protocol |
| `AuditIntegrity`, `AuditTables`, `AuditPipeline`, `StringOrder` | signatures of audit events, what the tables accept of them, and their way through the outbox |
| `Seats`, `SeatProtocol` | invitations and seats; statement-level concurrency |
| `SeatSync`, `SeatSyncProtocol` | the Stripe seat sync after membership changes; overlapping calls |
| `Shipments`, `DownloadProtocol`, `DownloadCounts` | shipment, token and download lifecycle, and its counters |
| `Cleanup` | expiry marking and physical removal |
| `RateLimiter`, `AccessGuard`, `VerifyProtocol` | the two throttles; overlapping verifications of one token |
| `PartSizing`, `MultipartUpload`, `UploadSessions` | part sizes, the browser's worker pool, completing an upload |
| `Recipients` | recipients, tokens and file ids of a shipment |
| `AccessGrant` | the signed access grant |

## What the proofs found

- Seats: the invariant must count all pending rows, not the live ones the code counts. Three steps can break it, and it
  is known exactly when they keep it: a directly added member needs a seat that is not booked
  (`SeatProtocol.DirectMemberExactly`), a new limit must cover what is booked and what every open create is about to book
  (`SeatProtocol.NewLimitExactly`), and a refreshed deadline must be later than the start of every create that has not
  counted yet (`SeatProtocol.RefreshExactly`), as every deadline in the future is. The Stripe sync does not look at those:
  it lowers the limit to the current members, so a create that has counted overbooks
  (`SeatProtocol.SyncDuringCreateOverbooks`), and every open invitation of that organization is refused afterwards
  (`SeatSync.SyncVoidsReservations`).
- Seats: AddMember checks, inserts, counts and writes in statements of their own. One call after another never raises the
  seat count; overlapping calls do, without bound (`SeatSyncProtocol.SeatsHaveNoBound`), and a sync that is overtaken can
  leave fewer seats than members (`SeatSyncProtocol.StaleWriteOutgrows`). `SeatSyncProtocol.KeptExactlyWhenEachFits` and
  `SeatSyncProtocol.InsertsAloneDecide` say exactly which runs keep both.
- Seats: create and accept take their locks in opposite orders. They deadlock exactly when an invitation that an accept
  found live is stale for a create (`SeatProtocol.StuckExactlyWhenCrossed`, `SeatProtocol.DeadlockIsReachable`).
- Rate limiter: the bound over any interval of one window is 2 * limit - 1, and it is attained. The clock is taken as
  nondecreasing, although the limiter reads it before it takes the lock.
- Verify lockout: check and record are separate calls. With k requests of a token in flight an interval of one lockout
  length holds at most 2 * maxAttempts + k - 2 failures, and that is attained; so 2 * maxAttempts - 1 when requests do
  not overlap. The clock readings are taken in the order in which the guard is entered, although they are made before
  its lock is taken.
- Downloads: the limit is exact for sequential requests, and off by exactly k - 1 with k in flight.
- Revocation: a usage update in flight overwrites the status `revoked` with `used` when it is the last use; what makes a delete final is the
  revocation time and the shipment's status.
- Part sizes: near the end of the 64-bit range the sums wrap; `PartSizing.LimitHoldsExactly` says when the later part
  limit check can fire. `PartSizing` models the float ceiling as exact.
- Browser upload: a progress callback that throws after a part was recorded makes the worker send that part again, and
  nothing else does (`MultipartUpload.SentAgainExactlyWhenThrown`).
- Access grants: the expiry is rounded down to seconds, so a deadline within the current second gives a grant that is
  never accepted.
- Audit events: the table's limits on the resource type and on the stored details are tighter than Prepare's own checks
  (`AuditTables.PreparedFitsTheTable`); `AuditTables.LongResourceType` and `AuditTables.FullDetailsOutgrow` are
  events that are signed and then refused.
- Audit outbox: a stale snapshot costs a second delivery, never an event; ids must be fresh, since an id taken by other
  content in the log would be marked processed without being written.

The database facts used are the ones the migrations define: primary keys of the event and outbox tables, the append-only
event table, unique membership, one pending invitation per address, unique invitation tokens, unique storage keys, one
recipient per address and shipment, a download limit of 1 to 100, seat counts of at least 1.

## Model

| member | source | states |
|---|---|---|
| `OutboxProtocol.NoEventIsLost` | internal/store/security_audit_outbox.go:51-125 | in every interleaving of transactions, rollbacks, any number of workers with stale snapshots, crashes, replays and purges, each event a committed transaction enqueued is pending or logged with the content it was enqueued with; no id is logged twice, and no logged event differs from what was enqueued under its id |
| `OutboxProtocol.LogOnlyGrows` | internal/store/security_audit_outbox.go:84-99 | from any point of any run on, the log grows only at its end, what was enqueued stays so, and a row that disappears from the outbox left its event in the log |
| `OutboxProtocol.LeftForLater` | internal/store/security_audit_outbox.go:78-99 | after a delivery a claimed row is in the log, and it still waits if and only if its event was already logged but the statement's snapshot is too old to show it |
| `OutboxProtocol.SerialDelivery` | internal/store/security_audit_outbox.go:51-104 | the delivery statement on its own is the three protocol steps with nothing in between: same outbox, same log, same count |
| `OutboxProtocol.SerialEnqueue` | internal/store/security_audit_outbox.go:9-48 | a transaction with nothing in between is the store's insert, and its commit makes the row pending |
| `OutboxProtocol.SerialPurge` | internal/store/security_audit_outbox.go:106-126 | the retention statement on its own is the two purge steps with nothing in between |
| `OutboxProtocol.ReplayWrites` | internal/store/security_audit_outbox_integration_test.go:142 | a row whose processed_at is cleared waits again as it was enqueued, and nothing else changes |
| `OutboxProtocol.FreshIdsAreNeeded` | internal/store/security_audit_outbox.go:76-83 | a claimed row's content reaches the log if and only if its id was not taken there by an event with other content, which is why ids must be fresh |
| `OutboxProtocol.StepKeepsInv` | internal/store/security_audit_outbox.go:51-125 | every protocol step keeps the invariant: rows match what was enqueued, processed rows are logged, locks are exclusive, snapshots are pasts of the log, selected purges are logged |
| `OutboxProtocol.RunAllHold` | internal/store/transactional_audit_queries.go:124-151 | whatever holds of every (id, content) that enters a run holds of every outbox row and every log row of it |
| `Outbox.AuditStore.CreateOutboxEvent` | internal/store/security_audit_outbox.go:9-48 | inserts one unprocessed row, or changes nothing when the id exists |
| `Outbox.AuditStore.DeliverBatch` | internal/store/security_audit_outbox.go:51-104 | marks min(limit, due) of the due rows, each before every due row left by available_at, created_at and id; changes no other row; appends to the log exactly the marked ids that were missing, each with its row's content; a limit below 1 does nothing |
| `Outbox.AuditStore.DeleteProcessedBefore` | internal/store/security_audit_outbox.go:106-126 | over the old and the new outbox: min(limit, old enough) of the rows processed before the limit time are gone, each before every such row left by processed_at and id; every other row is unchanged; the count is how many went |
| `Outbox.AuditStore.CountPending` | internal/store/security_audit_outbox.go:127-135 | counts the unprocessed rows |
| `Outbox.InsertMissingSpec` | internal/store/security_audit_outbox.go:70-83 | the idempotent insert only appends, adds exactly the claimed ids, keeps ids unique and copies the content |
| `Outbox.ClaimSpec` | internal/store/security_audit_outbox.go:56-66 | a claim is min(limit, eligible) distinct eligible rows |
| `Outbox.PurgeSpec` | internal/store/security_audit_outbox.go:106-118 | that is what the retention statement's selection leaves, and every pending row with it |
| `Outbox.OutboxWorker.RunOnce` | internal/worker/security_audit_outbox_worker.go:53-95 | fills in the defaults, then delivers the oldest due rows, purges the oldest processed ones and counts; the three reported numbers are the true ones, pending = pending before - delivered; a statement that fails ends the run with what was counted so far, and its own change undone |
| `Outbox.DeliveredLeavesPending` | internal/worker/security_audit_outbox_worker.go:66-90 | each delivered row leaves the pending set and no other row does |
| `Outbox.OneRunDrains` | internal/store/security_audit_outbox.go:56-66 | one run takes exactly min(limit, n) of the n rows that were waiting at time t |
| `Outbox.RunsDrainTheBacklog` | internal/store/security_audit_outbox.go:56-66 | among any enqueues of later work, r serial runs leave exactly max(0, n - r * limit) of the n rows that were waiting |
| `OrderLimit.TakeIsTake` | internal/store/security_audit_outbox.go:62-66 | ORDER BY with LIMIT: the least n keys, each once, in order |
| `OrderLimit.TakeUnique` | internal/store/security_audit_outbox.go:62-66 | that answer is the only correct one |
| `OrderLimit.TakenIds` | internal/store/security_audit_outbox.go:62-66 | in terms of rows: n of them or all, each one taken before each one left |
| `OrderLimit.TakeDrainsBacklog` | internal/store/security_audit_outbox.go:62-66 | what became due later never delays what was due before: a batch of n removes n of it, or all |
| `OrderLimit.TakeDrainsAroundStuck` | internal/store/queries.go:896-921 | with items that survive every batch, a batch of n still retires n minus that many of the others, or all |
| `SeatProtocol.NeverOverbooked` | internal/store/organization_invitations.go:55-115 | in every interleaving of create, accept, refresh, revoke, member changes, subscription changes and time that keeps to the three hypotheses, members plus ALL pending rows stay within the seat limit; a pending row always leaves a seat for a member |
| `SeatProtocol.AcceptNeverLacksSeat` | internal/store/organization_invitations.go:231-303 | an accept that found its invitation live and then got the organization lock always passes the seat count |
| `SeatProtocol.StepKeepsInv` | internal/store/organization_invitations.go:55-312 | each statement of each transaction keeps the invariant: booked seats within the limit, what open transactions rely on, exclusive locks |
| `SeatProtocol.SerialCreate` | internal/store/organization_invitations.go:55-115 | the create transaction on its own is its four steps and succeeds if and only if members plus live invitations are below the limit and the unique indexes allow the row |
| `SeatProtocol.SerialAccept` | internal/store/organization_invitations.go:231-303 | the accept transaction on its own is its four steps and succeeds if and only if the invitation is live, a seat is free and the user is no member |
| `SeatProtocol.StepsAreStatements` | internal/store/organization_invitations.go:181-217 | the one-statement steps write exactly what the store's statements promise of their fields; statements that only read or lock write nothing |
| `SeatProtocol.NewLimitExactly` | internal/service/billing.go:598-616 | a new limit keeps the invariant if and only if it covers what is booked and what every open create is about to book |
| `SeatProtocol.WhenLimitsCover` | internal/service/billing.go:598-616 | while nobody holds the organization that is what is booked; and a limit that is not lower than before always covers |
| `SeatProtocol.DirectMemberExactly` | internal/service/org.go:110-129 | a member added directly keeps the invariant if and only if a seat is not booked |
| `SeatProtocol.RefreshExactly` | internal/store/organization_invitations.go:196-217 | a refresh keeps the invariant if and only if its deadline is later than the start of every create that has revoked what is stale and not counted yet |
| `SeatProtocol.FutureIsInSight` | internal/service/org_invitations.go:275 | so does every deadline that lies in the future, which the service sees to |
| `SeatProtocol.UncoveredCreateOverbooks` | internal/service/billing.go:598-616 | an open create that a new limit does not cover goes on to commit and overbooks, though the limit covered everything booked when it was set |
| `SeatProtocol.SyncDuringCreateOverbooks` | internal/service/billing.go:598-616 | the reachable run: a create has counted, the sync lowers three seats to the two members, and three of two are booked |
| `SeatProtocol.StuckExactlyWhenCrossed` | internal/store/organization_invitations.go:55-84 | open transactions all wait if and only if a create holds the organization and wants a stale row that an accept holds; ending the create lets every other one go on |
| `SeatProtocol.GoesOnUnlessCrossed` | internal/store/organization_invitations.go:55-84 | among open transactions some one can take its next step, or is turned away by its own check, if and only if no create and accept are so crossed |
| `SeatProtocol.DeadlockIsReachable` | internal/store/organization_invitations.go:231-260 | such a state is reached: an accept finds its invitation live, the deadline passes, a create takes the organization |
| `SeatProtocol.StaleRefreshOverbooks` | internal/store/organization_invitations.go:196-217 | a run from an organization within its limit in which a refresh with a deadline already past lets a create book three seats out of two |
| `Seats.InvitationStore.Create` | internal/store/organization_invitations.go:55-115 | refused for seats if and only if members plus live invitations reach the explicit limit, or without one the seat count of a paid pro plan, and always at least one; a conflict if and only if the token is used or a live row has the address; otherwise stale rows are revoked, the row is added, and every other row is kept; a refusal changes nothing; afterwards booked seats are within the plan |
| `Seats.InvitationStore.Refresh` | internal/store/organization_invitations.go:196-217 | rewrites token and deadline of a pending row only; a conflict exactly for a pending row whose new token another row has, and not found exactly without a pending row |
| `Seats.InvitationStore.Revoke` | internal/store/organization_invitations.go:181-194 | sets exactly the one pending row to revoked, or reports that there is none |
| `Seats.InvitationStore.Accept` | internal/store/organization_invitations.go:231-303 | each outcome exactly, over the fields of the row and of the plan: not found without the row and its token, a conflict when the row is not pending or past its deadline or the user is a member, no seat when members reach the bound; else the member and the accepted row, the booked total kept |
| `Seats.InvitationStore.RemoveMember` | internal/store/organizations.go:99-109 | removes exactly the one member, or reports that there is none |
| `Seats.InvitationStore.AddMember` | internal/store/organizations.go:88-97 | adds exactly the one member, or conflicts with the unique membership |
| `Seats.LiveAfterExpiry` | internal/store/organization_invitations.go:67-84 | once stale rows are revoked, the rows the code counts as live are all the pending rows |
| `Seats.LimitByFields` | internal/store/organization_invitations.go:313-332 | the seat limit by the fields of the plan: an explicit limit first, the seat count for pro that is paid for, else one |
| `SeatSync.OrgService.SyncSeatCountWithStripe` | internal/service/billing.go:584-620 | without a Stripe client it fails; on a billed pro subscription it sets the seat count to max(1, members) when both reads, Stripe and the write succeed, which is when it succeeds; otherwise it changes nothing, and succeeds on a subscription that is not billed once that is read |
| `SeatSync.OrgService.AddMember` | internal/service/org.go:97-137 | admits only below the seat limit; when the sync fails the member is taken out again, and stays in only if that delete fails too; it succeeds if and only if the user is new, a seat is free and the sync succeeds |
| `SeatSync.OrgService.RemoveMember` | internal/service/org.go:139-158 | removes the member, then syncs; a failed sync does not bring the member back; it succeeds if and only if there was such a member and the sync succeeds |
| `SeatSync.OrgService.AcceptInvitation` | internal/service/org_invitations.go:168-242 | an unknown token changes nothing; a retry by the member who accepted syncs again and succeeds whatever the sync does; otherwise a live invitation is accepted when a seat is free, then synced, and a failed sync leaves the member in |
| `SeatSync.SeatsOnlyShrink` | internal/service/billing.go:559-620 | no sequence of service calls one after another, whichever syncs fail, raises the seat limit or lets members outgrow it; overlapping calls can do both, as SeatSyncProtocol shows |
| `SeatSync.SyncedAdmitsNobody` | internal/service/billing.go:598-616 | a nonempty synced organization admits nobody, by either way in, and stays synced |
| `SeatSync.SyncedStaysFull` | internal/service/billing.go:598-616 | after one sync and while syncs succeed, seat_count = max(1, members) for ever and members never grow past max(1, members then) |
| `SeatSync.SyncVoidsReservations` | internal/service/billing.go:598-616 | right after a sync of a nonempty billed organization every live invitation is refused, however many seats were free |
| `SeatSyncProtocol.InsertExactly` | internal/service/org.go:117-123 | with overlapping calls an insert keeps members within seats if and only if it still finds a free seat, whatever its own check saw |
| `SeatSyncProtocol.WriteExactly` | internal/service/billing.go:598-616 | the write of a sync keeps members within seats and does not raise the seats if and only if the usage it read covers the members and is within the seats when it is written |
| `SeatSyncProtocol.KeptExactlyWhenEachFits` | internal/service/org.go:97-158 | over every run of overlapping additions and removals, with failures and crashes, no step lets the members outgrow the seats or raises the seats if and only if each insert and each write does meet its condition |
| `SeatSyncProtocol.InsertsAloneDecide` | internal/service/billing.go:598-616 | when no sync is overtaken between its count and its write, that is so if and only if each insert finds members below the seat count |
| `SeatSyncProtocol.KeptAtTheEnd` | internal/service/org.go:97-158 | then the last state has its members within its seats and no more seats than the first |
| `SeatSyncProtocol.SeatsHaveNoBound` | internal/service/org.go:110-123 | nothing else holds them: from m members on m seats, with no more than three calls at a time, a run leads to m + n members on m + n seats, for every n |
| `SeatSyncProtocol.StaleWriteOutgrows` | internal/service/billing.go:598-616 | and the inserts alone do not decide without fresh writes: in this run each finds a free seat, and a sync that was overtaken writes fewer seats than there are members |
| `SeatSyncProtocol.SerialAdd` | internal/service/org.go:97-137 | the steps of an addition with nothing in between can be taken if and only if AddMember succeeds, and leave the same rows |
| `SeatSyncProtocol.SerialRemove` | internal/service/org.go:139-158 | the steps of a removal with nothing in between leave the rows that RemoveMember leaves |
| `SeatSyncProtocol.SerialFailure` | internal/service/org.go:130-135 | so do those of an addition whose sync fails and which is undone |
| `Shipments.ShipmentStore.FinalizeShipment` | internal/store/transactional_audit_queries.go:23-153 | finalizes only a draft, uploading or ready shipment whose files are found and whose recipients and tokens can be inserted: sent, with the given limit, deadline, restriction and password, counter and deletion time kept, old tokens kept, and one unused active token per id; otherwise everything is rolled back |
| `Shipments.ShipmentStore.DeleteShipment` | internal/store/transactional_audit_queries.go:155-180 | deletes unless deleted or revoked, keeps an earlier deletion time and every other field, and leaves each token revoked, at its earlier time if it had one |
| `Shipments.ShipmentStore.MarkShipmentExpired` | internal/store/queries.go:879-894 | expires unless deleted, expired or revoked, and touches only the status |
| `Shipments.ShipmentStore.RevokeAccessTokens` | internal/store/queries.go:946-955 | revokes every token, keeping the time of an earlier revocation and every other field |
| `Shipments.ShipmentStore.CreateAccessToken` | internal/store/queries.go:577-591 | adds one token row |
| `Shipments.ShipmentStore.CreateSuccessEvent` | internal/store/queries.go:966-983 | adds one success event |
| `Shipments.ShipmentStore.UpdateAccessTokenUsage` | internal/store/queries.go:985-1000 | counts one use of one token, and marks it used at its maximum, even over revoked; no other field and no other token changes |
| `Shipments.ShipmentStore.IncrementShipmentDownloadCount` | internal/store/queries.go:1002-1016 | counts one download and moves sent to accessed, no other status and no other field |
| `Shipments.GenerateDownloadURL` | internal/service/access.go:155-210 | with nothing in between, the checks and the three writes are the sequential download; a served request stays within the limit, a refused one writes nothing |
| `Shipments.ServedExactlyWhen` | internal/service/access.go:219-273 | a request is served if and only if token, shipment, password grant, throttle, file, count and signing all allow it; then each counter gains one and no other token changes; otherwise nothing changes |
| `Shipments.RefusedFor` | internal/service/access.go:155-260 | which refusal each request gets, exactly: the first thing in its way |
| `Shipments.PasswordNeedsGrant` | internal/service/access.go:160-164 | a shipment finalized with a password serves nobody without a valid grant, by any of its tokens at any time, and writes nothing |
| `Shipments.SequentialDownloads` | internal/service/access.go:155-210 | requests one after another, with any of the shipment's tokens at any times before its deadline, serve exactly min(n, maxDownloads) |
| `Shipments.FinalizedInStep` | internal/store/transactional_audit_queries.go:37-117 | a shipment just finalized, with one token per id, is one that this holds for |
| `DownloadProtocol.LifecycleMovesUp` | internal/store/queries.go:836-955 | over any run the status rank never falls, a shipment is finalized at most once, deleted and its time are for ever, limit and deadline are fixed once sent, revocation times stand, use counts never fall |
| `DownloadProtocol.DeleteIsFinal` | internal/service/access.go:233-259 | from an expired, deleted or revoked shipment on, only requests that had already read it are ever served, whatever tokens a racing resend creates |
| `DownloadProtocol.RevokedTokensStayRefused` | internal/store/transactional_audit_queries.go:171-180 | a token present at a delete carries its revocation time and is refused for ever, at any later time |
| `DownloadProtocol.RevokedStatusIsOverwritten` | internal/store/queries.go:985-1000 | the status alone would not do: after a delete, a usage update in flight leaves the status used if and only if it is the token's last use, and revoked otherwise |
| `DownloadProtocol.StepKeepsInv` | internal/service/access.go:155-273 | each request statement and each delete, expire, finalize, revoke and resend step keeps the invariant behind these results |
| `DownloadProtocol.StepsAreStatements` | internal/store/queries.go:836-1016 | each step that writes rows writes what the store's statement promises of every field, and the others write nothing; a resend creates an unused token for the shipment it checked |
| `DownloadCounts.DownloadsAreCapped` | internal/service/access.go:155-210 | with at most k requests in flight in every state, success events never exceed maxDownloads + k - 1 |
| `DownloadCounts.CapIsReached` | internal/service/access.go:181-208 | from every fresh shipment, for every limit and every k, a run with at most k in flight reaches exactly that number |
| `DownloadCounts.StepKeepsLimit` | internal/store/transactional_audit_queries.go:37-56 | the limit changes only while nothing has been counted and nobody is past the shipment check |
| `DownloadCounts.CountersNeverOvertake` | internal/service/access.go:193-208 | in every reachable state current_downloads <= sum of used_count <= success events, and each gap equals the requests in flight or stopped between the two writes |
| `DownloadCounts.StepsAreADownload` | internal/service/access.go:155-273 | a request's steps with nothing in between can be taken if and only if the sequential download is served, and leave the same rows |
| `Cleanup.CleanupWorker.RunOnce` | internal/worker/cleanup_worker.go:65-115 | fills in the defaults, lists the earliest overdue and the earliest long-deleted shipments up to the batch size, marks every listed one for which the database answers and removes every listed one whose calls are answered; objects go before rows, nothing outside the two lists changes, both reported counts are true, and a failed listing query skips its phase |
| `Cleanup.CleanupWorker.CleanupShipment` | internal/worker/cleanup_worker.go:117-132 | all rows of the shipment go, after all its objects, or none; it succeeds whenever the database answers and S3 does within the retries |
| `Cleanup.CleanupWorker.DeleteObjectWithRetry` | internal/worker/cleanup_worker.go:134-145 | with at least one attempt allowed, succeeds if and only if one of the first s3DeleteMaxRetries calls does; with none it succeeds without deleting, which RunOnce rules out by its default |
| `Cleanup.CleanupWorker.MarkExpired` | internal/worker/cleanup_worker.go:88-98 | marks every listed overdue shipment for which the database answers, nothing outside the list, and the count is how many |
| `Cleanup.CleanupWorker.RemoveDeleted` | internal/worker/cleanup_worker.go:100-112 | the removal loop: the count is the shipments removed, and each cleanable one of the list is among them |
| `Cleanup.Database.MarkShipmentExpired` | internal/store/queries.go:879-894 | expires the row only if it is there, expirable and the database answers |
| `Cleanup.Database.ListExpiredShipments` | internal/store/queries.go:853-877 | min(limit, n) of the n overdue shipments that are not deleted, expired or revoked, each once, none with a later deadline than one left out, in order |
| `Cleanup.Database.ListDeletedShipmentsForCleanup` | internal/store/queries.go:896-921 | the same of the shipments deleted before the threshold, by deletion time |
| `Cleanup.Database.DeleteShipmentCascade` | internal/store/queries.go:923-944 | takes the shipment and exactly its files, or nothing |
| `Cleanup.RunsDrainTheBacklog` | internal/worker/cleanup_worker.go:100-112 | with a set of stuck shipments smaller than the batch, which may behave in any way, r runs leave at most n - r * (batch - stuck) of the n others that were due |
| `Cleanup.EnoughRunsRemoveAll` | internal/worker/cleanup_worker.go:100-112 | ceil(n / (batch - stuck)) runs remove all of them |
| `Cleanup.RunLeavesOnly` | internal/worker/cleanup_worker.go:65-115 | what a run of the worker contributes to that: it adds nothing to the backlog and takes every listed shipment that is not stuck |
| `Cleanup.BatchRetires` | internal/store/queries.go:896-921 | a batch in order of deletion time retires batch - stuck of the good shipments that were due, or all |
| `Cleanup.RunKeepsMatched` | internal/worker/cleanup_worker.go:117-132 | whatever fails in it, a run leaves no object without a file row and takes none from a shipment in use |
| `Cleanup.RemovalIsDue` | internal/worker/cleanup_worker.go:100-112 | a removed shipment was deleted longer ago than the grace period, and the objects and rows of all its files are gone |
| `RateLimiter.InMemoryRateLimiter.Allow` | internal/http/middleware/rate_limit.go:48-74 | refuses exactly when the call's open window is used up, or the key is new and maxEntries entries are unexpired; counts up or starts anew this key's entry only, drops others only if they are expired and the map was full, and never holds more than maxEntries |
| `RateLimiter.InMemoryRateLimiter.EvictExpired` | internal/http/middleware/rate_limit.go:76-82 | leaves exactly the unexpired entries |
| `RateLimiter.DecidedExactly` | internal/http/middleware/rate_limit.go:48-74 | full if and only if the key is new, the map is full, and its unexpired entries alone fill it; limited if and only if the open window has had its calls; allowed otherwise |
| `RateLimiter.SizeStaysBounded` | internal/http/middleware/rate_limit.go:48-74 | no history of calls makes the map larger than maxEntries |
| `RateLimiter.EvictionIsInvisible` | internal/http/middleware/rate_limit.go:48-82 | on a nondecreasing clock, apart from fullness refusals every call is decided as by a limiter that never evicts, fed the calls not refused for fullness |
| `RateLimiter.QuotaHolds` | internal/http/middleware/rate_limit.go:48-74 | for any key, any half-open interval of one window length holds at most 2 * limit - 1 allowed calls |
| `RateLimiter.QuotaIsTight` | internal/http/middleware/rate_limit.go:48-74 | that number is attained, by an ordered history with one limit and window, for every limit and every window of at least two ticks |
| `AccessGuard.Guard.VerifyAllowed` | internal/service/access_guard.go:45-54 | refuses exactly while the token is locked |
| `AccessGuard.Guard.RegisterVerifyFailure` | internal/service/access_guard.go:56-72 | for this token only: one failure more, counted from one again after the window; at the threshold locked for the lockout length with the count at zero |
| `AccessGuard.Guard.ResetVerify` | internal/service/access_guard.go:74-78 | forgets this token only |
| `AccessGuard.Guard.AllowDownload` | internal/service/access_guard.go:80-96 | for this key only: allowed if and only if its window is over or has a download left; then the count is one more, or one in a new window; a refusal changes nothing |
| `AccessGuard.Guard.VerifyAccess` | internal/service/access.go:122-153 | checked first, then recorded or reset: granted if and only if not locked and the password is right or not needed; a locked token, no access and no password change nothing; other tokens keep their state |
| `AccessGuard.FailuresAreBounded` | internal/service/access_guard.go:45-72 | between resets, any half-open interval of one lockout length holds at most 2 * maxAttempts - 1 checked failures, one at the instant a lock ends included; the stored count stays below maxAttempts |
| `VerifyProtocol.RequestsRecordCheckedFailures` | internal/service/access.go:122-146 | one request at a time: every failure is recorded while the token is not locked |
| `VerifyProtocol.StateFollowsFailures` | internal/service/access_guard.go:56-78 | in every run, overlapping or not, the guard's state is the one that the failures since the last reset lead to |
| `VerifyProtocol.RequestsAreBounded` | internal/service/access.go:122-146 | with at most k requests of a token in flight, in any interleaving of checks, recordings, resets and drops, any half-open interval of one lockout length holds at most 2 * maxAttempts + k - 2 failures since the last reset, and the stored count stays below maxAttempts |
| `VerifyProtocol.StepKeepsInv` | internal/service/access_guard.go:45-78 | every step keeps the invariant behind it: while locked, recorded and open requests together do not grow |
| `AccessGuard.BoundIsTight` | internal/service/access_guard.go:56-72 | the bound is attained for every maxAttempts |
| `VerifyProtocol.BoundIsAttained` | internal/service/access.go:122-146 | for every maxAttempts and every k a run with at most k in flight reaches exactly that number |
| `VerifyProtocol.StepsAreARequest` | internal/service/access.go:122-146 | a request with nothing in between is the check and the recording or reset of VerifyAccess, and is refused if and only if the token is locked |
| `AccessGuard.DownloadsAreBounded` | internal/service/access_guard.go:80-96 | any half-open interval of one window length holds at most 2 * limit - 1 allowed downloads of a key |
| `AccessGuard.DownloadBoundIsTight` | internal/service/access_guard.go:80-96 | that number is attained, for every limit and every window of at least two ticks |
| `PartSizing.PartSizeIsLeast` | internal/service/uploads.go:293-306 | for every positive 64-bit size the base size when it suffices; else, unless the sums overflow, the least whole MiB that does, which is at least the base and fits 31 bits; refused if and only if that least size does not fit |
| `PartSizing.PartsCoverTheFile` | internal/service/uploads.go:102-110 | unless the sums overflow and the base does not suffice, n = ceil(size / partSize) parts cover every accepted file, the last is not empty, and n never exceeds the limit |
| `PartSizing.NoWrap` | internal/service/uploads.go:293-306 | below the overflow bound the 64-bit arithmetic is exact |
| `PartSizing.OverflowKeepsBase` | internal/service/uploads.go:293-300 | past the bound the sum wraps to a negative number and the base size is kept |
| `PartSizing.LimitHoldsExactly` | internal/service/uploads.go:102-110 | for every positive 64-bit size, an accepted file stays within the part limit if and only if the sums do not overflow or the base size suffices |
| `MultipartUpload.Uploader.Next` | web/lib/multipart-upload.ts:51-60 | takes the part under the cursor and sends it, or leaves |
| `MultipartUpload.Uploader.Resolved` | web/lib/multipart-upload.ts:64-74 | records the tag and frees the worker |
| `MultipartUpload.Uploader.Rejected` | web/lib/multipart-upload.ts:75-85 | sends the same part again while an attempt is left, and throws only after the last one; nothing else changes but what may have landed |
| `MultipartUpload.Uploader.ResolvedThenThrew` | web/lib/multipart-upload.ts:64-85 | a callback that throws after the part was recorded: the part stays recorded, and is sent again, or given up after the last attempt |
| `MultipartUpload.NothingIsSentTwice` | web/lib/multipart-upload.ts:48-87 | in every schedule no two workers hold one part, a part is sent at most maxAttempts times, and no completed part is sent again unless a callback has thrown with an attempt left |
| `MultipartUpload.SentAgainExactlyWhenThrown` | web/lib/multipart-upload.ts:64-81 | a part that is recorded as completed is sent again in a schedule if and only if a callback throws somewhere in it while an attempt is left |
| `MultipartUpload.ThrowsAfterTheLastAttempt` | web/lib/multipart-upload.ts:60-85 | in every schedule a worker that has given up has sent its part exactly maxAttempts times |
| `MultipartUpload.FinishedMeansComplete` | web/lib/multipart-upload.ts:89-95 | when all workers have finished, exactly the parts done before and all the others are completed, each with the right bytes stored |
| `MultipartUpload.UploadedObjectIsTheFile` | web/lib/multipart-upload.ts:89-95 | then the sorted list is strictly ascending; it is 1..n if and only if no part done before lies outside the upload, and then the object joined from the list is the file byte for byte |
| `MultipartUpload.SortSorts` | web/lib/multipart-upload.ts:92-95 | sorting parts with distinct numbers gives the same parts in strictly ascending order |
| `MultipartUpload.AscendingRange` | web/lib/multipart-upload.ts:92-95 | an ascending list of exactly the numbers 1..n is 1, 2, ..., n |
| `MultipartUpload.ServerSortsAgain` | internal/storage/s3_object_store.go:62-86 | the server joins the parts 1..n in order, in whatever order they are sent |
| `MultipartUpload.BatchPresignUploadParts` | internal/storage/s3_object_store.go:44-60 | presigns exactly the parts 1..n |
| `MultipartUpload.PartLengthIsTheSlice` | web/lib/multipart-upload.ts:134-137 | the length counted for a part is the length of its slice |
| `MultipartUpload.LengthsAddUp` | web/lib/multipart-upload.ts:36-46 | the counted lengths of the first n parts add up to their share of the file |
| `MultipartUpload.EndToEnd` | internal/service/uploads.go:92-176 | from the file size to the object: with the server's part size and parts, a first call in which all workers finish stores exactly the file |
| `UploadSessions.UploadStore.CreateFileAndMarkUploadCompleted` | internal/store/transactional_audit_queries.go:217-230 | creates the file and marks the session together, if and only if the file is insertable and the session not completed; otherwise nothing changes |
| `UploadSessions.UploadStore.CompleteUploadSession` | internal/service/uploads.go:178-234 | each outcome exactly, over the fields of the session: success if and only if the owner's open session is assembled and both rows can be written, or it was completed with its file before; only the first of these writes, the session completed with its file and the file with the session's data |
| `UploadSessions.CompletesExactly` | internal/service/uploads.go:178-234 | the same of the function that the overlapping requests are tied to |
| `UploadSessions.OneFilePerSession` | internal/service/uploads.go:178-234 | in every interleaving a session is completed if and only if it names a file, which is its own; each file is named by exactly one session, so the join gives one row per file; files and completed sessions are equally many |
| `UploadSessions.ReplaysAgree` | internal/service/uploads.go:196-206 | any two requests told completed for one session were told the same ids |
| `UploadSessions.RetryIsAnswered` | internal/service/uploads.go:196-206 | after a success, however late, the owner's retry gets the same ids and changes nothing |
| `UploadSessions.RunMovesOn` | internal/store/queries.go:1107-1120 | a session keeps shipment, owner and metadata, and once completed never changes |
| `UploadSessions.StepsAreOneRequest` | internal/service/uploads.go:178-234 | the steps of a request with nothing in between are the request on its own |
| `UploadSessions.StepKeepsInv` | internal/store/queries.go:1107-1145 | every step keeps the invariant between sessions, files and open requests |
| `Recipients.NormalizeRecipients` | internal/service/shipments.go:283-318 | refuses exactly an empty list, more than 20 entries or an address that does not parse; otherwise the recipients are strictly sorted by normalized address, are exactly the normalized inputs, keep the first spelling, and pair with one token each |
| `Recipients.CollectSpellings` | internal/service/shipments.go:290-300 | the map has exactly the normalized addresses as keys, each with its first spelling |
| `Recipients.SortedKeys` | internal/service/shipments.go:304-308 | the keys of the map, in whatever order they come, strictly sorted |
| `Recipients.SortedIsUnique` | internal/service/shipments.go:304-308 | a set has one strictly sorted list |
| `Recipients.OrderDoesNotMatter` | internal/service/shipments.go:290-315 | inputs with the same normalized addresses give the same list, whatever their order, repetition or spelling |
| `Recipients.AttachRecipients` | internal/store/transactional_audit_queries.go:97-117 | a conflict if and only if some token names an address without a recipient; otherwise each token gets the last recipient of its address |
| `Recipients.EachRecipientGetsOneToken` | internal/store/transactional_audit_queries.go:85-117 | on normalized lists the lookup never misses, and token k belongs to recipient k |
| `Recipients.DedupeUUIDs` | internal/service/shipments.go:388-399 | computes the ids without repetitions |
| `Recipients.DedupKeepsElements` | internal/service/shipments.go:388-399 | same ids, each once |
| `Recipients.DedupKeepsOrder` | internal/service/shipments.go:388-399 | in the order of first occurrence |
| `Recipients.CountsFindMissingFiles` | internal/service/shipments.go:199-206 | with one session per file, as many joined rows as ids come back if and only if every requested file exists |
| `StringOrder.BeforeIsTotal` | internal/service/shipments.go:308 | the order is total and irreflexive |
| `StringOrder.BeforeIsTransitive` | internal/service/shipments.go:308 | and transitive |
| `StringOrder.BeforeIsLexicographic` | internal/service/shipments.go:308 | and lexicographic: at the first difference the smaller character, or the end, comes first |
| `AccessGrant.IssuedGrantValidates` | internal/service/access_grant.go:23-64 | an issued grant is accepted if and only if the secret is long enough and signs it alike, the token hashes alike, and the time is before the expiry rounded down to seconds |
| `AccessGrant.AcceptedExactlyWhen` | internal/service/access_grant.go:33-64 | which strings are accepted: one dot, right of it a signature of the left, left of it a 64-byte hash of the token, a colon and a number of seconds after now |
| `AccessGrant.SignatureBindsThePayload` | internal/service/access_grant.go:33-64 | with a MAC that tells messages apart, a string with an issued grant's signature has that grant's payload and is accepted for its token and before its expiry only |
| `AccessGrant.GrantNeverOutlives` | internal/service/access.go:299-308 | a grant of a verification is never accepted at or past its time to live, the token's or the shipment's expiry, and always until a second before the earliest |
| `AccessGrant.GrantWithinTheSecond` | internal/service/access_grant.go:27 | an expiry within the current second gives a grant that is never accepted |
| `AccessGrant.Base64RoundTrip` | internal/service/access_grant.go:28-30 | every byte string survives base64url without padding (sections 5 and 3.2 of RFC 4648), decoded leniently |
| `AccessGrant.DecimalRoundTrip` | internal/service/access_grant.go:27 | every 64-bit number is parsed back from its decimal text |
| `AccessGrant.PayloadRoundTrip` | internal/service/access_grant.go:66-80 | the printed payload is parsed back: the last colon is the separator |
| `AccessGrant.SplitOfJoin` | internal/service/access_grant.go:37-40 | a grant splits at its one dot into the two texts it was joined from |
| `AuditIntegrity.PreparedVerifies` | internal/service/security_audit_prepare.go:13-57 | every event that Prepare signs verifies, under the id given, in whole microseconds |
| `AuditIntegrity.PreparedExactly` | internal/service/security_audit_prepare.go:13-57 | which inputs Prepare signs, exactly, and that the event records each field of the input where it belongs, normalized, cut or hashed as documented, at the current microsecond |
| `AuditIntegrity.StorageKeepsVerdict` | internal/service/security_audit.go:222-264 | a row in whole microseconds verifies after storage, with its details in any order, if and only if it did before |
| `AuditIntegrity.VerifiesByForm` | internal/service/security_audit.go:222-264 | a row verifies if and only if it names the configured key, the secret is long enough, and its signature decodes to the MAC of the form that shows each of its fields, its details key-sorted |
| `AuditIntegrity.TamperingIsDetected` | internal/service/security_audit.go:222-317 | with a MAC that tells forms apart, a row with the signature of a signed event verifies if and only if every field is the signed one, absent and empty alike, details in any order |
| `AuditIntegrity.CanonicalForm` | internal/service/security_audit.go:382-399 | canonical forms agree if and only if the objects mean the same; they are key-sorted and canonical already |
| `AuditIntegrity.SortedFormIsUnique` | internal/service/security_audit.go:382-399 | a key-sorted object is the canonical one: no other sorted text has its contents |
| `AuditIntegrity.UnmarshalMarshal` | internal/service/security_audit.go:382-399 | printing a map and reading it back gives the map |
| `AuditIntegrity.LastMemberCounts` | internal/service/security_audit.go:382-399 | of several members with one key the last one counts |
| `AuditIntegrity.HexRoundTrip` | internal/service/security_audit.go:410-414 | every byte string survives hexadecimal |
| `AuditTables.PreparedFitsTheTable` | db/migrations/000012_security_audit_outbox.up.sql:1-32 | the table, with its checks on labels, lengths and hexadecimal hashes, accepts what Prepare signs if and only if the resource type has at most 50 characters and the details, as long as they are printed and two bytes longer for each member but one, less what only json.Marshal escapes, stay within 8192 bytes |
| `AuditTables.DetailsLength` | db/migrations/000012_security_audit_outbox.up.sql:19-22 | how the stored length of any details follows from the printed one, character by character |
| `AuditTables.LongResourceType` | db/migrations/000012_security_audit_outbox.up.sql:13 | a resource type of 51 characters is prepared, and refused by the table |
| `AuditTables.FullDetailsOutgrow` | internal/service/security_audit.go:359-380 | details of exactly 8192 printed bytes are prepared, and refused by the table |
| `AuditPipeline.LoggedEventsVerify` | internal/store/security_audit_outbox.go:51-99 | end to end: in every run of the outbox protocol fed by Prepare, each log row, read back in any member order, verifies under its own id, and what a committed transaction enqueued is logged or waits as a row that verifies |
| `AuditPipeline.PreparedIsGenuine` | internal/store/security_audit_outbox.go:9-48 | an outbox row of a prepared event verifies and will read back unchanged in time |

## Left out

- HTTP handlers, routing, cookies, CSRF, configuration parsing, `main` packages, React components, mail templates, SES, SQS, webhook parsing: plumbing, or foreign calls.
- SHA-256, HMAC, bcrypt, random generation: parameters. The text json.Marshal prints of the signed form and of one string value is folded into the MAC parameter, so `AuditIntegrity.TamperingIsDetected` asks of it that it tells forms apart.
- Email parsing and Unicode trimming, cutting and case folding: parameters. Cutting a text in the middle of a character is not modelled.
- AuditTables.PreparedFitsTheTable: is about the tables' CHECK constraints and column widths; that PostgreSQL stores no U+0000 in text or jsonb is not modelled.
- JSON numbers beyond the precision of a float: a member value that is not text is known by its canonical form only.
- Role checks, plan limits, ownership and subject checks of the services: one branch each.
- Lists, pagination and invoice views; the event count of the shipment list is not the number of downloads there.
- Success events only are modelled: the over-limit event that a refused download logs changes no counter.
- Physical removal while requests are in flight: `DownloadProtocol` and `UploadSessions` run without it, `Cleanup` without uploads in between.
- That a sent shipment's file set is frozen: completing an upload does not look at the shipment's status.
- Progress reports of the browser upload beyond the lengths they add up; a progress callback that throws before a PUT, which ends the worker, or that throws a value JavaScript takes for false.
- Run loops, tickers, log lines and context cancellation of the workers.
- OutboxProtocol.NoEventIsLost: assumes fresh event ids, as random UUIDs are, and names exactly what fails without that in `OutboxProtocol.FreshIdsAreNeeded`.
- SeatProtocol.NeverOverbooked: for runs in which directly added members, new limits and refreshed deadlines meet the exact conditions of `SeatProtocol.DirectMemberExactly`, `SeatProtocol.NewLimitExactly` and `SeatProtocol.RefreshExactly`, because the code breaks the property otherwise.
- SeatSync.SeatsOnlyShrink: for calls one after another; `SeatSyncProtocol.KeptExactlyWhenEachFits` says which overlapping runs keep it too.
- A service without billing, which adds and removes members without a limit and a sync; acceptances among the overlapping calls of `SeatSyncProtocol`, whose own transaction is in `SeatProtocol`.
- VerifyProtocol.RequestsAreBounded: for clock readings in the order in which the guard is entered.
- RateLimiter.QuotaHolds: for a key whose calls all carry the same limit and window, as the endpoint configuration gives them, on a nondecreasing clock.
- PartSizing.PartsCoverTheFile: not for sizes whose sums overflow while the base does not suffice; `PartSizing.LimitHoldsExactly` says that it fails exactly there.
- Cleanup.RunsDrainTheBacklog: the two listing queries of the counted runs answer; a run in which one fails is counted as anything else that happens.
