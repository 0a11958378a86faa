# Paid registration: a verified model

This project models the machinery that turns at-least-once payment webhooks into exactly-once local entitlements, and
the data structures and arithmetic it stands on. Each file is one module:

| file | what it is about |
|---|---|
| `Wrappers.dfy` | the optional value shared by all modules |
| `Fulfilment.dfy` | the store of the membership-commerce repository and one call of `finalizeDecision`: its body, its throws, its snapshots and its restore |
| `FulfilmentRollback.dfy` | a call that throws changes nothing |
| `FulfilmentLines.dfy`, `FulfilmentEffects.dfy` | what a finalization leaves, map by map and value by value; when a first one succeeds; which decision answers a repeated one |
| `FulfilmentDeliveries.dfy` | the life of a webhook delivery over runs |
| `FulfilmentRuns.dfy`, `FulfilmentReplay.dfy`, `FulfilmentHistory.dfy` | exactly-once fulfilment over runs; replays, approval and claims; replays and redeliveries at any later time |
| `CommerceRepository.dfy` | the repository as classes over mutable maps, each method proved to be a step of `Fulfilment` |
| `Renewal.dfy`, `RenewalRevocations.dfy` | the teacher-membership renewal chain; exactly which purchases keep it disjoint once grants are revoked |
| `WorkerQueue.dfy`, `WorkerLimit.dfy` | the webhook worker queue, as a state machine and as a class; exactly when its worker limit can be exceeded |
| `WorkerOutcomes.dfy` | what each event of the queue leaves and counts; when a drain is answered |
| `AsyncCache.dfy`, `AsyncCacheSteps.dfy`, `AsyncCacheRuns.dfy`, `AsyncCacheClass.dfy` | the bounded LRU/TTL cache with single-flight loading: the model, its calls, its runs, and the class |
| `AsyncCacheEffects.dfy` | what each call of the cache leaves; a stored value is served until it expires |
| `Eligibility.dfy`, `EligibilityAdvisory.dfy` | purchase eligibility in cart and in advisory mode |
| `EligibilityReasons.dfy` | which reason a line is given, what each check asks, what a marker is |
| `LineIdentity.dfy`, `LineRecords.dfy` | the identity of a checkout line across the storefront; the form of ids, attributes and records |
| `DecimalDigits.dfy`, `Money.dfy` | decimal digits; money strings and cents |
| `Allocation.dfy`, `AllocationFields.dfy` | places and money of a paid order of several lines; each field of each entitlement |
| `CapacityCutoff.dfy` | the check after cart creation |
| `CheckoutIntents.dfy`, `CheckoutEffects.dfy`, `CheckoutRepository.dfy` | checkout intents and carts: the state machine, what each call leaves, and the class |
| `CreditLedger.dfy`, `CreditDirections.dfy`, `BillingRepository.dfy` | credit adjustments and balances: the state machine, which way each adjustment goes, and the class |
| `CalendarDays.dfy`, `Calendar.dfy` | day numbers and civil dates; date strings and the arithmetic on them |
| `ZonedTime.dfy` | resolving wall times in a time zone; the registration window |

The pattern is the same throughout. A datatype holds the state; a function gives one call as a step on it; an
invariant is kept by every step and so along every run; the effects of a step are written out apart from the function,
with values and quantifiers over positions; and where the source is a class, a class with the same fields has methods
whose contracts equate its new state with the step. Random ids, hashes and the clock are parameters, with
the assumption that ids are new, and where it matters that the clock does not go back.

## What does not hold as one might expect

These are results about the code as it is. Each is proved, together with the exact condition under which the expected
property does hold.

- A finalization that throws when resolving the checkout intent leaves the membership grant it had already created in
  the organization repository, in exactly the calls `FulfilmentRollback.GrantOutlivesRollback` names
  (`FulfilmentRollback.GrantCanOutliveRollback` shows them at work); nothing else outlives the rollback.
- Once the status of an entitled line has been changed, replaying its finalization throws; it is recognized exactly while
  every line has the status it was finalized with (`FulfilmentHistory.LaterReplay`).
- The grant validator adds the renewal window to the duration with a function that itself refuses durations over the
  maximum, so the valid durations 36471 to 36500 can never be granted (`Renewal.RenewalComputationsAgree`).
- After a revocation, an order paid before the revoked grant began is accepted, and can make two grants active on one day
  (`RenewalRevocations.LateOrderAfterRevocationOverlaps`). Along any run of purchases and revocations no day is served
  twice exactly when every accepted purchase is apart from the grants it does not supersede
  (`RenewalRevocations.DisjointExactlyWhenClear`).
- Enqueueing an id that is already queued or active can exceed the worker limit
  (`WorkerLimit.DuplicatesExceedConcurrency`): exactly when the id is accepted and the limit is two or more
  (`WorkerLimit.ExceedsExactly`, `WorkerLimit.LimitHoldsUncheckedExactly`).
- Candidates that are each reported available need not be available together
  (`EligibilityAdvisory.CandidatesMayExcludeEachOther`): they are exactly when no two ask for the same seat and every
  class has room for all (`EligibilityAdvisory.AvailableCandidatesTogether`).
- The capacity check after cart creation ignores how many lines a class has; it is safe exactly for carts that have no
  class twice (`CapacityCutoff.CutoffIsSafeExactlyForSingleLines`).
- Balances are keyed by the text `organization:customer`; accounts are always right exactly when no organization id is
  another one followed by a colon (`CreditLedger.AccountsRightExactly`).
- Date arithmetic past 9999-12-31 yields a signed year cut to ten characters, which is no date
  (`Calendar.AddIsExact`, `Calendar.ValidatorIsOnDays`).
- The registration window takes no date of the years 0 to 99, which entitlement dates accept
  (`ZonedTime.ValidComponentsExactly`, `Calendar.ParseExactly`); and a closing date leaves out its last millisecond
  (`ZonedTime.DateWindowIsLocalDays`).
- Stripping a candidate marker takes off one marker only (`EligibilityAdvisory.StripTakesOneMarker`).

## Model

| member | source | states |
|---|---|---|
| FulfilmentRollback.FailedCallChangesNothing | packages/backend/src/commerce/membership-commerce-repository.ts:575-721 | A finalization that throws, at whichever step and line, leaves every map, both decision indexes, both entitlement indexes, the delivery and every metadata link equal to before the call; the only thing that may remain is one membership grant, exactly when GrantOutlivesRollback holds |
| FulfilmentRollback.GrantCanOutliveRollback | packages/backend/src/commerce/membership-commerce-repository.ts:856-903 | An approved membership with an intent that cannot be resolved throws and leaves its grant behind, in every store without decisions |
| FulfilmentRollback.RestoreUndoes | packages/backend/src/commerce/membership-commerce-repository.ts:656-720 | The hand-written restore, fed with the snapshots of the call, undoes any disturbance of the shape a call can cause, not just those of one step |
| FulfilmentRollback.ThrowDisturbs | packages/backend/src/commerce/membership-commerce-repository.ts:723-912 | Up to any throw, the body has disturbed the store only in the keys the snapshots name |
| FulfilmentRuns.FulfilledExactlyOnce | packages/backend/src/commerce/membership-commerce-repository.ts:747-912 | In every reachable store the order-line index is an exact inverse of the entitlements, no paid line has two, all entitlements of an intent belong to one order, and each belongs to an approved decision |
| FulfilmentRuns.CallKeepsInv | packages/backend/src/commerce/membership-commerce-repository.ts:575-912 | The index invariant survives every call, whether it returns, replays, loses to a rival or throws |
| FulfilmentRuns.RunKeepsInv | packages/backend/src/commerce/membership-commerce-repository.ts:336-348 | The invariant over the nine maps holds along every run of deliveries, claims, pending decisions, status changes, metadata inserts and finalizations |
| FulfilmentReplay.ApprovalIsFinal | packages/backend/src/commerce/membership-commerce-repository.ts:747-781 | An approved decision stays approved under every later call |
| FulfilmentReplay.RunKeepsLines | packages/backend/src/commerce/membership-commerce-repository.ts:1104-1146 | Along any run a paid line keeps the entitlement id it was first given, and that entitlement its facts; only its status may change |
| FulfilmentReplay.ReplayAddsNothing | packages/backend/src/commerce/membership-commerce-repository.ts:747-781 | A finalization with a final status, called again at once, returns the same entitlements as existing and changes no projection, decision, index, entitlement or link |
| FulfilmentReplay.AnsweredCallOnlyConcludes | packages/backend/src/commerce/membership-commerce-repository.ts:747-832 | A call answered by an earlier decision, its own or a competing one, only marks its delivery processed and gives the intent of that decision its status; every other part of the store is as before |
| FulfilmentReplay.ClaimIsExclusive | packages/backend/src/commerce/membership-commerce-repository.ts:399-415 | A delivery in processing or processed is not handed out again by any call unless it is marked failed |
| FulfilmentHistory.RedeliveryIsRecognized | packages/backend/src/commerce/membership-commerce-repository.ts:369-397 | The same webhook again, after any run of other calls, is a duplicate of the delivery as it then is for the same payload and a conflict for another, and stores nothing |
| FulfilmentHistory.LaterReplay | packages/backend/src/commerce/membership-commerce-repository.ts:747-781 | After any run of other calls a finalized order finds its lines under the same ids; replaying it answers with them as existing while every line has the status it was finalized with, and otherwise throws and changes nothing |
| FulfilmentHistory.FinalStaysFinal | packages/backend/src/commerce/membership-commerce-repository.ts:747-781 | A decision with a final status never goes back to pending in any run |
| FulfilmentHistory.RunKeepsKnown | packages/backend/src/commerce/membership-commerce-repository.ts:379-396 | The webhook index never loses a key and the payload of a delivery never changes |
| FulfilmentReplay.DecidedReplays | packages/backend/src/commerce/membership-commerce-repository.ts:749-781 | A decided order whose lines are all entitled with matching facts answers with those entitlements |
| FulfilmentEffects.FirstFinalization | packages/backend/src/commerce/membership-commerce-repository.ts:723-925 | What a first finalization that returns leaves, value by value: the delivery processed at the clock without start or failure, the intent with the decision status when a checkout is attached and the status is final, decision, indexes and projection with the fields of the input, one grant or the entitlements of the lines for an approval and nothing otherwise, each record with its facts and allocation under its order line, and each metadata record linked to the last entitlement whose line it is the first to answer |
| FulfilmentEffects.FinalizesExactly | packages/backend/src/commerce/membership-commerce-repository.ts:723-912 | For an undecided order without rivals a call returns exactly when its facts have text, cents and a currency code, it gives what its decision calls for, its projection is of the order, its lines agree with what is recorded for them, and no repository it calls fails |
| FulfilmentEffects.AnsweredExactly | packages/backend/src/commerce/membership-commerce-repository.ts:747-832 | A call that returns is answered by an earlier decision exactly when its order is decided with all lines recorded or its intent or line belongs to another order; which decision answers first, with which records, and that only the delivery and that decision's intent change |
| FulfilmentEffects.WellFormedExactly | packages/backend/src/commerce/membership-commerce-repository.ts:723-746 | The refused inputs: both forms of lines at once, a blank name, negative cents, or a currency that is not three capitals |
| FulfilmentLines.CreationLeaves | packages/backend/src/commerce/membership-commerce-repository.ts:862-878 | The records made for new lines, the order-line index, the intent index with the last record made for an intent, and the links, after the whole loop |
| FulfilmentLines.CreationCompletesExactly | packages/backend/src/commerce/membership-commerce-repository.ts:1104-1146 | The loop completes exactly when every line agrees with what its order line is recorded for, before the call or by an earlier line, and no link fails |
| FulfilmentLines.LinkedAt | packages/backend/src/checkout/checkout-repository.ts:507-525 | The record linked is the one at the first position that answers to the line: by the intent-line id if it has one, else by the intent |
| FulfilmentDeliveries.AttemptsAreClaims | packages/backend/src/commerce/membership-commerce-repository.ts:399-415 | Over every run a delivery's attempts grow by exactly the claims that found it received or failed, and what it was recorded with never changes |
| FulfilmentDeliveries.RunKeepsSound | packages/backend/src/commerce/membership-commerce-repository.ts:369-455 | In every run a delivery is started exactly while processing and has a failure exactly when failed; once processed it says when |
| FulfilmentDeliveries.StepMoves | packages/backend/src/commerce/membership-commerce-repository.ts:399-455 | What each call does to each delivery, field by field: only a received or failed one can be claimed, and a finalization that throws touches none |
| FulfilmentDeliveries.ReceivesExactly | packages/backend/src/commerce/membership-commerce-repository.ts:369-397 | A new webhook gets a received delivery without attempts; a known one a duplicate or, for another payload, a conflict |
| FulfilmentEffects.StatusIsSet | packages/backend/src/commerce/membership-commerce-repository.ts:1233-1247 | Setting a status changes that and the update time of an entitlement of the organization, and nothing else |
| FulfilmentEffects.MetadataIsInserted | packages/backend/src/checkout/checkout-repository.ts:455-505 | A registration record is added, unlinked, exactly when its id is new and so is its line if it has one |
| CommerceRepository.CheckoutRecords.LinkRegistrationMetadata | packages/backend/src/checkout/checkout-repository.ts:507-525 | The in-place link changes the first matching record as the specification says and no other |
| CommerceRepository.CheckoutRecords.RestoreLinkSnapshot | packages/backend/src/checkout/checkout-repository.ts:547-559 | Writing a snapshot back record by record equals the specified restore |
| CommerceRepository.MembershipCommerceRepository.CreateClassEntitlements | packages/backend/src/commerce/membership-commerce-repository.ts:862-878 | The loop over the lines, with its throw in the middle, leaves exactly the specified partial state |
| CommerceRepository.MembershipCommerceRepository.FinalizeDecisionInternal | packages/backend/src/commerce/membership-commerce-repository.ts:723-912 | The body performed in place on the maps has the outcome and state of the step whose effects FirstFinalization and AnsweredExactly write out, returning or throwing |
| CommerceRepository.MembershipCommerceRepository.Rollback | packages/backend/src/commerce/membership-commerce-repository.ts:656-720 | The in-place loops of the catch block compute the specified restore |
| CommerceRepository.MembershipCommerceRepository.FinalizeDecisionAtomically | packages/backend/src/commerce/membership-commerce-repository.ts:575-721 | Snapshot, body and rollback together are one step of the state machine the theorems are about; FirstFinalization says value by value what that step leaves |
| CommerceRepository.MembershipCommerceRepository.ReceiveDelivery | packages/backend/src/commerce/membership-commerce-repository.ts:369-397 | Recording a delivery in place is the specified step: accepted exactly for a new webhook, then findable under it with its payload, and otherwise nothing changes |
| CommerceRepository.MembershipCommerceRepository.Claim | packages/backend/src/commerce/membership-commerce-repository.ts:399-415 | Claiming in place is the specified step and answer |
| Renewal.PaidDaysAreServedOnce | packages/backend/src/commerce/postgres-membership-commerce-repository.ts:594-780 | Over any run of purchases, paid on any days in any order: at most one grant is active on each day, and the number of days with an active grant equals the sum of the approved durations |
| Renewal.RunKeepsChain | packages/backend/src/commerce/postgres-membership-commerce-repository.ts:594-780 | Grants form a chain of disjoint service intervals along every run, with revocations when purchases after one are paid no earlier than the revoked grant starts |
| Renewal.PurchaseShape | packages/backend/src/commerce/postgres-membership-commerce-repository.ts:594-640 | What an accepted purchase does to the chain: supersede the latest current grant on the paid day and carry its end forward |
| Renewal.PurchaseExactly | packages/backend/src/commerce/postgres-membership-commerce-repository.ts:594-780 | A purchase in days: refused when an unrevoked latest grant starts after the paid day or ends more than 30 days after it, or the duration exceeds 36470 days; otherwise a latest grant not yet ended is superseded that day and its remaining days are added to the new one |
| Renewal.TransactionExactly | packages/backend/src/commerce/postgres-membership-commerce-repository.ts:594-780 | What the transaction does to any rows: review without a change for a blocking row; else a new row from the paid day, superseding one of least start that runs then and carrying its end forward |
| Renewal.ServiceExactly | packages/backend/src/commerce/shopify-order-projection-service.ts:446-470 | When the service refuses a paid day of any grants, and which end it proposes, in days |
| Renewal.RejectsExactly | packages/backend/src/commerce/postgres-membership-commerce-repository.ts:594-640 | Review exactly when some grant, neither revoked nor superseded, ends after the paid day and starts after it or ends more than 30 days after it |
| Renewal.RejectionsAgree | packages/backend/src/commerce/shopify-order-projection-service.ts:826-850 | The service and the repository refuse the same paid days on every chain |
| Renewal.EndDatesAgree | packages/backend/src/commerce/shopify-order-projection-service.ts:454-470 | Both compute the same end date; the grant validator accepts it exactly for durations at least thirty days below the maximum |
| Renewal.RenewalComputationsAgree | packages/backend/src/commerce/shopify-order-projection-service.ts:446-470 | On every history of purchases the two refusal checks and the two end dates agree, and the validator accepts exactly the durations up to 36470 days |
| Renewal.ServedDaysAreActive | packages/common/src/entitlements.ts:143-154 | A day counts as served exactly when some grant is active on it |
| RenewalRevocations.DisjointExactlyWhenClear | packages/backend/src/commerce/postgres-membership-commerce-repository.ts:594-780 | Over any run of purchases and revocations, in any order, no day is ever served twice exactly when every accepted purchase is apart from the grants it does not supersede |
| RenewalRevocations.PurchaseDisjointExactly | packages/backend/src/commerce/postgres-membership-commerce-repository.ts:594-640 | An accepted purchase keeps every day served by at most one grant exactly when each grant it does not supersede ends by the paid day, begins after the new end, or serves no day |
| RenewalRevocations.RevocationsStayDisjoint | packages/common/src/entitlements.ts:143-154 | Runs in which no purchase after a revocation is paid before the revoked grant began are clear, and so disjoint throughout |
| RenewalRevocations.LateOrderMayBeClear | packages/backend/src/commerce/postgres-membership-commerce-repository.ts:594-640 | A late order after a revocation can be accepted and leave no day served twice |
| RenewalRevocations.LateOrderAfterRevocationOverlaps | packages/backend/src/commerce/postgres-membership-commerce-repository.ts:594-640 | A run of four events that is not clear and leaves two grants active on one day |
| Renewal.EntitlementRows.FinalizeDecision | packages/backend/src/commerce/postgres-membership-commerce-repository.ts:594-780 | The renewal transaction on the rows, superseding and inserting in place, is the specified step, and its status is review exactly for a blocking row of the query |
| WorkerQueue.RunIsFifo | packages/backend/src/commerce/webhook-worker-queue.ts:85-192 | Over every run the ids started, then queued, then retained are exactly the admitted ids in order of admission: no overtaking, loss or double start |
| WorkerQueue.StepKeepsInv | packages/backend/src/commerce/webhook-worker-queue.ts:85-220 | Every turn keeps: a backlog means all slots are busy; a recovery set means the backlog is full; queued, active and retained ids are disjoint; and it only appends to the log |
| WorkerQueue.PromoteMovesPrefix | packages/backend/src/commerce/webhook-worker-queue.ts:169-181 | Promotion moves a prefix of the recovery set; its skip branch is never taken |
| WorkerQueue.OldestIsNew | packages/backend/src/commerce/webhook-worker-queue.ts:174-178 | The id at the head of the recovery set is neither queued nor active |
| WorkerQueue.DispatchSettles | packages/backend/src/commerce/webhook-worker-queue.ts:183-192 | Dispatch ends with the backlog empty or every slot busy, and the recovery set empty or the backlog full |
| WorkerQueue.ReachableConserves | packages/backend/src/commerce/webhook-worker-queue.ts:156-220 | Accepted plus retained ids equal completed, failed, active, queued and pending ones, there is one worker an active id and no more than the limit, and while a drain waits some worker is active |
| WorkerQueue.PendingNeedsWorker | packages/backend/src/commerce/webhook-worker-queue.ts:183-205 | Whenever work is left some worker is active: no lost wake-up |
| WorkerQueue.DrainResolvesExactly | packages/backend/src/commerce/webhook-worker-queue.ts:156-220 | Of drains already waiting: with nothing more enqueued, exactly as many finishes as there is pending work resolve them all, the last one and not before |
| WorkerOutcomes.RequestedDrainResolvesExactly | packages/backend/src/commerce/webhook-worker-queue.ts:156-220 | A drain requested with p ids active, queued or retained is answered at once when p is 0, stays unanswered through every shorter run of finishes, and is answered, with all waiting before it, by the run of p |
| WorkerOutcomes.RunCounts | packages/backend/src/commerce/webhook-worker-queue.ts:156-220 | Over every run each drain requested is answered or waiting, and the completed and failed counts are the numbers of workers that settled that way |
| WorkerOutcomes.EnqueuedWithRoom | packages/backend/src/commerce/webhook-worker-queue.ts:106-112 | With room an id joins the end of everything admitted, and no counter changes |
| WorkerOutcomes.EnqueuedWithoutRoom | packages/backend/src/commerce/webhook-worker-queue.ts:85-105 | Without room an id is rejected and counted; it is retained exactly when asked for, new to the recovery set and that set has room, and else counted as overflow |
| WorkerOutcomes.FinishedOnce | packages/backend/src/commerce/webhook-worker-queue.ts:194-205 | A finish counts as completed or as failed, takes its id out for good and leaves the other active ids active and the admitted ones in order |
| WorkerOutcomes.ReclaimTakesAll | packages/backend/src/commerce/webhook-worker-queue.ts:138-154 | Reclaiming ends with every id queued or active, unless it met an empty id or a full backlog, which counts one rejection |
| WorkerQueue.EnqueueIsSafeExactly | packages/backend/src/commerce/webhook-worker-queue.ts:85-112 | An accepted id keeps the invariant exactly when it is neither queued nor active; a refused one always does |
| WorkerLimit.ExceedsExactly | packages/backend/src/commerce/webhook-worker-queue.ts:85-112 | Enqueueing an id makes it possible to exceed the worker limit, going on with new ids and finishing workers only, exactly when it is accepted, is queued or active already, and the limit is two or more |
| WorkerLimit.LimitHoldsUncheckedExactly | packages/backend/src/commerce/webhook-worker-queue.ts:183-205 | With no check of the enqueued ids at all, the limit holds along every run exactly when it is one |
| WorkerLimit.LimitOfOneHolds | packages/backend/src/commerce/webhook-worker-queue.ts:183-205 | Under a limit of one, along every run from any state with at most one worker, there is at most one |
| WorkerLimit.DuplicatesExceedConcurrency | packages/backend/src/commerce/webhook-worker-queue.ts:85-112 | Three events after which three workers run under a limit of two |
| WorkerQueue.ClampPositiveInt | packages/backend/src/commerce/webhook-worker-queue.ts:23-26 | An option truncates to at least one; an absent or non-finite one takes the fallback |
| WorkerQueue.WebhookWorkerQueue.PromotePendingRecoveries | packages/backend/src/commerce/webhook-worker-queue.ts:169-181 | The loop on the fields is the specified promotion |
| WorkerQueue.WebhookWorkerQueue.RunDispatch | packages/backend/src/commerce/webhook-worker-queue.ts:183-192 | The dispatch loop on the fields is the specified dispatch |
| WorkerQueue.WebhookWorkerQueue.EnqueueDelivery | packages/backend/src/commerce/webhook-worker-queue.ts:85-112 | Enqueue on the fields is the specified step, with its answer |
| WorkerQueue.WebhookWorkerQueue.ReclaimPending | packages/backend/src/commerce/webhook-worker-queue.ts:138-154 | Reclaiming, with its skip and its break, is the specified step and count |
| WorkerQueue.WebhookWorkerQueue.WorkerSettled | packages/backend/src/commerce/webhook-worker-queue.ts:194-205 | The end of a worker is the specified finish, dispatch and drain check |
| AsyncCacheRuns.CacheRefinesTimestampedMap | packages/backend/src/customer/bounded-async-cache.ts:71-113 | In every reachable state a lookup returns only the latest unremoved and unexpired set of its key, and all of those while nothing was evicted |
| AsyncCacheRuns.ReachableCache | packages/backend/src/customer/bounded-async-cache.ts:55-148 | In every reachable state both bounds hold, retainedBytes is the exact sum, slots are in order of last use, sets equal entries held plus onEvict calls, misses equal plain misses plus joins plus loads started, and no two loads in flight share a key |
| AsyncCacheRuns.SetKeepsLongestSuffix | packages/backend/src/customer/bounded-async-cache.ts:88-113 | A set keeps the longest most-recently-used suffix of the other unexpired entries that leaves room for the new one |
| AsyncCacheSteps.EvictKeepsLongestSuffix | packages/backend/src/customer/bounded-async-cache.ts:99-106 | The eviction loop stops at the first suffix that fits |
| AsyncCacheSteps.GetAgreesWithReference | packages/backend/src/customer/bounded-async-cache.ts:71-86 | One lookup against the timestamped map |
| AsyncCacheRuns.EveryRequestIsOneOfThree | packages/backend/src/customer/bounded-async-cache.ts:119-148 | A getOrLoad is exactly one of hit, join or load started, and counts a miss exactly when it is no hit |
| AsyncCacheSteps.JoinKeepsSingleFlight | packages/backend/src/customer/bounded-async-cache.ts:131-147 | Joining or starting keeps at most one load per key in flight, forced or not |
| AsyncCacheSteps.StepKeepsInv | packages/backend/src/customer/bounded-async-cache.ts:55-148 | Every call and every settling load keeps the invariant |
| AsyncCacheRuns.StepKeepsRecent | packages/backend/src/customer/bounded-async-cache.ts:82-84 | Insertion order stays the order of last use |
| AsyncCacheEffects.StoredValueIsServed | packages/backend/src/customer/bounded-async-cache.ts:136-140 | Once a load has stored a value, every lookup of its key returns it for as long as it lives and none after, through any run of lookups of any keys |
| AsyncCacheEffects.SettledLoadIsStored | packages/backend/src/customer/bounded-async-cache.ts:136-146 | A load settled with an accepted value makes it the last slot and the entry of its key, leaves errors alone, and is over |
| AsyncCacheEffects.FailedLoadStoresNothing | packages/backend/src/customer/bounded-async-cache.ts:136-146 | A failed or refused load leaves slots and map alone, counts one error, and is over |
| AsyncCacheEffects.SlotLookup | packages/backend/src/customer/bounded-async-cache.ts:71-86 | A lookup of an unexpired slot returns its value and makes it the last one; of an expired one it returns nothing and removes it |
| AsyncCacheEffects.PlainRequest | packages/backend/src/customer/bounded-async-cache.ts:119-148 | A request not forced is answered from an unexpired slot without a load, and otherwise counts a miss and joins or starts one |
| AsyncCacheEffects.ForcedRequest | packages/backend/src/customer/bounded-async-cache.ts:119-148 | A forced request never answers from the cache: it drops slot and entry of its key, counts a miss and joins or starts a load |
| AsyncCacheEffects.DeletesExactly | packages/backend/src/customer/bounded-async-cache.ts:115-117 | Deleting takes out exactly the matching slots and entries, keeps the order of the rest, and counts neither evictions nor expirations |
| AsyncCacheEffects.ExpiresExactly | packages/backend/src/customer/bounded-async-cache.ts:65-69 | Measuring takes out exactly the expired slots, counts each, and keeps the order of the rest |
| AsyncCacheClass.BoundedAsyncCache.GetEntry | packages/backend/src/customer/bounded-async-cache.ts:71-86 | The lookup on the fields is the specified one |
| AsyncCacheClass.BoundedAsyncCache.SetEntry | packages/backend/src/customer/bounded-async-cache.ts:88-113 | The set on the fields, with its eviction loop, is the specified one |
| AsyncCacheClass.BoundedAsyncCache.EvictUntilRoom | packages/backend/src/customer/bounded-async-cache.ts:99-106 | The eviction loop is the specified eviction |
| AsyncCacheClass.BoundedAsyncCache.RequestLoad | packages/backend/src/customer/bounded-async-cache.ts:119-148 | The synchronous part of getOrLoad is the specified one |
| AsyncCacheClass.BoundedAsyncCache.LoadSettled | packages/backend/src/customer/bounded-async-cache.ts:137-145 | A settled load on the fields is the step SettledLoadIsStored and FailedLoadStoresNothing write out |
| AsyncCacheClass.BoundedAsyncCache.ExpireEntries | packages/backend/src/customer/bounded-async-cache.ts:65-69 | The sweep removes exactly the expired entries |
| Eligibility.CartVerdict | packages/common/src/purchase-eligibility.ts:534-554 | A cart is eligible exactly when registration is open, (child, class) pairs are distinct and unregistered, classes are available, prerequisites are met by an entitlement or another line, and confirmed plus requested places fit every capacity |
| Eligibility.VerdictIsOfTheMultiset | packages/common/src/purchase-eligibility.ts:534-554 | Permuting the cart or changing ids and candidate markers never changes the verdict |
| Eligibility.CapacityIsCounted | packages/common/src/purchase-eligibility.ts:325-357 | Checking each line against the lines ahead of it is checking the whole cart against capacity |
| Eligibility.CartVerdictByPosition | packages/common/src/purchase-eligibility.ts:534-554 | The same for any class map, under whatever keys: all but the room ahead of each line depends on the set of seats alone |
| Eligibility.NormalizedIsWellKeyed | packages/common/src/purchase-eligibility.ts:130-141 | A map made from a list of classes files every class under its own id |
| Eligibility.PrerequisiteIsSeatMet | packages/common/src/purchase-eligibility.ts:188-236 | Line by line prerequisite checks depend only on the set of requested seats and the entitlements |
| Eligibility.ReasonOfSeats | packages/common/src/purchase-eligibility.ts:359-500 | The reason for a line depends only on the seats of the lines and its position |
| EligibilityReasons.ReasonExactly | packages/common/src/purchase-eligibility.ts:359-500 | Which reason is given when several apply: registration closed, then a class not on offer, then a seat held or asked for before, then a missing prerequisite, then a full class; and available when none does |
| EligibilityReasons.NeedsExactly | packages/common/src/purchase-eligibility.ts:359-500 | The prerequisite is the text of the subtype without white space around it, if any is left |
| EligibilityReasons.PreparedExactly | packages/common/src/purchase-eligibility.ts:188-236 | What meets a prerequisite: a confirmed entitlement here, or another line of the child on offer, in a class of that subtype with the same division and ages |
| EligibilityReasons.NoRoomExactly | packages/common/src/purchase-eligibility.ts:325-357 | A class is full when its capacity is not positive or reached by confirmed entitlements and lines ahead, each counted by position |
| EligibilityReasons.VerdictFields | packages/common/src/purchase-eligibility.ts:359-500 | What a verdict lists as satisfying: the entitlement first, then lines; nothing for a verdict that is not available |
| EligibilityReasons.LinesListed | packages/common/src/purchase-eligibility.ts:359-500 | The lines listed are exactly those that meet the prerequisite, each once, in cart order |
| EligibilityReasons.StripExactly | packages/common/src/purchase-eligibility.ts:502-532 | Stripping takes a marker off a marked id, and an id that was only a marker away |
| Eligibility.NormalizeClasses | packages/common/src/purchase-eligibility.ts:130-141 | The last configuration of an id wins, and every key holds a configuration of that id |
| Eligibility.EvaluateItemEligibility | packages/common/src/purchase-eligibility.ts:359-500 | The check with its loop over the other lines computes the specified verdict, and an available line with a prerequisite lists what satisfies it |
| EligibilityAdvisory.AvailableCandidateCanBeBought | packages/common/src/purchase-eligibility.ts:556-603 | An eligible cart with a candidate reported available is eligible when both are submitted, and a candidate that could be submitted is reported available |
| EligibilityAdvisory.CartLinesIgnoreCandidates | packages/common/src/purchase-eligibility.ts:579-591 | Results of cart lines are those of the cart alone |
| EligibilityAdvisory.CandidateIsNextLine | packages/common/src/purchase-eligibility.ts:556-603 | A candidate is given the reason it would get as the next line of the cart |
| EligibilityAdvisory.CandidatesIgnoreEachOther | packages/common/src/purchase-eligibility.ts:583-588 | A candidate gets the same result whatever other candidates are in the request |
| EligibilityAdvisory.AdvisoryAgreesWithCart | packages/common/src/purchase-eligibility.ts:593-602 | The overall advisory answer is the checkout answer for the cart lines, and for a request of candidates only, that each could be bought alone |
| EligibilityAdvisory.AvailableCandidatesTogether | packages/common/src/purchase-eligibility.ts:583-588 | When the cart is eligible and each candidate is reported available, all of them are eligible together exactly when no two ask for the same seat and every class has room for all lines |
| EligibilityAdvisory.CandidatesTogether | packages/common/src/purchase-eligibility.ts:534-554 | Lines each eligible with a cart alone are eligible together with it under exactly that condition |
| EligibilityAdvisory.CandidatesMayExcludeEachOther | packages/common/src/purchase-eligibility.ts:583-588 | A request whose two candidates are each available while the cart of both is not eligible |
| EligibilityAdvisory.StripTakesOneMarker | packages/common/src/purchase-eligibility.ts:512-532 | Stripping takes off one marker: the result is a candidate again exactly when another marker followed |
| LineIdentity.IdentityRoundTrip | packages/backend/src/commerce/shopify-order-projection-service.ts:223-264 | Lines built for an intent, stored in any order, restored by the mapping check, emitted on a cart and returned on a paid order in any order correlate, each order line with the line that emitted its id and whose variant it carries |
| LineIdentity.RequireClassCheckoutIntentLineMapping | packages/backend/src/checkout/checkout-line-helpers.ts:37-90 | Succeeds exactly on a mapping, returns the lines in request order, names the first fault; the missing-index error never fires |
| LineRecords.MapsExactly | packages/backend/src/checkout/checkout-line-helpers.ts:37-90 | Lines map exactly when each is, in every field, the record of a validated line under a canonical id, and no two share a line or an id |
| LineRecords.CanonicalExactly | packages/backend/src/checkout/checkout-line-helpers.ts:16-21 | The ids accepted are five groups of 8, 4, 4, 4 and 12 lower-case hexadecimal digits with a version from 1 to 5 and a variant 8, 9, a or b |
| LineRecords.IdentityExactly | packages/backend/src/commerce/shopify-order-projection-service.ts:241-263 | The identity of an order line is the value of its only attribute under the line-id key |
| LineRecords.RecordsBuilt | packages/backend/src/checkout/checkout-line-helpers.ts:92-137 | The records of an intent: one from the intent itself, or one per input with what it brings and else the drawn id, its position and a class entry |
| LineIdentity.IndexLines | packages/backend/src/checkout/checkout-line-helpers.ts:50-81 | The loop fills the index exactly on a mapping, and otherwise reports the first line at fault and how |
| LineIdentity.AllIndicesPresent | packages/backend/src/checkout/checkout-line-helpers.ts:83-89 | As many different indices below n as n are all of them |
| LineIdentity.StoredLinesMap | packages/backend/src/checkout/checkout-line-helpers.ts:92-112 | Lines as built satisfy the mapping in whatever order they come back |
| LineIdentity.MappingUndoesStorageOrder | packages/backend/src/checkout/checkout-line-helpers.ts:83-89 | What the check returns are the lines as they were built |
| LineIdentity.BuiltLines | packages/backend/src/checkout/class-checkout-service.ts:797-810 | The class checkout numbers its lines from zero and each built line matches its validated one |
| LineIdentity.CartIdentity | packages/backend/src/checkout/class-checkout-service.ts:1001-1013 | A paid line of an emitted cart line carries exactly the id and variant of its position |
| LineIdentity.CorrelateClassOrderLines | packages/backend/src/commerce/shopify-order-projection-service.ts:223-264 | Succeeds exactly when counts agree, ids are canonical and different, and the order lines name different intent lines; the final size check never decides |
| LineIdentity.CorrelationIsOneToOne | packages/backend/src/commerce/shopify-order-projection-service.ts:241-263 | A correlated order names every intent line exactly once |
| Money.PrintedParses | packages/backend/src/commerce/shopify-order-projection-service.ts:153-157 | A total printed with two decimals parses back to the same cents |
| Money.ParsedPrints | packages/backend/src/commerce/shopify-order-projection-service.ts:153-157 | Printing undoes parsing on every two-decimal amount |
| Money.ParsesExactlyGrammar | packages/backend/src/commerce/shopify-order-projection-service.ts:153-157 | A string parses to an amount of cents exactly when it is whole digits without leading zeros, with or without a point and one or two more, and stands for that amount |
| Money.ParsedIsGrammar | packages/backend/src/commerce/shopify-order-projection-service.ts:153-157 | What parses is of the grammar, with its value in cents |
| Money.FractionParses | packages/backend/src/commerce/shopify-order-projection-service.ts:153-157 | Every amount of the grammar with a fraction parses to its value in cents |
| Money.MoneyExactly | packages/backend/src/commerce/shopify-order-projection-service.ts:153-157 | Which strings are which number of cents, digit by digit: a single digit after the point counts tenths |
| Money.CalculateTotalAmount | packages/backend/src/checkout/class-checkout-helpers.ts:429-440 | The loop prints a two-decimal string that parses to the sum of the prices |
| Allocation.AcceptedExactlyWithinCapacity | packages/backend/src/commerce/shopify-order-projection-service.ts:1224-1237 | Without an attached cart, well-formed lines are accepted exactly when confirmed plus lines fit the capacity of every class |
| Allocation.PlacedCountsAreConsecutive | packages/backend/src/commerce/shopify-order-projection-service.ts:1224-1247 | The recorded counts of a class are exactly the numbers from its confirmed count on, each once, in line order |
| Allocation.AttachedIgnoresCapacity | packages/backend/src/commerce/shopify-order-projection-service.ts:1235-1237 | With an attached cart capacity plays no part |
| Allocation.ValidateMultiLineClassPurchase | packages/backend/src/commerce/shopify-order-projection-service.ts:1189-1255 | Payment first, then the first line at fault decides; accepted lines carry their counts, whatever the cache did |
| Allocation.ValidateMultiLinePayment | packages/backend/src/commerce/shopify-order-projection-service.ts:182-199 | True exactly when one currency runs through and the lines add up to the amount of the intent |
| Allocation.EntitlementCentsAreThePrices | packages/backend/src/commerce/shopify-order-projection-service.ts:930-979 | The paid cents of the entitlements add up to the prices the checkout totalled |
| Allocation.OneEntitlementPerLine | packages/backend/src/commerce/shopify-order-projection-service.ts:930-979 | Each intent line is on exactly one entitlement, for the class it names (its other fields: EntitlementFields) |
| AllocationFields.EntitlementFields | packages/backend/src/commerce/shopify-order-projection-service.ts:930-979 | Each entitlement of an accepted order, field by field: child, class, festival and capacity of the stored line whose id it carries, id, currency and cents of the order line at its position |
| AllocationFields.EntitlementsAreForTheCart | packages/backend/src/commerce/shopify-order-projection-service.ts:930-979 | For a cart stored in any order and paid in any order q, entitlement k is for the child and the class of cart line q[k]: no child gets the place of another |
| AllocationFields.PlacesCounted | packages/backend/src/commerce/shopify-order-projection-service.ts:1224-1247 | The recorded count is the confirmed entitlements of the class and one for each earlier entitlement of the order in it |
| AllocationFields.OfferingFaultExactly | packages/backend/src/commerce/shopify-order-projection-service.ts:1204-1226 | A line is right exactly when it is one piece of its own offering, that of the active class it is for; which fault is given otherwise |
| AllocationFields.CapacityFaultExactly | packages/backend/src/commerce/shopify-order-projection-service.ts:1224-1237 | A line of the right offering is at fault exactly when no cart was attached and confirmed places and earlier lines, counted by position, fill its class |
| AllocationFields.PaymentMatchesExactly | packages/backend/src/commerce/shopify-order-projection-service.ts:167-201 | The payment matches exactly when order, lines and intent are in one currency and the running sum of the cents reaches the amount |
| CapacityCutoff.VerifyPostCartCreateCapacityCutoff | packages/backend/src/checkout/class-checkout-helpers.ts:505-594 | No failure exactly when every class is known, active, of this festival and not full; otherwise each line of each other class is described once, with child, class, capacity and count, and nothing else is |
| CapacityCutoff.CutoffIsSafeExactlyForSingleLines | packages/backend/src/checkout/class-checkout-helpers.ts:542-556 | Passing means that the cart fits, whatever the counts, exactly for carts with no class twice |
| CapacityCutoff.RepeatedClassOverfills | packages/backend/src/checkout/class-checkout-helpers.ts:542-556 | For every cart with a class twice: counts and capacities under which it passes and does not fit |
| CheckoutIntents.ReachableInv | packages/backend/src/checkout/checkout-repository.ts:268-379 | In every reachable state keys are unique, a customer has at most one unexpired open intent, ready and started intents have a cart of the same status, a failed one has its cart superseded, and every cart is the cart of exactly one intent |
| CheckoutIntents.StepKeepsInv | packages/backend/src/checkout/checkout-repository.ts:268-453 | Every call keeps that invariant at its time |
| CheckoutIntents.ClosedStaysClosed | packages/backend/src/checkout/checkout-repository.ts:371-379 | An intent that failed, was resolved or expired is never live again in any run |
| CheckoutIntents.RetryCreatesNothing | packages/backend/src/checkout/checkout-repository.ts:268-276 | At any later point of any run, creating under a used key changes nothing and answers as a status request |
| CheckoutIntents.OpenIntentBlocks | packages/backend/src/checkout/checkout-repository.ts:277-288 | While an intent is live, no other key of the customer creates one |
| CheckoutIntents.OutcomeMeansStatus | packages/backend/src/checkout/checkout-repository.ts:611-630 | What a status request answers, in terms of the intent and the expiry of its cart alone |
| CheckoutEffects.CreatesExactly | packages/backend/src/checkout/checkout-repository.ts:268-316 | A request creates an intent, with these fields, exactly when its key is new and its customer has no unexpired open intent; otherwise it gets the outcome of the intent with its key, or is told one is in progress |
| CheckoutEffects.AttachesExactly | packages/backend/src/checkout/checkout-repository.ts:318-346 | A cart is attached exactly to an intent of the organization being created, unless capacity ran out; the cart then has the owner, expiry and clock and the intent is ready with it |
| CheckoutEffects.StartsExactly | packages/backend/src/checkout/checkout-repository.ts:357-369 | A ready or started intent and its cart become started, and nothing else changes |
| CheckoutEffects.FailsExactly | packages/backend/src/checkout/checkout-repository.ts:371-379 | A known intent fails and its cart is superseded, and nothing else changes |
| CheckoutEffects.ResolvesExactly | packages/backend/src/checkout/checkout-repository.ts:447-453 | A known intent takes exactly the status of its resolution |
| CheckoutEffects.AnswersByKey | packages/backend/src/checkout/checkout-repository.ts:252-266 | Asking by key answers with the outcome of the intent that has it, written out by status, expiry and cart |
| CheckoutIntents.ClockMustNotGoBack | packages/backend/src/checkout/checkout-repository.ts:277-288 | A clock that goes back allows two live intents |
| CheckoutRepository.InMemoryCheckoutRepository.CreateIntent | packages/backend/src/checkout/checkout-repository.ts:268-316 | The two searches and the insert are the specified step and outcome |
| CheckoutRepository.InMemoryCheckoutRepository.AttachCart | packages/backend/src/checkout/checkout-repository.ts:318-346 | Attaching on the maps is the specified step and keeps the invariant; on success intent and cart are ready and linked, and a throw changes nothing |
| CheckoutRepository.InMemoryCheckoutRepository.MarkCheckoutStarted | packages/backend/src/checkout/checkout-repository.ts:357-369 | Starting intent and cart in place is the specified step |
| CheckoutRepository.InMemoryCheckoutRepository.MarkFailed | packages/backend/src/checkout/checkout-repository.ts:371-379 | Failing in place is the specified step and keeps the invariant; the intent is failed and not live, and its cart superseded |
| CheckoutRepository.InMemoryCheckoutRepository.HasProcessingIntent | packages/backend/src/checkout/checkout-repository.ts:431-445 | The search finds a live intent of the customer exactly when there is one |
| CheckoutRepository.InMemoryCheckoutRepository.OutcomeByKey | packages/backend/src/checkout/checkout-repository.ts:252-266 | The search by key answers the outcome of that intent, or none |
| CheckoutRepository.InMemoryCheckoutRepository.OutcomeOf | packages/backend/src/checkout/checkout-repository.ts:611-630 | The branches compute the specified outcome, which in a reachable state means what OutcomeMeansStatus says of intent and cart expiry |
| CreditLedger.ReachableInv | packages/backend/src/billing/billing-repository.ts:178-265 | In every reachable state balances are those of the last entries, entries carry the running sum, adjustments and entries pair one to one, and no non-empty reference repeats |
| CreditLedger.BalanceIsSum | packages/backend/src/billing/billing-repository.ts:196-262 | The stored balance equals the signed sum of the entries under its text and no prefix is negative |
| CreditLedger.RefusedExactly | packages/backend/src/billing/billing-repository.ts:182-221 | A call is refused exactly for a spent reference or a negative balance, and only then changes nothing (which way each type moves: CreditDirections) |
| CreditDirections.AcceptedMovesBalance | packages/backend/src/billing/billing-repository.ts:71-85 | An accepted call raises or lowers its account by exactly its amount: issues and refunds raise, applies, charges and write-offs lower, unless a direction is asked for |
| CreditDirections.RefusedByType | packages/backend/src/billing/billing-repository.ts:178-215 | A raising call of a non-negative amount is refused only for its reference, a lowering one also when it asks for more than is there |
| CreditDirections.AcceptedRecords | packages/backend/src/billing/billing-repository.ts:87-99 | Adjustment and entry carry what was asked for, the direction moved in, the balance reached, and the entry type by adjustment type |
| CreditDirections.RunMovesBalance | packages/backend/src/billing/billing-repository.ts:178-260 | Over every run a balance changes by what was issued and refunded less what was applied, charged and written off |
| CreditLedger.ReferenceIsSpent | packages/backend/src/billing/billing-repository.ts:300-314 | Once used, a reference of an organization is refused for good, in every run |
| CreditLedger.AccountsRightExactly | packages/backend/src/billing/billing-repository.ts:196-262 | Every account of a set of organizations is right in every run exactly when no id of the set is another one followed by a colon |
| CreditLedger.KeysCollideExactly | packages/backend/src/billing/billing-repository.ts:196-196 | Two organizations can share a balance text exactly when one id continues the other with a colon |
| CreditLedger.NoColonsNoCollision | packages/backend/src/billing/billing-repository.ts:196-196 | Ids without colons never collide |
| BillingRepository.InMemoryBillingRepository.CreateAdjustmentWithLedger | packages/backend/src/billing/billing-repository.ts:178-265 | The call on the fields is the specified step; an accepted issue or refund raises the stored balance by its amount, the other types lower it, a given direction decides instead, and the entry type is written out |
| BillingRepository.InMemoryBillingRepository.FindAdjustmentByReference | packages/backend/src/billing/billing-repository.ts:300-314 | Finds the first matching adjustment, or none when there is none |
| CalendarDays.YearLength | packages/common/src/organization.ts:615-627 | The day number of a year grows by the length of the year (section 21.4.1.3 of ECMA-262), so every day has one year |
| CalendarDays.DaysAreOrdered | packages/common/src/entitlements.ts:200-212 | Civil dates and day numbers correspond one to one and in order |
| CalendarDays.DateRoundTrip | packages/common/src/entitlements.ts:200-212 | Reading a date back from its day gives the date |
| CalendarDays.DaysCountTheCalendar | packages/common/src/organization.ts:615-627 | Day 0 is 1970-01-01 and each day is followed by the next of the calendar, with its months and leap years written out |
| Calendar.ParseExactly | packages/common/src/entitlements.ts:200-212 | Parsing accepts exactly the printed dates of years 0 to 9999 and inverts printing |
| Calendar.AddIsExact | packages/common/src/entitlements.ts:256-265 | Adding days lands exactly that many days later, and is a date exactly while the year has four digits |
| Calendar.AddAnswersExactly | packages/common/src/entitlements.ts:256-265 | Adding answers exactly for a date and 1 to 36500 days |
| Calendar.SubtractIsExact | packages/common/src/organization.ts:644-651 | Subtracting days lands exactly that many days earlier, is a date exactly from year 0 on, and throws exactly past the range of Date |
| Calendar.SubtractAnswersExactly | packages/common/src/organization.ts:644-651 | Subtracting answers exactly for a date and no negative number of days, down to the first day of Date |
| Calendar.DaysUntilInvertsAdd | packages/common/src/entitlements.ts:267-271 | Days-until inverts add-days exactly while the sum has a four-digit year |
| Calendar.AddsCompose | packages/common/src/entitlements.ts:256-265 | Additions compose; the second is refused exactly when the first left the four-digit years |
| Calendar.SubtractUndoesAdd | packages/common/src/organization.ts:644-651 | Subtraction undoes addition and addition subtraction within the four-digit years |
| Calendar.StringOrderIsDayOrder | packages/common/src/entitlements.ts:143-154 | Comparing date strings is comparing days |
| Calendar.LifecycleIsOnDays | packages/common/src/entitlements.ts:143-154 | The lifecycle computed on strings is the lifecycle on days the renewal theorems use |
| Calendar.ValidatorIsOnDays | packages/common/src/entitlements.ts:243-253 | The string bounds of the grant validator are the day bounds, except that a window ending after 9999-12-31 is always refused |
| Calendar.EnumerateFestivalDates | packages/common/src/availability.ts:66-81 | The loop lists the days from the first bound to the last in order, and throws exactly when a bound is no date |
| Calendar.ListedExactlyBetween | packages/common/src/availability.ts:66-81 | A string is listed exactly when it is a date between the bounds, and the list ascends as strings too |
| ZonedTime.ResolvesExactlyOutsideGap | packages/common/src/festival-registration-window.ts:109-120 | For every zone with at most one change near the target, four corrections find an instant exactly when one exists, and null exactly inside the gap |
| ZonedTime.TwoCorrectionsSuffice | packages/common/src/festival-registration-window.ts:111-118 | The second guess is already right whenever some instant is |
| ZonedTime.OneCorrectionIsNotEnough | packages/common/src/festival-registration-window.ts:111-118 | A zone and wall time for which the first guess is wrong |
| ZonedTime.OverlapChoice | packages/common/src/festival-registration-window.ts:111-120 | Of two instants the earlier is chosen when the target read as UTC is before the change, else the later |
| ZonedTime.ResolveTimezoneDate | packages/common/src/festival-registration-window.ts:70-121 | The loop with its break computes the bounded search, sound for every zone |
| ZonedTime.ValidComponentsExactly | packages/common/src/festival-registration-window.ts:38-53 | Valid components are the civil dates from year 100 on |
| ZonedTime.WallTimeExactly | packages/common/src/festival-registration-window.ts:38-89 | The wall times that resolve: a calendar day from year 100 on and a time up to 23:59:59 |
| ZonedTime.OpenExactly | packages/common/src/festival-registration-window.ts:248-272 | Open exactly with both bounds, from the first on and before the second |
| ZonedTime.TargetExactly | packages/common/src/festival-registration-window.ts:90-98 | The milliseconds of a wall time read as UTC, unit by unit |
| ZonedTime.DateWindowIsLocalDays | packages/common/src/festival-registration-window.ts:248-272 | With date bounds, in any zone whose clock changes at most once near each bound and neither bound skipped or repeated, registration is open on exactly those local days, less the last millisecond |
| ZonedTime.WallOrder | packages/common/src/festival-registration-window.ts:109-120 | The instants from a resolved bound on are exactly those whose wall time is not before it |

## Left out

- Coalescing of finalizations in flight: each call is one atomic step, so the promise kept per finalization key and the capacity lock are not modelled.
- resolveDecisionManually and direct calls of createClassEntitlement: the first writes the intent index without the checks of finalizeDecision, the second makes entitlements without a decision; runs contain neither.
- Keys joined with a NUL character are pairs: organization ids are taken not to contain NUL.
- Updates of stored record objects through a reference: records are values that the maps hold, so aliasing between a stored record and a returned copy is not captured.
- Trimming for blank checks treats space, tab and line ends as blank, not every Unicode space.
- The grant repository's own overlap check (createEntitlementGrantSnapshot) is a step that may refuse; its conditions are in the renewal chain only through the validator.
- PostgreSQL: SQL text, row mapping, locks and the cohort version retry; the renewal transaction is its effect on the rows of one customer and class.
- A legacy superseded status without a date (lifecycleForEntitlementRead) is not part of the renewal chain.
- The queue's handler is asynchronous and does not re-enter the queue; its retries and the webhook service around it are not modelled.
- Cached values are never undefined, and a loader does not call the cache synchronously; `onEvict` is a log.
- WorkerQueue.ClampPositiveInt: options are real numbers; not-a-number and infinities are the absent case.
- Eligibility results carry child, class, reason and what satisfied the prerequisite; messages, availability metadata and dependency descriptors are data copied along.
- Eligibility.CartVerdict: the classes the lines name are filed under their own id, as normalizeClasses files them and as the class checkout builds its map (packages/backend/src/checkout/class-checkout-service.ts:229-243); CartVerdictByPosition is for any map.
- Eligibility.VerdictIsOfTheMultiset: the same.
- Eligibility.CapacityIsCounted: the same.
- EligibilityAdvisory.AvailableCandidatesTogether: the same.
- Lines of an advisory request are distinct objects: the position found by object identity is the rank among the cart lines.
- LineIdentity.RequireClassCheckoutIntentLineMapping: line indices are integers; a fractional or missing index, and an intent whose lines are not an array, are not modelled.
- Other columns of intent lines (offering, division, creation time) are data copied along.
- Money.CalculateTotalAmount: prices are exact decimals with at most two places, or empty; floating point and prices parseFloat reads only in part are not modelled.
- Allocation.ValidateMultiLineClassPurchase: the active classes and confirmed counts are read as one consistent snapshot; the checks before it (identity, payment time, customer) and the single-line path are not modelled.
- Allocation.EntitlementCentsAreThePrices: `Number` of a bigint is exact, so totals are taken to be below 2^53 cents.
- CapacityCutoff.VerifyPostCartCreateCapacityCutoff: the texts and the wrapping error are left out; a failure says whether the class is no longer active.
- Intents carry key, status, cart, expiry and creation time; offering data is copied along. Registration metadata is in the fulfilment modules only.
- CreditLedger.ReachableInv: entries of different currencies under one balance are added as the code adds them; no conversion is claimed.
- Billing mismatches, reasons, notes and administrators are left out.
- Calendar.ParseExactly: Date parsing rolls a day past the end of its month over; an engine that answers an invalid Date instead accepts the same strings.
- ZonedTime.ResolveTimezoneDate: `Intl` and the zone database are an arbitrary offset function of the instant; whole-second offsets and the renderings of years before 100 are not modelled, nor are the patterns that split a boundary string into components.
- ZonedTime.DateWindowIsLocalDays: a bound whose wall time is skipped never opens the window (ResolvesExactlyOutsideGap), and one that occurs twice opens it at the instant OverlapChoice names; the local-day statement is for the other bounds.
- Storefront, identity and payment clients, signatures, encryption, routing, environment loading and the frontend.
- Input validators, coverage gaps, reports, pagination, recovery requests, reconciliation listings and audit records: checks of single fields, filters over stored records, and records that nothing modelled here reads.
