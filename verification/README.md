# The ephemeral namespace operator, verified

The operator keeps pools of prepared namespaces, lends them to people who file a reservation, and takes them back when
the reservation expires. Four workers write the same objects: the pool controller fills and drains a pool towards its
size under its size limit; the reservation controller claims a ready namespace, persists the status, adds a finalizer,
and later drains the Cluster API clusters before it lets go; the ClowdEnvironment controller marks a namespace ready;
the poller holds an in-memory index of expiry times and deletes what has expired. Any API call may fail, and between any
two calls the others may have written.

## How it is built

- `Objects` holds the objects; `Protocol` the control plane as a transition system. Every single write of every worker,
  every user action, garbage collection, the passing of time and a restart of the operator is one `Action`.
  The state also remembers what each reservation asked for when it was filed.
- `Invariant`, `Evolution` and `Interference` prove what one step keeps, how the state moves over any number of steps,
  and what a worker may rely on while the others step.
- `Guarantees` and `SizeLimit` state what holds over every run, whatever the interleaving and wherever calls fail.
- `ApiServer` is the store a controller sees. Each object carries a version, an update with an old one is refused (the
  "Concurrency Control and Consistency" section of the Kubernetes API conventions), a failed write may or may not have
  happened, and `Interfere` lets the other workers take any number of steps.
- `Namespaces`, `PoolController`, `ReservationController`, `ClowdEnvController` and `Poller` are the source's code on
  that store, with its loops and early exits. Each method is proved to write only legal steps of the protocol under any
  interference and any failures (`Continues`), and says which of the steps since are the worker's own (`OwnDid`,
  `OwnPrefix`, `PassSteps`). Left alone and without failures a pass writes exactly its plan (`Did`):
  `PoolPlans` and `ReservationPlans` hold the plans. A pass nothing comes between (`calm`), failures or not, deletes no
  namespace of a reservation, claims only ready ones and adopts only below the size limit (`Undisturbing`). `PoolSteps`
  says what the steps of the pool controller do to its counts.
- `PoolOutcomes` and `ReservationOutcomes` say what such a pass leaves behind and how it ends, in terms of the labels,
  owners, annotations and statuses alone, without the plans.
- `Operator` lets the four workers take turns, so the guarantees are about the code and not only about the protocol.
- `Execution` says what a plan does to a state; `PoolLoop`, `RetrySearch` and `DrainLoop` prove where repeated passes lead.
- `Secrets`, `TeamSecrets` and `MachinePools` are the helper loops that touch nothing the controllers look at.
- `Witnesses`, `ClaimWitnesses`, `LimitWitnesses` and `EarlyExpiry` hold runs that refute plausible guarantees.

## What the proofs found

- A duration of whole seconds is never cut short. The store keeps a status expiration in whole seconds, so a restarted
  poller can delete a reservation up to a second early exactly if its duration is not a whole number of seconds
  (`EarlyExpiry.DeletedEarlyIff`).
- A reservation may own two namespaces (`Witnesses.TwoNamespacesOwned`): exactly if it claimed two before its status
  named one (`Guarantees.OwnsTwoIff`). A pass claims at most one (`ReservationPlans.PassClaimsOnce`), so the first of
  these ended between the owner update and the status write, and a later one took another. Once the status names a
  namespace there are no further claims (`Guarantees.NamedClaimsNoMore`).
- A reservation may be active on a namespace that is gone, although no pass was disturbed: the ready list does not look at
  the deletion timestamp, and a namespace that could not be equipped is deleted while its environment may still become
  ready (`ClaimWitnesses.ActiveOnGone`). A claimed namespace lasts exactly if it was not being deleted when it was
  claimed (`Guarantees.ClaimIsSafeIff`). If the pool's passes run against the claim, it can be lost even then
  (`ClaimWitnesses.ActiveOnDeleted`).
- The last update of the ClowdEnvironment pass never succeeds: the object was read before the completion time was
  written. It does no harm, but the pass that first completes a namespace always ends in an error, and the metric after
  it is never recorded (`ClowdEnvController.ClowdenvironmentReconciler.WriteBack`).
- An error of the frontend environment is marked on the namespace and overwritten with "ready" in the same pass
  (`ClowdEnvController.ClowdenvironmentReconciler.Mark`).
- "ready" may be written over "error" or "deleting", and only that, or a claim of a namespace that does not count, lets
  a pool exceed its size limit, in that step or in an adoption after it (`SizeLimit.LimitExceededIff`,
  `SizeLimit.SizeLimitHolds`). All three do happen (`LimitWitnesses.LimitExceededByReadyWrite`,
  `LimitWitnesses.LimitExceededByClaim`, `LimitWitnesses.LimitExceededByAdoption`).
- A surplus goes down by one namespace per pass however large it is, because the scan goes over an unchanged snapshot
  (`PoolLoop.SurplusShrinks`).
- The ready count of a pool can disagree with the ready list exactly when a namespace of an earlier pool of the same
  name is still ready (`PoolPlans.ReadyAgreement`), which can be (`LimitWitnesses.ReadyDisagrees`).
- A team's secrets are silently not copied if the pool that names the teams cannot be read
  (`TeamSecrets.CopyReservationSecrets`).

## Model

| member | source | states |
|---|---|---|
| Invariant.StepKeepsInv | controllers/cloud.redhat.com/namespacereservation_controller.go:70-252 | every write of every worker, every outside change and a restart keep the invariant: one owner per labelled namespace, lifecycle, legal expiries, the pool a reservation asked for, complete index, which uids were ever named or released, size limit |
| Invariant.RunKeepsInv | controllers/cloud.redhat.com/namespacepool_controller.go:50-110 | the invariant holds in every state of every run from a state in which it holds |
| Invariant.EmptyClusterInv | controllers/cloud.redhat.com/namespacereservation_controller.go:254-262 | it holds of an empty cluster, so of everything reachable |
| Evolution.RunEvolves | controllers/cloud.redhat.com/helpers/namespaces.go:166-185 | over any stretch of a run: an object is unchanged or has a version issued since, a claimed namespace keeps its owner, a completion time stays, reservations only advance, one with the finalizer leaves only by its release |
| Interference.ForeignStepRely | controllers/cloud.redhat.com/namespacereservation_controller.go:254-262 | what each worker may rely on while the others step: only it moves its own claims, adoptions or index entries |
| Guarantees.OneOwnerEach | controllers/cloud.redhat.com/namespacepool_controller.go:164-184 | in every reachable state a labelled namespace has exactly one owner and `reserved` is "false" iff that is a pool, "true" iff it is a reservation |
| Guarantees.ExclusiveAssignment | controllers/cloud.redhat.com/namespacereservation_controller.go:336-387 | in every reachable state no two reservations in active or deleting name the same namespace, and it has that reservation as only owner while it exists |
| Guarantees.ClaimIsFinal | controllers/cloud.redhat.com/namespacereservation_controller.go:373-377 | after a claim, whatever runs against it, the namespace keeps that owner and `reserved` "true" as long as it exists |
| Guarantees.OwnedIffClaimed | controllers/cloud.redhat.com/namespacereservation_controller.go:344-377 | the ledger gives a namespace to a reservation iff that reservation claimed it at an earlier step |
| Guarantees.NamedClaimsNoMore | controllers/cloud.redhat.com/namespacereservation_controller.go:99-205 | once its status names a namespace, no later step of the run is a claim by that reservation, whether or not it still exists: only "" and waiting lead to a claim |
| Guarantees.ClaimsFromItsPool | controllers/cloud.redhat.com/namespacereservation_controller.go:91-156 | in every run, under any interference: a namespace that is claimed is labelled with the pool the spec of the reservation asks for, "default" if it asks for none, and with the pool in its status if that is set |
| Guarantees.ClaimsForFiled | controllers/cloud.redhat.com/namespacereservation_controller.go:91-156 | every claim goes back to a reservation filed before it under that name and uid, and takes a namespace labelled with the pool asked for then, also when the reservation is gone by now |
| Guarantees.ActiveOnItsPool | controllers/cloud.redhat.com/namespacereservation_controller.go:207-225 | the pool in the status of an active or draining reservation is the one its spec asks for, and the label of its namespace |
| Guarantees.OwnsTwoIff | controllers/cloud.redhat.com/namespacereservation_controller.go:199-225 | a reservation owns two namespaces iff it claimed two different ones, both at steps at which its status named none |
| Guarantees.SecondNamespaceOwned | controllers/cloud.redhat.com/namespacereservation_controller.go:199-205 | a reservation that owns a namespace can own another of a pool's after the next step iff its status names none and the label of the other is the pool its spec asks for; the claim then leaves it the only owner of both |
| Witnesses.TwoNamespacesOwned | controllers/cloud.redhat.com/namespacereservation_controller.go:373-384 | such a state is reached from an empty cluster: one reservation, active on one namespace, owns two |
| ReservationPlans.PassClaimsOnce | controllers/cloud.redhat.com/namespacereservation_controller.go:70-252 | of the steps one pass writes itself, under any interference, at most the first is a claim, and it is for the reservation of the pass |
| Guarantees.AdoptionNeedsFreshName | controllers/cloud.redhat.com/namespacepool_controller.go:213-218 | adopting a namespace keeps the claims intact iff no reservation names it, which is why names must be fresh |
| Guarantees.LifecycleIsMonotone | controllers/cloud.redhat.com/namespacereservation_controller.go:99-225 | over every run the state advances along "", waiting, active, deleting; the namespace is set exactly in the last two and never changes; finalizer implies namespace |
| Guarantees.DrainBeforeRelease | controllers/cloud.redhat.com/namespacereservation_controller.go:264-334 | a reservation that ever carried the finalizer leaves the store only by the step that takes it off, and the last listing of its clusters before that step found none, or no Cluster kind |
| Guarantees.ExpiryIsNeverEarly | controllers/cloud.redhat.com/poller.go:42-58 | of a reservation that asks for duration d, or for none and d is one hour, under an unreused name: the reservation controller deletes it not before creation plus d, nor does the poller if d is whole seconds, and never a second early |
| Guarantees.ExpiryEntries | controllers/cloud.redhat.com/namespacereservation_controller.go:109-116 | for the same d, every index entry and every stored expiration of an active one is creation plus d or that cut to whole seconds; for d == 0 a time from its creation on |
| Guarantees.MalformedNeverExpires | controllers/cloud.redhat.com/namespacereservation_controller.go:109-113 | no worker ever registers an expiry for a reservation of malformed duration under an unreused name, and it is never active |
| EarlyExpiry.DeletedEarlyIff | controllers/cloud.redhat.com/poller.go:67-83 | after a restart and start-up population a poll pass can delete a running reservation before creation plus duration iff the duration is not a whole number of seconds |
| EarlyExpiry.Restarted | controllers/cloud.redhat.com/poller.go:67-83 | after restart and population the index holds exactly the persisted expirations of the active reservations |
| Guarantees.DroppedWasExpired | controllers/cloud.redhat.com/poller.go:42-47 | an entry leaves the index only when it is not the zero time and has been reached, or with a restart, whatever runs against it |
| Guarantees.IndexIsComplete | controllers/cloud.redhat.com/poller.go:42-83 | after start-up population an active reservation no one deleted is indexed, unless the poller popped it, no reconcile registered it since, and (for a name not reused) no deletion of it has succeeded since the pop |
| Guarantees.DeletionLasts | controllers/cloud.redhat.com/poller.go:54-58 | a deleted reservation is marked or gone in every later state, unless its name is reused |
| Guarantees.LostWasPopped | controllers/cloud.redhat.com/poller.go:47-58 | an entry is missing only through a pop that no registration or restart followed |
| SizeLimit.WhatRaises | controllers/cloud.redhat.com/namespacepool_controller.go:149-231 | a step raises ready + creating + reserved of a pool by one iff it is an adoption by that pool or makes an uncounted namespace count; no other step raises it |
| SizeLimit.LimitExceededIff | controllers/cloud.redhat.com/namespacepool_controller.go:189-209 | a pool within its limit exceeds it in a step iff it was full and the step revives a namespace or adopts one; the adoption needs a revival since the last count, and cannot happen in an undisturbed pass |
| SizeLimit.SizeLimitHolds | controllers/cloud.redhat.com/namespacepool_controller.go:189-231 | whatever the interleaving and failures, from any count of a pool on it has at most its limit, or what it had then, plus the number of revivals since |
| SizeLimit.RevivedSinceCount | controllers/cloud.redhat.com/namespacepool_controller.go:149-187 | what the creation loop may go over the limit by is exactly the number of revivals since the pool was last counted |
| SizeLimit.WhatRevives | controllers/cloud.redhat.com/clowdenvironment_controller.go:87 | a revival is "ready" over a status that does not count, or a claim of a namespace that was not ready or creating in the present pool |
| SizeLimit.SizeLimitHoldsUndisturbed | controllers/cloud.redhat.com/helpers/pool.go:9-24 | in undisturbed passes without revivals a pool at or below its limit stays there, whatever happened before |
| LimitWitnesses.LimitExceededByReadyWrite | controllers/cloud.redhat.com/clowdenvironment_controller.go:87 | a run from an empty cluster in which "ready" over "deleting" puts a pool over its limit |
| LimitWitnesses.LimitExceededByClaim | controllers/cloud.redhat.com/namespacereservation_controller.go:344-373 | a run in which a claim of a namespace left by an earlier pool of that name puts a pool over its limit |
| LimitWitnesses.LimitExceededByAdoption | controllers/cloud.redhat.com/namespacepool_controller.go:211-231 | a run in which a pool at its limit adopts one more, after "ready" over "deleting" since its count |
| Guarantees.StaleWriteFails | controllers/cloud.redhat.com/clowdenvironment_controller.go:91-110 | in every interleaving no state after the completion-time write carries the version read before it |
| Guarantees.ClaimedNamespaceIsSafe | controllers/cloud.redhat.com/namespacepool_controller.go:137-180 | with undisturbed passes a namespace stays with the reservation that owns it while that exists, and is there and not being deleted iff it was so at the start of the stretch |
| Guarantees.ClaimIsSafeIff | controllers/cloud.redhat.com/helpers/namespaces.go:142-164 | with undisturbed passes a claimed namespace is there and not being deleted, while the reservation exists, iff it was not being deleted at the claim, which neither the ready list nor the claim looks at |
| Guarantees.OwnedIsLeftAlone | controllers/cloud.redhat.com/namespacepool_controller.go:137-180 | while its reservation exists the only steps on a namespace are annotations, the end of a deletion begun before, and a deletion by a disturbed pass: it is not claimed again, adopted, or garbage collected |
| ClaimWitnesses.ActiveOnGone | controllers/cloud.redhat.com/namespacepool_controller.go:218-227 | a run from an empty cluster, every step undisturbed, after which a reservation is active on a namespace that is gone: it was being deleted when it was claimed |
| ClaimWitnesses.ActiveOnDeleted | controllers/cloud.redhat.com/namespacereservation_controller.go:336-377 | a run in which the pool marks and deletes a namespace around its claim, so that a reservation is active on one being deleted that was not when it was claimed |
| Operator.Operator.Turn | controllers/cloud.redhat.com/namespacepool_controller.go:50-110 | one pass of any worker is a stretch of a legal run, and undisturbing if nothing comes in between; in one of the reservation controller at most one namespace is claimed, whatever comes in between |
| Operator.Operator.Serve | controllers/cloud.redhat.com/namespacereservation_controller.go:254-262 | any number of turns in any order make a legal run, and an undisturbed one if no turn is interrupted |
| Operator.Operator.ClaimsAreSafe | controllers/cloud.redhat.com/namespacepool_controller.go:233-256 | over such turns a namespace stays its reservation's while that exists, and is there and not being deleted iff it was so before them |
| Operator.Operator.LimitIsKept | controllers/cloud.redhat.com/namespacepool_controller.go:189-231 | over such turns, without revivals, a pool at or below its limit stays there |
| ApiServer.Server.Commit | controllers/cloud.redhat.com/namespacereservation_controller.go:222-225 | a write is one legal step, and the run goes on by exactly it |
| ApiServer.Server.Interfere | controllers/cloud.redhat.com/namespacereservation_controller.go:258-260 | between two calls of one worker the others may have taken any steps, within what it relies on |
| ApiServer.Server.UpdateNamespace | controllers/cloud.redhat.com/helpers/namespaces.go:59 | an update is the named step on the current version, or refused; a failed one may have happened |
| ApiServer.Server.UpdateStatus | controllers/cloud.redhat.com/namespacereservation_controller.go:222-225 | a status write replaces the status only, keeps whole seconds of the expiration, and is refused on an old version |
| ApiServer.Server.UpdateMeta | controllers/cloud.redhat.com/namespacereservation_controller.go:228-234 | any other write leaves the status alone; taking the last finalizer off a deleted reservation removes it |
| ApiServer.Server.ListClusters | controllers/cloud.redhat.com/helpers/capi.go:22-29 | the listing holds exactly the clusters of the namespace; finding none, or no Cluster kind, is recorded as the drained observation, and finding some takes it back |
| ApiServer.ListingMembers | controllers/cloud.redhat.com/helpers/namespaces.go:133-140 | a listing by pool label holds each labelled namespace exactly once and no other |
| Namespaces.ReadyItemsMembers | controllers/cloud.redhat.com/helpers/namespaces.go:142-152 | the ready list holds exactly the namespaces with a pool as owner and status ready |
| Namespaces.CheckReadyStatus | controllers/cloud.redhat.com/helpers/namespaces.go:156-164 | appends the namespace iff it has the pool's label and is ready |
| Namespaces.CollectReady | controllers/cloud.redhat.com/helpers/namespaces.go:142-152 | the scan over namespaces and owners collects the ready list, in order and without repetition |
| Namespaces.GetReadyNamespaces | controllers/cloud.redhat.com/helpers/namespaces.go:130-153 | the ready list of the store as it is, or an error |
| ReadyLists.ReadyIsFree | controllers/cloud.redhat.com/helpers/namespaces.go:130-164 | every item of it is a namespace with this label, a pool as its only owner and status ready, and it is empty iff there is none |
| Namespaces.GetNamespace | controllers/cloud.redhat.com/helpers/namespaces.go:110-127 | a retried read returns the namespace current at its end; without failures it finds it iff it is there |
| Namespaces.TryAnnotate | controllers/cloud.redhat.com/helpers/namespaces.go:170-183 | one round of read, merge and write changes exactly the patched keys of the version current at the write; under any interference the worker's own steps are this write or none, exactly this on success and none on a conflict |
| Namespaces.UpdateAnnotations | controllers/cloud.redhat.com/helpers/namespaces.go:166-185 | on success the last step of the run is this write, and relative to the state just before it only the patched keys of that namespace differ: owner, `reserved`, other keys and other namespaces survive; the worker itself writes nothing else, and at most this once |
| PoolPlans.CalculateNamespaceQuantityDelta | controllers/cloud.redhat.com/helpers/pool.go:9-24 | the largest change that overshoots neither the size wanted nor the limit |
| PoolPlans.TotalIsSum | controllers/cloud.redhat.com/namespacepool_controller.go:194-195 | ready + creating + reserved is the number of namespaces the size limit is about |
| PoolPlans.ReadyAgreement | controllers/cloud.redhat.com/namespacepool_controller.go:164-184 | Status.Ready equals the length of the ready list iff no ready namespace is left from an earlier pool of that name |
| LimitWitnesses.ReadyDisagrees | controllers/cloud.redhat.com/namespacepool_controller.go:164-184 | a run from an empty cluster after which the ready count is 0 and the ready list holds one |
| PoolController.NamespacePoolReconciler.CountOwners | controllers/cloud.redhat.com/namespacepool_controller.go:164-180 | the nested loops count those owned by this pool object that are ready, those that are creating, and those a reservation owns, and collect exactly the names of its own in error, in order |
| PoolController.NamespacePoolReconciler.GetPoolStatus | controllers/cloud.redhat.com/namespacepool_controller.go:149-187 | in the store: ready and creating are the numbers of labelled namespaces this pool object owns in that status, reserved is the number of labelled ones a reservation owns, and a name is collected iff it is labelled, owned by this pool object and in error; the size limit is held against this count from here on |
| PoolSteps.DeltaFits | controllers/cloud.redhat.com/namespacepool_controller.go:189-209 | the difference computed from the counters fits under the limit of the pool that was read |
| PoolSteps.DeltaFitsExactly | controllers/cloud.redhat.com/namespacepool_controller.go:189-209 | alone, it fits under the limit itself |
| PoolSteps.RoomKept | controllers/cloud.redhat.com/namespacepool_controller.go:211-231 | whatever the others do meanwhile, that room is still there, or charged to them |
| PoolSteps.PartialDeletions | controllers/cloud.redhat.com/namespacepool_controller.go:137-147 | any initial part of the deletions leaves every count and the ready list as they were |
| PoolSteps.MarkedCloser | controllers/cloud.redhat.com/namespacepool_controller.go:244-257 | marking the head of the snapshot any number of times closes a surplus by at most one |
| PoolController.NamespacePoolReconciler.DeleteNamespace | controllers/cloud.redhat.com/helpers/namespaces.go:366-381 | marks, reads and deletes; undisturbing unless the namespace is a reservation's; under any interference the worker's own steps are the first of these two, and both on success |
| PoolController.NamespacePoolReconciler.ReadAndDelete | controllers/cloud.redhat.com/helpers/namespaces.go:371-378 | under any interference the worker writes at most the deletion, and does if the call succeeds |
| PoolController.NamespacePoolReconciler.DeleteErrorNamespaces | controllers/cloud.redhat.com/namespacepool_controller.go:137-147 | the worker's own steps are the deletions in order up to the first failure, all of them on success, under any interference; alone it touches no reserved namespace |
| PoolController.NamespacePoolReconciler.AdoptNamespace | controllers/cloud.redhat.com/helpers/namespaces.go:47-63 | the retry loop adopts at most once under any interference, leaving room for one less; alone, only below the limit itself if there was room |
| PoolController.NamespacePoolReconciler.CreateClowdEnv | controllers/cloud.redhat.com/helpers/clowdenvs.go:16-45 | creates the environment of the template, or nothing without one |
| PoolController.NamespacePoolReconciler.UpdateNamespaceResources | controllers/cloud.redhat.com/helpers/namespaces.go:46-107 | adopts, creates the environment, and marks ready only if there is no environment; keeps what was done before a failure |
| PoolController.NamespacePoolReconciler.FillOne | controllers/cloud.redhat.com/namespacepool_controller.go:212-228 | one round uses up room for one namespace at most, also after a failed creation; alone, the queue grows by at most one wherever calls fail |
| PoolController.NamespacePoolReconciler.EquipOrDelete | controllers/cloud.redhat.com/namespacepool_controller.go:218-227 | it succeeds only with all the steps that equip the namespace, or with the first few of them and then its deletion, whatever runs against it; room for one is used up at most and, alone, the queue grows by at most one |
| PoolController.NamespacePoolReconciler.IncreaseReadyNamespacesQueue | controllers/cloud.redhat.com/namespacepool_controller.go:211-231 | alone, the queue grows by at most the increase wherever calls fail, and by exactly that many under fresh names if none does |
| PoolController.NamespacePoolReconciler.MarkFirst | controllers/cloud.redhat.com/namespacepool_controller.go:245-255 | the inner loop writes "error" to the first ready, unreserved namespace of the snapshot and to no other, under any interference |
| PoolController.NamespacePoolReconciler.DecreaseReadyNamespacesQueue | controllers/cloud.redhat.com/namespacepool_controller.go:233-260 | marks the same first ready namespace again and again; alone, the surplus comes closer to zero or stays, wherever calls fail, and without failures one ready namespace of the pool's label is in error afterwards, if there was one, and nothing else has changed |
| PoolController.NamespacePoolReconciler.Reconcile | controllers/cloud.redhat.com/namespacepool_controller.go:50-110 | legal steps under any interference and failure; if nothing comes in between, the difference comes closer to zero or stays and never flips its sign, and no adoption goes over the limit, wherever calls fail; without failures exactly the plan: exactly the namespaces of this pool in error become terminating and "deleting", of the others at most one changes, from ready to error, whatever is new is equipped, and the status holds the numbers there were |
| PoolOutcomes.StatusRight | controllers/cloud.redhat.com/namespacepool_controller.go:164-184 | the counters are the numbers of namespaces with this label, such an owner and such a status |
| PoolOutcomes.ErrorsRight | controllers/cloud.redhat.com/namespacepool_controller.go:172-174 | a name is collected from a listing iff its namespace has this label, is owned by this pool object, and has status "error" |
| PoolOutcomes.DeletionsDone | controllers/cloud.redhat.com/namespacepool_controller.go:137-147 | after the deletions exactly these are terminating with status "deleting", besides those that were, and all others are as before |
| PoolOutcomes.GrowthDone | controllers/cloud.redhat.com/namespacepool_controller.go:211-231 | after the creation loop every new namespace has the pool's label, this pool as only owner, `reserved` "false", and status ready, or creating with the environment of the template; the old ones are as before |
| PoolOutcomes.ShrunkFrom | controllers/cloud.redhat.com/namespacepool_controller.go:233-260 | any number of rounds over one snapshot puts the first ready namespace in error and changes nothing else |
| PoolLoop.PassMovesDelta | controllers/cloud.redhat.com/namespacepool_controller.go:86-102 | one pass brings a shortage to 0, a surplus down by one if the first ready namespace is this pool's own, and never flips the sign |
| PoolLoop.SurplusShrinks | controllers/cloud.redhat.com/namespacepool_controller.go:233-260 | after m passes the difference is exactly that of the start plus the pool's own namespaces among the first m ready ones, capped at 0 |
| PoolLoop.PoolConverges | controllers/cloud.redhat.com/helpers/pool.go:9-24 | the difference reaches 0, or no ready namespace is left, in one pass or in as many as there are ready namespaces |
| Objects.Persist | config/crd/bases/cloud.redhat.com_namespacereservations.yaml:87-90 | a stored timestamp is the time cut to whole seconds, and equal to it iff it has no fraction |
| Objects.VerifyClowdEnvReady | controllers/cloud.redhat.com/helpers/clowdenvs.go:69-90 | ready iff both conditions are "True" and a local web mode has a hostname |
| ReservationController.NamespaceReservationReconciler.ReserveNamespace | controllers/cloud.redhat.com/namespacereservation_controller.go:336-387 | on success the namespace is the reservation's for good, whatever ran against it; otherwise the worker itself wrote at most the claim. It is called only while the status names no namespace |
| ReservationController.NamespaceReservationReconciler.VerifyClowdEnvForReadyNs | controllers/cloud.redhat.com/namespacereservation_controller.go:402-412 | without failures, true iff the environment exists and verifies |
| ReservationController.NamespaceReservationReconciler.TakeReady | controllers/cloud.redhat.com/namespacereservation_controller.go:176-205 | marks the namespace if a Clowder pool's environment does not verify, assigns it otherwise; done only with all the steps of the assignment |
| ReservationController.NamespaceReservationReconciler.Suitable | controllers/cloud.redhat.com/namespacereservation_controller.go:176-197 | without failures true iff the pool is there and, if its namespaces have environments, this one's exists and verifies; true only if the worker wrote nothing, and otherwise it wrote at most "error" |
| ReservationController.NamespaceReservationReconciler.Wait | controllers/cloud.redhat.com/namespacereservation_controller.go:162-174 | ends in a requeue unless the status write fails; alone and without failures the reservation waits, with its pool and its expiry in whole seconds in the status |
| ReservationController.NamespaceReservationReconciler.Assign | controllers/cloud.redhat.com/namespacereservation_controller.go:199-250 | claim, index, status, finalizer in that order: whatever fails and whatever runs against it, what the worker wrote is a prefix of these |
| ReservationController.NamespaceReservationReconciler.PersistActive | controllers/cloud.redhat.com/namespacereservation_controller.go:207-225 | the active status goes only over the version read, with a namespace that is the reservation's and a legal expiry |
| ReservationController.NamespaceReservationReconciler.Finalize | controllers/cloud.redhat.com/namespacereservation_controller.go:227-234 | adds the finalizer only to a reservation whose status names a namespace |
| ReservationController.NamespaceReservationReconciler.ReconcileUnassigned | controllers/cloud.redhat.com/namespacereservation_controller.go:142-251 | deletes a malformed one, waits without ready namespace, takes the first ready one otherwise; done only with all the steps of an assignment, requeued only if it waits. Alone and without failures: a malformed one is gone and the pass fails; with no free namespace of its pool it waits and is requeued; else it is active until creation plus duration on one that was free, with index, status and finalizer, or nothing is different for it and the pass has failed |
| ReservationController.NamespaceReservationReconciler.ReconcileWaiting | controllers/cloud.redhat.com/namespacereservation_controller.go:127-140 | one whose time has come, creation plus duration being reached, is deleted and gone, never before; any other goes on as a new one, except that a malformed one stays and the pass fails |
| ReservationController.NamespaceReservationReconciler.ReconcileActive | controllers/cloud.redhat.com/namespacereservation_controller.go:100-125 | adds a missing finalizer, then refreshes index and status; alone and without failures the reservation has the finalizer afterwards, namespace and pool are as before, and index and status hold creation plus duration |
| ReservationController.NamespaceReservationReconciler.DeleteCapiResources | controllers/cloud.redhat.com/helpers/capi.go:22-41 | deletes exactly the clusters not on their way out; "none remain" only if this pass's listing found none |
| ReservationController.NamespaceReservationReconciler.ListRemaining | controllers/cloud.redhat.com/helpers/capi.go:22-29 | one listing, one observation: drained iff it found none, clusters left otherwise, nothing if the call failed |
| ReservationController.NamespaceReservationReconciler.DrainAndRelease | controllers/cloud.redhat.com/namespacereservation_controller.go:296-334 | a pass is done only if its own listing found no cluster, and then writes at most the release; alone and without failures it releases iff it found none |
| ReservationController.NamespaceReservationReconciler.HandleCapiCleanup | controllers/cloud.redhat.com/namespacereservation_controller.go:264-334 | marks "deleting", drains, releases; the branch for an empty namespace is never reached. Alone and without failures the reservation is gone and the pass done iff there was no cluster, and otherwise it is held back as "deleting" and looked at again later |
| ReservationController.NamespaceReservationReconciler.Reconcile | controllers/cloud.redhat.com/namespacereservation_controller.go:70-252 | legal steps under any interference and failure, the worker's own being the first few of a search, a refresh or a cleanup; requeued only after no more than a waiting status, and done with a claim only after the whole assignment. Alone exactly the plan of the pass, and it ends as the state of the reservation says: absent, draining, active, waiting or new |
| RetrySearch.FirstSuitable | controllers/cloud.redhat.com/namespacereservation_controller.go:187-196 | the reference: the first ready namespace whose environment verifies, or none |
| RetrySearch.SearchMarks | controllers/cloud.redhat.com/namespacereservation_controller.go:187-196 | the first m passes mark exactly the first m unsuitable namespaces and change nothing else |
| RetrySearch.RetryRefinesSearch | controllers/cloud.redhat.com/namespacereservation_controller.go:142-251 | within n + 1 passes over n ready namespaces of the pool the spec asks for, "default" if none, the reservation is active on the first suitable one, with that pool and creation plus duration in status and index, it is that namespace's only owner, and exactly the earlier ones are in error; or it waits and all are in error; no other namespace changes |
| DrainLoop.NoClusterDeletedTwice | controllers/cloud.redhat.com/helpers/capi.go:31-38 | a cleanup pass deletes a cluster iff it is there and not yet on its way out |
| DrainLoop.PassDrains | controllers/cloud.redhat.com/namespacereservation_controller.go:298-316 | while clusters are left, a pass leaves all of them on their way out and the reservation held back |
| DrainLoop.DrainTerminates | controllers/cloud.redhat.com/namespacereservation_controller.go:298-331 | if at least one cluster leaves between passes and none comes, the reservation is gone after (number of clusters) + 1 passes |
| ClowdEnvController.ClowdenvironmentReconciler.Reconcile | controllers/cloud.redhat.com/clowdenvironment_controller.go:50-117 | legal steps under any interference and failure; done only if the worker itself wrote "ready" or the environment was missing at some moment of the pass; requeued only if it wrote nothing. Alone and without failures exactly the plan: a verified environment leaves its namespace ready with a completion time, the earlier one if there was one and this pass's if not, and all else as before; without a verified one no namespace changes |
| ClowdEnvController.ClowdenvironmentReconciler.Mark | controllers/cloud.redhat.com/clowdenvironment_controller.go:79-89 | a frontend failure is marked as error and then overwritten with ready: done only if the worker's own steps are exactly these; under any interference they are the first few of error, ready, completion time |
| ClowdEnvController.ClowdenvironmentReconciler.Complete | controllers/cloud.redhat.com/clowdenvironment_controller.go:96-110 | the completion time is written and the pass does not complete |
| ClowdEnvController.ClowdenvironmentReconciler.WriteBack | controllers/cloud.redhat.com/clowdenvironment_controller.go:108-110 | the stale whole-object update never succeeds and changes nothing, whatever runs against it |
| ClowdEnvController.ClowdenvironmentReconciler.IsOwnedByPool | controllers/cloud.redhat.com/clowdenvironment_controller.go:144-156 | true iff the namespace has a pool among its owners |
| Poller.Poller.PollPass | controllers/cloud.redhat.com/poller.go:42-61 | alone, exactly the entries of keys it comes by whose time is up leave the index, whether or not the deletions succeed, and the others stay as they are; keys it does not come by stay under any interference; without failures the reservations of the dropped keys are gone or under deletion, and no other is touched |
| Poller.Poller.PollOne | controllers/cloud.redhat.com/poller.go:43-58 | an expired entry is dropped before the deletion is tried, whether or not that succeeds; the worker itself writes no more than these two, under any interference |
| Poller.Poller.PopulateActiveReservations | controllers/cloud.redhat.com/poller.go:67-83 | on success every active reservation no one deleted is indexed, also one activated meanwhile; alone the index holds the persisted expiration of each active reservation, and is as before for every other name |
| Poller.DueMayGo | controllers/cloud.redhat.com/poller.go:96-102 | an expired entry allows the deletion of whoever has the name: its stored expiry has passed, or the name was reused |
| Secrets.SecretStore.CopySecretsFrom | controllers/cloud.redhat.com/helpers/namespaces.go:198-358 | an unlisted source copies nothing and fails; otherwise a name is reported as missing iff it has no integration annotation, as mismatch iff that names neither provider, as ignored iff it names one and is marked to be ignored, and as successful or failed otherwise; the successful ones are in the target with the content of the source if overwriting or absent before, and all other names are exactly as before; nil iff none failed |
| Secrets.SecretStore.CopyOne | controllers/cloud.redhat.com/helpers/namespaces.go:249-303 | touches only its own name; an existing secret is replaced iff overwriting |
| Secrets.EverySecretOnce | controllers/cloud.redhat.com/helpers/namespaces.go:218-222 | every source secret lands in exactly one of the five lists, once |
| Secrets.ContentsExact | controllers/cloud.redhat.com/helpers/namespaces.go:231-247 | a secret is in what is copied, with its own content, iff its integration annotation names one of the two providers and it is not to be ignored |
| Secrets.SecretStore.CopyForPoolThenReservation | controllers/cloud.redhat.com/namespacereservation_controller.go:352-359 | if the pool's copy and then the overwriting one of the reservation succeed, the namespace has the pool's eligible secrets overridden by the reservation's |
| Secrets.SecretStore.CopyTwice | controllers/cloud.redhat.com/helpers/namespaces.go:263-293 | two copies in a row that succeed, with or without overwriting, leave what one copy makes of the target |
| TeamSecrets.FindTeamByName | controllers/cloud.redhat.com/helpers/reservation.go:48-55 | the first team of that name, none iff there is none |
| TeamSecrets.FindExact | controllers/cloud.redhat.com/helpers/reservation.go:74-81 | the lookup the scan computes is the first secret of that name, none iff there is none |
| TeamSecrets.CopyTeamSecrets | controllers/cloud.redhat.com/helpers/reservation.go:58-71 | without API failures it succeeds iff the destination names of the secrets found are distinct and absent; on success the first secret of each name asked for is there under its destination name, and nothing else has changed; otherwise the copies before the first misfit are there |
| TeamSecrets.RerunFails | controllers/cloud.redhat.com/helpers/reservation.go:106-108 | after a run that made its first i copies, complete or not, all fit again iff none was made and they fitted before: a rerun fails once anything has been copied |
| TeamSecrets.CopyReservationSecrets | controllers/cloud.redhat.com/helpers/reservation.go:17-45 | an unreadable pool or unknown team succeeds without copying; an unreadable source fails; otherwise the secrets of the first team of that name are copied as asked for |
| MachinePools.CapiClient.ClusterWaitingForWorkersDeletion | controllers/cloud.redhat.com/helpers/capi.go:114-142 | true iff the cluster is gone or one of its conditions says it waits for its workers |
| MachinePools.CapiClient.FreeIfStuck | controllers/cloud.redhat.com/helpers/capi.go:76-104 | frees the pool iff it is stuck |
| MachinePools.CapiClient.RemoveStuckFinalizers | controllers/cloud.redhat.com/helpers/capi.go:54-108 | on success the finalizer is gone from exactly the stuck pools and all else is unchanged; on an error, from some of them only |
| MachinePools.SecondPassIsIdle | controllers/cloud.redhat.com/helpers/capi.go:54-108 | a second pass at once changes nothing |
| MachinePools.OthersStay | controllers/cloud.redhat.com/helpers/capi.go:100 | only this finalizer goes, wherever it stands |

## Left out

- Manager wiring, leader election, flags, logging and metrics: they decide no state.
- Frontend environments and their services: whether one could be set up is a parameter of the ClowdEnvironment pass.
- Role bindings, limit ranges, resource quotas and, inside a pool or reservation pass, secret copies and machine pool
  finalizers: calls that may fail, with no effect on what the controllers look at. What the copies and the finalizer pass
  do is modelled on its own.
- Reads are current: informer caches, which may lag, are not part of this model. A lagging read behaves like one followed
  by other workers' steps, except for the worker's own writes.
- Namespace names are fresh: the random suffix is a function that avoids all names ever used.
- A pool's size limit does not change while the pool object lives; its size may.
- A reservation's spec does not change after it is filed.
- Users do not edit annotations, labels, owners or finalizers, and create no labelled namespaces.
- A restart of the operator happens between passes, not inside one.
- Data races on the poller's map: a poll pass and a reconcile interleave call by call, each map access being one step.
- The endless poll loop and its sleeps: one pass is modelled, and start-up population. Where that fails the source stops
  polling until the operator restarts, while `Operator` may try it again.
- Guarantees.ExpiryIsNeverEarly: only for names that are not reused, because the index is keyed by name.
- Guarantees.ClaimedNamespaceIsSafe: only where nothing comes between the calls of one pass, and only as to whether the
  namespace is still there: one already being deleted at the claim goes. `ClaimWitnesses` has a run for each.
- ApiServer.Server.ListNamespaces: the order of a listing is a parameter where a pass is described exactly, and free otherwise.
- Secrets.SecretStore.CopySecretsFrom: source and target are different namespaces and the source does not change during the copy.
- MachinePools.CapiClient.RemoveStuckFinalizers: no one else writes the machine pools during the pass, and all its age checks use one time.
- IsPoolAtLimit and isOwnedBySpecificPool: one compares two numbers for a log line, the other is not called.
