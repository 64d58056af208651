# The ENI allocation protocol, verified

This project models how pre-created network interfaces (ENIs) are handed to `AWSMachine` objects, and proves
that the allocator keeps its promises. Four processes share one store of `ENIPool`, `ENIClaim` and `AWSMachine`
objects:

- the **admission webhook** picks an interface of the machine's pool and reserves it by atomically creating a
  claim that bears the ENI's name, before the machine itself is stored;
- the **claim collector** binds claims to existing machines, and releases the claims of machines that are gone,
  after a grace period of 30 seconds;
- the **machine controller** is a resumable version of the same allocator, for machines that arrive paused;
- the **pool webhook and pool controller** keep pools well formed and report how much is left.

## How it is organised

| files | content |
|---|---|
| `Api`, `ClusterStore` | the objects, and the store with its atomic requests |
| `Addresses`, `Candidates`, `Allocation` | address texts, the order of trial, and what an allocation means |
| `PoolValidator`, `PoolRegistry` | acceptance of pools, histories of pools, finding a machine's pool |
| `AdmissionWebhook`, `ClaimCollector`, `MachineController`, `Inventory` | the four programs, as classes and methods proved against their specifications |
| `AllocatorPromises`, `MachineOutcomes` | what those specifications promise, in terms of the fields of pools, machines and claims |
| `MachineStates`, `MergePatch`, `MachinePatches` | what they imply for machines over time and under concurrent edits |
| `Protocol`, `ProtocolSafety`, `ProtocolBounds`, `ProtocolResumption`, `ProtocolRace`, `ProtocolOneClaim`, `ProtocolStaleRead` | all processes together: a timed transition system whose steps are single API operations, its invariant, safety over all runs, and what each hypothesis is worth |
| `ProtocolRefinement`, `AllocatorRuns` | the programs as runs of that system |

## Hypotheses

The guarantees over all runs rest on the following, which are the guards of the steps in `Protocol`.

- Three time bounds: `d` from the create of a claim to the outcome of its admission, `s` from the moment the
  machine was really absent to the age check that relies on it (the read goes through a cache), `g` for the lag of
  the creation timestamp (rounding to seconds, clock skew). Safety needs `d + s + g` below 30 s, and that is exact.
- Only the collector deletes claims, and nobody else removes the allocator's finalizer. Other finalizers may come
  and go, and anybody may create further claims for machines that are not managed by the controller.
- Reconciles of one name are serialised, and a collector sees its own writes to a claim. The second half is needed:
  `ProtocolStaleRead.StaleReadDeletesUsedClaim`.
- Exclusivity is about injected interfaces, not about interfaces a user has preset.
- For machines served by the controller: the claim list it scans is fresh, the webhook stays out (such machines
  carry the CAPI pause), and a name is not reused while an old claim or an old reconcile of it is around. Names of
  machines served by the webhook may be reused freely.
- Pool writes are serialised. `PoolRegistry.ConcurrentCreatesExactly` says what that saves, and
  `PoolRegistry.ConcurrentCreatesCanClash` shows that it matters.

Pools may change at any time in the transition system: an admission's candidates are an arbitrary list.

## Where code and documentation differ

Each of these promises is kept exactly under the condition proved in the member named.

- README.md:92-93 says the exhaustion policy applies when a requested interface is claimed already. At admission
  no policy is consulted, and the machine is admitted as it is (`ExhaustedIsAdmitted` and
  `FollowsPolicyExactlyWhen` in `AdmissionWebhook.MachineDefaulter`); only the controller
  honours the policy (`MachineOutcomes.PolicyIsHonoured`).
- docs/design.md:140-142 says a create fails when region or VPC cannot be determined. The webhook accepts empty
  values (`AdmissionWebhook.MachineDefaulter.FailsUndeterminedExactlyWhen`); only the controller waits for both
  (internal/controller/awsmachine_controller.go:152).
- api/v1alpha1/enipool_types.go:74 calls the Fail policy terminal. A failed machine stays paused and is tried
  again (`MachineStates.AllocatesExactlyWhen`, `MachineStates.FailedCanRecover`).
- docs/design.md:218 promises one active claim per ENI, which holds; it does not follow that a machine has one
  claim (`ProtocolOneClaim.OneClaimExactlyWhen`, `ProtocolOneClaim.RetryTakesSecondClaim`).

## Model

| member | source | states |
|---|---|---|
| ProtocolSafety.ClaimSafety | internal/controller/eniclaim_controller.go:69-92 | Timed claim safety: with d + s + g below the grace period, at every point of every run, no step by anybody deletes or strips the claim of an ENI that is injected in an existing (live or terminating) machine, held by an admission in flight, or awaited by a managed machine |
| ProtocolSafety.UsedClaimUntouched | internal/controller/eniclaim_controller.go:69-92 | The same for one step from any state satisfying the protocol invariant |
| ProtocolSafety.OldEnoughIsUnused | internal/controller/eniclaim_controller.go:81-88 | The timing argument: a claim that passes the age check after its machine was seen missing is in nobody's use |
| ProtocolSafety.StepKeeps | internal/controller/eniclaim_controller.go:56-110 | Every one of the 27 kinds of protocol step keeps the invariant tying claims, admissions, machines, collectors and allocators together |
| ProtocolSafety.RunsAreExclusive | docs/operation-flow.md:239-240 | ENI exclusivity in every reachable state: each injected interface has the claim of that name, naming that machine; no two machines or in-flight admissions share one |
| ProtocolBounds.BoundIsExact | internal/controller/eniclaim_controller.go:83-87 | Whatever names the controller serves, exclusivity holds in all runs if and only if d + s + g is below the 30 s grace period |
| ProtocolBounds.LateRunSharesENI | internal/controller/eniclaim_controller.go:83-90 | For every choice of bounds reaching the grace period and every set of managed names, a run after which two machines hold one ENI |
| ProtocolOneClaim.StepKeepsOneClaim | internal/webhook/v1beta2/awsmachine_webhook.go:187-201 | One claim per machine, one step: a machine with at most one claim keeps it that way unless the step files a claim for it while it has one |
| ProtocolOneClaim.OneClaimExactlyWhen | internal/webhook/v1beta2/awsmachine_webhook.go:187-201 | One claim per machine, exactly: a machine has at most one claim at every point of a run if and only if every step that files a claim for it is taken while it has none |
| ProtocolOneClaim.ManagedFilesWhenUnclaimed | internal/controller/awsmachine_controller.go:195-204 | The guard at work: for a machine of the controller only its own allocator files a claim, and only while it has none |
| ProtocolOneClaim.ManagedKeepOneClaim | internal/controller/awsmachine_controller.go:195-204 | So such a machine has at most one claim at every point of every run |
| ProtocolOneClaim.RetryTakesSecondClaim | internal/webhook/v1beta2/awsmachine_webhook.go:187-201 | The input that shows the webhook path has no such guard: a refused and retried create leaves two claims for one machine |
| ProtocolStaleRead.StaleReadDeletesUsedClaim | internal/controller/eniclaim_controller.go:58-61 | What the hypothesis that a collector sees its own writes is worth: for all time bounds, a run in which one read of a claim as it was before the collector deleted it ends with the deletion of a claim in use |
| ProtocolResumption.FirstClaimStays | internal/controller/awsmachine_controller.go:195-204 | Crash-safe resumption: while a managed machine exists, its first claim stays its only one and the machine is given that ENI or nothing, however its allocator is stopped and restarted and whatever others do |
| ProtocolResumption.FirstClaimStaysReachable | internal/controller/awsmachine_controller.go:195-204 | The same along every run from the empty cluster |
| ProtocolResumption.RestartFinishes | internal/controller/awsmachine_controller.go:96-115 | From any invariant state, one undisturbed reconcile injects the ENI of the claim that is already there |
| ProtocolResumption.InterleavedRestartFinishes | internal/controller/awsmachine_controller.go:96-115 | The same with any steps of other processes before the scan and before the patch: the scan can find nothing but the claim on file, and as long as the machine stays the patch injects its ENI |
| ProtocolRace.ClaimTakesHead | internal/webhook/v1beta2/awsmachine_webhook.go:187-203 | A create that succeeds after all earlier candidates collided takes exactly the head of the free list |
| ProtocolRace.RaceOutcome | internal/webhook/v1beta2/awsmachine_webhook.go:187-203 | For n admissions and k free interfaces, in every interleaving of creates: the winners hold a prefix of the free list, at most n times the number of candidates creates happen, and at the end exactly min(n, k) have won |
| ProtocolRace.PoolRace | internal/webhook/v1beta2/awsmachine_webhook.go:179-203 | The same for keyless admissions on an accepted pool |
| ProtocolRace.PoolOrder | internal/webhook/v1beta2/awsmachine_webhook.go:179-186 | On an accepted pool the order of trial names each interface once, by ascending address, compared octet by octet |
| ProtocolRefinement.AdmissionIsRun | internal/webhook/v1beta2/awsmachine_webhook.go:187-203 | The webhook's loop of creates is a run of protocol steps with the same answer and claims; a rejected create ends it as a dropped admission |
| ProtocolRefinement.AllocatorIsRun | internal/controller/awsmachine_controller.go:225-242 | So is the controller's loop; a rejected create ends it as an abandoned reconcile |
| AllocatorRuns.AttemptedIsTryFrom | internal/webhook/v1beta2/awsmachine_webhook.go:187-203 | For a given order of trial there is one outcome |
| AllocatorRuns.DefaultIsRun | internal/webhook/v1beta2/awsmachine_webhook.go:63-110 | Whatever Default decides about an eligible request, and whether or not the object is stored afterwards, the admission is a run (receive, creates, persist or drop) with the same claims, and the stored machine has the interfaces Default gave it |
| AllocatorRuns.MachineReconcileIsRun | internal/controller/awsmachine_controller.go:66-123 | Whatever it reads and whichever requests fail, a reconcile of a machine it is concerned with is a run (begin, scan, creates, patch or abort) with the same claims and interfaces |
| ProtocolRefinement.ReconcileIsRun | internal/controller/eniclaim_controller.go:56-110 | A reconcile of a claim, whichever of its requests fail, is a run of collector steps with the same resulting claims |
| Addresses.DecOctetGrammar | internal/webhook/v1alpha1/enipool_webhook.go:112-115 | An octet is a dec-octet of section 3.2.2 of RFC 3986, form by form: 0-9, 10-99, 100-199, 200-249, 250-255 |
| Addresses.DottedQuadParses | internal/webhook/v1alpha1/enipool_webhook.go:112-115 | Every dotted quad of octets parses to its 32-bit value, the first octet the most significant |
| Addresses.ParsedIsDottedQuad | internal/webhook/v1alpha1/enipool_webhook.go:112-115 | Nothing else parses as IPv4: a text that parses is four octets with dots in between |
| Addresses.ParsesExactly | internal/webhook/v1alpha1/enipool_webhook.go:112-115 | The parser accepts exactly the dotted quads |
| Addresses.AddressTextUnique | internal/webhook/v1alpha1/enipool_webhook.go:116-119 | An IPv4 address has exactly one accepted text |
| Addresses.ComparatorByOctets | internal/webhook/v1beta2/awsmachine_webhook.go:180-185 | On two IPv4 addresses the comparator goes by the first octet in which they differ |
| Addresses.TextLessExactly | internal/webhook/v1beta2/awsmachine_webhook.go:182-184 | On other texts it goes by the first difference, or the end of the shorter text |
| Candidates.MatchingSplits | internal/webhook/v1beta2/awsmachine_webhook.go:167-174 | The candidates are the interfaces with the requested key, all of them without a key, one by one in listed order and with repetitions |
| Candidates.ComparatorIsNumeric | internal/webhook/v1beta2/awsmachine_webhook.go:179-186 | On interfaces with IPv4 addresses the comparator is the numeric order, octet by octet, total and strict when addresses are distinct |
| Candidates.SortIsOutcome | internal/webhook/v1beta2/awsmachine_webhook.go:179-186 | A sort by the comparator exists: a permutation, in order whenever the comparator is a strict weak order |
| Candidates.SortOutcomeUnique | internal/webhook/v1beta2/awsmachine_webhook.go:179-186 | Order independence: whatever the listed order and the instability of the sort, the order of trial is the same, by ascending address, compared octet by octet |
| Candidates.MatchingPermuted | internal/webhook/v1beta2/awsmachine_webhook.go:168-174 | Selecting by key commutes with permuting the listed interfaces |
| Candidates.ComparatorOrdersExactly | internal/webhook/v1beta2/awsmachine_webhook.go:180-184 | The comparator is a strict weak order on a list if and only if no unparseable text lies between two addresses that are not in numeric order themselves |
| Candidates.ComparatorCanCycle | internal/webhook/v1beta2/awsmachine_webhook.go:180-184 | The input that shows the condition can fail: 9.0.0.0, 10.0.0.0 and the text 5 form a cycle |
| PoolValidator.CheckInterfaces | internal/webhook/v1alpha1/enipool_webhook.go:104-126 | The single pass with its three sets accepts exactly the well-formed interface lists, and otherwise reports the first interface at fault and its first fault |
| PoolValidator.DiagnosisRefutes | internal/webhook/v1alpha1/enipool_webhook.go:107-126 | Whatever the pass may report about an interface does refute well-formedness |
| PoolValidator.KeyIsLastFault | internal/webhook/v1alpha1/enipool_webhook.go:108-125 | A key is complained about last: an interface reported for its key is fine but for the key |
| PoolValidator.CheckOthers | internal/webhook/v1alpha1/enipool_webhook.go:134-148 | The second loop accepts exactly when no other-named pool shares the network or an ENI, and otherwise reports the first such pool, its network before its first shared ENI |
| PoolValidator.Validate | internal/webhook/v1alpha1/enipool_webhook.go:103-149 | Sound and complete: accepted exactly when well formed, listable, and compatible with every other-named pool; faults of the pool itself come first |
| PoolValidator.AcceptedExactly | internal/webhook/v1alpha1/enipool_webhook.go:103-149 | Acceptance read off the texts alone: dotted quads, no id, address text or non-empty key twice, and no other-named pool with the same region and VPC or one of the ids |
| PoolValidator.DistinctAddressesAreDistinctTexts | internal/webhook/v1alpha1/enipool_webhook.go:116-119 | Comparing parsed addresses and comparing texts find the same duplicates |
| PoolValidator.KeyNamesOne | internal/webhook/v1alpha1/enipool_webhook.go:120-125 | In an accepted pool a key names at most one interface |
| PoolRegistry.WebhookDecides | internal/webhook/v1alpha1/enipool_webhook.go:134-148 | The decision on a listing, in whatever order, is the decision on the registry |
| PoolRegistry.ServeKeepsConsistent | internal/webhook/v1alpha1/enipool_webhook.go:103-149 | A serialised create, update or delete keeps all pools well formed and pairwise compatible |
| PoolRegistry.HistoryConsistent | internal/webhook/v1alpha1/enipool_webhook.go:80-101 | So does every history of them |
| PoolRegistry.ConcurrentCreatesExactly | internal/webhook/v1alpha1/enipool_webhook.go:130-148 | Two creates accepted against the same pools leave a consistent registry if and only if they are compatible with each other |
| PoolRegistry.ConcurrentCreatesCanClash | internal/webhook/v1alpha1/enipool_webhook.go:130-148 | The input that shows they need not be: two pools for one network, both accepted |
| PoolRegistry.FindPool | internal/webhook/v1beta2/awsmachine_webhook.go:131-146 | Nothing, the one pool of the network, or an error exactly when two pools match |
| PoolRegistry.FindsByFields | internal/webhook/v1beta2/awsmachine_webhook.go:136-145 | The answer by the pools' own fields: a pool with both the region and the VPC looked up, nothing if and only if no listed pool has both, an error if and only if two have |
| PoolRegistry.FindsStoredPool | internal/webhook/v1beta2/awsmachine_webhook.go:136-145 | On a consistent registry, looking up a stored pool's own region and VPC finds that pool |
| PoolRegistry.FindNeverAmbiguous | internal/webhook/v1beta2/awsmachine_webhook.go:136-145 | On a consistent registry the search never errs and finds the one pool there is |
| PoolRegistry.FindIgnoresOrder | internal/webhook/v1beta2/awsmachine_webhook.go:136-145 | And its answer does not depend on the order of the listing |
| Allocation.AttemptMeetsContract | internal/webhook/v1beta2/awsmachine_webhook.go:187-203 | Trying the candidates in any order a sort may give claims the unclaimed candidate with the least address, compared octet by octet, or answers nothing exactly when all are claimed |
| Allocation.ContractDetermines | internal/webhook/v1beta2/awsmachine_webhook.go:166-204 | That contract determines answer and resulting claims |
| Allocation.AllocateMeetsContract | internal/webhook/v1beta2/awsmachine_webhook.go:166-204 | Allocation as a function meets the contract |
| Allocation.AllocateIgnoresListedOrder | internal/webhook/v1beta2/awsmachine_webhook.go:179-203 | Permuting the listed interfaces of an accepted pool changes neither answer nor claims |
| Allocation.KeyTriesOne | internal/webhook/v1beta2/awsmachine_webhook.go:168-177 | With a key an accepted pool offers exactly one interface: it is claimed, or nothing is |
| Allocation.ClaimsExactlyWhen | internal/webhook/v1beta2/awsmachine_webhook.go:187-203 | An attempt ends with a claim exactly when the first candidate in line that has none can be created |
| Allocation.ContractIgnoresClock | internal/webhook/v1beta2/awsmachine_webhook.go:187-203 | An answer other than a claim is the answer at any other time too |
| ClusterStore.Store.Create | internal/webhook/v1alpha1/eniclaim_webhook.go:58-65 | Atomic create-if-absent of a claim named after its ENI |
| ClusterStore.RequestsKeepSpec | internal/webhook/v1alpha1/eniclaim_webhook.go:68-75 | No request of the claim collector changes a claim's spec |
| ClusterStore.SpecNeverChanges | internal/webhook/v1alpha1/eniclaim_webhook.go:68-75 | Through any number of admitted updates a claim stays on the same interface of the same pool for the same machine |
| AdmissionWebhook.ResolveInterfaceKey | internal/webhook/v1beta2/awsmachine_webhook.go:148-164 | The machine's own key, else that of its first CAPI owner (an error if that is missing), else none |
| AdmissionWebhook.SelectByKey | internal/webhook/v1beta2/awsmachine_webhook.go:168-174 | The loop keeps exactly the interfaces with the key, in order |
| AdmissionWebhook.SortSlice | internal/webhook/v1beta2/awsmachine_webhook.go:179-186 | A sort about which only the outcome relation is known |
| AdmissionWebhook.MachineDefaulter.ClaimInterface | internal/webhook/v1beta2/awsmachine_webhook.go:166-204 | Adds at most one claim, for this machine and this pool; errs for a key that matches nothing; on an accepted pool meets the contract, on any pool follows some sort outcome |
| AllocatorPromises.WebhookAdds | internal/webhook/v1beta2/awsmachine_webhook.go:187-203 | On an accepted pool, an answer is a new claim on the unclaimed interface with the requested key and the lowest address, octet by octet, for this machine and this pool, with the allocator's finalizer and no status |
| AllocatorPromises.ControllerAdds | internal/controller/awsmachine_controller.go:194-243 | So is the controller's answer, unless a claim of the machine is listed, which is then the answer |
| AllocatorPromises.AddedClaimIsFreed | internal/controller/eniclaim_controller.go:62-92 | From claim to reclaim: a claim either allocator adds is freed by the eighth reconcile that does not fail, when its machine stays away and the pool it was taken from stays |
| AllocatorPromises.AddedClaimIsFreedByEight | internal/controller/eniclaim_controller.go:62-92 | In particular by eight reconciles without a failing request |
| AllocatorPromises.KeyDecided | internal/webhook/v1beta2/awsmachine_webhook.go:148-164 | A machine's own key wins, then its first CAPI owner's, who has to be there, then none |
| AllocatorPromises.KeyIsHonoured | README.md:91-92 | A create whose key names no interface of the pool is refused and changes nothing, and no interface is injected but one with the key |
| AllocatorPromises.OwnerMustBeThere | internal/webhook/v1beta2/awsmachine_webhook.go:157-160 | A create whose key is up to an owner that cannot be looked up is refused and changes nothing |
| AllocatorPromises.PoolMustBeOne | internal/webhook/v1beta2/awsmachine_webhook.go:136-145 | Without a pool for its network a machine passes untouched, with two of them it is refused |
| AdmissionWebhook.MachineDefaulter.Default | internal/webhook/v1beta2/awsmachine_webhook.go:63-110 | All or nothing: an error or no claim leaves claims and object unchanged, success adds exactly one claim and changes only interfaces and result annotation; opted-out, preset, paused and dry-run requests touch nothing; every case decided |
| AdmissionWebhook.MachineDefaulter.ExhaustedIsAdmitted | internal/webhook/v1beta2/awsmachine_webhook.go:99-101 | With every candidate of an accepted pool claimed, the machine is admitted untouched and unpaused, whatever the exhaustion policy |
| AdmissionWebhook.MachineDefaulter.FollowsPolicyExactlyWhen | internal/webhook/v1beta2/awsmachine_webhook.go:95-101 | An admission does what the documentation says about the policy if and only if the policy is Dynamic or unset, a candidate is left to try, or the request came marked Failed already to a pool that says Fail |
| AdmissionWebhook.MachineDefaulter.FailsUndeterminedExactlyWhen | internal/webhook/v1beta2/awsmachine_webhook.go:83-90 | A create fails for an unresolved network if and only if the lookup failed; with pools of the shape the schema enforces, a network without region or VPC lets it pass untouched, so the documented refusal holds exactly when both are known, the lookup failed, or pools cannot be listed |
| Inventory.PoolReconciler.IndexByENI | internal/controller/enipool_controller.go:64-67 | The index by spec finds exactly the claims filed under the ENI |
| Inventory.PoolReconciler.Observe | internal/controller/enipool_controller.go:68-80 | One entry per interface in order, marked with the machine that claims it, and the number of those no claim names |
| Inventory.PoolReconciler.Reconcile | internal/controller/enipool_controller.go:54-90 | The stored status, its generation and Ready condition, the metric and the outcome, for a missing pool, a failing list, and an update that goes through, conflicts or fails |
| Inventory.MetricMatchesStatus | internal/controller/enipool_controller.go:68-83 | The metric is the number of entries of the status without a machine |
| Inventory.EntryShowsClaim | internal/controller/enipool_controller.go:71-78 | Under the naming rule an entry shows its interface and the machine that interface is claimed for |
| Inventory.SpecIsName | internal/controller/enipool_controller.go:64-66 | With claims named after their ENI, looking up by spec and by name agree |
| Inventory.AllocationTakesOne | internal/webhook/v1beta2/awsmachine_webhook.go:187-203 | A keyless allocation succeeds exactly when something is available and takes one |
| Inventory.AvailablePredicts | internal/controller/enipool_controller.go:68-80 | With k available, exactly the next k keyless allocations succeed and all later ones get nothing |
| Inventory.InventoryPredictsExactlyWhen | internal/controller/enipool_controller.go:64-80 | Without any rule about names, the reported number predicts all later allocations if and only if as many interfaces have their name taken by a claim for another ENI as are named by a claim filed elsewhere; under the naming rule it always does |
| Inventory.MisnamedClaimMisleads | internal/controller/enipool_controller.go:64-80 | The input that shows the prediction can fail: the inventory reports none available, and the next allocation succeeds |
| ClaimCollector.RemoveString | internal/controller/eniclaim_controller.go:139-147 | In-place filter over the same backing store: the prefix is the filtered list, the rest is as before |
| ClaimCollector.ContainsString | internal/controller/eniclaim_controller.go:130-137 | Membership |
| ClaimCollector.ConfiguredPrivateIP | internal/controller/eniclaim_controller.go:112-119 | The address of the first interface with the id, empty when there is none |
| ClaimCollector.FirstEntryDecides | internal/controller/eniclaim_controller.go:112-119 | Whatever follows, the first entry with the id decides |
| ClaimCollector.FindConfiguredIP | internal/controller/eniclaim_controller.go:112-119 | The loop computes it |
| ClaimCollector.ClaimReconciler.RemoveFinalizer | internal/controller/eniclaim_controller.go:121-128 | Strips the allocator's finalizer from the claim, which goes away when none is left |
| ClaimCollector.ClaimReconciler.Reconcile | internal/controller/eniclaim_controller.go:56-110 | Outcome and resulting claims of a reconcile, with any of its requests failing |
| ClaimCollector.FinishedOnlyWhenReleased | internal/controller/eniclaim_controller.go:56-110 | No claim is forgotten: whatever fails, a reconcile ends without asking for another only if the claim is gone or being deleted |
| ClaimCollector.FailsOnlyByFault | internal/controller/eniclaim_controller.go:59-107 | An error about a request is reported only when that request failed |
| ClaimCollector.FaultStops | internal/controller/eniclaim_controller.go:62-107 | And a failing request stops the reconcile where it stands: with the pool unread nothing changes, with the finalizer unpatched nothing is released, and otherwise the claim is tagged at most; a live claim whose pool is gone is left alone with an error |
| ClaimCollector.GracePeriod | internal/controller/eniclaim_controller.go:81-92 | Without its machine, a claim younger than 30 s is kept and looked at again in 5 s; an older one is deleted and waits for its finalizers |
| ClaimCollector.MachinePresent | internal/controller/eniclaim_controller.go:96-109 | With its machine, a claim is kept and looked at again in 5 minutes |
| ClaimCollector.DeletionEnds | internal/controller/eniclaim_controller.go:63-72 | A claim being deleted loses the allocator's finalizer and no other, whether or not its pool is there, and goes away if and only if that was the only one |
| ClaimCollector.ReconcileIsLocal | internal/controller/eniclaim_controller.go:56-110 | Whatever fails, only this claim changes and its spec never does |
| ClaimCollector.MachineKeepsClaim | internal/controller/eniclaim_controller.go:80-109 | While the machine exists, terminating or not, its claim is not released, whatever fails |
| ClaimCollector.StatusConverges | internal/controller/eniclaim_controller.go:96-109 | One reconcile makes the status Bound with the configured address, or Failed when the ENI left the pool, with the Ready condition to match; later ones write nothing |
| ClaimCollector.ReclaimCount | internal/controller/eniclaim_controller.go:69-92 | The decreasing measure: waits left plus delete plus release bound the reconciles to come, not counting those that fail; every visit is counted once |
| ClaimCollector.BoundedReclaim | internal/controller/eniclaim_controller.go:62-92 | The eighth reconcile that does not fail, at least 5 s apart, has freed the ENI of a vanished machine, with at most 6 waits, one delete and one finalizer removal, whatever becomes of other claims, pools and machines |
| ClaimCollector.NoReclaimWithoutPool | internal/controller/eniclaim_controller.go:63-67 | Without its pool a live claim is never released |
| MachineController.WorkingCopy.RemoveAllocatorPause | internal/controller/awsmachine_controller.go:264-270 | Both pauses go, only if the allocator set them |
| MachineController.WorkingCopy.SetAnnotation | internal/controller/awsmachine_controller.go:272-281 | Setting, or removing on the empty value |
| MachineController.MachineReconciler.ClaimInterface | internal/controller/awsmachine_controller.go:194-243 | The machine's listed claim, else the webhook's allocation with the same answers, errors and claims; at most one claim added |
| MachineController.AllocatorsAgree | internal/controller/awsmachine_controller.go:194-243 | On an accepted pool the two allocators give the same answer and leave the same claims unless the machine has a claim already, which is then returned |
| MachineController.MachineReconciler.Reconcile | internal/controller/awsmachine_controller.go:66-123 | Every outcome of a reconcile for machine and claims |
| MachineOutcomes.PolicyIsHonoured | internal/controller/awsmachine_controller.go:100-109 | The controller honours the exhaustion policy: with every interface on offer claimed, the machine waits untouched and paused for 30 s under Wait, is marked Failed and stays paused under Fail, and falls back under Dynamic or none |
| MachineOutcomes.NotYetOrNever | internal/controller/awsmachine_controller.go:72-88 | Machines that are not opted in and paused by the allocator, have an interface or are terminating are left alone; without a network the next look is in 10 s; without a list of pools the reconcile errs |
| MachineOutcomes.PoolDecides | internal/controller/awsmachine_controller.go:85-91 | Without a pool for its network the machine falls back with reason NoMatchingPool; with two of them the reconcile errs and changes nothing |
| MachineOutcomes.UnknownKeyErrs | internal/controller/awsmachine_controller.go:206-216 | A key that names no interface of the pool is an error and changes nothing |
| MachineOutcomes.AddedClaimIsGiven | internal/controller/awsmachine_controller.go:110-122 | A claim that is added is for the lowest free interface, and the machine is given that interface, unpaused, marked Allocated without a reason, when the patch goes through |
| MachineOutcomes.ListedClaimIsGiven | internal/controller/awsmachine_controller.go:195-204 | The first listed claim of the machine is what it is given, and none is added |
| MachineOutcomes.UnreadableErrs | internal/controller/awsmachine_controller.go:92-99 | An owner that cannot be looked up, when the key is up to it, or claims that cannot be listed are an error and change nothing |
| MachineOutcomes.ErrorsKeepMachine | internal/controller/awsmachine_controller.go:86-117 | A reconcile that errs leaves the machine as it was |
| MachineOutcomes.FinishedOnlyWhenServed | internal/controller/awsmachine_controller.go:69-122 | No machine is forgotten: a reconcile ends without asking for another only if the machine is no longer the allocator's to serve, or is marked Failed |
| MachineController.MachineReconciler.Patch | internal/controller/awsmachine_controller.go:115-117 | The differences between the machine as read and the working copy are carried over to whatever is stored; a failing patch, or one to a machine that is gone, changes nothing |
| MachineController.MergedOntoBase | internal/controller/awsmachine_controller.go:110-115 | Without an edit in between the patch gives exactly the machine that was wanted |
| MachineController.MachineReconciler.DynamicFallback | internal/controller/awsmachine_controller.go:245-255 | Unpaused, marked DynamicFallback with the reason |
| MachineController.MachineReconciler.MarkFailed | internal/controller/awsmachine_controller.go:257-262 | Marked Failed with the reason, still paused |
| MachineStates.StatesAreDisjoint | internal/controller/awsmachine_controller.go:75-79 | Allocated exactly when an interface is present; unpaused exactly when allocated or fallen back |
| MachineStates.StepKeepsState | internal/controller/awsmachine_controller.go:72-122 | A reconcile leads from one of the four states to one of the four, Allocated only with the ENI of the machine's own claim |
| MachineStates.HistoryKeepsState | internal/controller/awsmachine_controller.go:72-122 | So does every history of reconciles with edits of other annotations and deletions in between, whatever pools, networks and keys they read and whichever requests fail, as long as each lists the claims afresh |
| MachineStates.SecondReconcileIdle | internal/controller/awsmachine_controller.go:66-122 | With the same readings at any later time a second reconcile changes neither machine nor claims |
| MachineStates.AllocatesExactlyWhen | internal/controller/awsmachine_controller.go:80-115 | A machine the controller is concerned with, one marked Failed included, is allocated by a reconcile if and only if its network is ready and served by exactly one pool, its key resolves, the claims are listed, and these show one of its own or leave a first candidate that can be created |
| MachineStates.FailedCanRecover | internal/controller/awsmachine_controller.go:104-105 | Failed is not terminal in the controller: as soon as these conditions hold there is a reconcile that allocates a failed machine |
| MergePatch.PatchRoundTrip | internal/controller/awsmachine_controller.go:110-115 | A merge patch (section 2 of RFC 7396) computed from two documents turns the first into the second |
| MergePatch.ApartCommute | internal/controller/awsmachine_controller.go:110-115 | Merge patches that never decide about the same place commute on every document |
| MachinePatches.PatchSparesOthers | internal/controller/awsmachine_controller.go:245-262 | Each outcome's patch yields the intended machine, commutes with any edit elsewhere and preserves it |
| MachinePatches.ReconcileSparesOthers | internal/controller/awsmachine_controller.go:66-122 | The same for a reconcile as a whole |
| MachinePatches.PatchIsMerged | internal/controller/awsmachine_controller.go:110-117 | The merge patch sent, applied to whatever machine is stored by then, gives exactly what the patch method stores |

## Left out

- Candidates.ComparatorIsNumeric: IPv6 texts count as unparseable, as no accepted pool contains one; on pools that were not accepted the comparator of the code would compare two IPv6 addresses numerically.
- Candidates.ComparatorOrdersExactly: for the same reason it is about lists of IPv4 addresses and of texts that are no address at all.
- Candidates.SortIsOutcome: the library's sorting algorithm is not modelled, only what it promises.
- ClaimCollector.ClaimReconciler.Reconcile: of the Ready condition only the status is kept, not generation or transition time.
- MachineStates.SecondReconcileIdle: assumes accepted pools, because on others two sorts of the same list may differ.
- AllocatorRuns.MachineReconcileIsRun: the claims are listed afresh, as the protocol's scan demands.
- MachineStates.HistoryKeepsState: each reconcile lists the claims afresh, and nobody else edits the annotations that make up the state.
- MachinePatches.PatchIsMerged: leaves out a stored machine that has lost all of its annotations, because empty annotations are omitted from its document.
- Creates whose outcome is unknown to the client: a create answers created, already exists, or a definite error.
- Claim reads older than the collector's own last write to that claim are not steps of the protocol; ProtocolStaleRead shows one added to a run.
- Looking up Cluster, AWSCluster and Machine: a parameter that yields region and VPC, or nothing.
- The branch of the webhook without a client, the defaulting of an unset policy, deletion validators: no logic beyond a constant.
- Metrics, events, logs, process start-up, RBAC and packaging: side outputs and plumbing.
- AWS itself: the repository never calls it, so the address of the running machine is outside the model.
