/** The allocator in the controller of AWSMachine (internal/controller/awsmachine_controller.go). */
module MachineController {
  import opened Api
  import opened Candidates
  import opened PoolValidator
  import opened PoolRegistry
  import opened Allocation
  import opened ClusterStore
  import opened AdmissionWebhook

  const NETWORK_RETRY := 10_000
  const WAIT_RETRY := 30_000

  datatype ControllerError =
    | AmbiguousNetwork
    | PoolsNotListed
    | KeyUnresolved
    | ClaimsNotListed
    | NotClaimed(cause: AllocationError)
    | PatchFailed

  datatype Outcome = Finished | RequeueAfter(ms: int) | Errored(error: ControllerError)

  /**
   What a reconcile reads besides the machine and the claims: the network of its cluster (None while that is
   not ready), the listed pools and claims (None when listing fails), the keys of its owners, and whether the
   final patch fails.
   */
  datatype Readings = Readings(
    network: Option<(string, string)>,
    pools: Option<seq<Pool>>,
    owners: seq<Owner>,
    ownerKeys: map<string, string>,
    listed: Option<seq<Claim>>,
    now: int,
    failing: set<string>,
    patchFails: bool)

  /** The controller acts on opted-in machines that carry the allocator's pause and have no interface yet. */
  predicate Concerned(m: Machine) {
    && !m.terminating
    && Lookup(m.annotations, AllocateFromPool) == "true"
    && Lookup(m.annotations, AllocatorPaused) == "true"
    && m.networkInterfaces == []
  }

  // ----- The machine's annotations -----

  /** Setting to the empty string removes. */
  function WithAnnotation(annotations: Annotations, key: AnnotationKey, value: string): Annotations {
    if value == "" then annotations - {key} else annotations[key := value]
  }

  function WithoutPause(annotations: Annotations): Annotations {
    if Lookup(annotations, AllocatorPaused) != "true" then annotations else annotations - {AllocatorPaused, CapiPaused}
  }

  /** The working copy of a machine. */
  class WorkingCopy {
    var annotations: Annotations
    var networkInterfaces: seq<string>

    constructor (m: Machine)
      ensures annotations == m.annotations && networkInterfaces == m.networkInterfaces
    {
      annotations, networkInterfaces := m.annotations, m.networkInterfaces;
    }

    method RemoveAllocatorPause()
      modifies this`annotations
      ensures annotations == WithoutPause(old(annotations))
      ensures annotations ==
              if AllocatorPaused in old(annotations) && old(annotations)[AllocatorPaused] == "true" then
                old(annotations) - {AllocatorPaused, CapiPaused}
              else
                old(annotations)
    {
      if AllocatorPaused !in annotations || annotations[AllocatorPaused] != "true" {
        return;
      }
      annotations := annotations - {AllocatorPaused};
      annotations := annotations - {CapiPaused};
      assert annotations == old(annotations) - {AllocatorPaused, CapiPaused};
    }

    method SetAnnotation(key: AnnotationKey, value: string)
      modifies this`annotations
      ensures annotations == WithAnnotation(old(annotations), key, value)
      ensures annotations == if value == "" then old(annotations) - {key} else old(annotations)[key := value]
    {
      if value == "" {
        annotations := annotations - {key};
        return;
      }
      annotations := annotations[key := value];
    }
  }

  function Marked(m: Machine, result: string, reason: string): Machine {
    m.(annotations := WithAnnotation(WithAnnotation(m.annotations, AllocationResult, result), AllocationReason, reason))
  }

  /** The three machines a reconcile may leave behind. */
  function AllocatedMachine(m: Machine, eni: string): Machine {
    Marked(m.(annotations := WithoutPause(m.annotations), networkInterfaces := [eni]), RESULT_ALLOCATED, "")
  }

  function FallbackMachine(m: Machine, reason: string): Machine {
    Marked(m.(annotations := WithoutPause(m.annotations)), RESULT_DYNAMIC_FALLBACK, reason)
  }

  function FailedMachine(m: Machine, reason: string): Machine {
    Marked(m, RESULT_FAILED, reason)
  }

  // ----- The merge patch -----

  predicate SameAt(a: Annotations, b: Annotations, key: AnnotationKey) {
    (key in a <==> key in b) && (key in a ==> a[key] == b[key])
  }

  /** Annotations as stored, with the differences between base and wanted carried over. */
  function MergedAnnotations(stored: Annotations, base: Annotations, wanted: Annotations): Annotations {
    map k | k in stored.Keys + wanted.Keys && (if SameAt(base, wanted, k) then k in stored else k in wanted) ::
      if SameAt(base, wanted, k) then stored[k] else wanted[k]
  }

  /** What the API server makes of a patch from base to wanted when the stored machine has moved on. */
  function Merged(stored: Machine, base: Machine, wanted: Machine): Machine {
    stored.(annotations := MergedAnnotations(stored.annotations, base.annotations, wanted.annotations),
            networkInterfaces := if wanted.networkInterfaces == base.networkInterfaces then stored.networkInterfaces
                                 else wanted.networkInterfaces)
  }

  /** Without an edit in between, the patch gives what was wanted. */
  lemma MergedOntoBase(base: Machine, wanted: Machine)
    requires wanted.terminating == base.terminating
    ensures Merged(base, base, wanted) == wanted
  {
    assert MergedAnnotations(base.annotations, base.annotations, wanted.annotations) == wanted.annotations;
  }

  // ----- Claiming, with the scan for an existing claim -----

  type Reply = Result<Option<Claim>, ControllerError>

  ghost predicate Owned(listed: seq<Claim>, ref: ObjectRef) {
    exists i :: 0 <= i < |listed| && listed[i].machineRef == ref
  }

  /**
   The machine's existing claim if the list shows one, otherwise exactly what the webhook's allocator does:
   same answer, same error, same claims.
   */
  ghost predicate ControllerClaimOutcome(listed: Option<seq<Claim>>, claims: Claims, a: Attempt, reply: Reply,
                                         claims': Claims) {
    if listed.None? then reply == Err(ClaimsNotListed) && claims' == claims
    else if Owned(listed.value, a.machineRef) then
      && claims' == claims
      && exists i :: 0 <= i < |listed.value| && reply == Ok(Some(listed.value[i])) &&
                     listed.value[i].machineRef == a.machineRef &&
                     forall j :: 0 <= j < i ==> listed.value[j].machineRef != a.machineRef
    else
      exists answer :: ClaimOutcome(claims, a, answer, claims') &&
                       reply == match answer { case Ok(c) => Ok(c) case Err(cause) => Err(NotClaimed(cause)) }
  }

  /** At most one claim is added; whatever is answered belongs to the machine and is on file or was listed. */
  ghost predicate FindsOrAddsOne(listed: Option<seq<Claim>>, claims: Claims, ref: ObjectRef, poolName: string,
                                 reply: Reply, claims': Claims) {
    match reply
    case Ok(Some(c)) =>
      && c.machineRef == ref
      && ((claims' == claims && listed.Some? && c in listed.value)
          || (c.name !in claims && claims' == claims[c.name := c] && c.name == c.eniID && c.poolName == poolName &&
              (listed.Some? ==> !Owned(listed.value, ref))))
    case _ => claims' == claims
  }

  class MachineReconciler {
    const store: Store

    constructor (store: Store)
      ensures this.store == store
    {
      this.store := store;
    }

    method ClaimInterface(ref: ObjectRef, pool: Pool, interfaceKey: string, listed: Option<seq<Claim>>)
      returns (reply: Reply)
      requires store.Valid()
      modifies store`claims
      ensures store.Valid()
      ensures ControllerClaimOutcome(listed, old(store.claims),
                                     Attempt(pool, interfaceKey, ref, store.now, store.failing),
                                     reply, store.claims)
      ensures FindsOrAddsOne(listed, old(store.claims), ref, pool.name, reply, store.claims)
    {
      hide ClaimOutcome;
      hide SortOutcome;
      if listed.None? {
        return Err(ClaimsNotListed);
      }
      for i := 0 to |listed.value|
        invariant forall j :: 0 <= j < i ==> listed.value[j].machineRef != ref
      {
        if listed.value[i].machineRef == ref {
          return Ok(Some(listed.value[i]));
        }
      }
      ghost var a := Attempt(pool, interfaceKey, ref, store.now, store.failing);
      ghost var before := store.claims;
      var configured := pool.interfaces;
      if interfaceKey != "" {
        configured := SelectByKey(pool.interfaces, interfaceKey);
        if configured == [] {
          EndWithoutKey(before, a);
          return Err(NotClaimed(NoSuchKey(pool.name, interfaceKey)));
        }
      }
      assert configured == a.Candidates();
      var order := SortSlice(configured);
      for i := 0 to |order|
        invariant store.claims == before && store.Valid()
        invariant forall j :: 0 <= j < i ==> Passed(before, store.failing, order[j])
      {
        var requested := order[i];
        var answer := store.Create(NewClaim(requested.id, ref, pool.name, 0));
        if answer.AlreadyExists? {
          continue;
        }
        if answer.CreateFailed? {
          EndInOrder(order, before, a, Err(CreateRejected(requested.id)), store.claims);
          return Err(NotClaimed(CreateRejected(requested.id)));
        }
        EndInOrder(order, before, a, Ok(Some(answer.claim)), store.claims);
        return Ok(Some(answer.claim));
      }
      EndInOrder(order, before, a, Ok(None), store.claims);
      return Ok(None);
    }

    /** Reconcile of the machine filed under `ref`. */
    method Reconcile(ref: ObjectRef, pools: Option<seq<Pool>>, network: Option<(string, string)>, owners: seq<Owner>,
                     ownerKeys: map<string, string>, listed: Option<seq<Claim>>, patchFails: bool)
      returns (outcome: Outcome)
      requires store.Valid()
      modifies store`claims, store`machines
      ensures store.Valid()
      ensures ref !in old(store.machines) ==>
        outcome == Finished && store.claims == old(store.claims) && store.machines == old(store.machines)
      ensures ref in old(store.machines) ==>
        && ref in store.machines && store.machines == old(store.machines)[ref := store.machines[ref]]
        && MachineStep(ref, old(store.machines)[ref], old(store.claims),
                       Readings(network, pools, owners, ownerKeys, listed, store.now, store.failing, patchFails),
                       store.machines[ref], store.claims, outcome)
    {
      if ref !in store.machines {
        return Finished;
      }
      ghost var before := store.claims;
      ghost var r := Readings(network, pools, owners, ownerKeys, listed, store.now, store.failing, patchFails);
      var machine := store.machines[ref];
      assert store.machines == store.machines[ref := machine];
      if machine.terminating {
        return Finished;
      }
      if Lookup(machine.annotations, AllocateFromPool) != "true" ||
         Lookup(machine.annotations, AllocatorPaused) != "true" ||
         |machine.networkInterfaces| > 0 {
        return Finished;
      }
      if network.None? || network.value.0 == "" || network.value.1 == "" {
        return RequeueAfter(NETWORK_RETRY);
      }
      if pools.None? {
        return Errored(PoolsNotListed);
      }
      var found := FindPool(pools.value, network.value.0, network.value.1);
      hide FindOutcome;
      hide KeyOutcome;
      hide ControllerClaimOutcome;
      if found.Err? {
        return Errored(AmbiguousNetwork);
      }
      if found.value.None? {
        outcome := DynamicFallback(ref, machine, "NoMatchingPool", patchFails);
        return;
      }
      var pool := found.value.value;
      var key := ResolveInterfaceKey(machine.annotations, owners, ownerKeys);
      if key.Err? {
        assert OnPool(ref, machine, before, r, pool, machine, store.claims, Errored(KeyUnresolved));
        return Errored(KeyUnresolved);
      }
      var reply := ClaimInterface(ref, pool, key.value, listed);
      if reply.Err? {
        assert OnPool(ref, machine, before, r, pool, machine, store.claims, Errored(reply.error));
        return Errored(reply.error);
      }
      if reply.value.None? {
        match pool.policy
        case Wait =>
          assert OnPool(ref, machine, before, r, pool, machine, store.claims, RequeueAfter(WAIT_RETRY));
          return RequeueAfter(WAIT_RETRY);
        case Fail =>
          outcome := MarkFailed(ref, machine, "PoolExhausted", patchFails);
          assert OnPool(ref, machine, before, r, pool, store.machines[ref], store.claims, outcome);
          return;
        case _ =>
          outcome := DynamicFallback(ref, machine, "PoolExhausted", patchFails);
          assert OnPool(ref, machine, before, r, pool, store.machines[ref], store.claims, outcome);
          return;
      }
      var copy := new WorkingCopy(machine);
      copy.networkInterfaces := [reply.value.value.eniID];
      copy.RemoveAllocatorPause();
      copy.SetAnnotation(AllocationResult, RESULT_ALLOCATED);
      copy.SetAnnotation(AllocationReason, "");
      outcome := Patch(ref, machine, copy, patchFails);
      assert OnPool(ref, machine, before, r, pool, store.machines[ref], store.claims, outcome);
    }

    /** Sends the difference between the machine as read and the working copy, whatever is stored by now. */
    method Patch(ref: ObjectRef, base: Machine, copy: WorkingCopy, fails: bool) returns (outcome: Outcome)
      requires store.Valid()
      modifies store`machines
      ensures store.Valid()
      ensures fails || ref !in old(store.machines) ==>
        store.machines == old(store.machines) && outcome == Errored(PatchFailed)
      ensures !fails && ref in old(store.machines) ==>
        var wanted := base.(annotations := copy.annotations, networkInterfaces := copy.networkInterfaces);
        && outcome == Finished
        && store.machines == old(store.machines)[ref := Merged(old(store.machines)[ref], base, wanted)]
        && (old(store.machines)[ref] == base ==> store.machines[ref] == wanted)
    {
      if fails || ref !in store.machines {
        return Errored(PatchFailed);
      }
      var wanted := base.(annotations := copy.annotations, networkInterfaces := copy.networkInterfaces);
      MergedOntoBase(base, wanted);
      store.machines := store.machines[ref := Merged(store.machines[ref], base, wanted)];
      return Finished;
    }

    method DynamicFallback(ref: ObjectRef, machine: Machine, reason: string, patchFails: bool)
      returns (outcome: Outcome)
      requires store.Valid() && ref in store.machines && store.machines[ref] == machine
      modifies store`machines
      ensures store.Valid() && ref in store.machines
      ensures Patched(machine, FallbackMachine(machine, reason), patchFails, store.machines[ref], outcome)
      ensures store.machines == old(store.machines)[ref := store.machines[ref]]
    {
      var copy := new WorkingCopy(machine);
      copy.RemoveAllocatorPause();
      copy.SetAnnotation(AllocationResult, RESULT_DYNAMIC_FALLBACK);
      copy.SetAnnotation(AllocationReason, reason);
      outcome := Patch(ref, machine, copy, patchFails);
    }

    method MarkFailed(ref: ObjectRef, machine: Machine, reason: string, patchFails: bool) returns (outcome: Outcome)
      requires store.Valid() && ref in store.machines && store.machines[ref] == machine
      modifies store`machines
      ensures store.Valid() && ref in store.machines
      ensures Patched(machine, FailedMachine(machine, reason), patchFails, store.machines[ref], outcome)
      ensures store.machines == old(store.machines)[ref := store.machines[ref]]
    {
      var copy := new WorkingCopy(machine);
      copy.SetAnnotation(AllocationResult, RESULT_FAILED);
      copy.SetAnnotation(AllocationReason, reason);
      outcome := Patch(ref, machine, copy, patchFails);
    }
  }

  /**
   The two allocators agree: from the same claims, and unless the machine has a claim already, the controller's
   allocator and the webhook's give the same answer and leave the same claims.
   */
  lemma AllocatorsAgree(listed: seq<Claim>, claims: Claims, a: Attempt, reply: Reply, claims': Claims, answer: Answer,
                        claims'': Claims)
    requires WellFormed(a.pool.interfaces) && ListsClaims(listed, claims)
    requires ControllerClaimOutcome(Some(listed), claims, a, reply, claims')
    requires ClaimOutcome(claims, a, answer, claims'')
    ensures if exists n :: n in claims && claims[n].machineRef == a.machineRef then
              claims' == claims && reply.Ok? && reply.value.Some? && reply.value.value.machineRef == a.machineRef &&
              reply.value.value.name in claims && claims[reply.value.value.name] == reply.value.value
            else
              claims' == claims'' &&
              reply == match answer { case Ok(c) => Ok(c) case Err(cause) => Err(NotClaimed(cause)) }
  {
    hide Contract;
    assert Owned(listed, a.machineRef) <==> exists n :: n in claims && claims[n].machineRef == a.machineRef by {
      if i :| 0 <= i < |listed| && listed[i].machineRef == a.machineRef { assert listed[i] in listed; }
      if n :| n in claims && claims[n].machineRef == a.machineRef {
        var i :| 0 <= i < |listed| && listed[i] == claims[n];
      }
    }
    if Owned(listed, a.machineRef) {
      assert forall i :: 0 <= i < |listed| ==> listed[i] in listed;
    } else {
      var p: Answer :| ClaimOutcome(claims, a, p, claims') &&
        reply == match p { case Ok(c) => Ok(c) case Err(cause) => Err(NotClaimed(cause)) };
      ContractDetermines(claims, a, p, claims', answer, claims'');
    }
  }

  // ----- One reconcile as a relation -----

  ghost predicate Patched(m: Machine, wanted: Machine, fails: bool, m': Machine, outcome: Outcome) {
    if fails then m' == m && outcome == Errored(PatchFailed) else m' == wanted && outcome == Finished
  }

  /** A reconcile of machine m with the given readings leaves machine m' and the given claims. */
  ghost predicate MachineStep(ref: ObjectRef, m: Machine, claims: Claims, r: Readings, m': Machine, claims': Claims,
                              outcome: Outcome) {
    if !Concerned(m) then m' == m && claims' == claims && outcome == Finished
    else if r.network.None? || r.network.value.0 == "" || r.network.value.1 == "" then
      m' == m && claims' == claims && outcome == RequeueAfter(NETWORK_RETRY)
    else if r.pools.None? then m' == m && claims' == claims && outcome == Errored(PoolsNotListed)
    else
      exists found ::
        FindOutcome(r.pools.value, r.network.value.0, r.network.value.1, found) &&
        if found.Err? then m' == m && claims' == claims && outcome == Errored(AmbiguousNetwork)
        else if found.value.None? then
          claims' == claims && Patched(m, FallbackMachine(m, "NoMatchingPool"), r.patchFails, m', outcome)
        else OnPool(ref, m, claims, r, found.value.value, m', claims', outcome)
  }

  ghost predicate OnPool(ref: ObjectRef, m: Machine, claims: Claims, r: Readings, pool: Pool, m': Machine,
                         claims': Claims, outcome: Outcome) {
    exists key ::
      KeyOutcome(Lookup(m.annotations, InterfaceKey), r.owners, r.ownerKeys, key) &&
      if key.Err? then m' == m && claims' == claims && outcome == Errored(KeyUnresolved)
      else exists reply ::
        ControllerClaimOutcome(r.listed, claims, Attempt(pool, key.value, ref, r.now, r.failing), reply, claims') &&
        FindsOrAddsOne(r.listed, claims, ref, pool.name, reply, claims') && Ends(m, r, pool, reply, m', outcome)
  }

  /** What the reply of the claiming means for the machine; here, unlike at admission, the policy counts. */
  ghost predicate Ends(m: Machine, r: Readings, pool: Pool, reply: Reply, m': Machine, outcome: Outcome) {
    match reply
    case Err(error) => m' == m && outcome == Errored(error)
    case Ok(Some(c)) => Patched(m, AllocatedMachine(m, c.eniID), r.patchFails, m', outcome)
    case Ok(None) =>
      match pool.policy {
        case Wait => m' == m && outcome == RequeueAfter(WAIT_RETRY)
        case Fail => Patched(m, FailedMachine(m, "PoolExhausted"), r.patchFails, m', outcome)
        case _ => Patched(m, FallbackMachine(m, "PoolExhausted"), r.patchFails, m', outcome)
      }
  }
}
