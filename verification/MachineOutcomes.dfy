/**
 What a reconcile of a machine leaves behind, case by case, in terms of the machine's annotations and interfaces.
 Here, unlike at admission, the exhaustion policy counts.
 */
module MachineOutcomes {
  import opened Api
  import opened Candidates
  import opened PoolValidator
  import opened PoolRegistry
  import opened Allocation
  import opened ClusterStore
  import opened AdmissionWebhook
  import opened MachineController
  import opened MachineStates
  import opened AllocatorPromises

  /** Opted in, paused by the allocator, without an interface, and not on its way out. */
  ghost predicate ForTheAllocator(m: Machine) {
    && AllocateFromPool in m.annotations && m.annotations[AllocateFromPool] == "true"
    && AllocatorPaused in m.annotations && m.annotations[AllocatorPaused] == "true"
    && m.networkInterfaces == [] && !m.terminating
  }

  /** Other annotations than result, reason and the two pauses are as they were. */
  ghost predicate OthersKept(m: Machine, m': Machine) {
    && m'.terminating == m.terminating
    && forall k :: k !in {AllocationResult, AllocationReason, AllocatorPaused, CapiPaused} ==>
         (k in m'.annotations <==> k in m.annotations) && (k in m.annotations ==> m'.annotations[k] == m.annotations[k])
  }

  ghost predicate Says(m: Machine, key: AnnotationKey, text: string) {
    key in m.annotations && m.annotations[key] == text
  }

  /** Left to CAPA: both pauses gone, no interface, and the reason on record. */
  ghost predicate FellBack(m: Machine, m': Machine, reason: string) {
    && OthersKept(m, m') && m'.networkInterfaces == []
    && AllocatorPaused !in m'.annotations && CapiPaused !in m'.annotations
    && Says(m', AllocationResult, "DynamicFallback") && Says(m', AllocationReason, reason)
  }

  /** Failed: the pauses as they were, no interface, and the reason on record. */
  ghost predicate FailedFor(m: Machine, m': Machine, reason: string) {
    && OthersKept(m, m') && m'.networkInterfaces == []
    && SameAt(m.annotations, m'.annotations, AllocatorPaused) && SameAt(m.annotations, m'.annotations, CapiPaused)
    && Says(m', AllocationResult, "Failed") && Says(m', AllocationReason, reason)
  }

  /** Allocated: both pauses gone, the one interface, and no reason left from earlier. */
  ghost predicate GivenTo(m: Machine, m': Machine, eni: string) {
    && OthersKept(m, m') && m'.networkInterfaces == [eni]
    && AllocatorPaused !in m'.annotations && CapiPaused !in m'.annotations
    && Says(m', AllocationResult, "Allocated") && AllocationReason !in m'.annotations
  }

  lemma MarksFallback(m: Machine, reason: string)
    requires ForTheAllocator(m) && reason != ""
    ensures FellBack(m, FallbackMachine(m, reason), reason)
  {
  }

  lemma MarksFailed(m: Machine, reason: string)
    requires ForTheAllocator(m) && reason != ""
    ensures FailedFor(m, FailedMachine(m, reason), reason)
  {
  }

  lemma MarksAllocated(m: Machine, eni: string)
    requires ForTheAllocator(m)
    ensures GivenTo(m, AllocatedMachine(m, eni), eni)
  {
  }

  /** A reconcile leaves every other machine alone, and one whose network is not known yet waits ten seconds. */
  lemma NotYetOrNever(ref: ObjectRef, m: Machine, claims: Claims, r: Readings, m': Machine, claims': Claims,
                      outcome: Outcome)
    requires MachineStep(ref, m, claims, r, m', claims', outcome)
    ensures !ForTheAllocator(m) ==> m' == m && claims' == claims && outcome == Finished
    ensures ForTheAllocator(m) && (r.network.None? || r.network.value.0 == "" || r.network.value.1 == "") ==>
      m' == m && claims' == claims && outcome == RequeueAfter(10_000)
    ensures ForTheAllocator(m) && r.network.Some? && r.network.value.0 != "" && r.network.value.1 != "" &&
            r.pools.None? ==>
      m' == m && claims' == claims && outcome.Errored?
  {
  }

  /** The reconcile gets as far as the listed pools. */
  ghost predicate Ready(m: Machine, r: Readings) {
    ForTheAllocator(m) && r.network.Some? && r.network.value.0 != "" && r.network.value.1 != "" && r.pools.Some?
  }

  /** Without a listed pool for its network a machine falls back; with two of them the reconcile errs. */
  lemma PoolDecides(ref: ObjectRef, m: Machine, claims: Claims, r: Readings, m': Machine, claims': Claims,
                    outcome: Outcome)
    requires Ready(m, r) && MachineStep(ref, m, claims, r, m', claims', outcome)
    ensures var listed, region, vpcID := r.pools.value, r.network.value.0, r.network.value.1;
            && ((forall p :: p in listed ==> p.region != region || p.vpcID != vpcID) ==>
                  claims' == claims &&
                  if r.patchFails then m' == m && outcome.Errored?
                  else FellBack(m, m', "NoMatchingPool") && outcome == Finished)
            && ((exists i, j :: 0 <= i < j < |listed| && listed[i].region == region && listed[i].vpcID == vpcID &&
                                listed[j].region == region && listed[j].vpcID == vpcID) ==>
                  m' == m && claims' == claims && outcome.Errored?)
  {
    hide FindOutcome;
    hide OnPool;
    hide FellBack;
    var found :| FindOutcome(r.pools.value, r.network.value.0, r.network.value.1, found) &&
      if found.Err? then m' == m && claims' == claims && outcome == Errored(AmbiguousNetwork)
      else if found.value.None? then
        claims' == claims && Patched(m, FallbackMachine(m, "NoMatchingPool"), r.patchFails, m', outcome)
      else OnPool(ref, m, claims, r, found.value.value, m', claims', outcome);
    FindsByFields(r.pools.value, r.network.value.0, r.network.value.1, found);
    var reason := "NoMatchingPool";
    assert |reason| > 0;
    MarksFallback(m, reason);
  }

  /** The one pool of the machine's network, the key that is used, and no listed claim of the machine. */
  ghost predicate Asks(ref: ObjectRef, m: Machine, r: Readings, pool: Pool, key: string) {
    && Ready(m, r) && OnlyPool(Surroundings(r.network, r.pools, r.ownerKeys), pool)
    && KeyOutcome(Lookup(m.annotations, InterfaceKey), r.owners, r.ownerKeys, Ok(key))
    && r.listed.Some? && forall c :: c in r.listed.value ==> c.machineRef != ref
  }

  /** How a reconcile of such a machine ends: by the answer of the allocation. */
  lemma AsksAndEnds(ref: ObjectRef, m: Machine, claims: Claims, r: Readings, pool: Pool, key: string,
                    m': Machine, claims': Claims, outcome: Outcome) returns (answer: Answer, reply: Reply)
    requires Asks(ref, m, r, pool, key) && MachineStep(ref, m, claims, r, m', claims', outcome)
    ensures ClaimOutcome(claims, Attempt(pool, key, ref, r.now, r.failing), answer, claims')
    ensures reply == match answer { case Ok(c) => Ok(c) case Err(cause) => Err(NotClaimed(cause)) }
    ensures Ends(m, r, pool, reply, m', outcome)
  {
    hide FindOutcome;
    hide KeyOutcome;
    hide OnPool;
    hide ClaimOutcome;
    OnlyPoolIsFound(Surroundings(r.network, r.pools, r.ownerKeys), pool);
    hide OnlyPool;
    var found := StepFinds(ref, m, claims, r, m', claims', outcome);
    hide MachineStep;
    assert OnPool(ref, m, claims, r, pool, m', claims', outcome);
    var k;
    k, reply := OnPoolReply(ref, m, claims, r, pool, m', claims', outcome);
    KeyUnique(Lookup(m.annotations, InterfaceKey), r.owners, r.ownerKeys, k, Ok(key));
    assert forall i :: 0 <= i < |r.listed.value| ==> r.listed.value[i] in r.listed.value;
    answer :| ClaimOutcome(claims, Attempt(pool, key, ref, r.now, r.failing), answer, claims') &&
              reply == match answer { case Ok(c) => Ok(c) case Err(cause) => Err(NotClaimed(cause)) };
  }

  /**
   The controller honours the exhaustion policy: when every interface on offer is claimed, a machine waits under
   Wait, untouched and still paused, for the next look in thirty seconds; it is marked Failed and left paused under
   Fail; and otherwise it is left to CAPA.
   */
  lemma PolicyIsHonoured(ref: ObjectRef, m: Machine, claims: Claims, r: Readings, pool: Pool, key: string,
                         m': Machine, claims': Claims, outcome: Outcome)
    requires Asks(ref, m, r, pool, key) && MachineStep(ref, m, claims, r, m', claims', outcome)
    requires WellFormed(pool.interfaces) && !r.patchFails
    requires key == "" || exists e :: e in pool.interfaces && e.key == key
    requires forall e :: e in pool.interfaces && (key == "" || e.key == key) ==> e.id in claims && e.id !in r.failing
    ensures claims' == claims
    ensures match pool.policy
            case Wait => m' == m && outcome == RequeueAfter(30_000)
            case Fail => FailedFor(m, m', "PoolExhausted") && HasFailed(m') && outcome == Finished
            case Dynamic => FellBack(m, m', "PoolExhausted") && HasFallenBack(m') && outcome == Finished
            case Unset => FellBack(m, m', "PoolExhausted") && HasFallenBack(m') && outcome == Finished
  {
    hide WellFormed;
    hide MachineStep;
    hide Contract;
    var answer, reply := AsksAndEnds(ref, m, claims, r, pool, key, m', claims', outcome);
    var a := Attempt(pool, key, ref, r.now, r.failing);
    assert forall e :: e in a.Candidates() <==> e in pool.interfaces && (key == "" || e.key == key);
    assert key != "" ==> a.Candidates() != [];
    if answer != Ok(None) {
      var e := StoppedSomewhere(claims, a, answer, claims');
      assert false;
    }
    assert claims' == claims by { NothingAdded(claims, a, claims'); }
    var reason := "PoolExhausted";
    assert |reason| > 0;
    MarksFallback(m, reason);
    MarksFailed(m, reason);
  }

  lemma NothingAdded(claims: Claims, a: Attempt, claims': Claims)
    requires ClaimOutcome(claims, a, Ok(None), claims')
    ensures claims' == claims
  {
  }

  /** A machine whose key names no interface of its pool is left as it is, with an error. */
  lemma UnknownKeyErrs(ref: ObjectRef, m: Machine, claims: Claims, r: Readings, pool: Pool, key: string,
                       m': Machine, claims': Claims, outcome: Outcome)
    requires Asks(ref, m, r, pool, key) && MachineStep(ref, m, claims, r, m', claims', outcome)
    requires key != "" && forall e :: e in pool.interfaces ==> e.key != key
    ensures m' == m && claims' == claims && outcome.Errored?
  {
    hide MachineStep;
    var answer, reply := AsksAndEnds(ref, m, claims, r, pool, key, m', claims', outcome);
    var a := Attempt(pool, key, ref, r.now, r.failing);
    WithKeyNone(pool.interfaces, key);
  }

  /**
   A claim that is added is what the machine is given, when the patch goes through; when it does not, the machine
   stays as it was and the claim waits for the next reconcile.
   */
  lemma AddedClaimIsGiven(ref: ObjectRef, m: Machine, claims: Claims, r: Readings, pool: Pool, key: string,
                          m': Machine, claims': Claims, outcome: Outcome)
    requires Asks(ref, m, r, pool, key) && MachineStep(ref, m, claims, r, m', claims', outcome)
    requires WellFormed(pool.interfaces) && claims' != claims
    ensures exists c :: Adds(claims, Attempt(pool, key, ref, r.now, r.failing), c, claims') &&
                        if r.patchFails then m' == m && outcome.Errored?
                        else GivenTo(m, m', c.eniID) && outcome == Finished
  {
    hide WellFormed;
    hide MachineStep;
    hide Adds;
    hide GivenTo;
    var answer, reply := AsksAndEnds(ref, m, claims, r, pool, key, m', claims', outcome);
    var a := Attempt(pool, key, ref, r.now, r.failing);
    if answer.Ok? && answer.value.Some? {
      WebhookAdds(claims, a, answer.value.value, claims');
      MarksAllocated(m, answer.value.value.eniID);
    } else {
      OnlyClaimsAdd(claims, a, answer, claims');
      assert false;
    }
  }

  /** The first listed claim of the machine is what it is given, and no other is added. */
  lemma ListedClaimIsGiven(ref: ObjectRef, m: Machine, claims: Claims, r: Readings, pool: Pool, key: string,
                           m': Machine, claims': Claims, outcome: Outcome)
    requires Ready(m, r) && OnlyPool(Surroundings(r.network, r.pools, r.ownerKeys), pool)
    requires KeyOutcome(Lookup(m.annotations, InterfaceKey), r.owners, r.ownerKeys, Ok(key))
    requires r.listed.Some? && exists c :: c in r.listed.value && c.machineRef == ref
    requires MachineStep(ref, m, claims, r, m', claims', outcome)
    ensures claims' == claims
    ensures if r.patchFails then m' == m && outcome.Errored?
            else outcome == Finished &&
                 exists i :: 0 <= i < |r.listed.value| && r.listed.value[i].machineRef == ref &&
                             GivenTo(m, m', r.listed.value[i].eniID) &&
                             forall j :: 0 <= j < i ==> r.listed.value[j].machineRef != ref
  {
    hide FindOutcome;
    hide KeyOutcome;
    hide OnPool;
    hide GivenTo;
    hide ClaimOutcome;
    OnlyPoolIsFound(Surroundings(r.network, r.pools, r.ownerKeys), pool);
    hide OnlyPool;
    var found := StepFinds(ref, m, claims, r, m', claims', outcome);
    hide MachineStep;
    var k, reply := OnPoolReply(ref, m, claims, r, pool, m', claims', outcome);
    KeyUnique(Lookup(m.annotations, InterfaceKey), r.owners, r.ownerKeys, k, Ok(key));
    assert Owned(r.listed.value, ref) by {
      var c :| c in r.listed.value && c.machineRef == ref;
      var i :| 0 <= i < |r.listed.value| && r.listed.value[i] == c;
    }
    assert forall i :: 0 <= i < |r.listed.value| ==> r.listed.value[i] in r.listed.value;
    MarksAllocated(m, reply.value.value.eniID);
  }

  lemma OnlyClaimsAdd(claims: Claims, a: Attempt, answer: Answer, claims': Claims)
    requires ClaimOutcome(claims, a, answer, claims') && !(answer.Ok? && answer.value.Some?)
    ensures claims' == claims
  {
  }

  /** A key that cannot be resolved, or claims that cannot be listed, are an error and change nothing. */
  lemma UnreadableErrs(ref: ObjectRef, m: Machine, claims: Claims, r: Readings, pool: Pool,
                       m': Machine, claims': Claims, outcome: Outcome)
    requires Ready(m, r) && OnlyPool(Surroundings(r.network, r.pools, r.ownerKeys), pool)
    requires MachineStep(ref, m, claims, r, m', claims', outcome)
    requires || r.listed.None?
             || ((forall k :: !AsksForItself(m.annotations, k)) &&
                 exists i :: FirstOwner(r.owners, i) && r.owners[i].name !in r.ownerKeys)
    ensures m' == m && claims' == claims && outcome.Errored?
  {
    hide FindOutcome;
    hide KeyOutcome;
    hide ControllerClaimOutcome;
    OnlyPoolIsFound(Surroundings(r.network, r.pools, r.ownerKeys), pool);
    hide OnlyPool;
    var found := StepFinds(ref, m, claims, r, m', claims', outcome);
    hide MachineStep;
    assert OnPool(ref, m, claims, r, pool, m', claims', outcome);
    var key :| KeyOutcome(Lookup(m.annotations, InterfaceKey), r.owners, r.ownerKeys, key) &&
      if key.Err? then m' == m && claims' == claims && outcome == Errored(KeyUnresolved)
      else exists reply ::
        ControllerClaimOutcome(r.listed, claims, Attempt(pool, key.value, ref, r.now, r.failing), reply, claims') &&
        FindsOrAddsOne(r.listed, claims, ref, pool.name, reply, claims') && Ends(m, r, pool, reply, m', outcome);
    KeyDecided(m.annotations, r.owners, r.ownerKeys, key);
    if key.Ok? {
      var reply :|
        ControllerClaimOutcome(r.listed, claims, Attempt(pool, key.value, ref, r.now, r.failing), reply, claims') &&
        FindsOrAddsOne(r.listed, claims, ref, pool.name, reply, claims') && Ends(m, r, pool, reply, m', outcome);
      UnlistedReply(claims, Attempt(pool, key.value, ref, r.now, r.failing), reply, claims');
    }
  }

  /** A reconcile that errs leaves the machine as it was; at most a claim was added that the machine will be given. */
  lemma ErrorsKeepMachine(ref: ObjectRef, m: Machine, claims: Claims, r: Readings, m': Machine, claims': Claims,
                          outcome: Outcome)
    requires MachineStep(ref, m, claims, r, m', claims', outcome) && outcome.Errored?
    ensures m' == m
  {
  }

  /**
   No machine is forgotten: a reconcile ends without asking for another only if the machine is no longer the
   allocator's to serve, or is marked Failed.
   */
  lemma FinishedOnlyWhenServed(ref: ObjectRef, m: Machine, claims: Claims, r: Readings, m': Machine, claims': Claims,
                               outcome: Outcome)
    requires MachineStep(ref, m, claims, r, m', claims', outcome) && outcome == Finished
    ensures !ForTheAllocator(m') || Says(m', AllocationResult, "Failed")
  {
  }
}
