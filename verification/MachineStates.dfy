/** The states a managed machine goes through under its controller. */
module MachineStates {
  import opened Api
  import opened Candidates
  import opened PoolValidator
  import opened PoolRegistry
  import opened Allocation
  import opened ClusterStore
  import opened AdmissionWebhook
  import opened MachineController

  ghost predicate Unpaused(m: Machine) {
    AllocatorPaused !in m.annotations && CapiPaused !in m.annotations
  }

  ghost predicate StillPaused(m: Machine) {
    Lookup(m.annotations, AllocatorPaused) == "true"
  }

  ghost predicate OwnsENI(claims: Claims, ref: ObjectRef, eni: string) {
    exists n :: n in claims && claims[n].machineRef == ref && claims[n].eniID == eni
  }

  ghost predicate IsAllocated(m: Machine, claims: Claims, ref: ObjectRef) {
    && Lookup(m.annotations, AllocationResult) == RESULT_ALLOCATED && Unpaused(m)
    && |m.networkInterfaces| == 1 && OwnsENI(claims, ref, m.networkInterfaces[0])
  }

  ghost predicate HasFallenBack(m: Machine) {
    Lookup(m.annotations, AllocationResult) == RESULT_DYNAMIC_FALLBACK && Unpaused(m) && m.networkInterfaces == []
  }

  ghost predicate HasFailed(m: Machine) {
    Lookup(m.annotations, AllocationResult) == RESULT_FAILED && StillPaused(m) && m.networkInterfaces == []
  }

  ghost predicate IsWaiting(m: Machine) {
    AllocationResult !in m.annotations && StillPaused(m) && m.networkInterfaces == []
  }

  /** The four states of an opted-in machine that arrived paused. */
  ghost predicate StateOK(m: Machine, claims: Claims, ref: ObjectRef) {
    && Lookup(m.annotations, AllocateFromPool) == "true"
    && (IsAllocated(m, claims, ref) || HasFallenBack(m) || HasFailed(m) || IsWaiting(m))
  }

  /** Result, interfaces and pause determine each other. */
  lemma StatesAreDisjoint(m: Machine, claims: Claims, ref: ObjectRef)
    requires StateOK(m, claims, ref)
    ensures IsAllocated(m, claims, ref) <==> m.networkInterfaces != []
    ensures IsAllocated(m, claims, ref) <==> Lookup(m.annotations, AllocationResult) == RESULT_ALLOCATED
    ensures IsAllocated(m, claims, ref) || HasFallenBack(m) <==> !StillPaused(m)
    ensures (HasFailed(m) || IsWaiting(m)) && !m.terminating <==> Concerned(m)
  {
  }

  // ----- One reconcile -----

  ghost predicate FreshList(listed: Option<seq<Claim>>, claims: Claims) {
    listed.Some? ==> ListsClaims(listed.value, claims)
  }

  /** What a reconcile makes of a machine it is concerned with. */
  ghost predicate Lands(m: Machine, m': Machine, claims': Claims, ref: ObjectRef) {
    || m' == m
    || (exists reason :: reason != "" && (m' == FallbackMachine(m, reason) || m' == FailedMachine(m, reason)))
    || (exists eni :: m' == AllocatedMachine(m, eni) && OwnsENI(claims', ref, eni))
  }

  lemma FoundIsOwned(listed: Option<seq<Claim>>, claims: Claims, ref: ObjectRef, poolName: string, c: Claim,
                     claims': Claims)
    requires FreshList(listed, claims) && FindsOrAddsOne(listed, claims, ref, poolName, Ok(Some(c)), claims')
    ensures OwnsENI(claims', ref, c.eniID)
  {
    assert c.name in claims' && claims'[c.name] == c;
  }

  lemma OnPoolReply(ref: ObjectRef, m: Machine, claims: Claims, r: Readings, pool: Pool, m': Machine, claims': Claims,
                    outcome: Outcome)
    returns (key: Result<string, AdmissionError>, reply: Reply)
    requires OnPool(ref, m, claims, r, pool, m', claims', outcome)
    ensures KeyOutcome(Lookup(m.annotations, InterfaceKey), r.owners, r.ownerKeys, key)
    ensures if key.Err? then m' == m && claims' == claims
            else ControllerClaimOutcome(r.listed, claims, Attempt(pool, key.value, ref, r.now, r.failing),
                                        reply, claims') &&
                 FindsOrAddsOne(r.listed, claims, ref, pool.name, reply, claims') &&
                 Ends(m, r, pool, reply, m', outcome)
  {
    hide ControllerClaimOutcome;
    hide KeyOutcome;
    key :| KeyOutcome(Lookup(m.annotations, InterfaceKey), r.owners, r.ownerKeys, key) &&
      if key.Err? then m' == m && claims' == claims && outcome == Errored(KeyUnresolved)
      else exists reply ::
        ControllerClaimOutcome(r.listed, claims, Attempt(pool, key.value, ref, r.now, r.failing), reply, claims') &&
        FindsOrAddsOne(r.listed, claims, ref, pool.name, reply, claims') && Ends(m, r, pool, reply, m', outcome);
    reply := Ok(None);
    if key.Ok? {
      reply :| ControllerClaimOutcome(r.listed, claims, Attempt(pool, key.value, ref, r.now, r.failing),
                                      reply, claims') &&
               FindsOrAddsOne(r.listed, claims, ref, pool.name, reply, claims') && Ends(m, r, pool, reply, m', outcome);
    }
  }

  lemma OnPoolLands(ref: ObjectRef, m: Machine, claims: Claims, r: Readings, pool: Pool, m': Machine, claims': Claims,
                    outcome: Outcome)
    requires FreshList(r.listed, claims) && OnPool(ref, m, claims, r, pool, m', claims', outcome)
    ensures Lands(m, m', claims', ref)
  {
    hide ControllerClaimOutcome;
    hide KeyOutcome;
    hide OnPool;
    hide Marked;
    hide WithoutPause;
    var key, reply := OnPoolReply(ref, m, claims, r, pool, m', claims', outcome);
    if key.Ok? {
      if reply.Ok? && reply.value.Some? {
        FoundIsOwned(r.listed, claims, ref, pool.name, reply.value.value, claims');
        assert m' == m || m' == AllocatedMachine(m, reply.value.value.eniID);
      } else {
        var reason := "PoolExhausted";
        assert |reason| > 0;
        assert m' == m || m' == FallbackMachine(m, reason) || m' == FailedMachine(m, reason);
      }
    }
  }

  lemma StepLands(ref: ObjectRef, m: Machine, claims: Claims, r: Readings, m': Machine, claims': Claims,
                  outcome: Outcome)
    requires FreshList(r.listed, claims) && MachineStep(ref, m, claims, r, m', claims', outcome)
    ensures Lands(m, m', claims', ref)
  {
    hide FindOutcome;
    hide OnPool;
    if m' != m {
      var found :| FindOutcome(r.pools.value, r.network.value.0, r.network.value.1, found) &&
        if found.Err? then m' == m && claims' == claims && outcome == Errored(AmbiguousNetwork)
        else if found.value.None? then
          claims' == claims && Patched(m, FallbackMachine(m, "NoMatchingPool"), r.patchFails, m', outcome)
        else OnPool(ref, m, claims, r, found.value.value, m', claims', outcome);
      if found.value.Some? {
        OnPoolLands(ref, m, claims, r, found.value.value, m', claims', outcome);
      }
    }
  }

  lemma LandingIsOK(m: Machine, m': Machine, claims': Claims, ref: ObjectRef)
    requires Lookup(m.annotations, AllocateFromPool) == "true"
    requires HasFailed(m) || IsWaiting(m)
    requires Lands(m, m', claims', ref)
    ensures StateOK(m', claims', ref)
  {
  }

  lemma StepOutsideIdle(ref: ObjectRef, m: Machine, claims: Claims, r: Readings, m': Machine, claims': Claims,
                        outcome: Outcome)
    requires !Concerned(m) && MachineStep(ref, m, claims, r, m', claims', outcome)
    ensures m' == m && claims' == claims && outcome == Finished
  {
  }

  lemma StepKeepsState(ref: ObjectRef, m: Machine, claims: Claims, r: Readings, m': Machine, claims': Claims,
                       outcome: Outcome)
    requires StateOK(m, claims, ref) && FreshList(r.listed, claims) &&
      MachineStep(ref, m, claims, r, m', claims', outcome)
    ensures StateOK(m', claims', ref)
  {
    hide MachineStep;
    StatesAreDisjoint(m, claims, ref);
    if Concerned(m) {
      StepLands(ref, m, claims, r, m', claims', outcome);
      LandingIsOK(m, m', claims', ref);
    } else {
      StepOutsideIdle(ref, m, claims, r, m', claims', outcome);
    }
  }

  // ----- Whole histories -----

  /** One reconcile: what it read, the machine and the claims it met, and what it left behind. */
  datatype Round = Round(
    readings: Readings,
    met: Machine,
    before: Claims,
    machine: Machine,
    after: Claims,
    outcome: Outcome)

  /** The annotations that decide about the state; others may be edited by anybody, the interface key included. */
  const STATE_KEYS: set<AnnotationKey> := {AllocateFromPool, AllocatorPaused, CapiPaused, AllocationResult}

  /** Between reconciles others may edit any other annotation and delete the machine. */
  ghost predicate EditedElsewhere(m: Machine, met: Machine) {
    && met.networkInterfaces == m.networkInterfaces && (m.terminating ==> met.terminating)
    && forall k :: k in STATE_KEYS ==>
         (k in met.annotations <==> k in m.annotations) &&
           (k in m.annotations ==> met.annotations[k] == m.annotations[k])
  }

  /** Others may do what they like with claims, except to those of this machine. */
  ghost predicate OwnClaimsStay(claims: Claims, claims': Claims, ref: ObjectRef) {
    forall n :: n in claims && claims[n].machineRef == ref ==>
      n in claims' && claims'[n].machineRef == ref && claims'[n].eniID == claims[n].eniID
  }

  ghost predicate Rounds(ref: ObjectRef, m: Machine, claims: Claims, rounds: seq<Round>)
    decreases |rounds|
  {
    rounds != [] ==>
      var x := rounds[0];
      && EditedElsewhere(m, x.met) && OwnClaimsStay(claims, x.before, ref) && FreshList(x.readings.listed, x.before)
      && MachineStep(ref, x.met, x.before, x.readings, x.machine, x.after, x.outcome)
      && Rounds(ref, x.machine, x.after, rounds[1..])
  }

  lemma StateSurvivesOthers(m: Machine, met: Machine, claims: Claims, claims': Claims, ref: ObjectRef)
    requires StateOK(m, claims, ref) && EditedElsewhere(m, met) && OwnClaimsStay(claims, claims', ref)
    ensures StateOK(met, claims', ref)
  {
    assert forall k :: k in STATE_KEYS ==> Lookup(met.annotations, k) == Lookup(m.annotations, k);
  }

  /**
   Every machine that starts in one of the four states, in particular every paused, opted-in machine without a
   result, is in one of them after every history of reconciles with edits elsewhere in between, whatever pools,
   networks and keys these read and whichever requests fail, as long as each lists the claims afresh.
   */
  lemma {:induction false} HistoryKeepsState(ref: ObjectRef, m: Machine, claims: Claims, rounds: seq<Round>)
    requires StateOK(m, claims, ref) && Rounds(ref, m, claims, rounds)
    ensures forall i :: 0 <= i < |rounds| ==> StateOK(rounds[i].machine, rounds[i].after, ref)
    decreases |rounds|
  {
    if rounds != [] {
      var x := rounds[0];
      hide StateOK;
      hide MachineStep;
      hide EditedElsewhere;
      StateSurvivesOthers(m, x.met, claims, x.before, ref);
      StepKeepsState(ref, x.met, x.before, x.readings, x.machine, x.after, x.outcome);
      HistoryKeepsState(ref, x.machine, x.after, rounds[1..]);
      forall i | 0 < i < |rounds| ensures StateOK(rounds[i].machine, rounds[i].after, ref) {
        assert rounds[i] == rounds[1..][i - 1];
      }
    }
  }

  // ----- A second reconcile -----

  ghost predicate AcceptedPools(r: Readings) {
    r.pools.Some? ==> forall p :: p in r.pools.value ==> WellFormed(p.interfaces)
  }

  /** When the first reply was no claim, a later look at the same claims gives the same reply. */
  lemma ReplyRepeats(listed: Option<seq<Claim>>, listed': Option<seq<Claim>>, claims: Claims, a: Attempt, later: int,
                     x: Reply, x': Claims, y: Reply, y': Claims)
    requires WellFormed(a.pool.interfaces) && (listed.Some? <==> listed'.Some?)
    requires FreshList(listed, claims) && FreshList(listed', claims)
    requires ControllerClaimOutcome(listed, claims, a, x, x')
    requires ControllerClaimOutcome(listed', claims, a.(now := later), y, y')
    requires !(x.Ok? && x.value.Some?)
    ensures x == y && x' == y'
  {
    hide Contract;
    if listed.Some? {
      assert !Owned(listed.value, a.machineRef);
      assert !Owned(listed'.value, a.machineRef) by {
        forall i | 0 <= i < |listed'.value| ensures listed'.value[i].machineRef != a.machineRef {
          assert listed'.value[i] in listed'.value;
          var c := claims[listed'.value[i].name];
          assert c in listed.value;
          var k :| 0 <= k < |listed.value| && listed.value[k] == c;
        }
      }
      var p :| ClaimOutcome(claims, a, p, x') &&
        x == match p { case Ok(c) => Ok(c) case Err(cause) => Err(NotClaimed(cause)) };
      var b := a.(now := later);
      var q :| ClaimOutcome(claims, b, q, y') &&
        y == match q { case Ok(c) => Ok(c) case Err(cause) => Err(NotClaimed(cause)) };
      ContractIgnoresClock(claims, a, p, x', later);
      ContractDetermines(claims, b, p, x', q, y');
    }
  }

  lemma AfterFailure(m: Machine, reason: string)
    requires Concerned(m) && reason != ""
    ensures FailedMachine(FailedMachine(m, reason), reason) == FailedMachine(m, reason)
    ensures Lookup(FailedMachine(m, reason).annotations, InterfaceKey) == Lookup(m.annotations, InterfaceKey)
  {
  }

  /** The same readings at any later time, with the claims listed again. */
  ghost predicate SameReadings(r: Readings, r': Readings) {
    r' == r.(listed := r'.listed, now := r'.now) && (r.listed.Some? <==> r'.listed.Some?)
  }

  /** A machine the controller is still concerned with was given nothing, and has not fallen back. */
  lemma StillConcerned(m: Machine, r: Readings, pool: Pool, reply: Reply, m': Machine, outcome: Outcome)
    requires Concerned(m) && Concerned(m') && !r.patchFails && Ends(m, r, pool, reply, m', outcome)
    ensures !(reply.Ok? && reply.value.Some?)
    ensures reply == Ok(None) ==>
      || (pool.policy.Wait? && m' == m)
      || (pool.policy.Fail? && m' == FailedMachine(m, "PoolExhausted"))
    ensures reply.Err? ==> m' == m
  {
  }

  lemma OnPoolRepeats(ref: ObjectRef, m: Machine, claims: Claims, r: Readings, r': Readings, pool: Pool,
                      m1: Machine, claims1: Claims, o1: Outcome, m2: Machine, claims2: Claims, o2: Outcome)
    requires WellFormed(pool.interfaces) && Concerned(m) && Concerned(m1) && !r.patchFails && SameReadings(r, r')
    requires FreshList(r.listed, claims) && FreshList(r'.listed, claims1)
    requires OnPool(ref, m, claims, r, pool, m1, claims1, o1) && OnPool(ref, m1, claims1, r', pool, m2, claims2, o2)
    ensures m2 == m1 && claims2 == claims1
  {
    hide ControllerClaimOutcome;
    hide KeyOutcome;
    hide OnPool;
    hide WellFormed;
    var key, reply := OnPoolReply(ref, m, claims, r, pool, m1, claims1, o1);
    var key', reply' := OnPoolReply(ref, m1, claims1, r', pool, m2, claims2, o2);
    AfterFailure(m, "PoolExhausted");
    if key.Ok? {
      StillConcerned(m, r, pool, reply, m1, o1);
    }
    KeyUnique(Lookup(m.annotations, InterfaceKey), r.owners, r.ownerKeys, key, key');
    if key.Ok? {
      var a := Attempt(pool, key.value, ref, r.now, r.failing);
      ReplyRepeats(r.listed, r'.listed, claims, a, r'.now, reply, claims1, reply', claims2);
    }
  }

  lemma StepFinds(ref: ObjectRef, m: Machine, claims: Claims, r: Readings, m': Machine, claims': Claims,
                  outcome: Outcome)
    returns (found: Result<Option<Pool>, FindError>)
    requires Concerned(m) && MachineStep(ref, m, claims, r, m', claims', outcome)
    requires r.network.Some? && r.network.value.0 != "" && r.network.value.1 != "" && r.pools.Some?
    ensures FindOutcome(r.pools.value, r.network.value.0, r.network.value.1, found)
    ensures if found.Err? then m' == m && claims' == claims
            else if found.value.None? then
              claims' == claims && Patched(m, FallbackMachine(m, "NoMatchingPool"), r.patchFails, m', outcome)
            else OnPool(ref, m, claims, r, found.value.value, m', claims', outcome)
  {
    hide FindOutcome;
    hide OnPool;
    found :| FindOutcome(r.pools.value, r.network.value.0, r.network.value.1, found) &&
      if found.Err? then m' == m && claims' == claims && outcome == Errored(AmbiguousNetwork)
      else if found.value.None? then
        claims' == claims && Patched(m, FallbackMachine(m, "NoMatchingPool"), r.patchFails, m', outcome)
      else OnPool(ref, m, claims, r, found.value.value, m', claims', outcome);
  }

  lemma FallbackNotConcerned(m: Machine, reason: string)
    ensures !Concerned(FallbackMachine(m, reason))
  {
  }

  /**
   A second reconcile is idle: on accepted pools, reading the same again at any later time, after a reconcile
   whose patch went through, changes neither the machine nor any claim.
   */
  lemma SecondReconcileIdle(ref: ObjectRef, m: Machine, claims: Claims, r: Readings, r': Readings,
                            m1: Machine, claims1: Claims, o1: Outcome, m2: Machine, claims2: Claims, o2: Outcome)
    requires !r.patchFails && SameReadings(r, r')
    requires AcceptedPools(r) && FreshList(r.listed, claims) && FreshList(r'.listed, claims1)
    requires MachineStep(ref, m, claims, r, m1, claims1, o1) && MachineStep(ref, m1, claims1, r', m2, claims2, o2)
    ensures m2 == m1 && claims2 == claims1
  {
    hide FindOutcome;
    hide OnPool;
    hide WellFormed;
    if Concerned(m) && Concerned(m1) {
      if r.network.Some? && r.network.value.0 != "" && r.network.value.1 != "" && r.pools.Some? {
        hide MachineStep;
        var f := StepFinds(ref, m, claims, r, m1, claims1, o1);
        var g := StepFinds(ref, m1, claims1, r', m2, claims2, o2);
        FindUnique(r.pools.value, r.network.value.0, r.network.value.1, f, g);
        FallbackNotConcerned(m, "NoMatchingPool");
        if f.Ok? && f.value.Some? {
          OnPoolRepeats(ref, m, claims, r, r', f.value.value, m1, claims1, o1, m2, claims2, o2);
        }
      }
    }
  }

  // ----- Failed is not the end -----

  /**
   What a machine the controller is concerned with needs to be allocated: a ready network served by exactly one
   pool, a key that resolves, and listed claims that show one of its own or leave a first candidate to create.
   */
  ghost predicate Allocatable(ref: ObjectRef, m: Machine, claims: Claims, r: Readings) {
    && r.network.Some? && r.network.value.0 != "" && r.network.value.1 != ""
    && r.pools.Some? && r.listed.Some?
    && exists pool, key ::
         && FindOutcome(r.pools.value, r.network.value.0, r.network.value.1, Ok(Some(pool)))
         && KeyOutcome(Lookup(m.annotations, InterfaceKey), r.owners, r.ownerKeys, Ok(key))
         && WellFormed(pool.interfaces)
         && (Owned(r.listed.value, ref) || NextClaimable(claims, Attempt(pool, key, ref, r.now, r.failing)))
  }

  /** When the controller's allocator replies with a claim. */
  lemma RepliesExactlyWhen(listed: seq<Claim>, claims: Claims, a: Attempt, reply: Reply, claims': Claims)
    requires WellFormed(a.pool.interfaces) && ControllerClaimOutcome(Some(listed), claims, a, reply, claims')
    ensures reply.Ok? && reply.value.Some? <==> Owned(listed, a.machineRef) || NextClaimable(claims, a)
  {
    hide Contract;
    hide NextClaimable;
    hide WellFormed;
    if !Owned(listed, a.machineRef) {
      var answer :| ClaimOutcome(claims, a, answer, claims') &&
                    reply == match answer { case Ok(c) => Ok(c) case Err(cause) => Err(NotClaimed(cause)) };
      ClaimsExactlyWhen(claims, a, answer, claims');
    }
  }

  lemma UnlistedReply(claims: Claims, a: Attempt, reply: Reply, claims': Claims)
    requires ControllerClaimOutcome(None, claims, a, reply, claims')
    ensures reply == Err(ClaimsNotListed)
  {
  }

  lemma EndsAllocated(m: Machine, r: Readings, pool: Pool, reply: Reply, m': Machine, outcome: Outcome)
    requires Concerned(m) && !r.patchFails && Ends(m, r, pool, reply, m', outcome)
    ensures m'.networkInterfaces != [] <==> reply.Ok? && reply.value.Some?
  {
  }

  lemma OnPoolAllocates(ref: ObjectRef, m: Machine, claims: Claims, r: Readings, pool: Pool,
                        m': Machine, claims': Claims, outcome: Outcome)
    requires Concerned(m) && !r.patchFails && WellFormed(pool.interfaces)
    requires r.network.Some? && r.network.value.0 != "" && r.network.value.1 != "" && r.pools.Some?
    requires FindOutcome(r.pools.value, r.network.value.0, r.network.value.1, Ok(Some(pool)))
    requires OnPool(ref, m, claims, r, pool, m', claims', outcome)
    ensures m'.networkInterfaces != [] <==> Allocatable(ref, m, claims, r)
  {
    hide ControllerClaimOutcome;
    hide KeyOutcome;
    hide FindOutcome;
    hide NextClaimable;
    hide WellFormed;
    hide Owned;
    var key, reply := OnPoolReply(ref, m, claims, r, pool, m', claims', outcome);
    forall k | KeyOutcome(Lookup(m.annotations, InterfaceKey), r.owners, r.ownerKeys, k) ensures k == key {
      KeyUnique(Lookup(m.annotations, InterfaceKey), r.owners, r.ownerKeys, k, key);
    }
    forall q: Pool | FindOutcome(r.pools.value, r.network.value.0, r.network.value.1, Ok(Some(q))) ensures q == pool {
      FindUnique(r.pools.value, r.network.value.0, r.network.value.1, Ok(Some(q)), Ok(Some(pool)));
    }
    if key.Ok? {
      EndsAllocated(m, r, pool, reply, m', outcome);
      if r.listed.Some? {
        RepliesExactlyWhen(r.listed.value, claims, Attempt(pool, key.value, ref, r.now, r.failing), reply, claims');
      } else {
        UnlistedReply(claims, Attempt(pool, key.value, ref, r.now, r.failing), reply, claims');
      }
    }
  }

  lemma IsAllocatedByInterfaces(ref: ObjectRef, m: Machine, m': Machine, claims': Claims)
    requires Concerned(m) && Lands(m, m', claims', ref)
    ensures IsAllocated(m', claims', ref) <==> m'.networkInterfaces != []
  {
  }

  /**
   Exactly when a reconcile allocates, whatever came before: a machine the controller is concerned with, one
   marked Failed included, is allocated by its next reconcile if and only if it is allocatable then.
   */
  lemma AllocatesExactlyWhen(ref: ObjectRef, m: Machine, claims: Claims, r: Readings,
                             m': Machine, claims': Claims, outcome: Outcome)
    requires Concerned(m) && !r.patchFails && AcceptedPools(r) && FreshList(r.listed, claims)
    requires MachineStep(ref, m, claims, r, m', claims', outcome)
    ensures IsAllocated(m', claims', ref) <==> Allocatable(ref, m, claims, r)
  {
    hide FindOutcome;
    hide OnPool;
    hide WellFormed;
    hide KeyOutcome;
    hide NextClaimable;
    StepLands(ref, m, claims, r, m', claims', outcome);
    IsAllocatedByInterfaces(ref, m, m', claims');
    if r.network.Some? && r.network.value.0 != "" && r.network.value.1 != "" && r.pools.Some? {
      var found := StepFinds(ref, m, claims, r, m', claims', outcome);
      forall q: Pool | FindOutcome(r.pools.value, r.network.value.0, r.network.value.1, Ok(Some(q)))
        ensures found == Ok(Some(q))
      {
        FindUnique(r.pools.value, r.network.value.0, r.network.value.1, Ok(Some(q)), found);
      }
      FindUnique(r.pools.value, r.network.value.0, r.network.value.1, found, found);
      if found.Ok? && found.value.Some? {
        OnPoolAllocates(ref, m, claims, r, found.value.value, m', claims', outcome);
      }
    }
  }

  /** The reply there is for a machine with a listed claim, or with a first candidate to create. */
  lemma ReplyExists(listed: seq<Claim>, claims: Claims, a: Attempt) returns (c: Claim, claims': Claims)
    requires WellFormed(a.pool.interfaces) && (Owned(listed, a.machineRef) || NextClaimable(claims, a))
    ensures ControllerClaimOutcome(Some(listed), claims, a, Ok(Some(c)), claims')
    ensures FindsOrAddsOne(Some(listed), claims, a.machineRef, a.pool.name, Ok(Some(c)), claims')
  {
    hide Contract;
    hide NextClaimable;
    hide WellFormed;
    if Owned(listed, a.machineRef) {
      c := FirstOwned(listed, a.machineRef);
      claims' := claims;
    } else {
      AllocateIsOutcome(claims, a);
      var r := Allocate(claims, a);
      hide Allocate;
      ClaimsExactlyWhen(claims, a, r.answer, r.claims);
      c, claims' := r.answer.value.value, r.claims;
      assert a.key == "" || a.Candidates() != [];
      var order :| SortOutcome(a.Candidates(), order) && Attempted(order, claims, a, r.answer, claims');
    }
  }

  lemma {:induction false} FirstOwned(listed: seq<Claim>, ref: ObjectRef) returns (c: Claim)
    requires Owned(listed, ref)
    ensures c in listed && c.machineRef == ref
    ensures exists i :: 0 <= i < |listed| && listed[i] == c && forall j :: 0 <= j < i ==> listed[j].machineRef != ref
  {
    if listed[0].machineRef == ref {
      c := listed[0];
    } else {
      var rest := listed[1..];
      assert forall j :: 0 < j < |listed| ==> listed[j] == rest[j - 1];
      assert Owned(rest, ref);
      c := FirstOwned(rest, ref);
      var i :| 0 <= i < |rest| && rest[i] == c && forall j :: 0 <= j < i ==> rest[j].machineRef != ref;
      assert listed[i + 1] == c;
    }
  }

  /** A failed machine is still paused, so as soon as it is allocatable a reconcile can and does allocate it. */
  lemma FailedCanRecover(ref: ObjectRef, m: Machine, claims: Claims, r: Readings) returns (m': Machine, claims': Claims)
    requires HasFailed(m) && Concerned(m) && !r.patchFails && AcceptedPools(r) && FreshList(r.listed, claims)
    requires Allocatable(ref, m, claims, r)
    ensures MachineStep(ref, m, claims, r, m', claims', Finished)
    ensures IsAllocated(m', claims', ref)
  {
    hide FindOutcome;
    hide KeyOutcome;
    hide ControllerClaimOutcome;
    hide FindsOrAddsOne;
    hide NextClaimable;
    hide WellFormed;
    var pool, key :| FindOutcome(r.pools.value, r.network.value.0, r.network.value.1, Ok(Some(pool)))
      && KeyOutcome(Lookup(m.annotations, InterfaceKey), r.owners, r.ownerKeys, Ok(key)) && WellFormed(pool.interfaces)
      && (Owned(r.listed.value, ref) || NextClaimable(claims, Attempt(pool, key, ref, r.now, r.failing)));
    var c;
    c, claims' := ReplyExists(r.listed.value, claims, Attempt(pool, key, ref, r.now, r.failing));
    m' := AllocatedMachine(m, c.eniID);
    var found: Result<Option<Pool>, FindError>, k: Result<string, AdmissionError> := Ok(Some(pool)), Ok(key);
    assert OnPool(ref, m, claims, r, pool, m', claims', Finished) by {
      assert KeyOutcome(Lookup(m.annotations, InterfaceKey), r.owners, r.ownerKeys, k);
      assert Ends(m, r, pool, Ok(Some(c)), m', Finished);
    }
    assert FindOutcome(r.pools.value, r.network.value.0, r.network.value.1, found);
    AllocatesExactlyWhen(ref, m, claims, r, m', claims', Finished);
  }
}
