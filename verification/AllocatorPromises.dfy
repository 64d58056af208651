/**
 What the two allocators promise about the claims they file and the keys they honour, in terms of the fields of
 pools, machines and claims.
 */
module AllocatorPromises {
  import opened Api
  import opened Addresses
  import opened Candidates
  import opened PoolValidator
  import opened PoolRegistry
  import opened Allocation
  import opened ClusterStore
  import opened AdmissionWebhook
  import opened MachineController
  import ClaimCollector

  // ----- The claim that is filed -----

  /** The claim is for this interface, this machine and this pool, and nobody has touched it yet. */
  ghost predicate FiledFor(c: Claim, e: ENIReference, ref: ObjectRef, poolName: string, now: int) {
    && c.name == e.id && c.eniID == e.id
    && c.machineRef == ref && c.poolName == poolName
    && c.finalizers == [ClaimFinalizer] && !c.deleting && c.stamp == now
    && c.status.phase == NoPhase && c.status.privateIP == "" && c.status.ready == None
  }

  /** The claim added for an attempt: for the unclaimed interface on offer with the lowest address. */
  ghost predicate Adds(claims: Claims, a: Attempt, c: Claim, claims': Claims) {
    && c.name !in claims && claims' == claims[c.name := c]
    && exists e :: Offered(a, e) && FiledFor(c, e, a.machineRef, a.pool.name, a.now) && LowestAddress(claims, a, e)
  }

  /** On an accepted pool the webhook's allocator adds such a claim whenever it answers with one. */
  lemma WebhookAdds(claims: Claims, a: Attempt, c: Claim, claims': Claims)
    requires WellFormed(a.pool.interfaces) && ClaimOutcome(claims, a, Ok(Some(c)), claims')
    ensures Adds(claims, a, c, claims')
  {
    hide ParseIPv4;
    MatchingAddressed(a.pool.interfaces, a.key);
    var answer: Answer := Ok(Some(c));
    assert Contract(claims, a, answer, claims');
    hide ClaimOutcome;
    var e :| e in a.Candidates() && e.id !in claims && e.id !in a.failing && c == a.ClaimFor(e) &&
             claims' == claims[e.id := c] && FirstInLine(claims, a, e);
    FirstInLineIsLowest(claims, a, e);
  }

  /** So does the controller's, unless a claim of the machine is listed, which it then answers with. */
  lemma ControllerAdds(listed: seq<Claim>, claims: Claims, a: Attempt, c: Claim, claims': Claims)
    requires WellFormed(a.pool.interfaces) && ControllerClaimOutcome(Some(listed), claims, a, Ok(Some(c)), claims')
    ensures if exists d :: d in listed && d.machineRef == a.machineRef then
              c in listed && c.machineRef == a.machineRef && claims' == claims
            else Adds(claims, a, c, claims')
  {
    hide ClaimOutcome;
    hide Adds;
    assert forall i :: 0 <= i < |listed| ==> listed[i] in listed;
    if !Owned(listed, a.machineRef) {
      var answer :| ClaimOutcome(claims, a, answer, claims') &&
        Ok(Some(c)) == match answer { case Ok(r) => Ok(r) case Err(cause) => Err(NotClaimed(cause)) };
      WebhookAdds(claims, a, c, claims');
    }
  }

  // ----- From the filed claim to its end -----

  /**
   Every claim an allocator adds can be reclaimed: if its machine never comes, or is gone for good, and the pool it
   was taken from stays, the eighth reconcile that does not fail has freed the interface.
   */
  lemma AddedClaimIsFreed(claims: Claims, a: Attempt, c: Claim, claims': Claims, visits: seq<ClaimCollector.Visit>)
    requires Adds(claims, a, c, claims')
    requires ClaimCollector.LeftAlone(c.name, claims', visits)
    requires ClaimCollector.Abandoned(visits, a.pool.name, a.machineRef)
    requires ClaimCollector.SpacedOut(visits) && visits != [] && visits[0].now >= a.now
    requires |visits| >= 8 + ClaimCollector.Count(c.name, claims', visits).failures
    ensures ClaimCollector.Freed(c.name, claims', visits)
  {
    hide LowestAddress;
    hide ClaimCollector.LeftAlone;
    hide ClaimCollector.Abandoned;
    hide ClaimCollector.Visits;
    hide ClaimCollector.Count;
    hide ClaimCollector.Freed;
    ClaimCollector.AbandonedVisits(c.name, claims', visits, a.pool.name, a.machineRef);
    ClaimCollector.BoundedReclaim(c.name, claims', visits);
  }

  /** In particular eight reconciles free it when none of their requests fails. */
  lemma AddedClaimIsFreedByEight(claims: Claims, a: Attempt, c: Claim, claims': Claims,
                                 visits: seq<ClaimCollector.Visit>)
    requires Adds(claims, a, c, claims')
    requires ClaimCollector.LeftAlone(c.name, claims', visits)
    requires ClaimCollector.Abandoned(visits, a.pool.name, a.machineRef)
    requires ClaimCollector.SpacedOut(visits) && |visits| >= 8 && visits[0].now >= a.now
    requires forall v :: v in visits ==> v.faults == {}
    ensures ClaimCollector.Freed(c.name, claims', visits)
  {
    ClaimCollector.NoFaultNoFailure(c.name, claims', visits);
    hide *;
    AddedClaimIsFreed(claims, a, c, claims', visits);
  }

  // ----- The key -----

  /** The key a machine asks for itself, by its annotation. */
  predicate AsksForItself(annotations: Annotations, key: string) {
    key != "" && InterfaceKey in annotations && annotations[InterfaceKey] == key
  }

  /** Its first CAPI owner. */
  ghost predicate FirstOwner(owners: seq<Owner>, i: int) {
    0 <= i < |owners| && owners[i].capiMachine && forall j :: 0 <= j < i ==> !owners[j].capiMachine
  }

  /**
   The key that is used: a machine's own wins; without one the first CAPI owner decides, and has to be there;
   without such an owner there is no key.
   */
  lemma KeyDecided(annotations: Annotations, owners: seq<Owner>, ownerKeys: map<string, string>,
                   key: Result<string, AdmissionError>)
    requires KeyOutcome(Lookup(annotations, InterfaceKey), owners, ownerKeys, key)
    ensures forall k :: AsksForItself(annotations, k) ==> key == Ok(k)
    ensures (forall k :: !AsksForItself(annotations, k)) ==>
      && (forall i :: FirstOwner(owners, i) ==>
            if owners[i].name in ownerKeys then key == Ok(ownerKeys[owners[i].name]) else key.Err?)
      && ((forall o :: o in owners ==> !o.capiMachine) ==> key == Ok(""))
  {
    assert forall j :: 0 <= j < |owners| ==> owners[j] in owners;
    if Lookup(annotations, InterfaceKey) != "" {
      assert AsksForItself(annotations, annotations[InterfaceKey]);
    }
  }

  /** The pool of the request: the only listed one with the region and the VPC of its cluster. */
  ghost predicate OnlyPool(around: Surroundings, pool: Pool) {
    && around.network.Some? && around.listed.Some?
    && exists i :: 0 <= i < |around.listed.value| && around.listed.value[i] == pool &&
                   pool.region == around.network.value.0 && pool.vpcID == around.network.value.1 &&
                   forall j :: 0 <= j < |around.listed.value| && j != i ==>
                     around.listed.value[j].region != pool.region || around.listed.value[j].vpcID != pool.vpcID
  }

  lemma OnlyPoolIsFound(around: Surroundings, pool: Pool)
    requires OnlyPool(around, pool)
    ensures forall found :: FindOutcome(around.listed.value, around.network.value.0, around.network.value.1, found) ==>
      found == Ok(Some(pool))
  {
    var listed, region, vpcID := around.listed.value, around.network.value.0, around.network.value.1;
    assert FindOutcome(listed, region, vpcID, Ok(Some(pool)));
    forall found | FindOutcome(listed, region, vpcID, found) ensures found == Ok(Some(pool)) {
      FindUnique(listed, region, vpcID, found, Ok(Some(pool)));
    }
  }

  /**
   A mistyped key never costs a machine its address: when the key that is used names no interface of the pool,
   the create is refused and nothing is changed; and an interface is only ever injected if it has that key.
   */
  lemma KeyIsHonoured(d: MachineDefaulter, claims: Claims, annotations: Annotations, around: Surroundings,
                      obj: MachineObject, r: Result<(), AdmissionError>, pool: Pool, key: string)
    requires d.Decided(claims, annotations, around, obj, r) && OnlyPool(around, pool) && key != ""
    requires || AsksForItself(annotations, key)
             || ((forall k :: !AsksForItself(annotations, k)) &&
                 exists i :: FirstOwner(obj.owners, i) && obj.owners[i].name in around.ownerKeys &&
                             around.ownerKeys[obj.owners[i].name] == key)
    ensures (forall e :: e in pool.interfaces ==> e.key != key) ==>
      r.Err? && d.Untouched(claims, annotations, obj) && obj.networkInterfaces == []
    ensures obj.networkInterfaces == []
            || exists e :: e in pool.interfaces && e.key == key && obj.networkInterfaces == [e.id]
  {
    hide FindOutcome;
    hide KeyOutcome;
    hide WellFormed;
    OnlyPoolIsFound(around, pool);
    hide OnlyPool;
    assert d.DecidedOn(pool, claims, annotations, around.ownerKeys, obj, r);
    forall k | KeyOutcome(Lookup(annotations, InterfaceKey), obj.owners, around.ownerKeys, k) ensures k == Ok(key) {
      KeyDecided(annotations, obj.owners, around.ownerKeys, k);
    }
    var a := Attempt(pool, key, obj.ref, d.store.now, d.store.failing);
    var answer :| ClaimOutcome(claims, a, answer, d.store.claims) &&
      match answer {
        case Err(cause) =>
          r == Err(AllocationFailed(cause)) && d.Untouched(claims, annotations, obj) && obj.networkInterfaces == []
        case Ok(None) => r == Ok(()) && d.Untouched(claims, annotations, obj) && obj.networkInterfaces == []
        case Ok(Some(c)) => r == Ok(()) && c.poolName == pool.name && d.Injected(claims, annotations, c, obj)
      };
    assert forall e :: e in a.Candidates() <==> e in pool.interfaces && e.key == key;
    if answer.Ok? && answer.value.Some? {
      AnswerIsOffered(claims, a, answer.value.value, d.store.claims);
    } else if a.Candidates() != [] {
      assert a.Candidates()[0] in a.Candidates();
    }
  }

  lemma AnswerIsOffered(claims: Claims, a: Attempt, c: Claim, claims': Claims)
    requires ClaimOutcome(claims, a, Ok(Some(c)), claims')
    ensures exists e :: Offered(a, e) && c.eniID == e.id
  {
    hide Contract;
    var answer: Answer := Ok(Some(c));
    var order :| SortOutcome(a.Candidates(), order) && Attempted(order, claims, a, answer, claims');
    SameElements(a.Candidates(), order);
    var i :| 0 <= i < |order| && c == a.ClaimFor(order[i]);
    assert order[i] in a.Candidates();
    assert Offered(a, order[i]);
  }

  /** A machine whose owner has to decide about the key and cannot be looked up is refused. */
  lemma OwnerMustBeThere(d: MachineDefaulter, claims: Claims, annotations: Annotations, around: Surroundings,
                         obj: MachineObject, r: Result<(), AdmissionError>, pool: Pool, i: int)
    requires d.Decided(claims, annotations, around, obj, r) && OnlyPool(around, pool)
    requires (forall k :: !AsksForItself(annotations, k)) && FirstOwner(obj.owners, i)
    requires obj.owners[i].name !in around.ownerKeys
    ensures r.Err? && d.Untouched(claims, annotations, obj) && obj.networkInterfaces == []
  {
    hide FindOutcome;
    hide KeyOutcome;
    hide ClaimOutcome;
    OnlyPoolIsFound(around, pool);
    hide OnlyPool;
    assert d.DecidedOn(pool, claims, annotations, around.ownerKeys, obj, r);
    forall k | KeyOutcome(Lookup(annotations, InterfaceKey), obj.owners, around.ownerKeys, k) ensures k.Err? {
      KeyDecided(annotations, obj.owners, around.ownerKeys, k);
    }
  }

  /** Without a listed pool for its network a machine passes untouched; with two of them it is refused. */
  lemma PoolMustBeOne(d: MachineDefaulter, claims: Claims, annotations: Annotations, around: Surroundings,
                      obj: MachineObject, r: Result<(), AdmissionError>)
    requires d.Decided(claims, annotations, around, obj, r) && around.network.Some? && around.listed.Some?
    ensures var listed, region, vpcID := around.listed.value, around.network.value.0, around.network.value.1;
            && ((forall p :: p in listed ==> p.region != region || p.vpcID != vpcID) ==>
                  r == Ok(()) && d.Untouched(claims, annotations, obj) && obj.networkInterfaces == [])
            && ((exists i, j :: 0 <= i < j < |listed| && listed[i].region == region && listed[i].vpcID == vpcID &&
                                listed[j].region == region && listed[j].vpcID == vpcID) ==>
                  r.Err? && d.Untouched(claims, annotations, obj) && obj.networkInterfaces == [])
  {
    hide FindOutcome;
    hide KeyOutcome;
    hide ClaimOutcome;
    var listed, region, vpcID := around.listed.value, around.network.value.0, around.network.value.1;
    forall f | FindOutcome(listed, region, vpcID, f)
      ensures f == Ok(None) <==> forall p :: p in listed ==> p.region != region || p.vpcID != vpcID
      ensures f.Err? <==>
        exists i, j :: 0 <= i < j < |listed| && listed[i].region == region && listed[i].vpcID == vpcID &&
                       listed[j].region == region && listed[j].vpcID == vpcID
    {
      FindsByFields(listed, region, vpcID, f);
    }
  }
}
