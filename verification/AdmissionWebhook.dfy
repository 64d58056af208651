/** The mutating webhook of AWSMachine (internal/webhook/v1beta2/awsmachine_webhook.go). */
module AdmissionWebhook {
  import opened Api
  import opened Candidates
  import opened PoolValidator
  import opened PoolRegistry
  import opened Allocation
  import opened ClusterStore

  datatype AdmissionError =
    | NetworkUnresolved
    | PoolListFailed
    | AmbiguousPool
    | OwnerLookupFailed(owner: string)
    | AllocationFailed(cause: AllocationError)

  /** An owner reference; `capiMachine` says that group and kind are those of a CAPI Machine. */
  datatype Owner = Owner(capiMachine: bool, name: string)

  /** What the webhook reads about the machine's surroundings; a list or lookup that fails is None. */
  datatype Surroundings = Surroundings(
    network: Option<(string, string)>,
    listed: Option<seq<Pool>>,
    ownerKeys: map<string, string>)

  /** The AWSMachine under admission. */
  class MachineObject {
    const ref: ObjectRef
    const owners: seq<Owner>
    var annotations: Annotations
    var networkInterfaces: seq<string>

    constructor (ref: ObjectRef, owners: seq<Owner>, annotations: Annotations, networkInterfaces: seq<string>)
      ensures this.ref == ref && this.owners == owners
      ensures this.annotations == annotations && this.networkInterfaces == networkInterfaces
    {
      this.ref, this.owners, this.annotations, this.networkInterfaces := ref, owners, annotations, networkInterfaces;
    }
  }

  /** Opted in, without interfaces of its own, and not paused by its user. */
  predicate Eligible(annotations: Annotations, networkInterfaces: seq<string>) {
    && Lookup(annotations, AllocateFromPool) == "true"
    && networkInterfaces == []
    && CapiPaused !in annotations
  }

  // ----- The interface key -----

  /** The machine's own annotation wins; otherwise the first CAPI owner decides; otherwise there is no key. */
  ghost predicate KeyOutcome(own: string, owners: seq<Owner>, ownerKeys: map<string, string>,
                             r: Result<string, AdmissionError>) {
    if own != "" then r == Ok(own)
    else if forall j :: 0 <= j < |owners| ==> !owners[j].capiMachine then r == Ok("")
    else
      exists i :: 0 <= i < |owners| && owners[i].capiMachine && (forall j :: 0 <= j < i ==> !owners[j].capiMachine) &&
                  r == if owners[i].name in ownerKeys then Ok(ownerKeys[owners[i].name])
                       else Err(OwnerLookupFailed(owners[i].name))
  }

  lemma KeyUnique(own: string, owners: seq<Owner>, keys: map<string, string>,
                  k: Result<string, AdmissionError>, l: Result<string, AdmissionError>)
    requires KeyOutcome(own, owners, keys, k) && KeyOutcome(own, owners, keys, l)
    ensures k == l
  {
  }

  method ResolveInterfaceKey(annotations: Annotations, owners: seq<Owner>, ownerKeys: map<string, string>)
    returns (r: Result<string, AdmissionError>)
    ensures KeyOutcome(Lookup(annotations, InterfaceKey), owners, ownerKeys, r)
  {
    var key := Lookup(annotations, InterfaceKey);
    if key != "" {
      return Ok(key);
    }
    for i := 0 to |owners|
      invariant forall j :: 0 <= j < i ==> !owners[j].capiMachine
    {
      if !owners[i].capiMachine {
        continue;
      }
      if owners[i].name !in ownerKeys {
        return Err(OwnerLookupFailed(owners[i].name));
      }
      return Ok(ownerKeys[owners[i].name]);
    }
    return Ok("");
  }

  // ----- Sorting -----

  /** An unstable sort: callers may rely on nothing but `SortOutcome`. */
  method SortSlice(s: seq<ENIReference>) returns (r: seq<ENIReference>)
    ensures SortOutcome(s, r)
  {
    SortIsOutcome(s);
    r := SortByAddress(s);
  }

  lemma {:induction false} WithKeySnoc(s: seq<ENIReference>, x: ENIReference, key: string)
    ensures WithKey(s + [x], key) == WithKey(s, key) + if x.key == key then [x] else []
  {
    if s == [] {
      assert s + [x] == [x] && [x][1..] == [];
    } else {
      assert (s + [x])[1..] == s[1..] + [x];
      WithKeySnoc(s[1..], x, key);
    }
  }

  /** Keeping the interfaces with the requested key, in their listed order. */
  method SelectByKey(interfaces: seq<ENIReference>, key: string) returns (configured: seq<ENIReference>)
    ensures configured == WithKey(interfaces, key)
  {
    configured := [];
    for i := 0 to |interfaces|
      invariant configured == WithKey(interfaces[..i], key)
    {
      assert interfaces[..i + 1] == interfaces[..i] + [interfaces[i]];
      WithKeySnoc(interfaces[..i], interfaces[i], key);
      if interfaces[i].key == key {
        configured := configured + [interfaces[i]];
      }
    }
    assert interfaces[..|interfaces|] == interfaces;
  }

  // ----- Claiming -----

  /** What claiming may do to the claims, whatever the pool looks like. */
  ghost predicate ClaimOutcome(claims: Claims, a: Attempt, answer: Answer, claims': Claims) {
    && (a.key != "" && a.Candidates() == [] ==> answer == Err(NoSuchKey(a.pool.name, a.key)) && claims' == claims)
    && (a.key == "" || a.Candidates() != [] ==>
          exists order :: SortOutcome(a.Candidates(), order) && Attempted(order, claims, a, answer, claims'))
    && (WellFormed(a.pool.interfaces) ==> Contract(claims, a, answer, claims'))
  }

  lemma EndWithoutKey(claims: Claims, a: Attempt)
    requires a.key != "" && a.Candidates() == []
    ensures ClaimOutcome(claims, a, Err(NoSuchKey(a.pool.name, a.key)), claims)
  {
  }

  lemma EndInOrder(order: seq<ENIReference>, claims: Claims, a: Attempt, answer: Answer, claims': Claims)
    requires a.key == "" || a.Candidates() != []
    requires SortOutcome(a.Candidates(), order) && Attempted(order, claims, a, answer, claims')
    ensures ClaimOutcome(claims, a, answer, claims')
  {
    if WellFormed(a.pool.interfaces) { AttemptMeetsContract(order, claims, a, answer, claims'); }
  }

  /** The outcome is always there to be had: the allocation as a function is one. */
  lemma AllocateIsOutcome(claims: Claims, a: Attempt)
    ensures ClaimOutcome(claims, a, Allocate(claims, a).answer, Allocate(claims, a).claims)
  {
    hide WellFormed;
    if a.key == "" || a.Candidates() != [] {
      var order := Tried(a.pool.interfaces, a.key);
      SortIsOutcome(a.Candidates());
      TryFromAttempts(order, claims, a);
      EndInOrder(order, claims, a, TryFrom(order, claims, a).answer, TryFrom(order, claims, a).claims);
    }
    if WellFormed(a.pool.interfaces) { AllocateMeetsContract(claims, a); }
  }

  /** At most one claim is added, and only when it is the answer. */
  ghost predicate AddsAtMostOne(claims: Claims, ref: ObjectRef, poolName: string, answer: Answer, claims': Claims) {
    match answer
    case Ok(Some(c)) =>
      && c.name !in claims && claims' == claims[c.name := c]
      && c.name == c.eniID && c.machineRef == ref && c.poolName == poolName
      && !c.deleting && c.finalizers == [ClaimFinalizer]
    case _ => claims' == claims
  }

  // ----- What the documentation asks of an admission -----

  /** Every candidate has its claim already. */
  ghost predicate Exhausted(claims: Claims, a: Attempt) {
    forall e :: e in a.Candidates() ==> Passed(claims, a.failing, e)
  }

  /** What the exhaustion policy asks for a machine that is admitted without an interface. */
  predicate AsPolicySays(policy: ExhaustionPolicy, before: Annotations, after: Annotations) {
    match policy
    // The machine waits for an interface to become free.
    case Wait => CapiPaused in after
    // The failure is recorded.
    case Fail => Lookup(after, AllocationResult) == RESULT_FAILED
    // The machine is left to CAPA as it is.
    case _ => after == before
  }

  /** The shape the schema of ENIPool enforces (api/v1alpha1/enipool_types.go:30-35). */
  predicate SchemaAdmits(p: Pool) {
    && p.region != ""
    && |p.vpcID| > 4 && p.vpcID[..4] == "vpc-"
    && forall i :: 4 <= i < |p.vpcID| ==> '0' <= p.vpcID[i] <= '9' || 'a' <= p.vpcID[i] <= 'f'
  }

  /** The lookup went through, but the cluster does not know its region or VPC yet. */
  predicate NetworkEmpty(around: Surroundings) {
    around.network.Some? && (around.network.value.0 == "" || around.network.value.1 == "")
  }

  class MachineDefaulter {
    const store: Store

    constructor (store: Store)
      ensures this.store == store
    {
      this.store := store;
    }

    /** Claims a candidate: on an accepted pool the free one with the least address. */
    method ClaimInterface(ref: ObjectRef, pool: Pool, interfaceKey: string) returns (answer: Answer)
      requires store.Valid()
      modifies store`claims
      ensures store.Valid()
      ensures ClaimOutcome(old(store.claims), Attempt(pool, interfaceKey, ref, store.now, store.failing), answer,
                           store.claims)
      ensures AddsAtMostOne(old(store.claims), ref, pool.name, answer, store.claims)
    {
      hide ClaimOutcome;
      hide SortOutcome;
      ghost var a := Attempt(pool, interfaceKey, ref, store.now, store.failing);
      ghost var before := store.claims;
      var configured := pool.interfaces;
      if interfaceKey != "" {
        configured := SelectByKey(pool.interfaces, interfaceKey);
        if configured == [] {
          EndWithoutKey(before, a);
          return Err(NoSuchKey(pool.name, interfaceKey));
        }
      }
      assert configured == a.Candidates();
      var order := SortSlice(configured);
      for i := 0 to |order|
        invariant store.claims == before && store.Valid()
        invariant forall j :: 0 <= j < i ==> Passed(before, store.failing, order[j])
      {
        var requested := order[i];
        var reply := store.Create(NewClaim(requested.id, ref, pool.name, 0));
        if reply.AlreadyExists? {
          continue;
        }
        answer := if reply.Created? then Ok(Some(reply.claim)) else Err(CreateRejected(requested.id));
        EndInOrder(order, before, a, answer, store.claims);
        return;
      }
      answer := Ok(None);
      EndInOrder(order, before, a, answer, store.claims);
    }

    /** Admission of a machine. */
    method Default(obj: MachineObject, dryRun: bool, around: Surroundings) returns (r: Result<(), AdmissionError>)
      requires store.Valid()
      modifies obj, store`claims
      ensures store.Valid()
      // Requests that are none of the allocator's business touch nothing.
      ensures || AllocateFromPool !in old(obj.annotations) || old(obj.annotations)[AllocateFromPool] != "true"
              || old(obj.networkInterfaces) != [] || CapiPaused in old(obj.annotations) || dryRun ==>
        r == Ok(()) && Untouched(old(store.claims), old(obj.annotations), obj) &&
        obj.networkInterfaces == old(obj.networkInterfaces)
      // All or nothing.
      ensures r.Err? ==> Untouched(old(store.claims), old(obj.annotations), obj) && obj.networkInterfaces == []
      ensures r.Ok? ==>
        || (Untouched(old(store.claims), old(obj.annotations), obj) &&
            obj.networkInterfaces == old(obj.networkInterfaces))
        || (exists c :: Injected(old(store.claims), old(obj.annotations), c, obj))
      // The outcome in full.
      ensures AllocateFromPool in old(obj.annotations) && old(obj.annotations)[AllocateFromPool] == "true" &&
              old(obj.networkInterfaces) == [] && CapiPaused !in old(obj.annotations) && !dryRun ==>
        Decided(old(store.claims), old(obj.annotations), around, obj, r)
    {
      hide ClaimOutcome;
      hide FindOutcome;
      hide KeyOutcome;
      var annotations := obj.annotations;
      if Lookup(annotations, AllocateFromPool) != "true" || |obj.networkInterfaces| > 0 {
        return Ok(());
      }
      if CapiPaused in annotations {
        return Ok(());
      }
      if dryRun {
        return Ok(());
      }
      if around.network.None? {
        return Err(NetworkUnresolved);
      }
      var (region, vpcID) := around.network.value;
      if around.listed.None? {
        return Err(PoolListFailed);
      }
      var found := FindPool(around.listed.value, region, vpcID);
      if found.Err? {
        return Err(AmbiguousPool);
      }
      if found.value.None? {
        return Ok(());
      }
      var pool := found.value.value;
      var key := ResolveInterfaceKey(annotations, obj.owners, around.ownerKeys);
      if key.Err? {
        return Err(key.error);
      }
      var answer := ClaimInterface(obj.ref, pool, key.value);
      ghost var a := Attempt(pool, key.value, obj.ref, store.now, store.failing);
      assert ClaimOutcome(old(store.claims), a, answer, store.claims);
      if answer.Err? {
        return Err(AllocationFailed(answer.error));
      }
      if answer.value.None? {
        return Ok(());
      }
      obj.networkInterfaces := [answer.value.value.eniID];
      obj.annotations := annotations[AllocationResult := RESULT_ALLOCATED];
      assert Injected(old(store.claims), old(obj.annotations), answer.value.value, obj);
      return Ok(());
    }

    ghost predicate Untouched(claims: Claims, annotations: Annotations, obj: MachineObject)
      reads store, obj
    {
      store.claims == claims && obj.annotations == annotations
    }

    /** Exactly one claim more, for this machine; the object changed by its interface and its result only. */
    ghost predicate Injected(claims: Claims, annotations: Annotations, c: Claim, obj: MachineObject)
      reads store, obj
    {
      && c.name !in claims && store.claims == claims[c.name := c]
      && c.name == c.eniID && c.machineRef == obj.ref && !c.deleting && c.finalizers == [ClaimFinalizer]
      && obj.networkInterfaces == [c.eniID]
      && obj.annotations == annotations[AllocationResult := RESULT_ALLOCATED]
    }

    /** How an eligible request ends, case by case. */
    ghost predicate Decided(claims: Claims, annotations: Annotations, around: Surroundings, obj: MachineObject,
                            r: Result<(), AdmissionError>)
      reads store, obj
    {
      var untouched := Untouched(claims, annotations, obj) && obj.networkInterfaces == [];
      if around.network.None? then r == Err(NetworkUnresolved) && untouched
      else if around.listed.None? then r == Err(PoolListFailed) && untouched
      else
        exists found ::
          FindOutcome(around.listed.value, around.network.value.0, around.network.value.1, found) &&
          if found.Err? then r == Err(AmbiguousPool) && untouched
          else if found.value.None? then r == Ok(()) && untouched
          else DecidedOn(found.value.value, claims, annotations, around.ownerKeys, obj, r)
    }

    /** The rest of the decision once the pool is known. */
    ghost predicate DecidedOn(pool: Pool, claims: Claims, annotations: Annotations, ownerKeys: map<string, string>,
                              obj: MachineObject, r: Result<(), AdmissionError>)
      reads store, obj
    {
      var untouched := Untouched(claims, annotations, obj) && obj.networkInterfaces == [];
      exists key ::
        KeyOutcome(Lookup(annotations, InterfaceKey), obj.owners, ownerKeys, key) &&
        if key.Err? then r == Err(key.error) && untouched
        else exists answer ::
          ClaimOutcome(claims, Attempt(pool, key.value, obj.ref, store.now, store.failing), answer, store.claims) &&
          match answer {
            case Err(cause) => r == Err(AllocationFailed(cause)) && untouched
            case Ok(None) => r == Ok(()) && untouched
            case Ok(Some(c)) => r == Ok(()) && c.poolName == pool.name && Injected(claims, annotations, c, obj)
          }
    }

    /** The request gets as far as trying the candidates of this accepted pool. */
    ghost predicate Reaches(around: Surroundings, annotations: Annotations, obj: MachineObject, pool: Pool,
                            key: string) {
      && around.network.Some? && around.listed.Some?
      && FindOutcome(around.listed.value, around.network.value.0, around.network.value.1, Ok(Some(pool)))
      && KeyOutcome(Lookup(annotations, InterfaceKey), obj.owners, around.ownerKeys, Ok(key))
      && WellFormed(pool.interfaces) && (key == "" || Matching(pool.interfaces, key) != [])
    }

    lemma DecidesAsClaimed(claims: Claims, annotations: Annotations, around: Surroundings, obj: MachineObject,
                           r: Result<(), AdmissionError>, pool: Pool, key: string) returns (answer: Answer)
      requires Decided(claims, annotations, around, obj, r) && Reaches(around, annotations, obj, pool, key)
      ensures Contract(claims, Attempt(pool, key, obj.ref, store.now, store.failing), answer, store.claims)
      ensures match answer
              case Err(cause) =>
                r == Err(AllocationFailed(cause)) && Untouched(claims, annotations, obj) && obj.networkInterfaces == []
              case Ok(None) => r == Ok(()) && Untouched(claims, annotations, obj) && obj.networkInterfaces == []
              case Ok(Some(c)) => r == Ok(()) && c.poolName == pool.name && Injected(claims, annotations, c, obj)
    {
      hide FindOutcome;
      hide KeyOutcome;
      hide WellFormed;
      hide Contract;
      forall f | FindOutcome(around.listed.value, around.network.value.0, around.network.value.1, f)
        ensures f == Ok(Some(pool))
      {
        FindUnique(around.listed.value, around.network.value.0, around.network.value.1, f, Ok(Some(pool)));
      }
      assert DecidedOn(pool, claims, annotations, around.ownerKeys, obj, r);
      forall k | KeyOutcome(Lookup(annotations, InterfaceKey), obj.owners, around.ownerKeys, k) ensures k == Ok(key) {
        KeyUnique(Lookup(annotations, InterfaceKey), obj.owners, around.ownerKeys, k, Ok(key));
      }
      answer :| ClaimOutcome(claims, Attempt(pool, key, obj.ref, store.now, store.failing), answer, store.claims) &&
        match answer {
          case Err(cause) =>
            r == Err(AllocationFailed(cause)) && Untouched(claims, annotations, obj) && obj.networkInterfaces == []
          case Ok(None) => r == Ok(()) && Untouched(claims, annotations, obj) && obj.networkInterfaces == []
          case Ok(Some(c)) => r == Ok(()) && c.poolName == pool.name && Injected(claims, annotations, c, obj)
        };
    }

    /**
     When every candidate is claimed the machine is admitted untouched and unpaused, whatever the exhaustion
     policy of its pool.
     */
    lemma ExhaustedIsAdmitted(claims: Claims, annotations: Annotations, around: Surroundings, obj: MachineObject,
                              r: Result<(), AdmissionError>, pool: Pool, key: string)
      requires Eligible(annotations, []) && Decided(claims, annotations, around, obj, r)
      requires Reaches(around, annotations, obj, pool, key)
      requires Exhausted(claims, Attempt(pool, key, obj.ref, store.now, store.failing))
      ensures r == Ok(()) && Untouched(claims, annotations, obj)
      ensures obj.networkInterfaces == [] && CapiPaused !in obj.annotations
    {
      hide Decided;
      hide WellFormed;
      var a := Attempt(pool, key, obj.ref, store.now, store.failing);
      var answer := DecidesAsClaimed(claims, annotations, around, obj, r, pool, key);
      assert a.Candidates() == Matching(pool.interfaces, key);
      if answer != Ok(None) {
        hide Contract;
        var e := StoppedSomewhere(claims, a, answer, store.claims);
        assert false;
      }
    }

    /**
     Exactly when an admission does what the documentation says about the policy: when the policy is Dynamic or
     unset, or a candidate is left to try, or the machine came marked Failed already to a pool that says Fail.
     */
    lemma FollowsPolicyExactlyWhen(claims: Claims, annotations: Annotations, around: Surroundings, obj: MachineObject,
                                   r: Result<(), AdmissionError>, pool: Pool, key: string)
      requires Eligible(annotations, []) && Decided(claims, annotations, around, obj, r)
      requires Reaches(around, annotations, obj, pool, key)
      ensures (r == Ok(()) && obj.networkInterfaces == [] ==>
               AsPolicySays(pool.policy, annotations, obj.annotations)) <==>
              || pool.policy.Dynamic? || pool.policy.Unset?
              || !Exhausted(claims, Attempt(pool, key, obj.ref, store.now, store.failing))
              || (pool.policy.Fail? && Lookup(annotations, AllocationResult) == RESULT_FAILED)
    {
      hide Decided;
      hide WellFormed;
      var a := Attempt(pool, key, obj.ref, store.now, store.failing);
      if Exhausted(claims, a) {
        ExhaustedIsAdmitted(claims, annotations, around, obj, r, pool, key);
      } else {
        var answer := DecidesAsClaimed(claims, annotations, around, obj, r, pool, key);
        MatchingAddressed(pool.interfaces, key);
      }
    }

    /**
     Exactly when the documented rule "no create without a region and a VPC" is kept: the create fails with an
     unresolved network if and only if the lookup failed, and so a network that was looked up but has no region
     or VPC yet lets the create pass untouched, unless the pools cannot be listed.
     */
    lemma FailsUndeterminedExactlyWhen(claims: Claims, annotations: Annotations, around: Surroundings,
                                       obj: MachineObject, r: Result<(), AdmissionError>)
      requires Decided(claims, annotations, around, obj, r)
      requires around.listed.Some? ==> forall p :: p in around.listed.value ==> SchemaAdmits(p)
      ensures r == Err(NetworkUnresolved) <==> around.network.None?
      ensures (around.network.None? || NetworkEmpty(around) ==> r.Err?) <==>
              !NetworkEmpty(around) || around.listed.None?
      ensures NetworkEmpty(around) && around.listed.Some? ==>
        r == Ok(()) && Untouched(claims, annotations, obj) && obj.networkInterfaces == []
    {
      hide ClaimOutcome;
      if NetworkEmpty(around) && around.listed.Some? {
        var (region, vpcID) := around.network.value;
        assert forall i :: 0 <= i < |around.listed.value| ==> SchemaAdmits(around.listed.value[i]);
        forall f | FindOutcome(around.listed.value, region, vpcID, f) ensures f == Ok(None) {
          FindUnique(around.listed.value, region, vpcID, f, Ok(None));
        }
      }
    }
  }
}
