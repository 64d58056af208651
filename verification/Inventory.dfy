/** The controller of ENIPool: inventory and availability (internal/controller/enipool_controller.go). */
module Inventory {
  import opened Api
  import opened Addresses
  import opened Candidates
  import opened PoolValidator
  import opened Allocation
  import opened ClusterStore

  datatype Observation = Observation(key: string, id: string, privateIP: string, claimedBy: Option<ObjectRef>)

  /** An interface is claimed when some claim's spec names it. */
  ghost predicate ClaimedInSpec(claims: Claims, id: string) {
    exists n :: n in claims && claims[n].eniID == id
  }

  /** What the inventory records about an interface. */
  ghost predicate Observed(claims: Claims, e: ENIReference, o: Observation) {
    && o.key == e.key && o.id == e.id && o.privateIP == e.privateIP
    && (match o.claimedBy
        case None => !ClaimedInSpec(claims, e.id)
        case Some(ref) => exists n :: n in claims && claims[n].eniID == e.id && claims[n].machineRef == ref)
  }

  /** Interfaces without a claim. */
  function Unclaimed(interfaces: seq<ENIReference>, claims: Claims): (n: nat)
    ensures n <= |interfaces|
  {
    if interfaces == [] then 0
    else (if interfaces[0].id in claims then 0 else 1) + Unclaimed(interfaces[1..], claims)
  }

  lemma {:induction false} UnclaimedSnoc(s: seq<ENIReference>, e: ENIReference, claims: Claims)
    ensures Unclaimed(s + [e], claims) == Unclaimed(s, claims) + if e.id in claims then 0 else 1
  {
    if s == [] {
      assert s + [e] == [e] && [e][1..] == [];
    } else {
      assert (s + [e])[1..] == s[1..] + [e];
      UnclaimedSnoc(s[1..], e, claims);
    }
  }

  /** Claims are filed under the ENI they are for, so looking one up by spec and by name is the same. */
  lemma SpecIsName(claims: Claims, id: string)
    requires NamedByENI(claims)
    ensures ClaimedInSpec(claims, id) <==> id in claims
  {
  }

  /** Interfaces that no claim names in its spec: what the inventory counts. */
  ghost function Unnamed(interfaces: seq<ENIReference>, claims: Claims): (n: nat)
    ensures n <= |interfaces|
  {
    if interfaces == [] then 0
    else (if ClaimedInSpec(claims, interfaces[0].id) then 0 else 1) + Unnamed(interfaces[1..], claims)
  }

  lemma {:induction false} UnnamedSnoc(s: seq<ENIReference>, e: ENIReference, claims: Claims)
    ensures Unnamed(s + [e], claims) == Unnamed(s, claims) + if ClaimedInSpec(claims, e.id) then 0 else 1
  {
    if s == [] {
      assert s + [e] == [e] && [e][1..] == [];
    } else {
      assert (s + [e])[1..] == s[1..] + [e];
      UnnamedSnoc(s[1..], e, claims);
    }
  }

  const RESYNC := 300_000

  datatype UpdateAnswer = Updated | Conflict | UpdateFailed

  datatype Outcome = Finished | RequeueAfter(ms: int) | ClaimsUnlisted | StatusNotUpdated

  /** The stored status; `ready` is the status of the Ready condition, once it has been set. */
  datatype PoolStatus = PoolStatus(observedGeneration: int, interfaces: seq<Observation>, ready: Option<bool>)

  class PoolReconciler {
    const store: Store
    // Stored status of the reconciled pool.
    var status: PoolStatus
    // The metric of available interfaces.
    var available: nat

    constructor (store: Store)
      ensures this.store == store
    {
      this.store, status, available := store, PoolStatus(0, [], None), 0;
    }

    /** The claims indexed by the ENI of their spec; no name is looked at. */
    method IndexByENI(listed: seq<Claim>) returns (claimByENI: map<string, Claim>)
      requires ListsClaims(listed, store.claims)
      ensures forall id :: id in claimByENI <==> ClaimedInSpec(store.claims, id)
      ensures forall id :: id in claimByENI ==> claimByENI[id].eniID == id && claimByENI[id] in listed
    {
      claimByENI := map[];
      for i := 0 to |listed|
        invariant forall c :: c in listed[..i] ==> c.eniID in claimByENI
        invariant forall id :: id in claimByENI ==> claimByENI[id].eniID == id && claimByENI[id] in listed
      {
        claimByENI := claimByENI[listed[i].eniID := listed[i]];
      }
      assert listed[..|listed|] == listed;
      forall id | ClaimedInSpec(store.claims, id) ensures id in claimByENI {
        var n :| n in store.claims && store.claims[n].eniID == id;
        assert store.claims[n] in listed;
      }
      forall id | id in claimByENI ensures ClaimedInSpec(store.claims, id) {
        assert store.claims[claimByENI[id].name] == claimByENI[id];
      }
    }

    /** One entry per declared interface, in order, and the number of those without a claim. */
    method Observe(interfaces: seq<ENIReference>, claimByENI: map<string, Claim>)
      returns (entries: seq<Observation>, free: nat)
      requires forall id :: id in claimByENI <==> ClaimedInSpec(store.claims, id)
      requires forall id :: id in claimByENI ==>
        claimByENI[id].eniID == id && claimByENI[id].name in store.claims &&
          store.claims[claimByENI[id].name] == claimByENI[id]
      ensures |entries| == |interfaces|
      ensures forall i :: 0 <= i < |entries| ==> Observed(store.claims, interfaces[i], entries[i])
      ensures free == Unnamed(interfaces, store.claims)
    {
      entries, free := [], 0;
      for i := 0 to |interfaces|
        invariant |entries| == i && free == Unnamed(interfaces[..i], store.claims)
        invariant forall j :: 0 <= j < i ==> Observed(store.claims, interfaces[j], entries[j])
      {
        var configured := interfaces[i];
        assert interfaces[..i + 1] == interfaces[..i] + [configured];
        UnnamedSnoc(interfaces[..i], configured, store.claims);
        var claimedBy: Option<ObjectRef> := None;
        if configured.id in claimByENI {
          claimedBy := Some(claimByENI[configured.id].machineRef);
        } else {
          free := free + 1;
        }
        entries := entries + [Observation(configured.key, configured.id, configured.privateIP, claimedBy)];
      }
      assert interfaces[..|interfaces|] == interfaces;
    }

    /**
     Reconcile of the pool filed under `name`; `listed` are the claims, None when they cannot be listed. A
     conflicting status update is left to the next reconcile; the metric is set before the update is tried.
     */
    method Reconcile(name: string, generation: int, listed: Option<seq<Claim>>, update: UpdateAnswer)
      returns (outcome: Outcome)
      requires listed.Some? ==> ListsClaims(listed.value, store.claims)
      modifies this`status, this`available
      ensures name !in store.pools || listed.None? ==>
        && status == old(status) && available == old(available)
        && outcome == if name !in store.pools then Finished else ClaimsUnlisted
      ensures name in store.pools && listed.Some? ==>
        && available == Unnamed(store.pools[name].interfaces, store.claims)
        && outcome == (if update.UpdateFailed? then StatusNotUpdated else RequeueAfter(300_000))
        && (!update.Updated? ==> status == old(status))
        && (update.Updated? ==>
              && status.observedGeneration == generation && status.ready == Some(true)
              && |status.interfaces| == |store.pools[name].interfaces|
              && forall i :: 0 <= i < |status.interfaces| ==>
                   Observed(store.claims, store.pools[name].interfaces[i], status.interfaces[i]))
    {
      if name !in store.pools {
        return Finished;
      }
      var pool := store.pools[name];
      if listed.None? {
        return ClaimsUnlisted;
      }
      var claimByENI := IndexByENI(listed.value);
      var entries, free := Observe(pool.interfaces, claimByENI);
      available := free;
      match update
      case Updated =>
        status := PoolStatus(generation, entries, Some(true));
        return RequeueAfter(RESYNC);
      case Conflict =>
        return RequeueAfter(RESYNC);
      case UpdateFailed =>
        return StatusNotUpdated;
    }
  }

  /** Entries of the inventory that nobody is on record for. */
  function FreeEntries(entries: seq<Observation>): nat {
    if entries == [] then 0 else (if entries[0].claimedBy.None? then 1 else 0) + FreeEntries(entries[1..])
  }

  /** Metric and status agree: the number reported is the number of entries without a machine. */
  lemma {:induction false} MetricMatchesStatus(interfaces: seq<ENIReference>, entries: seq<Observation>, claims: Claims)
    requires |entries| == |interfaces| && forall i :: 0 <= i < |entries| ==> Observed(claims, interfaces[i], entries[i])
    ensures FreeEntries(entries) == Unnamed(interfaces, claims)
  {
    if entries != [] {
      assert Observed(claims, interfaces[0], entries[0]);
      assert forall i :: 0 <= i < |entries[1..]| ==>
        entries[1..][i] == entries[i + 1] && interfaces[1..][i] == interfaces[i + 1];
      MetricMatchesStatus(interfaces[1..], entries[1..], claims);
    }
  }

  /** Under the naming rule an entry shows the interface and the machine its claim is for. */
  lemma EntryShowsClaim(claims: Claims, e: ENIReference, o: Observation)
    requires NamedByENI(claims) && Observed(claims, e, o)
    ensures o.id == e.id && o.key == e.key && o.privateIP == e.privateIP
    ensures o.claimedBy == if e.id in claims then Some(claims[e.id].machineRef) else None
  {
    SpecIsName(claims, e.id);
  }

  // ----- The inventory predicts allocation -----

  /** Keyless allocations one after the other; the answers in order. */
  function Allocations(claims: Claims, pool: Pool, requests: seq<(ObjectRef, int)>): (answers: seq<Answer>)
    ensures |answers| == |requests|
    decreases |requests|
  {
    if requests == [] then []
    else
      var r := Allocate(claims, Attempt(pool, "", requests[0].0, requests[0].1, {}));
      [r.answer] + Allocations(r.claims, pool, requests[1..])
  }

  lemma {:induction false} UnclaimedNone(s: seq<ENIReference>, claims: Claims)
    ensures Unclaimed(s, claims) == 0 <==> forall e :: e in s ==> e.id in claims
  {
    if s != [] {
      UnclaimedNone(s[1..], claims);
      assert forall e :: e in s <==> e == s[0] || e in s[1..];
    }
  }

  lemma {:induction false} UnclaimedOther(s: seq<ENIReference>, claims: Claims, id: string, c: Claim)
    requires forall e :: e in s ==> e.id != id
    ensures Unclaimed(s, claims[id := c]) == Unclaimed(s, claims)
  {
    if s != [] {
      assert s[0] in s && forall e :: e in s[1..] ==> e in s;
      UnclaimedOther(s[1..], claims, id, c);
    }
  }

  /** Claiming a free interface of the pool makes one less. */
  lemma {:induction false} UnclaimedDrops(s: seq<ENIReference>, claims: Claims, e: ENIReference, c: Claim)
    requires DistinctIds(s) && e in s && e.id !in claims
    ensures Unclaimed(s, claims[e.id := c]) == Unclaimed(s, claims) - 1
  {
    var rest := s[1..];
    assert forall i :: 0 <= i < |rest| ==> rest[i] == s[i + 1];
    if s[0].id == e.id {
      forall d | d in rest ensures d.id != e.id {
        var k :| 0 <= k < |rest| && rest[k] == d;
        assert s[k + 1].id != s[0].id;
      }
      UnclaimedOther(rest, claims, e.id, c);
    } else {
      assert e in rest by {
        var k :| 0 <= k < |s| && s[k] == e;
        assert rest[k - 1] == e;
      }
      UnclaimedDrops(rest, claims, e, c);
    }
  }

  /** A keyless allocation succeeds exactly when something is left, and takes one. */
  lemma AllocationTakesOne(claims: Claims, pool: Pool, ref: ObjectRef, now: int)
    requires WellFormed(pool.interfaces)
    ensures var r := Allocate(claims, Attempt(pool, "", ref, now, {}));
            if Unclaimed(pool.interfaces, claims) == 0 then r == Allocated(Ok(None), claims)
            else r.answer.Ok? && r.answer.value.Some? &&
                 Unclaimed(pool.interfaces, r.claims) == Unclaimed(pool.interfaces, claims) - 1
  {
    hide ParseIPv4;
    var a := Attempt(pool, "", ref, now, {});
    AllocateMeetsContract(claims, a);
    var r := Allocate(claims, a);
    MatchingAddressed(pool.interfaces, "");
    UnclaimedNone(pool.interfaces, claims);
    assert a.Candidates() == pool.interfaces;
    if r.answer.Ok? && r.answer.value.Some? {
      var c := r.answer.value.value;
      var e :| e in pool.interfaces && e.id !in claims && c == a.ClaimFor(e) && r.claims == claims[e.id := c];
      UnclaimedDrops(pool.interfaces, claims, e, c);
      UnclaimedNone(pool.interfaces, r.claims);
    }
  }

  /**
   The number the inventory reports is the number of keyless allocations that succeed next: with k available,
   exactly the first k of any requests get an interface and all later ones get nothing.
   */
  lemma {:induction false} AvailablePredicts(claims: Claims, pool: Pool, requests: seq<(ObjectRef, int)>)
    requires WellFormed(pool.interfaces)
    ensures forall i :: 0 <= i < |requests| ==>
      var answer := Allocations(claims, pool, requests)[i];
      answer.Ok? && (answer.value.Some? <==> i < Unclaimed(pool.interfaces, claims))
    decreases |requests|
  {
    if requests != [] {
      var r := Allocate(claims, Attempt(pool, "", requests[0].0, requests[0].1, {}));
      AllocationTakesOne(claims, pool, requests[0].0, requests[0].1);
      AvailablePredicts(r.claims, pool, requests[1..]);
      hide Allocate;
      hide WellFormed;
      assert Allocations(claims, pool, requests) == [r.answer] + Allocations(r.claims, pool, requests[1..]);
    }
  }

  /** Interfaces that look taken, as some claim's spec names them, and yet can be claimed under their name. */
  ghost function Phantoms(interfaces: seq<ENIReference>, claims: Claims): nat {
    if interfaces == [] then 0
    else (if ClaimedInSpec(claims, interfaces[0].id) && interfaces[0].id !in claims then 1 else 0) +
         Phantoms(interfaces[1..], claims)
  }

  /** Interfaces that look free and yet cannot be claimed, as a claim for another ENI bears their name. */
  ghost function Squatted(interfaces: seq<ENIReference>, claims: Claims): nat {
    if interfaces == [] then 0
    else (if !ClaimedInSpec(claims, interfaces[0].id) && interfaces[0].id in claims then 1 else 0) +
         Squatted(interfaces[1..], claims)
  }

  lemma {:induction false} CountsDiffer(interfaces: seq<ENIReference>, claims: Claims)
    ensures Unnamed(interfaces, claims) + Phantoms(interfaces, claims) ==
            Unclaimed(interfaces, claims) + Squatted(interfaces, claims)
    ensures NamedByENI(claims) ==> Phantoms(interfaces, claims) == 0 && Squatted(interfaces, claims) == 0
  {
    if interfaces != [] {
      CountsDiffer(interfaces[1..], claims);
      if NamedByENI(claims) { SpecIsName(claims, interfaces[0].id); }
    }
  }

  /** The number in the inventory is the number of keyless allocations that succeed next, whatever is requested. */
  ghost predicate Predicts(available: nat, claims: Claims, pool: Pool) {
    forall requests: seq<(ObjectRef, int)>, i :: 0 <= i < |requests| ==>
      var answer := Allocations(claims, pool, requests)[i];
      answer.Ok? && (answer.value.Some? <==> i < available)
  }

  lemma OnlyOnePrediction(available: nat, claims: Claims, pool: Pool)
    requires WellFormed(pool.interfaces)
    ensures Predicts(available, claims, pool) <==> available == Unclaimed(pool.interfaces, claims)
  {
    hide WellFormed;
    hide Allocations;
    hide Unclaimed;
    var k := Unclaimed(pool.interfaces, claims);
    forall requests: seq<(ObjectRef, int)> ensures forall i :: 0 <= i < |requests| ==>
      var answer := Allocations(claims, pool, requests)[i];
      answer.Ok? && (answer.value.Some? <==> i < k)
    {
      AvailablePredicts(claims, pool, requests);
    }
    if available != k {
      var i := if available < k then available else k;
      var requests := seq(i + 1, _ => (ObjectRef("ns", "m"), 0));
      var answer := Allocations(claims, pool, requests)[i];
      assert !(answer.Ok? && (answer.value.Some? <==> i < available));
    }
  }

  /**
   Exactly when the inventory can be trusted, without any rule about names: it reports the number of allocations
   that succeed next if and only if as many interfaces are squatted as are phantoms. Under the naming rule there
   are none of either.
   */
  lemma InventoryPredictsExactlyWhen(claims: Claims, pool: Pool)
    requires WellFormed(pool.interfaces)
    ensures Predicts(Unnamed(pool.interfaces, claims), claims, pool) <==>
            Squatted(pool.interfaces, claims) == Phantoms(pool.interfaces, claims)
    ensures NamedByENI(claims) ==> Predicts(Unnamed(pool.interfaces, claims), claims, pool)
  {
    hide Predicts;
    CountsDiffer(pool.interfaces, claims);
    OnlyOnePrediction(Unnamed(pool.interfaces, claims), claims, pool);
  }

  /**
   It does go wrong without the naming rule: a claim filed under another name makes the only interface look
   taken, so that the inventory reports none, and the next allocation gets it all the same.
   */
  lemma MisnamedClaimMisleads() returns (claims: Claims, pool: Pool, ref: ObjectRef)
    ensures WellFormed(pool.interfaces) && Unnamed(pool.interfaces, claims) == 0
    ensures Allocate(claims, Attempt(pool, "", ref, 0, {})).answer.Ok?
    ensures Allocate(claims, Attempt(pool, "", ref, 0, {})).answer.value.Some?
  {
    ref := ObjectRef("ns", "m");
    var e := ENIReference("", "eni-a", "9.0.0.0");
    pool := Pool("p", "r", "v", [e], Dynamic);
    claims := map["x" := NewClaim("eni-a", ref, "p", 0)];
    assert |"x"| != |"eni-a"|;
    assert "x" in claims && claims["x"].eniID == "eni-a";
    assert [e][1..] == [];
    OneWellFormed(e);
    hide WellFormed;
    hide Allocate;
    UnclaimedNone([e], claims);
    assert e in [e];
    AllocationTakesOne(claims, pool, ref, 0);
  }

  lemma OneWellFormed(e: ENIReference)
    requires e.privateIP == "9.0.0.0"
    ensures WellFormed([e])
  {
    CycleAddresses();
    hide ParseIPv4;
  }
}
