/** The controller of ENIClaim (internal/controller/eniclaim_controller.go). */
module ClaimCollector {
  import opened Api
  import opened Addresses
  import opened PoolValidator
  import opened ClusterStore

  type Claims = map<string, Claim>

  const RETRY := 5_000
  const RESYNC := 300_000

  /** The requests of a reconcile that may fail. */
  datatype Request = GetPool | GetMachine | PatchClaim | DeleteClaim | UpdateClaimStatus

  datatype Outcome = Finished | RequeueAfter(ms: int) | PoolMissing | RequestFailed(request: Request)

  // ----- Finalizers -----

  lemma {:induction false} WithoutSnoc(s: seq<Finalizer>, f: Finalizer, unwanted: Finalizer)
    ensures Without(s + [f], unwanted) == Without(s, unwanted) + if f == unwanted then [] else [f]
  {
    if s == [] {
      assert s + [f] == [f] && [f][1..] == [];
    } else {
      assert (s + [f])[1..] == s[1..] + [f];
      WithoutSnoc(s[1..], f, unwanted);
    }
  }

  lemma {:induction false} NoForeignLeft(finalizers: seq<Finalizer>)
    requires forall f :: f in finalizers ==> f == ClaimFinalizer
    ensures Without(finalizers, ClaimFinalizer) == []
  {
    if finalizers != [] {
      assert finalizers[0] in finalizers;
      assert forall f :: f in finalizers[1..] ==> f in finalizers;
      NoForeignLeft(finalizers[1..]);
    }
  }

  /** Removes every occurrence in place; the first n slots hold the result, the rest is as before. */
  method RemoveString(values: array<Finalizer>, unwanted: Finalizer) returns (n: nat)
    modifies values
    ensures n <= values.Length
    ensures values[..n] == Without(old(values[..]), unwanted)
    ensures values[n..] == old(values[n..])
  {
    ghost var before := values[..];
    n := 0;
    for i := 0 to values.Length
      invariant n <= i
      invariant values[..n] == Without(before[..i], unwanted)
      invariant forall k :: n <= k < values.Length ==> values[k] == before[k]
    {
      var value := values[i];
      assert before[..i + 1] == before[..i] + [value];
      WithoutSnoc(before[..i], value, unwanted);
      if value != unwanted {
        values[n] := value;
        assert values[..n + 1] == values[..n] + [value];
        n := n + 1;
      }
    }
    assert before[..values.Length] == before;
  }

  method ContainsString(values: seq<Finalizer>, wanted: Finalizer) returns (found: bool)
    ensures found <==> wanted in values
  {
    for i := 0 to |values|
      invariant wanted !in values[..i]
    {
      if values[i] == wanted {
        return true;
      }
    }
    return false;
  }

  // ----- The configured address -----

  /** The private address configured for an ENI: that of the first interface with this id, "" when there is none. */
  ghost predicate ConfiguredAs(interfaces: seq<ENIReference>, id: string, ip: string) {
    || (ip == "" && forall i :: 0 <= i < |interfaces| ==> interfaces[i].id != id)
    || (exists i :: 0 <= i < |interfaces| && interfaces[i].id == id && interfaces[i].privateIP == ip &&
                    forall j :: 0 <= j < i ==> interfaces[j].id != id)
  }

  function ConfiguredPrivateIP(interfaces: seq<ENIReference>, id: string): (ip: string)
    ensures ConfiguredAs(interfaces, id, ip)
  {
    if interfaces == [] then ""
    else if interfaces[0].id == id then interfaces[0].privateIP
    else
      var rest := interfaces[1..];
      var ip := ConfiguredPrivateIP(rest, id);
      assert forall j :: 0 < j < |interfaces| ==> interfaces[j] == rest[j - 1];
      assert forall i :: 0 <= i < |rest| ==> rest[i] == interfaces[i + 1];
      ip
  }

  /** Whatever follows, the first entry with the id decides. */
  lemma {:induction false} FirstEntryDecides(before: seq<ENIReference>, e: ENIReference, rest: seq<ENIReference>)
    requires forall d :: d in before ==> d.id != e.id
    ensures ConfiguredPrivateIP(before + [e] + rest, e.id) == e.privateIP
  {
    var all := before + [e] + rest;
    if before != [] {
      assert before[0] in before && all[0] == before[0] && all[1..] == before[1..] + [e] + rest;
      FirstEntryDecides(before[1..], e, rest);
    }
  }

  method FindConfiguredIP(interfaces: seq<ENIReference>, id: string) returns (ip: string)
    ensures ip == ConfiguredPrivateIP(interfaces, id)
  {
    for i := 0 to |interfaces|
      invariant ConfiguredPrivateIP(interfaces, id) == ConfiguredPrivateIP(interfaces[i..], id)
    {
      if interfaces[i].id == id {
        return interfaces[i].privateIP;
      }
    }
    return "";
  }

  // ----- The specification of a reconcile -----

  datatype Reconciled = Reconciled(outcome: Outcome, claims: Claims)

  function StatusFor(pool: Pool, c: Claim): ClaimStatus {
    var ip := ConfiguredPrivateIP(pool.interfaces, c.eniID);
    if ip == "" then ClaimStatus(Failed, ip, Some(false)) else ClaimStatus(Bound, ip, Some(true))
  }

  function Released(claims: Claims, name: string, c: Claim, faults: set<Request>): Reconciled
    requires name in claims
  {
    if ClaimFinalizer !in c.finalizers then Reconciled(Finished, claims)
    else if PatchClaim in faults then Reconciled(RequestFailed(PatchClaim), claims)
    else Reconciled(Finished, WithFinalizers(claims, name, Without(c.finalizers, ClaimFinalizer)))
  }

  /** What follows once the claim carries the allocator's finalizer. */
  function Collected(claims: Claims, pool: Pool, machines: set<ObjectRef>, name: string, c: Claim, now: int,
                     faults: set<Request>): Reconciled
    requires name in claims
  {
    if GetMachine in faults then Reconciled(RequestFailed(GetMachine), claims)
    else if c.machineRef !in machines then
      if now - c.stamp < GRACE then Reconciled(RequeueAfter(RETRY), claims)
      else if DeleteClaim in faults then Reconciled(RequestFailed(DeleteClaim), claims)
      else Reconciled(Finished, AfterDelete(claims, name))
    else
      var status := StatusFor(pool, c);
      if c.status.phase == status.phase && c.status.privateIP == status.privateIP then
        Reconciled(RequeueAfter(RESYNC), claims)
      else if UpdateClaimStatus in faults then Reconciled(RequestFailed(UpdateClaimStatus), claims)
      else Reconciled(RequeueAfter(RESYNC), claims[name := claims[name].(status := status)])
  }

  function ReconcileClaim(claims: Claims, pools: map<string, Pool>, machines: set<ObjectRef>, name: string, now: int,
                          faults: set<Request>): Reconciled
  {
    if name !in claims then Reconciled(Finished, claims)
    else
      var c := claims[name];
      if GetPool in faults then Reconciled(RequestFailed(GetPool), claims)
      else if c.deleting then Released(claims, name, c, faults)
      else if c.poolName !in pools then Reconciled(PoolMissing, claims)
      else if ClaimFinalizer in c.finalizers then Collected(claims, pools[c.poolName], machines, name, c, now, faults)
      else if PatchClaim in faults then Reconciled(RequestFailed(PatchClaim), claims)
      else
        var tagged := c.(finalizers := c.finalizers + [ClaimFinalizer]);
        Collected(claims[name := tagged], pools[c.poolName], machines, name, tagged, now, faults)
  }

  // ----- The controller -----

  class ClaimReconciler {
    const store: Store

    constructor (store: Store)
      ensures this.store == store
    {
      this.store := store;
    }

    method RemoveFinalizer(claim: Claim, faults: set<Request>) returns (outcome: Outcome)
      requires store.Valid() && claim.name in store.claims
      modifies store`claims
      ensures store.Valid()
      ensures Reconciled(outcome, store.claims) == Released(old(store.claims), claim.name, claim, faults)
    {
      var tagged := ContainsString(claim.finalizers, ClaimFinalizer);
      if !tagged {
        return Finished;
      }
      if PatchClaim in faults {
        return RequestFailed(PatchClaim);
      }
      var values := new Finalizer[|claim.finalizers|](i requires 0 <= i < |claim.finalizers| => claim.finalizers[i]);
      assert values[..] == claim.finalizers;
      var n := RemoveString(values, ClaimFinalizer);
      var found := store.PatchFinalizers(claim.name, values[..n]);
      return Finished;
    }

    method Reconcile(name: string, faults: set<Request>) returns (outcome: Outcome)
      requires store.Valid()
      modifies store`claims
      ensures store.Valid()
      ensures Reconciled(outcome, store.claims) ==
              ReconcileClaim(old(store.claims), store.pools, store.machines.Keys, name, store.now, faults)
    {
      if name !in store.claims {
        return Finished;
      }
      var claim := store.claims[name];
      if GetPool in faults {
        return RequestFailed(GetPool);
      }
      if claim.poolName !in store.pools {
        if claim.deleting {
          outcome := RemoveFinalizer(claim, faults);
          return;
        }
        return PoolMissing;
      }
      var pool := store.pools[claim.poolName];
      if claim.deleting {
        outcome := RemoveFinalizer(claim, faults);
        return;
      }
      var tagged := ContainsString(claim.finalizers, ClaimFinalizer);
      if !tagged {
        if PatchClaim in faults {
          return RequestFailed(PatchClaim);
        }
        claim := claim.(finalizers := claim.finalizers + [ClaimFinalizer]);
        var found := store.PatchFinalizers(name, claim.finalizers);
      }
      if GetMachine in faults {
        return RequestFailed(GetMachine);
      }
      if claim.machineRef !in store.machines {
        if store.now - claim.stamp < GRACE {
          return RequeueAfter(RETRY);
        }
        if DeleteClaim in faults {
          return RequestFailed(DeleteClaim);
        }
        var found := store.Delete(name);
        return Finished;
      }
      var ip := FindConfiguredIP(pool.interfaces, claim.eniID);
      var phase := if ip == "" then Failed else Bound;
      if claim.status.phase != phase || claim.status.privateIP != ip {
        if UpdateClaimStatus in faults {
          return RequestFailed(UpdateClaimStatus);
        }
        var found := store.UpdateStatus(name, ClaimStatus(phase, ip, Some(phase == Bound)));
      }
      return RequeueAfter(RESYNC);
    }
  }

  // ----- Only this claim -----

  /** A change of one claim at most, and never of its spec. */
  ghost predicate Local(claims: Claims, after: Claims, name: string) {
    && (forall n :: n != name ==> (n in after <==> n in claims) && (n in claims ==> after[n] == claims[n]))
    && (name in after ==>
          && name in claims && after[name].name == claims[name].name && after[name].stamp == claims[name].stamp
          && after[name].eniID == claims[name].eniID && after[name].poolName == claims[name].poolName
          && after[name].machineRef == claims[name].machineRef)
  }

  lemma CollectedIsLocal(claims: Claims, pool: Pool, machines: set<ObjectRef>, name: string, c: Claim, now: int,
                         faults: set<Request>)
    requires name in claims
    ensures Local(claims, Collected(claims, pool, machines, name, c, now, faults).claims, name)
  {
  }

  /** Whatever fails, a reconcile touches its own claim only, and never its spec. */
  lemma ReconcileIsLocal(claims: Claims, pools: map<string, Pool>, machines: set<ObjectRef>, name: string, now: int,
                         faults: set<Request>)
    ensures Local(claims, ReconcileClaim(claims, pools, machines, name, now, faults).claims, name)
  {
    if name in claims && claims[name].poolName in pools {
      hide Collected;
      var c, pool := claims[name], pools[claims[name].poolName];
      var tagged := c.(finalizers := c.finalizers + [ClaimFinalizer]);
      CollectedIsLocal(claims, pool, machines, name, c, now, faults);
      CollectedIsLocal(claims[name := tagged], pool, machines, name, tagged, now, faults);
      LocalTwice(claims, claims[name := tagged],
                 Collected(claims[name := tagged], pool, machines, name, tagged, now, faults).claims, name);
    }
    hide Local;
    if name in claims && claims[name].deleting { ReleasedIsLocal(claims, name, claims[name], faults); }
  }

  lemma ReleasedIsLocal(claims: Claims, name: string, c: Claim, faults: set<Request>)
    requires name in claims
    ensures Local(claims, Released(claims, name, c, faults).claims, name) && Local(claims, claims, name)
  {
  }

  lemma LocalTwice(claims: Claims, middle: Claims, after: Claims, name: string)
    requires Local(claims, middle, name) && Local(middle, after, name)
    ensures Local(claims, after, name)
  {
  }

  /** While the machine exists, terminating or not, its claim is not released, whatever fails. */
  lemma MachineKeepsClaim(claims: Claims, pools: map<string, Pool>, machines: set<ObjectRef>, name: string, now: int,
                          faults: set<Request>)
    requires NamedByENI(claims) && name in claims && !claims[name].deleting && claims[name].machineRef in machines
    ensures var after := ReconcileClaim(claims, pools, machines, name, now, faults).claims;
            name in after && !after[name].deleting
            && (ClaimFinalizer in claims[name].finalizers ==> ClaimFinalizer in after[name].finalizers)
  {
  }

  // ----- Convergence of the status -----

  /** The status that agrees with the pool: bound to the configured address of the ENI, or failed. */
  ghost predicate Agrees(status: ClaimStatus, pool: Pool, eniID: string) {
    if exists e :: e in pool.interfaces && e.id == eniID then
      status.phase == Bound && forall e :: e in pool.interfaces && e.id == eniID ==> status.privateIP == e.privateIP
    else
      status.phase == Failed && status.privateIP == ""
  }

  /** The Ready condition says whether the claim is bound; it is written together with phase and address. */
  ghost predicate ReadyWhenBound(status: ClaimStatus) {
    status.ready == Some(status.phase == Bound)
  }

  lemma StatusAgrees(pool: Pool, c: Claim)
    requires WellFormed(pool.interfaces)
    ensures Agrees(StatusFor(pool, c), pool, c.eniID) && ReadyWhenBound(StatusFor(pool, c))
  {
  }

  /**
   With the machine and an accepted pool in place, one reconcile brings the status in line with the pool, and
   from then on reconciles write nothing, at whatever time they run.
   */
  lemma StatusConverges(claims: Claims, pools: map<string, Pool>, machines: set<ObjectRef>, name: string, now: int,
                        later: int)
    requires NamedByENI(claims) && name in claims && !claims[name].deleting && claims[name].machineRef in machines
    requires claims[name].poolName in pools && WellFormed(pools[claims[name].poolName].interfaces)
    ensures var r := ReconcileClaim(claims, pools, machines, name, now, {});
            && r.outcome == RequeueAfter(300_000)
            && name in r.claims && Agrees(r.claims[name].status, pools[claims[name].poolName], name)
            && (claims[name].status.phase == NoPhase || ReadyWhenBound(claims[name].status) ==>
                  ReadyWhenBound(r.claims[name].status))
            && ReconcileClaim(r.claims, pools, machines, name, later, {}) == Reconciled(RequeueAfter(RESYNC), r.claims)
  {
    hide ParseIPv4;
    StatusAgrees(pools[claims[name].poolName], claims[name]);
  }

  // ----- What a reconcile asks for -----

  /** At most the allocator's finalizer is added. */
  ghost predicate OnlyTagged(claims: Claims, after: Claims, name: string) {
    && name in claims && name in after
    && after == claims[name := claims[name].(finalizers := after[name].finalizers)]
    && after[name].finalizers == if ClaimFinalizer in claims[name].finalizers then claims[name].finalizers
                                 else claims[name].finalizers + [ClaimFinalizer]
  }

  /** A fault is only reported when the request did fail. */
  lemma FailsOnlyByFault(claims: Claims, pools: map<string, Pool>, machines: set<ObjectRef>, name: string, now: int,
                         faults: set<Request>)
    ensures var r := ReconcileClaim(claims, pools, machines, name, now, faults);
            r.outcome.RequestFailed? ==> r.outcome.request in faults
  {
  }

  /**
   What a failing request stops: everything when the pool cannot be read, the release when the finalizer cannot be
   patched, and all but the tagging when the machine cannot be read, the delete fails or the status cannot be written.
   */
  lemma FaultStops(claims: Claims, pools: map<string, Pool>, machines: set<ObjectRef>, name: string, now: int,
                   faults: set<Request>)
    requires name in claims
    ensures var c, r := claims[name], ReconcileClaim(claims, pools, machines, name, now, faults);
            && (GetPool in faults ==> r.outcome.RequestFailed? && r.claims == claims)
            && (c.deleting && ClaimFinalizer in c.finalizers && PatchClaim in faults ==>
                  r.outcome.RequestFailed? && r.claims == claims)
            && (!c.deleting && c.poolName in pools ==>
                  && (GetMachine in faults ==> r.outcome.RequestFailed?)
                  && (DeleteClaim in faults && c.machineRef !in machines && now >= c.stamp + 30_000 ==>
                        r.outcome.RequestFailed?)
                  && (UpdateClaimStatus in faults && c.machineRef in machines && c.status.phase == NoPhase ==>
                        r.outcome.RequestFailed?)
                  && (r.outcome.RequestFailed? ==> r.claims == claims || OnlyTagged(claims, r.claims, name)))
            && (!c.deleting && c.poolName !in pools && GetPool !in faults ==> r == Reconciled(PoolMissing, claims))
  {
  }

  /**
   No claim is forgotten: a reconcile asks for no other one only if the claim is gone or is being deleted by then.
   Otherwise it names a time for the next one, or ends in an error, after which it is tried again.
   */
  lemma FinishedOnlyWhenReleased(claims: Claims, pools: map<string, Pool>, machines: set<ObjectRef>, name: string,
                                 now: int, faults: set<Request>)
    ensures var r := ReconcileClaim(claims, pools, machines, name, now, faults);
            r.outcome == Finished ==> name !in r.claims || r.claims[name].deleting
  {
  }

  /**
   The grace period, in milliseconds: without its machine a claim younger than thirty seconds is kept, and looked
   at again in five; one that is older goes away as soon as its finalizers allow.
   */
  lemma GracePeriod(claims: Claims, pools: map<string, Pool>, machines: set<ObjectRef>, name: string, now: int)
    requires name in claims && !claims[name].deleting
    requires claims[name].poolName in pools && claims[name].machineRef !in machines
    ensures var r := ReconcileClaim(claims, pools, machines, name, now, {});
            if now < claims[name].stamp + 30_000 then
              r.outcome == RequeueAfter(5_000) && OnlyTagged(claims, r.claims, name)
            else
              r.outcome == Finished && name in r.claims && r.claims[name].deleting &&
              ClaimFinalizer in r.claims[name].finalizers
  {
  }

  /** With its machine there, terminating or not, a claim is looked at again in five minutes and never released. */
  lemma MachinePresent(claims: Claims, pools: map<string, Pool>, machines: set<ObjectRef>, name: string, now: int)
    requires name in claims && !claims[name].deleting
    requires claims[name].poolName in pools && claims[name].machineRef in machines
    ensures var r := ReconcileClaim(claims, pools, machines, name, now, {});
            r.outcome == RequeueAfter(300_000) && name in r.claims && !r.claims[name].deleting
  {
  }

  /**
   A claim that is being deleted loses the allocator's finalizer and no other, whether or not its pool is still
   there; it goes away if and only if that was the only one it had.
   */
  lemma DeletionEnds(claims: Claims, pools: map<string, Pool>, machines: set<ObjectRef>, name: string, now: int)
    requires name in claims && claims[name].deleting
    ensures var r, c := ReconcileClaim(claims, pools, machines, name, now, {}), claims[name];
            && r.outcome == Finished
            && (name !in r.claims <==>
                  ClaimFinalizer in c.finalizers && forall f :: f in c.finalizers ==> f == ClaimFinalizer)
            && (name in r.claims ==>
                  forall f :: f in r.claims[name].finalizers <==> f in c.finalizers && f != ClaimFinalizer)
  {
    var c := claims[name];
    if forall f :: f in c.finalizers ==> f == ClaimFinalizer {
      NoForeignLeft(c.finalizers);
    } else {
      var f :| f in c.finalizers && f != ClaimFinalizer;
      assert f in Without(c.finalizers, ClaimFinalizer);
    }
  }

  // ----- Bounded reclaim -----

  /** One reconcile of a claim: when it runs, the cluster it meets, and which of its requests fail. */
  datatype Visit = Visit(
    now: int,
    claims: Claims,
    pools: map<string, Pool>,
    machines: set<ObjectRef>,
    faults: set<Request>)

  function After(name: string, v: Visit): Reconciled {
    ReconcileClaim(v.claims, v.pools, v.machines, name, v.now, v.faults)
  }

  /**
   Visits to a claim that nobody else touches until it is gone, while its pool exists and its machine does not;
   other claims, pools and machines, and the pool's contents, change at will in between.
   */
  ghost predicate Visits(name: string, claims: Claims, visits: seq<Visit>)
    decreases |visits|
  {
    name in claims && visits != [] ==>
      var v := visits[0];
      && name in v.claims && v.claims[name] == claims[name]
      && claims[name].poolName in v.pools && claims[name].machineRef !in v.machines
      && Visits(name, After(name, v).claims, visits[1..])
  }

  /** The claim goes away during one of the visits. */
  ghost predicate Freed(name: string, claims: Claims, visits: seq<Visit>)
    decreases |visits|
  {
    name !in claims || (visits != [] && Freed(name, After(name, visits[0]).claims, visits[1..]))
  }

  /** Visits until the claim is gone: those that wait, that delete, that release, and that fail. */
  datatype Tally = Tally(waits: nat, deletes: nat, releases: nat, failures: nat)

  function Count(name: string, claims: Claims, visits: seq<Visit>): Tally
    decreases |visits|
  {
    if visits == [] || name !in claims then Tally(0, 0, 0, 0)
    else
      var r := After(name, visits[0]);
      var t := Count(name, r.claims, visits[1..]);
      if r.outcome.RequestFailed? then t.(failures := t.failures + 1)
      else if name !in r.claims then t.(releases := t.releases + 1)
      else if r.claims[name].deleting then t.(deletes := t.deletes + 1)
      else t.(waits := t.waits + 1)
  }

  /** No foreign finalizer holds the claim back. */
  ghost predicate OnlyOurs(c: Claim) {
    && (forall f :: f in c.finalizers ==> f == ClaimFinalizer)
    && (c.deleting ==> ClaimFinalizer in c.finalizers)
  }

  /** Waits still to come, when reconciles are at least RETRY apart. */
  function WaitsLeft(c: Claim, now: int): nat {
    if c.deleting || now - c.stamp >= GRACE then 0 else (GRACE - (now - c.stamp) + RETRY - 1) / RETRY
  }

  ghost predicate SpacedOut(visits: seq<Visit>) {
    forall i :: 0 < i < |visits| ==> visits[i].now - visits[i - 1].now >= RETRY
  }

  lemma WaitsShrink(c: Claim, now: int, later: int)
    requires !c.deleting && later >= now + RETRY
    ensures WaitsLeft(c, later) <= WaitsLeft(c, now)
    ensures now - c.stamp < GRACE ==> WaitsLeft(c, later) + 1 <= WaitsLeft(c, now)
  {
  }

  /** What stays as it was when the claim is still there. */
  ghost predicate SameOrigin(c: Claim, c': Claim) {
    c'.stamp == c.stamp && c'.poolName == c.poolName && c'.machineRef == c.machineRef && OnlyOurs(c')
  }

  /** A visit that fails gets no further; any other is a wait, the delete, or the end. */
  lemma VisitStep(name: string, v: Visit)
    requires name in v.claims && OnlyOurs(v.claims[name])
    requires v.claims[name].poolName in v.pools && v.claims[name].machineRef !in v.machines
    ensures var c, r := v.claims[name], After(name, v);
            if r.outcome.RequestFailed? then
              name in r.claims && SameOrigin(c, r.claims[name]) && r.claims[name].deleting == c.deleting
            else if c.deleting then name !in r.claims
            else name in r.claims && SameOrigin(c, r.claims[name]) &&
                 (r.claims[name].deleting <==> v.now - c.stamp >= GRACE)
  {
    NoForeignLeft(v.claims[name].finalizers);
  }

  /** Visits still needed, not counting those that fail. */
  function VisitsLeft(c: Claim, now: int): nat {
    if c.deleting then 1 else WaitsLeft(c, now) + 2
  }

  lemma {:induction false} ReclaimCount(name: string, claims: Claims, visits: seq<Visit>)
    requires name in claims && OnlyOurs(claims[name]) && Visits(name, claims, visits) && SpacedOut(visits)
    requires visits != []
    ensures var t, c, now := Count(name, claims, visits), claims[name], visits[0].now;
            && t.waits <= WaitsLeft(c, now)
            && t.deletes <= (if c.deleting then 0 else 1)
            && t.releases == (if Freed(name, claims, visits) then 1 else 0)
            && t.waits + t.deletes + t.releases + t.failures <= |visits|
            && (!Freed(name, claims, visits) ==> t.waits + t.deletes + t.failures == |visits|)
            && (|visits| >= VisitsLeft(c, now) + t.failures ==>
                  Freed(name, claims, visits) && t.deletes == if c.deleting then 0 else 1)
    decreases |visits|
  {
    var c, v, rest := claims[name], visits[0], visits[1..];
    assert forall i :: 0 <= i < |rest| ==> rest[i] == visits[i + 1];
    VisitStep(name, v);
    var r := After(name, v);
    hide After;
    if name in r.claims {
      var c' := r.claims[name];
      if rest != [] {
        ReclaimCount(name, r.claims, rest);
        if !c.deleting { WaitsShrink(c, v.now, rest[0].now); }
        assert !c'.deleting ==> WaitsLeft(c', rest[0].now) == WaitsLeft(c, rest[0].now);
      }
    }
  }

  /**
   Bounded reclaim: the ENI of a machine that is gone for good is freed by the eighth reconcile that does not
   fail, if reconciles are at least five seconds apart, after at most six waits for the grace period, one delete
   and one removal of the finalizer, whatever becomes of other claims, pools and machines meanwhile.
   */
  lemma BoundedReclaim(name: string, claims: Claims, visits: seq<Visit>)
    requires name in claims && OnlyOurs(claims[name]) && !claims[name].deleting
    requires Visits(name, claims, visits) && SpacedOut(visits)
    requires visits != [] && visits[0].now >= claims[name].stamp
    requires |visits| >= 8 + Count(name, claims, visits).failures
    ensures Freed(name, claims, visits)
    ensures var t := Count(name, claims, visits);
            t.waits <= 6 && t.deletes == 1 && t.releases == 1
  {
    ReclaimCount(name, claims, visits);
  }

  /** The claim is the same at each visit as after the one before. */
  ghost predicate LeftAlone(name: string, claims: Claims, visits: seq<Visit>)
    decreases |visits|
  {
    name in claims && visits != [] ==>
      var v := visits[0];
      name in v.claims && v.claims[name] == claims[name] && LeftAlone(name, After(name, v).claims, visits[1..])
  }

  /** The pool is stored and the machine absent at every visit. */
  ghost predicate Abandoned(visits: seq<Visit>, poolName: string, ref: ObjectRef) {
    forall v :: v in visits ==> poolName in v.pools && ref !in v.machines
  }

  lemma {:induction false} AbandonedVisits(name: string, claims: Claims, visits: seq<Visit>, poolName: string,
                                            ref: ObjectRef)
    requires name in claims && OnlyOurs(claims[name])
    requires claims[name].poolName == poolName && claims[name].machineRef == ref
    requires LeftAlone(name, claims, visits) && Abandoned(visits, poolName, ref)
    ensures Visits(name, claims, visits)
    decreases |visits|
  {
    if visits != [] {
      var v, rest := visits[0], visits[1..];
      assert v in visits && forall w :: w in rest ==> w in visits;
      VisitStep(name, v);
      var r := After(name, v);
      hide After;
      if name in r.claims {
        AbandonedVisits(name, r.claims, rest, poolName, ref);
      }
    }
  }

  /** What is counted as failing did have a fault. */
  lemma {:induction false} NoFaultNoFailure(name: string, claims: Claims, visits: seq<Visit>)
    requires forall v :: v in visits ==> v.faults == {}
    ensures Count(name, claims, visits).failures == 0
    decreases |visits|
  {
    if visits != [] && name in claims {
      var v, rest := visits[0], visits[1..];
      assert v in visits && forall w :: w in rest ==> w in visits;
      FailsOnlyByFault(v.claims, v.pools, v.machines, name, v.now, v.faults);
      NoFaultNoFailure(name, After(name, v).claims, rest);
    }
  }

  /** Reconciles of one claim at the given times, the rest of the cluster unchanged. */
  function Reconciles(claims: Claims, pools: map<string, Pool>, machines: set<ObjectRef>, name: string,
                      times: seq<int>): Claims {
    if times == [] then claims
    else Reconciles(ReconcileClaim(claims, pools, machines, name, times[0], {}).claims, pools, machines, name,
                    times[1..])
  }

  /** Without its pool a claim is stuck: no number of reconciles releases it, however long its machine is gone. */
  lemma {:induction false} NoReclaimWithoutPool(claims: Claims, pools: map<string, Pool>, machines: set<ObjectRef>,
                                                name: string, times: seq<int>)
    requires name in claims && !claims[name].deleting && claims[name].poolName !in pools
    ensures Reconciles(claims, pools, machines, name, times) == claims
  {
    if times != [] {
      NoReclaimWithoutPool(claims, pools, machines, name, times[1..]);
    }
  }
}
